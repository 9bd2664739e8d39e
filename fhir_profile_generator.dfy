/**
  The backend's profile generator (backend/src/services/fhirProfileGenerator.ts):
  a typed profile request becomes an R4 StructureDefinition whose
  differential is built by lookup-or-append and ends with one extension
  slice per declared extension; a resource is checked against a profile by
  the shallow Service-variant validator.
*/
module FhirProfileGenerator {
  import opened Wrappers
  import opened Text
  import opened JsValue
  import opened Fhir
  import opened ProfileId
  import opened Differential
  import opened Validation

  datatype FhirVersion = R4 | R5 | R6

  datatype ExtensionDeclaration = ExtensionDeclaration(url: string, description: string)

  /** `ProfileGenerationRequest`; `None` marks an optional field left out. */
  datatype ProfileGenerationRequest = ProfileGenerationRequest(
    profileName: string,
    baseResourceType: string,
    baseProfile: Option<string>,
    description: string,
    fhirVersion: FhirVersion,
    publisher: string,
    jurisdiction: Option<string>,
    mustSupportElements: seq<string>,
    cardinalityConstraints: Option<seq<CardinalityConstraint>>,
    extensions: Option<seq<ExtensionDeclaration>>,
    bindingConstraints: Option<seq<BindingConstraint>>)

  // ---------------------------------------------------------------------
  // buildDifferentialElements
  // ---------------------------------------------------------------------

  /** The slice appended for extension number `index`. */
  function ExtensionElement(baseType: string, index: nat, ext: ExtensionDeclaration): ElementDefinition
  {
    ElementDefinition(
      baseType + ".extension:ext" + NatToString(index),
      baseType + ".extension",
      Some("ext" + NatToString(index)),
      Some(ext.description),
      None,
      None,
      Some(0),
      Some("1"),
      None,
      Some([TypeRef("Extension", [ext.url])]))
  }

  function ExtensionElements(baseType: string, exts: seq<ExtensionDeclaration>): seq<ElementDefinition>
  {
    seq(|exts|, i requires 0 <= i < |exts| => ExtensionElement(baseType, i, exts[i]))
  }

  function Start(req: ProfileGenerationRequest): seq<ElementDefinition>
  {
    StartElements(req.baseResourceType, req.profileName, req.description, req.mustSupportElements)
  }

  /** The list before the extension step. */
  function Merged(req: ProfileGenerationRequest): seq<ElementDefinition>
  {
    MergedElements(Start(req), OrEmpty(req.cardinalityConstraints), OrEmpty(req.bindingConstraints))
  }

  /** The differential the builder returns. */
  function DifferentialElements(req: ProfileGenerationRequest): seq<ElementDefinition>
  {
    Merged(req) + ExtensionElements(req.baseResourceType, OrEmpty(req.extensions))
  }

  /**
    The builder: push the base element and the must-support elements, apply
    the cardinality constraints and then the binding constraints by updating
    the first element with the constraint's path in place or appending a new
    one, and finally push one slice per extension.
  */
  method BuildDifferentialElements(req: ProfileGenerationRequest) returns (elements: seq<ElementDefinition>)
    ensures elements == DifferentialElements(req)
  {
    var baseType := req.baseResourceType;
    elements := PushStartElements(baseType, req.profileName, req.description, req.mustSupportElements);
    if req.cardinalityConstraints.Some? {
      elements := ApplyCardinalityConstraints(elements, req.cardinalityConstraints.value);
    }
    if req.bindingConstraints.Some? {
      elements := ApplyBindingConstraints(elements, req.bindingConstraints.value);
    }
    assert elements == Merged(req);
    if req.extensions.Some? {
      elements := AppendExtensions(elements, baseType, req.extensions.value);
    }
    assert elements == DifferentialElements(req) by {
      if req.extensions.None? { assert ExtensionElements(baseType, []) == []; }
    }
  }

  /** The extension step: one slice pushed per extension, `index` counting from 0. */
  method AppendExtensions(start: seq<ElementDefinition>, baseType: string, exts: seq<ExtensionDeclaration>)
    returns (elements: seq<ElementDefinition>)
    ensures elements == start + ExtensionElements(baseType, exts)
  {
    elements := start;
    for i := 0 to |exts|
      invariant elements == start + ExtensionElements(baseType, exts[..i])
    {
      var ext := exts[i];
      elements := elements + [ElementDefinition(
        baseType + ".extension:ext" + NatToString(i),
        baseType + ".extension",
        Some("ext" + NatToString(i)),
        Some(ext.description),
        None,
        None,
        Some(0),
        Some("1"),
        None,
        Some([TypeRef("Extension", [ext.url])]))];
      assert ExtensionElements(baseType, exts[..i + 1])
             == ExtensionElements(baseType, exts[..i]) + [ExtensionElement(baseType, i, ext)];
    }
    assert exts[..|exts|] == exts;
  }

  /**
    Length: the base element, one element per must-support path, one per
    constraint path not yet present when its first constraint came, and one
    per extension.
  */
  lemma DifferentialLength(req: ProfileGenerationRequest)
    ensures var present := {req.baseResourceType} + Elements(req.mustSupportElements);
            var cardPaths := ConstraintPaths(Cardinalities(OrEmpty(req.cardinalityConstraints)));
            var bindPaths := ConstraintPaths(Bindings(OrEmpty(req.bindingConstraints)));
            |DifferentialElements(req)|
            == 1 + |req.mustSupportElements| + |cardPaths - present| + |bindPaths - (present + cardPaths)|
               + |OrEmpty(req.extensions)|
  {
    MergedLength(req.baseResourceType, req.profileName, req.description, req.mustSupportElements,
                 OrEmpty(req.cardinalityConstraints), OrEmpty(req.bindingConstraints));
  }

  /**
    Element 0 is the base element and the must-support elements follow in
    input order, duplicates kept; constraints change only their min, max and
    binding.
  */
  lemma DifferentialStart(req: ProfileGenerationRequest)
    ensures |DifferentialElements(req)| >= 1 + |req.mustSupportElements|
    ensures var base := DifferentialElements(req)[0];
            base.id == base.path == req.baseResourceType
            && base.short == Some(req.profileName) && base.definition == Some(req.description)
    ensures var r := DifferentialElements(req);
            forall i :: 1 <= i <= |req.mustSupportElements| ==>
              r[i].id == r[i].path == req.mustSupportElements[i - 1] && r[i].mustSupport == Some(true)
  {
    var ms := req.mustSupportElements;
    var m := Merged(req);
    var r := DifferentialElements(req);
    MergedStart(req.baseResourceType, req.profileName, req.description, ms,
                OrEmpty(req.cardinalityConstraints), OrEmpty(req.bindingConstraints));
    assert forall i :: 0 <= i < |m| ==> r[i] == m[i];
    assert SameButConstraints(BaseElement(req.baseResourceType, req.profileName, req.description), r[0]);
    forall i | 1 <= i <= |ms| ensures r[i].id == r[i].path == ms[i - 1] && r[i].mustSupport == Some(true) {
      assert SameButConstraints(MustSupportElement(ms[i - 1]), r[1 + (i - 1)]);
    }
  }

  /**
    The extension slices come last, one per extension in order, whatever
    paths are already present.
  */
  lemma ExtensionsLast(req: ProfileGenerationRequest)
    ensures DifferentialElements(req)[|Merged(req)|..] == ExtensionElements(req.baseResourceType, OrEmpty(req.extensions))
  {
  }

  /**
    Slice `i` has path `<type>.extension`, slice name `ext<i>`, the
    extension's description, cardinality 0..1 and type Extension profiled by
    the extension's url; the slice names are pairwise distinct.
  */
  lemma ExtensionSlices(baseType: string, exts: seq<ExtensionDeclaration>)
    ensures var slices := ExtensionElements(baseType, exts);
            forall i :: 0 <= i < |exts| ==>
              slices[i].path == baseType + ".extension"
              && slices[i].sliceName == Some("ext" + NatToString(i))
              && slices[i].short == Some(exts[i].description)
              && slices[i].min == Some(0) && slices[i].max == Some("1")
              && slices[i].types == Some([TypeRef("Extension", [exts[i].url])])
    ensures var slices := ExtensionElements(baseType, exts);
            forall i, j :: 0 <= i < j < |exts| ==> slices[i].sliceName != slices[j].sliceName
  {
    var slices := ExtensionElements(baseType, exts);
    forall i, j | 0 <= i < j < |exts| ensures slices[i].sliceName != slices[j].sliceName {
      NatToStringInjective(i, j);
      var a, b := NatToString(i), NatToString(j);
      assert ("ext" + a)[3..] == a && ("ext" + b)[3..] == b;
    }
  }

  /** Two or more extensions always leave two elements with the same path. */
  lemma ExtensionsSharePath(req: ProfileGenerationRequest)
    requires |OrEmpty(req.extensions)| >= 2
    ensures !DistinctPaths(DifferentialElements(req))
  {
    var r := DifferentialElements(req);
    var slices := ExtensionElements(req.baseResourceType, OrEmpty(req.extensions));
    ExtensionsLast(req);
    assert slices[0].path == slices[1].path;
    assert r[|Merged(req)|].path == r[|Merged(req)| + 1].path;
  }

  // ---------------------------------------------------------------------
  // generateR4Profile
  // ---------------------------------------------------------------------

  /** The StructureDefinition for a request; `date` stands for the clock reading. */
  function GenerateR4Profile(req: ProfileGenerationRequest, date: string): (sd: StructureDefinition)
    ensures sd.id == sd.name == GenerateProfileId(req.profileName) && AllAlnum(sd.id)
    ensures sd.url == CanonicalBase + sd.id
    ensures sd.title == req.profileName && sd.description == req.description
    ensures sd.typeName == req.baseResourceType && sd.publisher == req.publisher && sd.date == date
    ensures sd.resourceType == "StructureDefinition" && sd.version == ProfileVersion && sd.status == "draft"
    ensures sd.fhirVersion == R4Version && sd.kind == "resource" && !sd.isAbstract && sd.derivation == "constraint"
    ensures Given(req.baseProfile) ==> sd.baseDefinition == req.baseProfile.value
    ensures !Given(req.baseProfile) ==> sd.baseDefinition == CoreBase + req.baseResourceType
    ensures sd.differential == Some(DifferentialElements(req))
    ensures sd.jurisdiction.Some? <==> Given(req.jurisdiction)
    ensures sd.jurisdiction.Some? ==>
              sd.jurisdiction.value == [CodeableConcept([Coding(Iso3166, req.jurisdiction.value)])]
  {
    ProfileIdShape(req.profileName);
    var profileId := GenerateProfileId(req.profileName);
    var structureDefinition := StructureDefinition(
      "StructureDefinition",
      profileId,
      CanonicalBase + profileId,
      ProfileVersion,
      profileId,
      req.profileName,
      "draft",
      req.description,
      R4Version,
      "resource",
      false,
      req.baseResourceType,
      OrElse(req.baseProfile, CoreBase + req.baseResourceType),
      "constraint",
      req.publisher,
      date,
      Some(DifferentialElements(req)),
      None);
    if Given(req.jurisdiction) then
      structureDefinition.(jurisdiction := Some([CodeableConcept([Coding(Iso3166, req.jurisdiction.value)])]))
    else
      structureDefinition
  }

  // ---------------------------------------------------------------------
  // validateResource
  // ---------------------------------------------------------------------

  /** The `for (const part of path)` walk from the resource. */
  method FollowPath(resource: Json, parts: seq<string>) returns (value: Option<Json>)
    ensures value == Walk(Some(resource), parts)
  {
    value := Some(resource);
    for i := 0 to |parts|
      invariant value == Walk(Some(resource), parts[..i])
    {
      value := Member(value, parts[i]);
      assert parts[..i + 1][..i] == parts[..i];
    }
    assert parts[..|parts|] == parts;
  }

  /** The must-support check: for each must-support element, in order. */
  method CheckMustSupport(resource: Json, t: string, els: seq<ElementDefinition>) returns (errors: seq<string>)
    ensures errors == Messages(Service, MustSupportIssues(Service, resource, t, els))
  {
    errors := [];
    for i := 0 to |els|
      invariant errors == Messages(Service, MustSupportIssues(Service, resource, t, els[..i]))
    {
      var element := els[i];
      var step: seq<string> := [];
      if element.mustSupport == Some(true) {
        var path := SplitOn(element.path, '.')[1..];
        if |path| > 0 {
          var value := FollowPath(resource, path);
          if value.None? || value == Some(JNull) {
            step := ["Must-support element " + element.path + " is missing"];
          }
        }
        MustSupportStep(resource, t, element);
      }
      errors := errors + step;
      IssuesSnoc(Service, resource, t, els, i);
      MessagesAppend(Service, MustSupportIssues(Service, resource, t, els[..i]),
                     MustSupportIssue(Service, resource, t, els[i]));
    }
    assert els[..|els|] == els;
  }

  /** The cardinality check: for each element with `min > 0`, in order. */
  method CheckCardinality(resource: Json, t: string, els: seq<ElementDefinition>) returns (errors: seq<string>)
    ensures errors == Messages(Service, RequiredIssues(Service, resource, t, els))
  {
    errors := [];
    for i := 0 to |els|
      invariant errors == Messages(Service, RequiredIssues(Service, resource, t, els[..i]))
    {
      var element := els[i];
      var step: seq<string> := [];
      if element.min.Some? && element.min.value > 0 {
        var path := SplitOn(element.path, '.')[1..];
        if |path| > 0 {
          var value := FollowPath(resource, path);
          if value.None? || value == Some(JNull) {
            step := ["Required element " + element.path + " (min: " + IntToString(element.min.value) + ") is missing"];
          }
        }
        CardinalityStep(resource, t, element);
      }
      errors := errors + step;
      IssuesSnoc(Service, resource, t, els, i);
      MessagesAppend(Service, RequiredIssues(Service, resource, t, els[..i]),
                     RequiredIssue(Service, resource, t, els[i]));
    }
    assert els[..|els|] == els;
  }

  /** What one must-support element adds to the errors. */
  lemma MustSupportStep(resource: Json, t: string, element: ElementDefinition)
    requires element.mustSupport == Some(true)
    ensures var path := SplitOn(element.path, '.')[1..];
            Messages(Service, MustSupportIssue(Service, resource, t, element))
            == if |path| > 0 && IsMissing(Walk(Some(resource), path))
               then ["Must-support element " + element.path + " is missing"]
               else []
  {
  }

  /** What one element with `min > 0` adds to the errors. */
  lemma CardinalityStep(resource: Json, t: string, element: ElementDefinition)
    requires element.min.Some? && element.min.value > 0
    ensures var path := SplitOn(element.path, '.')[1..];
            Messages(Service, RequiredIssue(Service, resource, t, element))
            == if |path| > 0 && IsMissing(Walk(Some(resource), path))
               then ["Required element " + element.path + " (min: " + IntToString(element.min.value) + ") is missing"]
               else []
  {
  }

  /**
    The shallow validator. A null resource makes the source throw on
    `resource.resourceType`, so callers pass a non-null one.
  */
  method ValidateResource(resource: Json, profile: StructureDefinition) returns (valid: bool, errors: seq<string>)
    requires resource != JNull
    ensures errors == Messages(Service, Issues(Service, resource, profile))
    ensures valid <==> errors == []
    ensures valid <==> Conforms(Service, resource, profile)
  {
    var t := profile.typeName;
    errors := [];
    var actual := Member(Some(resource), "resourceType");
    if actual != Some(JStr(t)) {
      errors := errors + ["Resource type " + TemplateString(actual) + " does not match profile type " + t];
    }
    assert errors == Messages(Service, TypeIssues(resource, t));
    var els := OrEmpty(profile.differential);
    var msErrors := CheckMustSupport(resource, t, els);
    errors := errors + msErrors;
    var cardErrors := CheckCardinality(resource, t, els);
    errors := errors + cardErrors;
    valid := |errors| == 0;

    MessagesAppend(Service, TypeIssues(resource, t), MustSupportIssues(Service, resource, t, els));
    MessagesAppend(Service, TypeIssues(resource, t) + MustSupportIssues(Service, resource, t, els),
                   RequiredIssues(Service, resource, t, els));
    ValidIffConforms(Service, resource, profile);
  }
}
