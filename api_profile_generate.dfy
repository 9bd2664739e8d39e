/**
  The serverless profile endpoint (api/profile/generate.ts): the handler's
  required-field check and its own copy of the profile assembler and the
  differential builder. This copy reads an untyped body, skips list fields
  that are absent or not arrays, emits no extension slices, and defaults the
  publisher to "FHIRSquire".
*/
module ApiProfileGenerate {
  import opened Wrappers
  import opened Text
  import opened Fhir
  import opened ProfileId
  import opened Differential
  import Backend = FhirProfileGenerator

  /**
    The request body as the handler reads it. A string field is `None` when
    absent; a list field is `None` when absent or not an array.
  */
  datatype GenerateBody = GenerateBody(
    profileName: Option<string>,
    baseResourceType: Option<string>,
    baseProfile: Option<string>,
    description: Option<string>,
    fhirVersion: Option<string>,
    publisher: Option<string>,
    jurisdiction: Option<string>,
    mustSupportElements: Option<seq<string>>,
    cardinalityConstraints: Option<seq<CardinalityConstraint>>,
    bindingConstraints: Option<seq<BindingConstraint>>)

  /** The four fields whose absence or emptiness the handler rejects. */
  predicate HasRequiredFields(body: GenerateBody)
  {
    Given(body.profileName) && Given(body.baseResourceType) && Given(body.description) && Given(body.fhirVersion)
  }

  /** The fields the assembler reads without a fallback. */
  predicate Assemblable(body: GenerateBody)
  {
    body.profileName.Some? && body.baseResourceType.Some? && body.description.Some?
  }

  /** The differential this copy returns. */
  function ApiDifferential(body: GenerateBody): seq<ElementDefinition>
    requires Assemblable(body)
  {
    MergedElements(
      StartElements(body.baseResourceType.value, body.profileName.value, body.description.value,
                    OrEmpty(body.mustSupportElements)),
      OrEmpty(body.cardinalityConstraints),
      OrEmpty(body.bindingConstraints))
  }

  /**
    The builder: base element, then the must-support elements, then the
    cardinality and binding constraints by lookup-or-append; each list step
    runs only when its field is an array.
  */
  method BuildDifferentialElements(body: GenerateBody) returns (elements: seq<ElementDefinition>)
    requires Assemblable(body)
    ensures elements == ApiDifferential(body)
  {
    var ms: seq<string> := [];
    if body.mustSupportElements.Some? {
      ms := body.mustSupportElements.value;
    }
    elements := PushStartElements(body.baseResourceType.value, body.profileName.value, body.description.value, ms);
    if body.cardinalityConstraints.Some? {
      elements := ApplyCardinalityConstraints(elements, body.cardinalityConstraints.value);
    }
    if body.bindingConstraints.Some? {
      elements := ApplyBindingConstraints(elements, body.bindingConstraints.value);
    }
  }

  /**
    Length: the base element, one per must-support path, and one per
    constraint path not yet present when its first constraint came; there is
    no extension step.
  */
  lemma ApiDifferentialLength(body: GenerateBody)
    requires Assemblable(body)
    ensures var ms := OrEmpty(body.mustSupportElements);
            var present := {body.baseResourceType.value} + Elements(ms);
            var cardPaths := ConstraintPaths(Cardinalities(OrEmpty(body.cardinalityConstraints)));
            var bindPaths := ConstraintPaths(Bindings(OrEmpty(body.bindingConstraints)));
            |ApiDifferential(body)|
            == 1 + |ms| + |cardPaths - present| + |bindPaths - (present + cardPaths)|
  {
    MergedLength(body.baseResourceType.value, body.profileName.value, body.description.value,
                 OrEmpty(body.mustSupportElements),
                 OrEmpty(body.cardinalityConstraints), OrEmpty(body.bindingConstraints));
  }

  /** This copy emits no extension slices. */
  lemma ApiDifferentialNoSlices(body: GenerateBody)
    requires Assemblable(body)
    ensures forall i :: 0 <= i < |ApiDifferential(body)| ==> NotASlice(ApiDifferential(body)[i])
  {
    var start := StartElements(body.baseResourceType.value, body.profileName.value, body.description.value,
                               OrEmpty(body.mustSupportElements));
    var cs := Cardinalities(OrEmpty(body.cardinalityConstraints));
    assert forall i :: 0 <= i < |start| ==> NotASlice(start[i]);
    ApplyAllNoSlices(start, cs);
    ApplyAllNoSlices(ApplyAll(start, cs), Bindings(OrEmpty(body.bindingConstraints)));
  }

  /** The StructureDefinition for a body; `date` stands for the clock reading. */
  function GenerateR4Profile(body: GenerateBody, date: string): (sd: StructureDefinition)
    requires Assemblable(body)
    ensures sd.id == sd.name == GenerateProfileId(body.profileName.value) && AllAlnum(sd.id)
    ensures sd.url == CanonicalBase + sd.id
    ensures sd.title == body.profileName.value && sd.description == body.description.value
    ensures sd.typeName == body.baseResourceType.value && sd.date == date
    ensures sd.fhirVersion == R4Version && sd.status == "draft" && sd.derivation == "constraint"
    ensures Given(body.publisher) ==> sd.publisher == body.publisher.value
    ensures !Given(body.publisher) ==> sd.publisher == "FHIRSquire"
    ensures Given(body.baseProfile) ==> sd.baseDefinition == body.baseProfile.value
    ensures !Given(body.baseProfile) ==> sd.baseDefinition == CoreBase + body.baseResourceType.value
    ensures sd.differential == Some(ApiDifferential(body))
    ensures sd.jurisdiction.Some? <==> Given(body.jurisdiction)
    ensures sd.jurisdiction.Some? ==>
              sd.jurisdiction.value == [CodeableConcept([Coding(Iso3166, body.jurisdiction.value)])]
  {
    ProfileIdShape(body.profileName.value);
    var profileId := GenerateProfileId(body.profileName.value);
    var structureDefinition := StructureDefinition(
      "StructureDefinition",
      profileId,
      CanonicalBase + profileId,
      ProfileVersion,
      profileId,
      body.profileName.value,
      "draft",
      body.description.value,
      R4Version,
      "resource",
      false,
      body.baseResourceType.value,
      OrElse(body.baseProfile, CoreBase + body.baseResourceType.value),
      "constraint",
      OrElse(body.publisher, "FHIRSquire"),
      date,
      Some(ApiDifferential(body)),
      None);
    if Given(body.jurisdiction) then
      structureDefinition.(jurisdiction := Some([CodeableConcept([Coding(Iso3166, body.jurisdiction.value)])]))
    else
      structureDefinition
  }

  /** The handler's replies: 400 `Missing required fields`, or 200 with the profile. */
  datatype GenerateResponse = MissingRequiredFields | Generated(profile: StructureDefinition)

  /** The POST handler; other methods, CORS and the 500 reply are not modelled. */
  function HandleGenerate(body: GenerateBody, date: string): (r: GenerateResponse)
    ensures r.MissingRequiredFields? <==> !HasRequiredFields(body)
    ensures r.Generated? ==> Assemblable(body) && r.profile == GenerateR4Profile(body, date)
  {
    if !HasRequiredFields(body) then MissingRequiredFields
    else if body.fhirVersion.value == "R4" then Generated(GenerateR4Profile(body, date))
    else Generated(GenerateR4Profile(body, date))
  }

  /** R4, R5, R6 or any other non-empty version string: the same R4 document. */
  lemma SameProfileForEveryVersion(body: GenerateBody, version: string, date: string)
    requires HasRequiredFields(body) && version != ""
    ensures HandleGenerate(body.(fhirVersion := Some(version)), date)
            == HandleGenerate(body.(fhirVersion := Some("R4")), date)
  {
    assert GenerateR4Profile(body.(fhirVersion := Some(version)), date)
           == GenerateR4Profile(body.(fhirVersion := Some("R4")), date);
  }

  /** The backend request a body corresponds to, with the publisher default applied. */
  predicate Corresponds(body: GenerateBody, req: Backend.ProfileGenerationRequest)
  {
    && body.profileName == Some(req.profileName)
    && body.baseResourceType == Some(req.baseResourceType)
    && body.description == Some(req.description)
    && body.baseProfile == req.baseProfile
    && body.jurisdiction == req.jurisdiction
    && OrElse(body.publisher, "FHIRSquire") == req.publisher
    && OrEmpty(body.mustSupportElements) == req.mustSupportElements
    && OrEmpty(body.cardinalityConstraints) == OrEmpty(req.cardinalityConstraints)
    && OrEmpty(body.bindingConstraints) == OrEmpty(req.bindingConstraints)
  }

  /**
    The two copies agree: for corresponding requests this copy's profile is
    the backend's with the extension slices left off the differential.
  */
  lemma CopiesAgree(body: GenerateBody, req: Backend.ProfileGenerationRequest, date: string)
    requires Corresponds(body, req)
    ensures ApiDifferential(body) == Backend.Merged(req)
    ensures Backend.DifferentialElements(req) == ApiDifferential(body)
            + Backend.ExtensionElements(req.baseResourceType, OrEmpty(req.extensions))
    ensures GenerateR4Profile(body, date)
            == Backend.GenerateR4Profile(req, date).(differential := Some(Backend.Merged(req)))
  {
  }
}
