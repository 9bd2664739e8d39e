/**
  What the two shallow validators report. Both compare the resource's
  `resourceType` with the profile's `type`, then report every must-support
  element, and then every element with `min > 0`, whose value in the
  resource is undefined or null. They differ in how an element path becomes
  the keys walked and in the wording of the messages:

  - Service (backend/src/services/fhirProfileGenerator.ts): the keys are the
    path's dot-separated segments after the first; a path with one segment
    is not checked. Messages name the full element path.
  - Api (api/profile/validate.ts): the first occurrence of `<type>.` is
    removed from the path, wherever it stands, and the rest is split on
    dots; every element is checked. Messages name the shortened path.
*/
module Validation {
  import opened Wrappers
  import opened Text
  import opened JsValue
  import opened Fhir

  datatype Variant = Service | Api

  datatype Issue =
    | TypeMismatch(actual: Option<Json>, expected: string)
    | MissingMustSupport(path: string)
    | MissingRequired(path: string, min: int)

  /** The keys walked for an element path, or `None` when it is not checked. */
  function LookupKeys(variant: Variant, profileType: string, path: string): Option<seq<string>>
  {
    match variant
    case Service =>
      var keys := SplitOn(path, '.')[1..];
      if |keys| > 0 then Some(keys) else None
    case Api => Some(SplitOn(RemoveFirst(path, profileType + "."), '.'))
  }

  /** The path a message names. */
  function ReportedPath(variant: Variant, profileType: string, path: string): string
  {
    match variant
    case Service => path
    case Api => RemoveFirst(path, profileType + ".")
  }

  /** The element is checked and its value in the resource is undefined or null. */
  predicate ValueMissing(variant: Variant, resource: Json, profileType: string, path: string)
  {
    var keys := LookupKeys(variant, profileType, path);
    keys.Some? && IsMissing(Walk(Some(resource), keys.value))
  }

  /** `el.mustSupport` is truthy. */
  predicate IsMustSupport(e: ElementDefinition)
  {
    e.mustSupport == Some(true)
  }

  /** `element.min !== undefined && element.min > 0`. */
  predicate IsRequired(e: ElementDefinition)
  {
    e.min.Some? && e.min.value > 0
  }

  function TypeIssues(resource: Json, profileType: string): seq<Issue>
  {
    var actual := Member(Some(resource), "resourceType");
    if actual == Some(JStr(profileType)) then [] else [TypeMismatch(actual, profileType)]
  }

  function MustSupportIssue(variant: Variant, resource: Json, profileType: string, e: ElementDefinition): seq<Issue>
  {
    if IsMustSupport(e) && ValueMissing(variant, resource, profileType, e.path)
    then [MissingMustSupport(ReportedPath(variant, profileType, e.path))]
    else []
  }

  function RequiredIssue(variant: Variant, resource: Json, profileType: string, e: ElementDefinition): seq<Issue>
  {
    if IsRequired(e) && ValueMissing(variant, resource, profileType, e.path)
    then [MissingRequired(ReportedPath(variant, profileType, e.path), e.min.value)]
    else []
  }

  /** The issues each element contributes, element by element. */
  function Collect(els: seq<ElementDefinition>, f: ElementDefinition -> seq<Issue>): seq<Issue>
    decreases |els|
  {
    if els == [] then [] else Collect(els[..|els| - 1], f) + f(els[|els| - 1])
  }

  /** The must-support issues, in element order. */
  function MustSupportIssues(variant: Variant, resource: Json, profileType: string, els: seq<ElementDefinition>): seq<Issue>
  {
    Collect(els, e => MustSupportIssue(variant, resource, profileType, e))
  }

  /** The cardinality issues, in element order. */
  function RequiredIssues(variant: Variant, resource: Json, profileType: string, els: seq<ElementDefinition>): seq<Issue>
  {
    Collect(els, e => RequiredIssue(variant, resource, profileType, e))
  }

  /** Everything a validator reports, in the order it reports it. */
  function Issues(variant: Variant, resource: Json, profile: StructureDefinition): seq<Issue>
  {
    var els := OrEmpty(profile.differential);
    TypeIssues(resource, profile.typeName)
    + MustSupportIssues(variant, resource, profile.typeName, els)
    + RequiredIssues(variant, resource, profile.typeName, els)
  }

  function Message(variant: Variant, issue: Issue): string
  {
    match issue
    case TypeMismatch(actual, expected) =>
      "Resource type " + TemplateString(actual) + " does not match profile type " + expected
    case MissingMustSupport(p) =>
      if variant == Service then "Must-support element " + p + " is missing"
      else "Missing must-support element: " + p
    case MissingRequired(p, m) =>
      if variant == Service then "Required element " + p + " (min: " + IntToString(m) + ") is missing"
      else "Required element missing (min=" + IntToString(m) + "): " + p
  }

  function Messages(variant: Variant, issues: seq<Issue>): seq<string>
  {
    seq(|issues|, i requires 0 <= i < |issues| => Message(variant, issues[i]))
  }

  lemma MessagesAppend(variant: Variant, a: seq<Issue>, b: seq<Issue>)
    ensures Messages(variant, a + b) == Messages(variant, a) + Messages(variant, b)
  {
  }

  /** One more element is one more step of each element check. */
  lemma IssuesSnoc(variant: Variant, resource: Json, t: string, els: seq<ElementDefinition>, i: nat)
    requires i < |els|
    ensures MustSupportIssues(variant, resource, t, els[..i + 1])
            == MustSupportIssues(variant, resource, t, els[..i]) + MustSupportIssue(variant, resource, t, els[i])
    ensures RequiredIssues(variant, resource, t, els[..i + 1])
            == RequiredIssues(variant, resource, t, els[..i]) + RequiredIssue(variant, resource, t, els[i])
  {
    CollectSnoc(els, e => MustSupportIssue(variant, resource, t, e), i);
    CollectSnoc(els, e => RequiredIssue(variant, resource, t, e), i);
  }

  lemma CollectSnoc(els: seq<ElementDefinition>, f: ElementDefinition -> seq<Issue>, i: nat)
    requires i < |els|
    ensures Collect(els[..i + 1], f) == Collect(els[..i], f) + f(els[i])
  {
    assert els[..i + 1][..i] == els[..i];
  }

  /** No issue at all exactly when no element contributes one. */
  lemma {:induction false} CollectEmpty(els: seq<ElementDefinition>, f: ElementDefinition -> seq<Issue>)
    ensures Collect(els, f) == [] <==> forall i :: 0 <= i < |els| ==> f(els[i]) == []
    decreases |els|
  {
    if els != [] {
      var front := els[..|els| - 1];
      CollectEmpty(front, f);
      assert forall i :: 0 <= i < |front| ==> front[i] == els[i];
    }
  }

  /** An issue is reported exactly when some element contributes it. */
  lemma {:induction false} CollectContains(els: seq<ElementDefinition>, f: ElementDefinition -> seq<Issue>, x: Issue)
    ensures x in Collect(els, f) <==> exists i :: 0 <= i < |els| && x in f(els[i])
    decreases |els|
  {
    if els != [] {
      var front := els[..|els| - 1];
      CollectContains(front, f, x);
      assert forall i :: 0 <= i < |front| ==> front[i] == els[i];
      if x in f(els[|els| - 1]) {
        assert 0 <= |els| - 1 < |els| && x in f(els[|els| - 1]);
      }
    }
  }

  /** Elements contributing issues of one rank give issues of that rank. */
  lemma {:induction false} CollectRank(els: seq<ElementDefinition>, f: ElementDefinition -> seq<Issue>, k: nat)
    requires forall i, j :: 0 <= i < |els| && 0 <= j < |f(els[i])| ==> Rank(f(els[i])[j]) == k
    ensures forall j :: 0 <= j < |Collect(els, f)| ==> Rank(Collect(els, f)[j]) == k
    decreases |els|
  {
    if els != [] {
      var front := els[..|els| - 1];
      assert forall i :: 0 <= i < |front| ==> front[i] == els[i];
      CollectRank(front, f, k);
      var last := f(els[|els| - 1]);
      var r := Collect(els, f);
      assert r == Collect(front, f) + last;
      assert forall j :: |Collect(front, f)| <= j < |r| ==> r[j] == last[j - |Collect(front, f)|];
    }
  }

  // ---------------------------------------------------------------------
  // Validity
  // ---------------------------------------------------------------------

  /**
    The resource conforms: its `resourceType` is the profile's type and every
    checked element that is must-support or has `min > 0` has a value that is
    neither undefined nor null.
  */
  predicate Conforms(variant: Variant, resource: Json, profile: StructureDefinition)
  {
    var els := OrEmpty(profile.differential);
    && Member(Some(resource), "resourceType") == Some(JStr(profile.typeName))
    && forall i :: 0 <= i < |els| && (IsMustSupport(els[i]) || IsRequired(els[i])) ==>
         !ValueMissing(variant, resource, profile.typeName, els[i].path)
  }

  lemma MustSupportIssuesEmpty(variant: Variant, resource: Json, t: string, els: seq<ElementDefinition>)
    ensures MustSupportIssues(variant, resource, t, els) == [] <==>
            forall i :: 0 <= i < |els| && IsMustSupport(els[i]) ==> !ValueMissing(variant, resource, t, els[i].path)
  {
    CollectEmpty(els, e => MustSupportIssue(variant, resource, t, e));
  }

  lemma RequiredIssuesEmpty(variant: Variant, resource: Json, t: string, els: seq<ElementDefinition>)
    ensures RequiredIssues(variant, resource, t, els) == [] <==>
            forall i :: 0 <= i < |els| && IsRequired(els[i]) ==> !ValueMissing(variant, resource, t, els[i].path)
  {
    CollectEmpty(els, e => RequiredIssue(variant, resource, t, e));
  }

  /** `valid` (no errors) holds exactly when the resource conforms. */
  lemma ValidIffConforms(variant: Variant, resource: Json, profile: StructureDefinition)
    ensures Messages(variant, Issues(variant, resource, profile)) == [] <==> Conforms(variant, resource, profile)
  {
    var els := OrEmpty(profile.differential);
    MustSupportIssuesEmpty(variant, resource, profile.typeName, els);
    RequiredIssuesEmpty(variant, resource, profile.typeName, els);
  }

  // ---------------------------------------------------------------------
  // What is reported, and in which order
  // ---------------------------------------------------------------------

  function Rank(issue: Issue): nat
  {
    match issue
    case TypeMismatch(_, _) => 0
    case MissingMustSupport(_) => 1
    case MissingRequired(_, _) => 2
  }

  /**
    The type mismatch, when there is one, comes first and alone of its kind;
    then come all must-support issues, then all cardinality issues. A type
    mismatch does not stop the element checks.
  */
  lemma IssueOrder(variant: Variant, resource: Json, profile: StructureDefinition)
    ensures var issues := Issues(variant, resource, profile);
            forall i, j :: 0 <= i < j < |issues| ==> Rank(issues[i]) <= Rank(issues[j])
    ensures var issues := Issues(variant, resource, profile);
            (Member(Some(resource), "resourceType") != Some(JStr(profile.typeName)))
            <==> (|issues| > 0 && issues[0].TypeMismatch?)
    ensures var issues := Issues(variant, resource, profile);
            forall i :: 0 < i < |issues| ==> !issues[i].TypeMismatch?
    ensures var els := OrEmpty(profile.differential);
            Issues(variant, resource, profile)[|TypeIssues(resource, profile.typeName)|..]
            == MustSupportIssues(variant, resource, profile.typeName, els)
               + RequiredIssues(variant, resource, profile.typeName, els)
  {
    var els := OrEmpty(profile.differential);
    var t := profile.typeName;
    var a := TypeIssues(resource, t);
    var b := MustSupportIssues(variant, resource, t, els);
    var c := RequiredIssues(variant, resource, t, els);
    var issues := Issues(variant, resource, profile);
    CollectRank(els, e => MustSupportIssue(variant, resource, t, e), 1);
    CollectRank(els, e => RequiredIssue(variant, resource, t, e), 2);
    assert issues == a + b + c;
    assert issues[|a|..] == b + c;
    assert forall i :: 0 <= i < |a| ==> Rank(issues[i]) == 0 && issues[i].TypeMismatch?;
    assert forall i :: |a| <= i < |a| + |b| ==> issues[i] == b[i - |a|] && Rank(issues[i]) == 1;
    assert forall i :: |a| + |b| <= i < |issues| ==> issues[i] == c[i - |a| - |b|] && Rank(issues[i]) == 2;
  }

  /** A must-support issue names exactly a must-support element whose value is missing. */
  lemma MustSupportReported(variant: Variant, resource: Json, t: string, els: seq<ElementDefinition>, q: string)
    ensures MissingMustSupport(q) in MustSupportIssues(variant, resource, t, els) <==>
            exists i :: 0 <= i < |els| && IsMustSupport(els[i]) && ValueMissing(variant, resource, t, els[i].path)
                        && ReportedPath(variant, t, els[i].path) == q
  {
    CollectContains(els, e => MustSupportIssue(variant, resource, t, e), MissingMustSupport(q));
  }

  /** A cardinality issue names exactly an element with `min > 0` whose value is missing. */
  lemma RequiredReported(variant: Variant, resource: Json, t: string, els: seq<ElementDefinition>, q: string, m: int)
    ensures MissingRequired(q, m) in RequiredIssues(variant, resource, t, els) <==>
            exists i :: 0 <= i < |els| && IsRequired(els[i]) && ValueMissing(variant, resource, t, els[i].path)
                        && ReportedPath(variant, t, els[i].path) == q && els[i].min == Some(m)
  {
    CollectContains(els, e => RequiredIssue(variant, resource, t, e), MissingRequired(q, m));
  }

  /** Without a differential element list only the type check can report. */
  lemma NoElementsOnlyTypeCheck(variant: Variant, resource: Json, profile: StructureDefinition)
    requires OrEmpty(profile.differential) == []
    ensures Issues(variant, resource, profile) == TypeIssues(resource, profile.typeName)
    ensures |Issues(variant, resource, profile)| <= 1
  {
    assert MustSupportIssues(variant, resource, profile.typeName, []) == [];
    assert RequiredIssues(variant, resource, profile.typeName, []) == [];
  }

  // ---------------------------------------------------------------------
  // The two variants side by side
  // ---------------------------------------------------------------------

  /**
    For an element path `<type>.<rest>` (with a dot-free type) both variants
    walk the same keys, so they find the same elements missing.
  */
  lemma VariantsAgreeOnPrefixedPaths(resource: Json, t: string, rest: string)
    requires '.' !in t
    ensures LookupKeys(Service, t, t + "." + rest) == Some(SplitOn(rest, '.'))
    ensures LookupKeys(Api, t, t + "." + rest) == Some(SplitOn(rest, '.'))
    ensures ValueMissing(Service, resource, t, t + "." + rest) == ValueMissing(Api, resource, t, t + "." + rest)
  {
    SplitOnAfterWord(t, rest, '.');
    assert t + "." + rest == t + ['.'] + rest;
    RemoveFirstPrefix(t + ".", rest);
  }

  /**
    A path without a dot (such as the base element's path, the type itself):
    the service skips it, the API looks it up as a single key.
  */
  lemma SingleSegmentPaths(t: string, path: string)
    requires '.' !in path
    ensures LookupKeys(Service, t, path) == None
    ensures LookupKeys(Api, t, path) == Some([path])
  {
    SplitOnWordPrefix(path, "", '.');
    assert path + "" == path;
    assert SplitOn("", '.') == [""];
    NoOccurrence(path, t + ".", |t|);
    assert RemoveFirst(path, t + ".") == path;
    assert SplitOn(path, '.') == [path];
    assert SplitOn(RemoveFirst(path, t + "."), '.') == [path];
  }
}
