/**
  Cases of the two validators on a profile with a single element, for any
  dot-free resource type `t` and key `k`, and their instances for Patient.
*/
module ValidationExamples {
  import opened Wrappers
  import opened Text
  import opened JsValue
  import opened Fhir
  import opened Validation

  /** A profile for type `t` whose differential is the one element `e`. */
  predicate SingleElementProfile(profile: StructureDefinition, t: string, e: ElementDefinition)
  {
    profile.typeName == t && profile.differential == Some([e])
  }

  lemma OneElement(variant: Variant, resource: Json, t: string, e: ElementDefinition)
    ensures MustSupportIssues(variant, resource, t, [e]) == MustSupportIssue(variant, resource, t, e)
    ensures RequiredIssues(variant, resource, t, [e]) == RequiredIssue(variant, resource, t, e)
  {
    assert [e][..1] == [e] && [e][..0] == [];
    CollectSnoc([e], x => MustSupportIssue(variant, resource, t, x), 0);
    CollectSnoc([e], x => RequiredIssue(variant, resource, t, x), 0);
  }

  lemma PrefixedKey(t: string, k: string)
    requires '.' !in t && '.' !in k
    ensures LookupKeys(Service, t, t + "." + k) == Some([k])
    ensures LookupKeys(Api, t, t + "." + k) == Some([k])
    ensures ReportedPath(Api, t, t + "." + k) == k
  {
    VariantsAgreeOnPrefixedPaths(JNull, t, k);
    SplitOnNoSeparator(k, '.');
    RemoveFirstPrefix(t + ".", k);
  }

  lemma WalkOne(resource: Json, k: string)
    ensures Walk(Some(resource), [k]) == Member(Some(resource), k)
  {
    assert [k][..0] == [];
  }

  /**
    A resource of the right type without key `k` misses the must-support
    element `t.k`: each variant reports it once, in its own words.
  */
  lemma MissingMustSupport(resource: Json, profile: StructureDefinition, t: string, k: string)
    requires '.' !in t && '.' !in k
    requires SingleElementProfile(profile, t, BareElement(t + "." + k).(mustSupport := Some(true)))
    requires Member(Some(resource), "resourceType") == Some(JStr(t)) && Member(Some(resource), k).None?
    ensures Messages(Api, Issues(Api, resource, profile)) == ["Missing must-support element: " + k]
    ensures Messages(Service, Issues(Service, resource, profile)) == ["Must-support element " + (t + "." + k) + " is missing"]
  {
    var e := BareElement(t + "." + k).(mustSupport := Some(true));
    PrefixedKey(t, k);
    WalkOne(resource, k);
    OneElement(Api, resource, t, e);
    OneElement(Service, resource, t, e);
  }

  /** With a non-null value at `k`, neither variant reports anything. */
  lemma MustSupportPresent(resource: Json, profile: StructureDefinition, t: string, k: string)
    requires '.' !in t && '.' !in k
    requires SingleElementProfile(profile, t, BareElement(t + "." + k).(mustSupport := Some(true)))
    requires Member(Some(resource), "resourceType") == Some(JStr(t)) && !IsMissing(Member(Some(resource), k))
    ensures Issues(Api, resource, profile) == []
    ensures Issues(Service, resource, profile) == []
  {
    var e := BareElement(t + "." + k).(mustSupport := Some(true));
    PrefixedKey(t, k);
    WalkOne(resource, k);
    OneElement(Api, resource, t, e);
    OneElement(Service, resource, t, e);
  }

  /**
    The base element's single-segment path `t` with `min > 0`: the API looks
    up the key `t` and reports it; the service skips the element.
  */
  lemma BasePathReportedByApi(resource: Json, profile: StructureDefinition, t: string, m: int)
    requires '.' !in t && m > 0
    requires SingleElementProfile(profile, t, BareElement(t).(min := Some(m)))
    requires Member(Some(resource), "resourceType") == Some(JStr(t)) && Member(Some(resource), t).None?
    ensures Messages(Api, Issues(Api, resource, profile)) == ["Required element missing (min=" + IntToString(m) + "): " + t]
  {
    var e := BareElement(t).(min := Some(m));
    SingleSegmentPaths(t, t);
    NoOccurrence(t, t + ".", |t|);
    WalkOne(resource, t);
    OneElement(Api, resource, t, e);
    assert RequiredIssue(Api, resource, t, e) == [MissingRequired(t, m)];
  }

  lemma BasePathSkippedByService(resource: Json, profile: StructureDefinition, t: string, m: int)
    requires '.' !in t
    requires SingleElementProfile(profile, t, BareElement(t).(min := Some(m)))
    requires Member(Some(resource), "resourceType") == Some(JStr(t))
    ensures Issues(Service, resource, profile) == []
  {
    var e := BareElement(t).(min := Some(m));
    SingleSegmentPaths(t, t);
    OneElement(Service, resource, t, e);
  }

  /** A type mismatch comes first and the element check still runs. */
  lemma MismatchThenMissing(resource: Json, profile: StructureDefinition, t: string, k: string, other: string)
    requires '.' !in t && '.' !in k && other != t
    requires SingleElementProfile(profile, t, BareElement(t + "." + k).(mustSupport := Some(true)))
    requires Member(Some(resource), "resourceType") == Some(JStr(other)) && Member(Some(resource), k).None?
    ensures Messages(Api, Issues(Api, resource, profile))
            == ["Resource type " + other + " does not match profile type " + t,
                "Missing must-support element: " + k]
  {
    var e := BareElement(t + "." + k).(mustSupport := Some(true));
    PrefixedKey(t, k);
    WalkOne(resource, k);
    OneElement(Api, resource, t, e);
  }

  // ---------------------------------------------------------------------
  // Patient instances
  // ---------------------------------------------------------------------

  function PatientProfile(e: ElementDefinition): StructureDefinition
  {
    StructureDefinition("StructureDefinition", "MyPatient", CanonicalBase + "MyPatient", ProfileVersion,
      "MyPatient", "My Patient", "draft", "", R4Version, "resource", false, "Patient",
      CoreBase + "Patient", "constraint", "FHIRSquire", "", Some([e]), None)
  }

  lemma PatientDotFree()
    ensures '.' !in "Patient" && '.' !in "name"
  {
  }

  lemma PatientName()
    ensures "Patient" + "." + "name" == "Patient.name"
  {
  }

  /** `{ resourceType: "Patient" }` against a must-support `Patient.name`. */
  lemma PatientMissingName()
    ensures var patient := JObj(map["resourceType" := JStr("Patient")]);
            var profile := PatientProfile(BareElement("Patient.name").(mustSupport := Some(true)));
            Messages(Api, Issues(Api, patient, profile)) == ["Missing must-support element: " + "name"]
  {
    var patient := JObj(map["resourceType" := JStr("Patient")]);
    PatientDotFree();
    PatientName();
    MissingMustSupport(patient, PatientProfile(BareElement("Patient.name").(mustSupport := Some(true))), "Patient", "name");
  }
}
