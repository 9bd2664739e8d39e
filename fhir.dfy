/**
  The parts of the FHIR R4 StructureDefinition resource that the profile
  generator fills in, and the binding-strength codes of
  ElementDefinition.binding.strength.
*/
module Fhir {
  import opened Wrappers

  datatype BindingStrength = Required | Extensible | Preferred | Example

  /** The FHIR code of each binding strength. */
  function StrengthCode(b: BindingStrength): string
  {
    match b
    case Required => "required"
    case Extensible => "extensible"
    case Preferred => "preferred"
    case Example => "example"
  }

  /**
    `mapBindingStrength`: the four FHIR codes map to their strengths and every
    other string falls back to `example`; it never fails.
  */
  function MapBindingStrength(strength: string): (b: BindingStrength)
    ensures strength in {"required", "extensible", "preferred", "example"} ==> StrengthCode(b) == strength
    ensures strength != StrengthCode(b) ==> b == Example
  {
    match strength
    case "required" => Required
    case "extensible" => Extensible
    case "preferred" => Preferred
    case "example" => Example
    case _ => Example
  }

  /** Mapping the code of a strength gives that strength back. */
  lemma MapStrengthCode(b: BindingStrength)
    ensures MapBindingStrength(StrengthCode(b)) == b
  {
  }

  /** Exactly the four codes are kept; anything else becomes `example`. */
  lemma MapBindingStrengthCases(strength: string)
    ensures strength in {"required", "extensible", "preferred", "example"}
            <==> StrengthCode(MapBindingStrength(strength)) == strength
    ensures strength !in {"required", "extensible", "preferred", "example"}
            ==> MapBindingStrength(strength) == Example
  {
  }

  datatype Binding = Binding(strength: BindingStrength, valueSet: string)

  /** An ElementDefinition.type entry: a type code and its profiles. */
  datatype TypeRef = TypeRef(code: string, profile: seq<string>)

  /** An ElementDefinition of a differential; `None` marks an absent field. */
  datatype ElementDefinition = ElementDefinition(
    id: string,
    path: string,
    sliceName: Option<string>,
    short: Option<string>,
    definition: Option<string>,
    mustSupport: Option<bool>,
    min: Option<int>,
    max: Option<string>,
    binding: Option<Binding>,
    types: Option<seq<TypeRef>>)

  /** `{ id: path, path }` with every other field absent. */
  function BareElement(path: string): (e: ElementDefinition)
  {
    ElementDefinition(path, path, None, None, None, None, None, None, None, None)
  }

  datatype Coding = Coding(system: string, code: string)

  datatype CodeableConcept = CodeableConcept(coding: seq<Coding>)

  /**
    A StructureDefinition. `typeName` is its `type` field; `differential` is
    `differential.element` (absent when either is absent).
  */
  datatype StructureDefinition = StructureDefinition(
    resourceType: string,
    id: string,
    url: string,
    version: string,
    name: string,
    title: string,
    status: string,
    description: string,
    fhirVersion: string,
    kind: string,
    isAbstract: bool,
    typeName: string,
    baseDefinition: string,
    derivation: string,
    publisher: string,
    date: string,
    differential: Option<seq<ElementDefinition>>,
    jurisdiction: Option<seq<CodeableConcept>>)

  const CanonicalBase := "http://example.org/fhir/StructureDefinition/"
  const CoreBase := "http://hl7.org/fhir/StructureDefinition/"
  const Iso3166 := "urn:iso:std:iso:3166"
  const ProfileVersion := "0.1.0"
  const R4Version := "4.0.1"
}
