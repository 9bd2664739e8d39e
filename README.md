# FHIRSquire profile generator, in Dafny

This project models the logic at the centre of FHIRSquire. FHIRSquire turns a
FHIR R4 profile request into a StructureDefinition, and checks a resource
against such a profile. The logic exists twice:

- the backend service `FHIRProfileGenerator`
  (`backend/src/services/fhirProfileGenerator.ts`);
- the serverless endpoints `api/profile/generate.ts` and `api/profile/validate.ts`,
  which hold their own copies.

What is modelled:

- **Profile identifiers** (`ProfileId`). `generateProfileId` is a pure
  function. It is proved equal to a one-pass reference scan. From that scan
  it follows that the identifier holds only ASCII letters and digits, and
  spells the title's letters and digits in order, up to case. The code's two
  `index === 0` branches are identical, so every word is capitalised,
  including the first: the identifier is PascalCase although the doc
  comment says camelCase. The model follows the code ("episode of care"
  gives "EpisodeOfCare"). Whitespace is the full ECMAScript `\s` set.
- **The differential builder** (`Differential`, `FhirProfileGenerator`,
  `ApiProfileGenerate`). It is modelled as methods with loops that push
  elements and update the first element with a matching path in place. Each
  method is proved against a specification function (`ApplyAll`,
  `DifferentialElements`). About those functions the project proves:
  - the length formula;
  - the base element comes first, then the must-support elements in input
    order, duplicates kept;
  - the first match is updated and nothing else changes;
  - the last constraint on a path wins;
  - paths stay distinct exactly when the starting list's paths were;
  - the extension slices come last, with pairwise distinct slice names.
- **Binding strengths** (`Fhir.MapBindingStrength`). The mapping is total:
  each FHIR code maps to its own strength and any other string maps to
  `example`.
- **The profile assembler** (`GenerateR4Profile`, in both copies). It is a
  pure function whose contract fixes every identity field, the
  `baseDefinition` default, the jurisdiction (present exactly when given)
  and, in the serverless copy, the publisher default `FHIRSquire`.
  `ApiProfileGenerate.CopiesAgree` relates the two copies: they produce the
  same profile, except that the backend also appends extension slices.
- **The shallow validators** (`Validation`, `FhirProfileGenerator.ValidateResource`,
  `ApiProfileValidate`). A shared specification covers both variants.
  `Service` drops the first path segment and skips one-segment paths.
  `Api` removes the first `<type>.` and checks every element. The loops
  that push error messages are proved to produce exactly the messages of
  that specification, in order. `valid` holds exactly when the resource
  conforms.
- **The two HTTP handlers** (`HandleGenerate`, `HandleValidate`): the
  required-field checks that give a 400, and the rest of the reply.

The resource is a `Json` datatype. A key looked up on anything other than
an object is absent. The clock reading `new Date().toISOString()` is a
`date` parameter.

## Model

| member | source | states |
|---|---|---|
| Fhir.MapBindingStrength | backend/src/services/fhirProfileGenerator.ts:172-185 | each of the four FHIR codes maps to the strength with that code; any string that is not the result's code gives `example` |
| Fhir.MapStrengthCode | backend/src/services/fhirProfileGenerator.ts:172-181 | mapping the code of any strength gives that strength back |
| Fhir.MapBindingStrengthCases | api/profile/generate.ts:167-180 | exactly the four codes required/extensible/preferred/example are kept; every other string becomes `example` |
| Text.SplitOn | api/profile/validate.ts:77 | `split('.')` yields at least one piece and no piece contains the separator |
| Text.JoinSplit | api/profile/validate.ts:77 | joining the pieces of a split with the separator restores the string |
| Text.SplitJoin | backend/src/services/fhirProfileGenerator.ts:202 | splitting a join of separator-free pieces gives the pieces back |
| Text.SplitOnConcat | api/profile/validate.ts:77 | splitting `p + sep + q` is splitting `p` followed by splitting `q` |
| Text.RemoveFirst | api/profile/validate.ts:37 | definition of `replace` with a string pattern: the string without its first occurrence of the pattern, or unchanged when the pattern does not occur |
| Text.IntToString | api/profile/validate.ts:54 | definition of `${n}` for an integer: a minus sign for negatives, then the decimal digits |
| Text.FirstOccurrence | api/profile/validate.ts:37 | the position found is an occurrence, and no occurrence lies before it; `None` means there is no occurrence |
| Text.RemoveFirstPrefix | api/profile/validate.ts:37 | `replace` removes a prefix that is present and leaves what follows it |
| Text.NoOccurrence | api/profile/validate.ts:50 | a pattern containing a character the string lacks leaves the string unchanged under `replace` |
| Text.NatToString | backend/src/services/fhirProfileGenerator.ts:151-153 | the numeral is non-empty, all digits, with no leading zero unless it is `0` |
| Text.ParseNatToString | backend/src/services/fhirProfileGenerator.ts:151-153 | reading the rendered numeral back gives the number |
| Text.NatToStringInjective | backend/src/services/fhirProfileGenerator.ts:153 | distinct indices render as distinct numerals |
| JsValue.Member | backend/src/services/fhirProfileGenerator.ts:206 | definition of `v?.[key]`: undefined from undefined or null, the field of an object that has it, undefined otherwise |
| JsValue.Walk | backend/src/services/fhirProfileGenerator.ts:204-207 | definition of the key walk: `?.[key]` applied to each key in turn, from the left, as the for-of loop and `reduce` do |
| JsValue.TemplateString | backend/src/services/fhirProfileGenerator.ts:196 | definition of `${resource.resourceType}`: `undefined` for an absent field, otherwise the value's string form |
| JsValue.JsonToString | api/profile/validate.ts:29 | definition of `String(v)`: `null`, `true`/`false`, the numeral, the string itself, `[object Object]`, or an array's items joined with commas |
| JsValue.WalkAppend | api/profile/validate.ts:76-78 | walking a concatenation of keys is walking the first keys and then the rest |
| JsValue.WalkFromMissing | backend/src/services/fhirProfileGenerator.ts:204-207 | from undefined or null, `?.[key]` steps stay missing, and are undefined after one step |
| JsValue.MissingPrefixMissing | backend/src/services/fhirProfileGenerator.ts:204-208 | the value at a path is missing once the value at any prefix of it is missing |
| ProfileId.GenerateProfileId | backend/src/services/fhirProfileGenerator.ts:77-87 | definition of `generateProfileId`: strip, split on whitespace runs, capitalise every word, concatenate |
| ProfileId.StripDisallowed | backend/src/services/fhirProfileGenerator.ts:79 | definition of `replace(/[^a-zA-Z0-9\s]/g, '')`: every character that is not an ASCII letter, digit or `\s` whitespace is dropped |
| ProfileId.Capitalize | backend/src/services/fhirProfileGenerator.ts:83-84 | definition of the word mapping: first character upper-cased, the rest lower-cased, the empty word left empty |
| ProfileId.CapitalizeAll | backend/src/services/fhirProfileGenerator.ts:81-86 | definition of `map(...).join('')`: the capitalised words concatenated in order, the same mapping at index 0 as elsewhere |
| ProfileId.SplitWhitespace | backend/src/services/fhirProfileGenerator.ts:80 | `split(/\s+/)` always yields at least one word |
| ProfileId.SplitCapitalizeIsScan | backend/src/services/fhirProfileGenerator.ts:80-86 | splitting on whitespace runs and capitalising each word equals the one-pass scan, both at a word start and inside a word |
| ProfileId.ProfileIdIsScan | backend/src/services/fhirProfileGenerator.ts:77-87 | the identifier is the one-pass scan of the stripped title |
| ProfileId.ScanAlnum | backend/src/services/fhirProfileGenerator.ts:80-86 | on letters, digits and whitespace, the scan yields only letters and digits, equal up to case to the input's letters and digits |
| ProfileId.StripDisallowedKeeps | backend/src/services/fhirProfileGenerator.ts:79 | stripping leaves only letters, digits and whitespace, and keeps every letter and digit in order |
| ProfileId.ProfileIdShape | backend/src/services/fhirProfileGenerator.ts:77-87 | the identifier has only ASCII letters and digits, and lower-cased it equals the title's letters and digits lower-cased |
| ProfileId.StripDisallowedAppend | api/profile/generate.ts:92 | stripping works piece by piece |
| ProfileId.WordsOfSentence | api/profile/generate.ts:93 | a word, one space and a string not starting with whitespace split into the word and the string's words |
| ProfileIdExamples.EpisodeOfCare | backend/src/services/fhirProfileGenerator.ts:77-87 | "episode of care" gives "EpisodeOfCare": the first word is capitalised too |
| ProfileIdExamples.Patient2 | api/profile/generate.ts:90-100 | "Patient-2!" gives "Patient2" |
| ProfileIdExamples.PunctuationOnlyTitle | backend/src/services/fhirProfileGenerator.ts:77-87 | every title without ASCII letters or digits, such as `"!!!"`, gives the empty identifier |
| Differential.FindPath | backend/src/services/fhirProfileGenerator.ts:115 | `find` returns the first index with the path, or `None` when no element has it |
| Differential.Apply | backend/src/services/fhirProfileGenerator.ts:114-127 | one constraint updates the first element with its path in place, keeping the length, or appends exactly its new element |
| Differential.ApplyAllSnoc | backend/src/services/fhirProfileGenerator.ts:130-146 | one more constraint is one more lookup-or-append step on the list so far |
| Differential.ApplyCardinalityConstraints | backend/src/services/fhirProfileGenerator.ts:113-127 | the loop that overwrites `min`/`max` of the first match or pushes a new element yields the specification list |
| Differential.ApplyBindingConstraints | backend/src/services/fhirProfileGenerator.ts:129-146 | the loop that sets the mapped binding of the first match or pushes a new element yields the specification list |
| Differential.PushStartElements | backend/src/services/fhirProfileGenerator.ts:95-111 | the base element is pushed, then one must-support element per path in input order |
| Differential.ApplyPaths | backend/src/services/fhirProfileGenerator.ts:114-127 | one step adds the constraint's path to the path set and grows the list by one exactly when the path was absent |
| Differential.ApplyAllPaths | backend/src/services/fhirProfileGenerator.ts:113-146 | after all constraints the paths are the old paths plus the constraint paths, and the length grew by the number of constraint paths absent at the start |
| Differential.ApplyKeeps | api/profile/generate.ts:128-160 | one step changes only `min`, `max` or `binding`, and only of the first element with the constraint's path |
| Differential.ApplyAllKeeps | backend/src/services/fhirProfileGenerator.ts:113-146 | all steps change only `min`, `max` and `binding`; an element not first with its path, or whose path no constraint names, is unchanged |
| Differential.ApplyAllKeepsDistinct | backend/src/services/fhirProfileGenerator.ts:113-146 | lookup-or-append never creates a second element with the same path |
| Differential.ApplyLands | backend/src/services/fhirProfileGenerator.ts:115-118 | after a step, the first element with the constraint's path carries its values; an existing first match keeps its index and is updated in place |
| Differential.ApplyOtherPath | backend/src/services/fhirProfileGenerator.ts:131-138 | a constraint on another path leaves the first element with a given path, and its index, alone |
| Differential.LastConstraintWins | backend/src/services/fhirProfileGenerator.ts:113-146 | the first element with a path carries the values of the last constraint of each kind on that path |
| Differential.StartPaths | backend/src/services/fhirProfileGenerator.ts:95-111 | the starting list has `1 + \|ms\|` elements whose paths are the base type and the must-support paths |
| Differential.StartDistinct | backend/src/services/fhirProfileGenerator.ts:104-111 | the starting list has distinct paths exactly when the must-support paths are distinct and none is the base type |
| Differential.ApplyAllAppend | backend/src/services/fhirProfileGenerator.ts:113-146 | applying the cardinality list and then the binding list is applying their concatenation |
| Differential.MergedLength | api/profile/generate.ts:102-165 | length `1 + \|ms\| + \|new cardinality paths\| + \|new binding paths\|`, and the path set is the union of base type, must-support and constraint paths |
| Differential.MergedStart | backend/src/services/fhirProfileGenerator.ts:95-146 | element 0 is the base element and elements 1..\|ms\| are the must-support elements in order, changed at most in `min`, `max` and `binding`; the base element is unchanged unless a constraint names its path, and a repeated must-support path's later copy is unchanged |
| Differential.ConstraintPathsAppend | backend/src/services/fhirProfileGenerator.ts:114-146 | the paths of two constraint lists together are the union of their paths |
| Differential.MergedDistinct | api/profile/generate.ts:102-165 | the merged list has distinct paths exactly when the must-support paths are distinct and none is the base type |
| Differential.CardinalityWins | backend/src/services/fhirProfileGenerator.ts:114-127 | the last cardinality constraint on a path sets the `min` and `max` of the first element with that path; bindings do not undo it |
| Differential.BindingWins | backend/src/services/fhirProfileGenerator.ts:130-146 | the last binding constraint on a path sets that element's binding: mapped strength and value set |
| Differential.ApplyAllNoSlices | api/profile/generate.ts:125-162 | lookup-or-append never creates an extension slice |
| FhirProfileGenerator.BuildDifferentialElements | backend/src/services/fhirProfileGenerator.ts:92-167 | the builder returns the base element, the must-support elements, both constraint phases and then the extension slices |
| FhirProfileGenerator.AppendExtensions | backend/src/services/fhirProfileGenerator.ts:148-164 | the extension loop appends slice `i` for extension `i`, in order, whatever paths are present |
| FhirProfileGenerator.DifferentialLength | backend/src/services/fhirProfileGenerator.ts:92-166 | length = 1 + \|must-support\| + new cardinality paths + new binding paths + \|extensions\| |
| FhirProfileGenerator.DifferentialStart | backend/src/services/fhirProfileGenerator.ts:96-111 | element 0 has id and path the base type, short the title and definition the description; element i is must-support path i-1 with `mustSupport` true |
| FhirProfileGenerator.ExtensionsLast | backend/src/services/fhirProfileGenerator.ts:148-164 | the differential ends with exactly the extension slices |
| FhirProfileGenerator.ExtensionSlices | backend/src/services/fhirProfileGenerator.ts:149-164 | slice i has path `<type>.extension`, slice name `ext<i>`, the description, min 0, max "1" and type Extension profiled by the url; slice names are pairwise distinct |
| FhirProfileGenerator.ExtensionsSharePath | backend/src/services/fhirProfileGenerator.ts:150-152 | with two or more extensions the differential has two elements with the same path |
| FhirProfileGenerator.GenerateR4Profile | backend/src/services/fhirProfileGenerator.ts:32-72 | id == name == generated id, url == canonical base + id, title, description, type, publisher, date and the constants; baseDefinition the base profile if given else the core URL; differential the built list; jurisdiction present exactly when given, with system ISO 3166 |
| FhirProfileGenerator.FollowPath | backend/src/services/fhirProfileGenerator.ts:204-207 | the `for (const part of path)` loop computes the walk of the keys from the resource |
| FhirProfileGenerator.CheckMustSupport | backend/src/services/fhirProfileGenerator.ts:199-212 | the loop pushes exactly the messages of the must-support issues, in element order |
| FhirProfileGenerator.CheckCardinality | backend/src/services/fhirProfileGenerator.ts:214-228 | the loop pushes exactly the messages of the `min > 0` issues, in element order |
| FhirProfileGenerator.MustSupportStep | backend/src/services/fhirProfileGenerator.ts:202-210 | a must-support element adds one message exactly when its path has a second segment and the walked value is missing |
| FhirProfileGenerator.CardinalityStep | backend/src/services/fhirProfileGenerator.ts:216-225 | an element with `min > 0` adds one message exactly when its path has a second segment and the walked value is missing |
| FhirProfileGenerator.ValidateResource | backend/src/services/fhirProfileGenerator.ts:191-234 | errors are the messages of the specified issues; valid ⇔ no errors ⇔ the resource conforms |
| Validation.LookupKeys | backend/src/services/fhirProfileGenerator.ts:202-203 | definition of the keys walked: Service takes the path's segments after the first and skips a one-segment path; Api (api/profile/validate.ts:37-38) removes the first `<type>.` and splits the rest on dots |
| Validation.ReportedPath | api/profile/validate.ts:41 | definition of the path a message names: the full element path for Service, the path with the first `<type>.` removed for Api |
| Validation.MustSupportIssuesEmpty | backend/src/services/fhirProfileGenerator.ts:199-212 | no must-support issue exactly when every checked must-support element has a value |
| Validation.RequiredIssuesEmpty | api/profile/validate.ts:47-58 | no cardinality issue exactly when every checked element with `min > 0` has a value |
| Validation.ValidIffConforms | api/profile/validate.ts:60-65 | no errors exactly when the resource type matches and every checked must-support or `min > 0` element has a value |
| Validation.IssueOrder | api/profile/validate.ts:25-58 | issues come as type mismatch, then must-support, then cardinality; a type mismatch is present exactly when the types differ, and then it comes first; the issues after the type issues are exactly the must-support issues followed by the cardinality issues, so a mismatch does not stop the element checks |
| Validation.MustSupportReported | api/profile/validate.ts:33-44 | a must-support issue names exactly a must-support element whose value is missing |
| Validation.RequiredReported | backend/src/services/fhirProfileGenerator.ts:214-228 | a cardinality issue names exactly an element with `min > 0` whose value is missing, with its `min` |
| Validation.NoElementsOnlyTypeCheck | api/profile/validate.ts:33-58 | without a differential element list only the type check can report, so there is at most one issue |
| Validation.VariantsAgreeOnPrefixedPaths | api/profile/validate.ts:37-38 | for a path `<type>.<rest>` both variants walk the keys of `rest` and agree on whether the value is missing |
| Validation.SingleSegmentPaths | backend/src/services/fhirProfileGenerator.ts:202-203 | a dot-free path is skipped by the service and looked up as one key by the API |
| ApiProfileGenerate.BuildDifferentialElements | api/profile/generate.ts:102-165 | the builder returns the base element, the must-support elements and both constraint phases; a list field that is absent or not an array is skipped |
| ApiProfileGenerate.ApiDifferentialLength | api/profile/generate.ts:102-165 | length = 1 + \|must-support\| + new cardinality paths + new binding paths, with absent lists empty |
| ApiProfileGenerate.ApiDifferentialNoSlices | api/profile/generate.ts:102-165 | this copy emits no extension slices |
| ApiProfileGenerate.GenerateR4Profile | api/profile/generate.ts:48-88 | the identity fields as in the backend copy; publisher the given one if present and non-empty, else "FHIRSquire" |
| ApiProfileGenerate.HandleGenerate | api/profile/generate.ts:21-33 | a 400 exactly when profileName, baseResourceType, description or fhirVersion is absent or empty; otherwise the generated profile |
| ApiProfileGenerate.SameProfileForEveryVersion | api/profile/generate.ts:28-33 | every non-empty fhirVersion gives the same reply as R4 |
| ApiProfileGenerate.CopiesAgree | api/profile/generate.ts:48-165 | for corresponding requests this copy's differential is the backend's before its extension step, and its profile is the backend's with that differential |
| ApiProfileValidate.GetNestedValue | api/profile/validate.ts:76-78 | definition of `getNestedValue`: the path split on dots and walked key by key from the object |
| ApiProfileValidate.GetNestedValueDotted | api/profile/validate.ts:76-78 | the value at `p.q` is the walk of `q`'s keys from the value at `p` |
| ApiProfileValidate.GetNestedValueSingleKey | api/profile/validate.ts:76-78 | a dot-free path is one property lookup |
| ApiProfileValidate.GetNestedValueStopsAtMissing | api/profile/validate.ts:76-78 | once an intermediate value is undefined or null the result is missing, and undefined if keys remain |
| ApiProfileValidate.CheckMustSupport | api/profile/validate.ts:33-44 | the loop pushes exactly `Missing must-support element: <stripped path>` per must-support element whose value is missing, in order |
| ApiProfileValidate.CheckCardinality | api/profile/validate.ts:47-58 | the loop pushes exactly `Required element missing (min=k): <stripped path>` per element with `min > 0` whose value is missing, in order |
| ApiProfileValidate.CardinalityStep | api/profile/validate.ts:49-56 | an element with a `min` adds one message exactly when `min > 0` and the value at the stripped path is missing |
| ApiProfileValidate.HandleValidate | api/profile/validate.ts:18-66 | a 400 exactly when the resource is falsy or the profile absent; otherwise errors are the messages of the specified issues, and valid ⇔ no errors ⇔ conforms |
| ValidationExamples.MissingMustSupport | api/profile/validate.ts:36-43 | a missing must-support `t.k` gives exactly one message in each variant's words |
| ValidationExamples.MustSupportPresent | backend/src/services/fhirProfileGenerator.ts:199-212 | with a non-null value at `k`, neither variant reports anything |
| ValidationExamples.BasePathReportedByApi | api/profile/validate.ts:49-55 | the base path `t` with `min > 0` is looked up as key `t` and reported by the API |
| ValidationExamples.BasePathSkippedByService | backend/src/services/fhirProfileGenerator.ts:216-218 | the service skips the single-segment base path |
| ValidationExamples.MismatchThenMissing | api/profile/validate.ts:28-43 | a type mismatch comes first and the must-support check still reports |
| ValidationExamples.PatientMissingName | api/profile/validate.ts:36-43 | `{resourceType: "Patient"}` against must-support `Patient.name` gives `Missing must-support element: name` |

## Left out

- The LLM client and use-case endpoints, the Simplifier.net REST client and its routes, profile saving and listing, server bootstrap and error middleware, and the React frontend are not part of this model. They are network, file or UI code.
- HTTP plumbing is not modelled: the CORS headers, the OPTIONS and 405 replies, the 500 reply and the JSON envelopes. The handlers are modelled from the parsed body to the reply.
- The clock reading `new Date().toISOString()` is a `date` parameter.
- `JsValue.Member`: a key looked up on a string or an array (`length`, `"0"`) or an inherited property (`constructor`) is absent here, while JavaScript finds it.
- JSON numbers are unbounded integers. A fractional `min`, non-integer numbers, and the rounding of integers above 2^53 that a JavaScript number (an IEEE double) does are not modelled.
- Text.IntToString: always writes every decimal digit. JavaScript writes numbers of magnitude 10^21 and above in exponent form (`1e+21`), so the `min` in both cardinality messages differs from the source's for such values.
- JsValue.JsonToString: renders numbers through `Text.IntToString`, with the same gap for magnitudes of 10^21 and above in the type-mismatch message.
- The R4 enum types are plain strings and a local `BindingStrength` datatype.
- The untyped bodies are typed. A string field holding a non-string is not modelled, nor a `profile` that is not an object. The profile's `type` is always a string here; it is never undefined.
- FhirProfileGenerator.ValidateResource: requires a non-null resource. On `null` the source throws when it reads `resource.resourceType`; its caller (api/routes/profile.ts:76-82) rejects a falsy resource first.
- ApiProfileGenerate.GenerateR4Profile: requires profileName, baseResourceType and description to be present. The handler ensures this; called with one absent, the source throws or writes `undefined`.
- ApiProfileGenerate.BuildDifferentialElements: requires the same three fields, for the same reason.
- ValidationExamples.MissingMustSupport: stated for a single-element profile and dot-free type and key only.
- Request routing in `api/routes/profile.ts` is not part of this model. It is the caller that builds the typed request; its validate route (api/routes/profile.ts:76-82) answers 400 when `resource` or `profile` is falsy before it calls `validateResource`, so the service never sees a `null` resource.
