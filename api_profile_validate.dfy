/**
  The serverless validation endpoint (api/profile/validate.ts): a 400 reply
  for a missing resource or profile, otherwise the Api-variant shallow
  check, whose element paths lose the first `<type>.` and are walked by
  `getNestedValue`.
*/
module ApiProfileValidate {
  import opened Wrappers
  import opened Text
  import opened JsValue
  import opened Fhir
  import opened Validation

  /** `path.split('.').reduce((current, key) => current?.[key], obj)`. */
  function GetNestedValue(obj: Json, path: string): Option<Json>
  {
    Walk(Some(obj), SplitOn(path, '.'))
  }

  /** A path with one more segment walks one more key from where the shorter path ended. */
  lemma GetNestedValueDotted(obj: Json, p: string, q: string)
    ensures GetNestedValue(obj, p + "." + q) == Walk(GetNestedValue(obj, p), SplitOn(q, '.'))
  {
    assert p + "." + q == p + ['.'] + q;
    SplitOnConcat(p, q, '.');
    WalkAppend(Some(obj), SplitOn(p, '.'), SplitOn(q, '.'));
  }

  /** A dot-free path is a single property lookup. */
  lemma GetNestedValueSingleKey(obj: Json, key: string)
    requires '.' !in key
    ensures GetNestedValue(obj, key) == Member(Some(obj), key)
  {
    SplitOnWordPrefix(key, "", '.');
    assert key + "" == key;
    assert SplitOn("", '.') == [""];
    assert SplitOn(key, '.') == [key];
    assert [key][..0] == [];
    assert Walk(Some(obj), [key]) == Member(Walk(Some(obj), []), key);
  }

  /**
    As soon as an intermediate value is undefined or null the result is
    undefined or null too: the walk does not throw.
  */
  lemma GetNestedValueStopsAtMissing(obj: Json, path: string, k: nat)
    requires k <= |SplitOn(path, '.')|
    requires IsMissing(Walk(Some(obj), SplitOn(path, '.')[..k]))
    ensures IsMissing(GetNestedValue(obj, path))
    ensures k < |SplitOn(path, '.')| ==> GetNestedValue(obj, path).None?
  {
    var keys := SplitOn(path, '.');
    assert keys == keys[..k] + keys[k..];
    WalkAppend(Some(obj), keys[..k], keys[k..]);
    WalkFromMissing(Walk(Some(obj), keys[..k]), keys[k..]);
  }

  /** The must-support check: for each must-support element, in order. */
  method CheckMustSupport(resource: Json, t: string, els: seq<ElementDefinition>) returns (errors: seq<string>)
    ensures errors == Messages(Api, MustSupportIssues(Api, resource, t, els))
  {
    errors := [];
    for i := 0 to |els|
      invariant errors == Messages(Api, MustSupportIssues(Api, resource, t, els[..i]))
    {
      var element := els[i];
      var step: seq<string> := [];
      if element.mustSupport == Some(true) {
        var path := RemoveFirst(element.path, t + ".");
        var value := GetNestedValue(resource, path);
        if value.None? || value == Some(JNull) {
          step := ["Missing must-support element: " + path];
        }
      }
      assert step == Messages(Api, MustSupportIssue(Api, resource, t, element));
      errors := errors + step;
      IssuesSnoc(Api, resource, t, els, i);
      MessagesAppend(Api, MustSupportIssues(Api, resource, t, els[..i]), MustSupportIssue(Api, resource, t, els[i]));
    }
    assert els[..|els|] == els;
  }

  /** The cardinality check: for each element with a `min`, in order. */
  method CheckCardinality(resource: Json, t: string, els: seq<ElementDefinition>) returns (errors: seq<string>)
    ensures errors == Messages(Api, RequiredIssues(Api, resource, t, els))
  {
    errors := [];
    for i := 0 to |els|
      invariant errors == Messages(Api, RequiredIssues(Api, resource, t, els[..i]))
    {
      var element := els[i];
      var step: seq<string> := [];
      if element.min.Some? {
        var path := RemoveFirst(element.path, t + ".");
        var value := GetNestedValue(resource, path);
        if element.min.value > 0 && (value.None? || value == Some(JNull)) {
          step := ["Required element missing (min=" + IntToString(element.min.value) + "): " + path];
        }
        CardinalityStep(resource, t, element);
      }
      assert step == Messages(Api, RequiredIssue(Api, resource, t, element));
      errors := errors + step;
      IssuesSnoc(Api, resource, t, els, i);
      MessagesAppend(Api, RequiredIssues(Api, resource, t, els[..i]), RequiredIssue(Api, resource, t, els[i]));
    }
    assert els[..|els|] == els;
  }

  /** What one element with a `min` adds to the cardinality errors. */
  lemma CardinalityStep(resource: Json, t: string, element: ElementDefinition)
    requires element.min.Some?
    ensures var path := RemoveFirst(element.path, t + ".");
            Messages(Api, RequiredIssue(Api, resource, t, element))
            == if element.min.value > 0 && IsMissing(GetNestedValue(resource, path))
               then ["Required element missing (min=" + IntToString(element.min.value) + "): " + path]
               else []
  {
  }

  /** The handler's replies: 400 `Missing required fields`, or 200 with the outcome. */
  datatype ValidateResponse = MissingRequiredFields | Checked(valid: bool, errors: seq<string>)

  /**
    The POST handler on a body's `resource` and `profile` (`None` when
    absent); other methods, CORS and the 500 reply are not modelled.
  */
  method HandleValidate(resource: Option<Json>, profile: Option<StructureDefinition>) returns (response: ValidateResponse)
    ensures response.MissingRequiredFields? <==> !Truthy(resource) || profile.None?
    ensures response.Checked? ==>
              response.errors == Messages(Api, Issues(Api, resource.value, profile.value))
              && (response.valid <==> response.errors == [])
              && (response.valid <==> Conforms(Api, resource.value, profile.value))
  {
    if !Truthy(resource) || profile.None? {
      return MissingRequiredFields;
    }
    var r, p := resource.value, profile.value;
    var t := p.typeName;
    var errors: seq<string> := [];
    var actual := Member(resource, "resourceType");
    if actual != Some(JStr(t)) {
      errors := errors + ["Resource type " + TemplateString(actual) + " does not match profile type " + t];
    }
    assert errors == Messages(Api, TypeIssues(r, t));
    var els := OrEmpty(p.differential);
    if p.differential.Some? {
      var msErrors := CheckMustSupport(r, t, p.differential.value);
      errors := errors + msErrors;
    }
    assert errors == Messages(Api, TypeIssues(r, t)) + Messages(Api, MustSupportIssues(Api, r, t, els));
    if p.differential.Some? {
      var cardErrors := CheckCardinality(r, t, p.differential.value);
      errors := errors + cardErrors;
    }
    assert errors == Messages(Api, TypeIssues(r, t)) + Messages(Api, MustSupportIssues(Api, r, t, els))
                     + Messages(Api, RequiredIssues(Api, r, t, els));
    MessagesAppend(Api, TypeIssues(r, t), MustSupportIssues(Api, r, t, els));
    MessagesAppend(Api, TypeIssues(r, t) + MustSupportIssues(Api, r, t, els), RequiredIssues(Api, r, t, els));
    ValidIffConforms(Api, r, p);
    response := Checked(|errors| == 0, errors);
  }
}
