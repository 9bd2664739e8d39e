/**
  The loosely typed values the validators walk: a parsed JSON document.
  `Option<Json>` adds JavaScript's `undefined` as `None`.
*/
module JsValue {
  import opened Wrappers
  import opened Text

  /** Numbers are integers here; fractional JSON numbers are not modelled. */
  datatype Json =
    | JNull
    | JBool(b: bool)
    | JNum(n: int)
    | JStr(s: string)
    | JArr(items: seq<Json>)
    | JObj(fields: map<string, Json>)

  /**
    `v?.[key]`: undefined when `v` is undefined or null, the field when `v`
    is an object that has it, undefined otherwise. Looking a key up on a
    string or an array (`"length"`, `"0"`) or finding an inherited property
    (`"constructor"`) succeeds in JavaScript; here those lookups are absent.
  */
  function Member(v: Option<Json>, key: string): Option<Json>
  {
    match v
    case Some(JObj(fields)) => if key in fields then Some(fields[key]) else None
    case _ => None
  }

  /** `value === undefined || value === null`. */
  predicate IsMissing(v: Option<Json>)
  {
    v.None? || v == Some(JNull)
  }

  /** `keys.reduce((current, key) => current?.[key], v)`. */
  function Walk(v: Option<Json>, keys: seq<string>): Option<Json>
    decreases |keys|
  {
    if keys == [] then v else Member(Walk(v, keys[..|keys| - 1]), keys[|keys| - 1])
  }

  /** Walking a concatenation is walking the first part, then the second. */
  lemma {:induction false} WalkAppend(v: Option<Json>, a: seq<string>, b: seq<string>)
    ensures Walk(v, a + b) == Walk(Walk(v, a), b)
    decreases |b|
  {
    if b != [] {
      WalkAppend(v, a, b[..|b| - 1]);
      assert (a + b)[..|a + b| - 1] == a + b[..|b| - 1];
    } else {
      assert a + b == a;
    }
  }

  /** Once a walk meets undefined or null, the rest of the walk stays missing. */
  lemma {:induction false} WalkFromMissing(v: Option<Json>, keys: seq<string>)
    requires IsMissing(v)
    ensures IsMissing(Walk(v, keys))
    ensures keys != [] ==> Walk(v, keys).None?
    decreases |keys|
  {
    if keys != [] {
      WalkFromMissing(v, keys[..|keys| - 1]);
    }
  }

  /**
    The value at a path is missing as soon as the value at any prefix of the
    path is missing.
  */
  lemma MissingPrefixMissing(v: Option<Json>, keys: seq<string>, k: nat)
    requires k <= |keys|
    requires IsMissing(Walk(v, keys[..k]))
    ensures IsMissing(Walk(v, keys))
  {
    WalkAppend(v, keys[..k], keys[k..]);
    assert keys[..k] + keys[k..] == keys;
    WalkFromMissing(Walk(v, keys[..k]), keys[k..]);
  }

  /** JavaScript truthiness (`!!v`). */
  predicate Truthy(v: Option<Json>)
  {
    match v
    case None => false
    case Some(JNull) => false
    case Some(JBool(b)) => b
    case Some(JNum(n)) => n != 0
    case Some(JStr(s)) => s != ""
    case Some(_) => true
  }

  /** `${v}` in a template literal. */
  function TemplateString(v: Option<Json>): string
  {
    match v
    case None => "undefined"
    case Some(j) => JsonToString(j)
  }

  /** `String(j)`; an array joins its items with commas, null items as empty. */
  function JsonToString(j: Json): string
    decreases j
  {
    match j
    case JNull => "null"
    case JBool(b) => if b then "true" else "false"
    case JNum(n) => IntToString(n)
    case JStr(s) => s
    case JObj(_) => "[object Object]"
    case JArr(items) =>
      if items == [] then ""
      else JoinWith(seq(|items|, i requires 0 <= i < |items| =>
                          if items[i].JNull? then "" else JsonToString(items[i])), ',')
  }
}
