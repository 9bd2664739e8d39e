/**
  Character classes and the few JavaScript string operations the profile
  generator and the validators use: `split` on a character, `replace` of the
  first occurrence of a string, and the decimal rendering of numbers inside
  template literals.
*/
module Text {
  import opened Wrappers

  predicate IsAsciiLetter(c: char) { 'a' <= c <= 'z' || 'A' <= c <= 'Z' }

  predicate IsDigit(c: char) { '0' <= c <= '9' }

  /** The class `[a-zA-Z0-9]`. */
  predicate IsAsciiAlnum(c: char) { IsAsciiLetter(c) || IsDigit(c) }

  /**
    The class `\s` of ECMAScript regular expressions: the WhiteSpace and
    LineTerminator code points.
  */
  predicate IsJsWhitespace(c: char)
  {
    || c == '\t' || c == '\n' || c == '\U{000B}' || c == '\U{000C}' || c == '\r' || c == ' '
    || c == '\U{00A0}' || c == '\U{1680}' || ('\U{2000}' <= c <= '\U{200A}')
    || c == '\U{2028}' || c == '\U{2029}' || c == '\U{202F}' || c == '\U{205F}'
    || c == '\U{3000}' || c == '\U{FEFF}'
  }

  /** `toUpperCase` restricted to ASCII (the only characters it is applied to). */
  function ToUpper(c: char): char
  {
    if 'a' <= c <= 'z' then (c as int - 32) as char else c
  }

  /** `toLowerCase` restricted to ASCII. */
  function ToLower(c: char): char
  {
    if 'A' <= c <= 'Z' then (c as int + 32) as char else c
  }

  function LowerString(s: string): string
  {
    seq(|s|, i requires 0 <= i < |s| => ToLower(s[i]))
  }

  lemma LowerStringAppend(s: string, t: string)
    ensures LowerString(s + t) == LowerString(s) + LowerString(t)
  {
  }

  // ---------------------------------------------------------------------
  // Numbers in template literals: `${n}` for an integer n
  // ---------------------------------------------------------------------

  function DigitChar(d: nat): char
    requires d < 10
  {
    ('0' as int + d) as char
  }

  function DigitValue(c: char): nat
    requires IsDigit(c)
  {
    c as int - '0' as int
  }

  predicate AllDigits(s: string)
  {
    forall i :: 0 <= i < |s| ==> IsDigit(s[i])
  }

  /** The shortest decimal numeral of `n`. */
  function NatToString(n: nat): (s: string)
    ensures |s| >= 1 && AllDigits(s)
    ensures s[0] == '0' ==> n == 0
    decreases n
  {
    if n < 10 then [DigitChar(n)] else NatToString(n / 10) + [DigitChar(n % 10)]
  }

  /** Reads a string of decimal digits back as a number. */
  function ParseNat(s: string): nat
    requires AllDigits(s)
    decreases |s|
  {
    if s == [] then 0 else ParseNat(s[..|s| - 1]) * 10 + DigitValue(s[|s| - 1])
  }

  /** Reading a rendered numeral gives the number back. */
  lemma {:induction false} ParseNatToString(n: nat)
    ensures ParseNat(NatToString(n)) == n
    decreases n
  {
    var s := NatToString(n);
    if n >= 10 {
      ParseNatToString(n / 10);
      assert s[..|s| - 1] == NatToString(n / 10);
    }
  }

  /** Distinct numbers render as distinct numerals. */
  lemma NatToStringInjective(m: nat, n: nat)
    ensures NatToString(m) == NatToString(n) ==> m == n
  {
    ParseNatToString(m);
    ParseNatToString(n);
  }

  function IntToString(i: int): string
  {
    if i < 0 then "-" + NatToString(-i) else NatToString(i)
  }

  // ---------------------------------------------------------------------
  // `s.split(sep)` for a one-character separator, and its inverse `join`
  // ---------------------------------------------------------------------

  /**
    The pieces of `s` between occurrences of `sep`, empty pieces included:
    `"a..b"` gives `["a", "", "b"]` and `""` gives `[""]`.
  */
  function SplitOn(s: string, sep: char): (parts: seq<string>)
    ensures |parts| >= 1
    ensures forall i :: 0 <= i < |parts| ==> sep !in parts[i]
    decreases |s|
  {
    if s == [] then [""]
    else
      var rest := SplitOn(s[1..], sep);
      if s[0] == sep then [""] + rest else [[s[0]] + rest[0]] + rest[1..]
  }

  function JoinWith(parts: seq<string>, sep: char): string
    requires |parts| >= 1
    decreases |parts|
  {
    if |parts| == 1 then parts[0] else parts[0] + [sep] + JoinWith(parts[1..], sep)
  }

  /** Joining the pieces of a split restores the string. */
  lemma {:induction false} JoinSplit(s: string, sep: char)
    ensures JoinWith(SplitOn(s, sep), sep) == s
    decreases |s|
  {
    if s != [] {
      JoinSplit(s[1..], sep);
      var rest := SplitOn(s[1..], sep);
      assert s == [s[0]] + s[1..];
      if s[0] == sep {
        assert ([""] + rest)[1..] == rest;
      } else {
        JoinConsFirst(s[0], rest, sep);
      }
    }
  }

  /** A character in front of the first piece is in front of the join. */
  lemma JoinConsFirst(c: char, parts: seq<string>, sep: char)
    requires |parts| >= 1
    ensures JoinWith([[c] + parts[0]] + parts[1..], sep) == [c] + JoinWith(parts, sep)
  {
    var q := [[c] + parts[0]] + parts[1..];
    assert q[0] == [c] + parts[0] && q[1..] == parts[1..];
    if |parts| > 1 {
      var tail := JoinWith(parts[1..], sep);
      assert ([c] + parts[0]) + [sep] + tail == [c] + (parts[0] + [sep] + tail);
    }
  }

  /** A separator-free word in front of a string extends the first piece. */
  lemma {:induction false} SplitOnWordPrefix(w: string, t: string, sep: char)
    requires sep !in w
    ensures SplitOn(w + t, sep) == [w + SplitOn(t, sep)[0]] + SplitOn(t, sep)[1..]
    decreases |w|
  {
    if w != [] {
      SplitOnWordPrefix(w[1..], t, sep);
      assert (w + t)[1..] == w[1..] + t;
      assert (w + t)[0] == w[0];
      assert [w[0]] + (w[1..] + SplitOn(t, sep)[0]) == w + SplitOn(t, sep)[0];
    } else {
      var parts := SplitOn(t, sep);
      assert w + t == t && w + parts[0] == parts[0];
      assert parts == [parts[0]] + parts[1..];
    }
  }

  /** Without the separator there is one piece, the whole string. */
  lemma SplitOnNoSeparator(w: string, sep: char)
    requires sep !in w
    ensures SplitOn(w, sep) == [w]
  {
    SplitOnWordPrefix(w, "", sep);
    assert w + "" == w;
    assert SplitOn("", sep) == [""];
  }

  /** A word, the separator, then the rest: the word is the first piece. */
  lemma SplitOnAfterWord(w: string, t: string, sep: char)
    requires sep !in w
    ensures SplitOn(w + [sep] + t, sep) == [w] + SplitOn(t, sep)
  {
    SplitOnWordPrefix(w, [sep] + t, sep);
    assert w + [sep] + t == w + ([sep] + t);
    assert ([sep] + t)[1..] == t;
    assert w + "" == w;
  }

  /** Splitting around one more separator splits each side. */
  lemma {:induction false} SplitOnConcat(p: string, q: string, sep: char)
    ensures SplitOn(p + [sep] + q, sep) == SplitOn(p, sep) + SplitOn(q, sep)
    decreases |p|
  {
    var s := p + [sep] + q;
    if p == [] {
      assert s == [sep] + q;
      assert s[1..] == q;
    } else {
      SplitOnConcat(p[1..], q, sep);
      assert s[1..] == p[1..] + [sep] + q;
      assert s[0] == p[0];
      if p[0] != sep {
        ConsFirstAppend(p[0], SplitOn(p[1..], sep), SplitOn(q, sep));
      }
    }
  }

  lemma ConsFirstAppend(c: char, left: seq<string>, right: seq<string>)
    requires |left| >= 1
    ensures [[c] + (left + right)[0]] + (left + right)[1..] == ([[c] + left[0]] + left[1..]) + right
  {
    assert (left + right)[0] == left[0];
    assert (left + right)[1..] == left[1..] + right;
  }

  /** Splitting a join of separator-free pieces gives the pieces back. */
  lemma {:induction false} SplitJoin(parts: seq<string>, sep: char)
    requires |parts| >= 1
    requires forall i :: 0 <= i < |parts| ==> sep !in parts[i]
    ensures SplitOn(JoinWith(parts, sep), sep) == parts
    decreases |parts|
  {
    if |parts| == 1 {
      SplitOnWordPrefix(parts[0], "", sep);
      assert parts[0] + "" == parts[0];
    } else {
      SplitJoin(parts[1..], sep);
      SplitOnAfterWord(parts[0], JoinWith(parts[1..], sep), sep);
      assert parts == [parts[0]] + parts[1..];
    }
  }

  /** An optional string field that is truthy: present and not empty. */
  predicate Given(s: Option<string>)
  {
    s.Some? && s.value != ""
  }

  /** `s || fallback` for an optional string field. */
  function OrElse(s: Option<string>, fallback: string): string
  {
    if Given(s) then s.value else fallback
  }

  // ---------------------------------------------------------------------
  // `s.replace(pat, '')` with a string pattern: drop the first occurrence
  // ---------------------------------------------------------------------

  predicate OccursAt(s: string, pat: string, i: nat)
  {
    i + |pat| <= |s| && s[i..i + |pat|] == pat
  }

  /** The least position at or after `from` where `pat` occurs in `s`. */
  function FirstOccurrence(s: string, pat: string, from: nat): (r: Option<nat>)
    ensures r.Some? ==> from <= r.value && OccursAt(s, pat, r.value)
    ensures r.Some? ==> forall j :: from <= j < r.value ==> !OccursAt(s, pat, j)
    ensures r.None? ==> forall j :: from <= j ==> !OccursAt(s, pat, j)
    decreases |s| - from
  {
    if from + |pat| > |s| then None
    else if s[from..from + |pat|] == pat then Some(from)
    else FirstOccurrence(s, pat, from + 1)
  }

  /** `s.replace(pat, '')`: `s` without the first occurrence of `pat`, or `s` unchanged. */
  function RemoveFirst(s: string, pat: string): string
  {
    match FirstOccurrence(s, pat, 0)
    case None => s
    case Some(i) => s[..i] + s[i + |pat|..]
  }

  /** A pattern holding a character that `s` lacks does not occur in `s`. */
  lemma NoOccurrence(s: string, pat: string, k: nat)
    requires k < |pat| && pat[k] !in s
    ensures FirstOccurrence(s, pat, 0).None?
    ensures RemoveFirst(s, pat) == s
  {
    forall j: nat ensures !OccursAt(s, pat, j) {
      if j + |pat| <= |s| {
        assert s[j..j + |pat|][k] == s[j + k];
      }
    }
  }

  /** Removing a prefix that is present leaves what follows it. */
  lemma RemoveFirstPrefix(p: string, u: string)
    ensures RemoveFirst(p + u, p) == u
  {
    assert OccursAt(p + u, p, 0) by { assert (p + u)[0..|p|] == p; }
    assert FirstOccurrence(p + u, p, 0) == Some(0);
    assert (p + u)[|p|..] == u;
  }
}
