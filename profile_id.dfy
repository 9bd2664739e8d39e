/**
  `generateProfileId`: a profile title becomes an identifier by dropping
  everything but ASCII letters, digits and whitespace, splitting on runs of
  whitespace, capitalising each word (first character upper case, the rest
  lower case) and concatenating. Both copies of the generator use the same
  code, whose two `index === 0` branches are identical, so the first word is
  capitalised too ("episode of care" gives "EpisodeOfCare").
*/
module ProfileId {
  import opened Text

  /** `.replace(/[^a-zA-Z0-9\s]/g, '')`. */
  function StripDisallowed(s: string): (r: string)
    decreases |s|
  {
    if s == [] then []
    else if IsAsciiAlnum(s[0]) || IsJsWhitespace(s[0]) then [s[0]] + StripDisallowed(s[1..])
    else StripDisallowed(s[1..])
  }

  /** `s` without its leading run of whitespace. */
  function DropWhitespace(s: string): (r: string)
    ensures |r| <= |s|
    decreases |s|
  {
    if s != [] && IsJsWhitespace(s[0]) then DropWhitespace(s[1..]) else s
  }

  /**
    `.split(/\s+/)`: the pieces between maximal runs of whitespace; leading
    or trailing whitespace yields an empty first or last piece.
  */
  function SplitWhitespace(s: string): (words: seq<string>)
    ensures |words| >= 1
    decreases |s|
  {
    if s == [] then [""]
    else if IsJsWhitespace(s[0]) then [""] + SplitWhitespace(DropWhitespace(s))
    else
      var rest := SplitWhitespace(s[1..]);
      [[s[0]] + rest[0]] + rest[1..]
  }

  /** `word.charAt(0).toUpperCase() + word.slice(1).toLowerCase()`. */
  function Capitalize(word: string): string
  {
    if word == [] then [] else [ToUpper(word[0])] + LowerString(word[1..])
  }

  /** `.map(capitalise).join('')`. */
  function CapitalizeAll(words: seq<string>): string
    decreases |words|
  {
    if words == [] then [] else Capitalize(words[0]) + CapitalizeAll(words[1..])
  }

  function GenerateProfileId(name: string): string
  {
    CapitalizeAll(SplitWhitespace(StripDisallowed(name)))
  }

  // ---------------------------------------------------------------------
  // A reference definition: one left-to-right pass over the characters
  // ---------------------------------------------------------------------

  /**
    Whitespace is dropped; the first character after the start or after
    whitespace is upper-cased, every other character lower-cased.
  */
  function ScanId(s: string, atWordStart: bool): string
    decreases |s|
  {
    if s == [] then []
    else if IsJsWhitespace(s[0]) then ScanId(s[1..], true)
    else [if atWordStart then ToUpper(s[0]) else ToLower(s[0])] + ScanId(s[1..], false)
  }

  lemma {:induction false} ScanSkipsWhitespace(s: string, atWordStart: bool)
    requires s != [] && IsJsWhitespace(s[0])
    ensures ScanId(s, atWordStart) == ScanId(DropWhitespace(s), true)
    decreases |s|
  {
    if |s| > 1 && IsJsWhitespace(s[1]) {
      ScanSkipsWhitespace(s[1..], true);
    }
  }

  /**
    Splitting into words and capitalising each agrees with the one-pass scan;
    the second clause covers the state after the first character of a word.
  */
  lemma {:induction false} SplitCapitalizeIsScan(s: string)
    ensures CapitalizeAll(SplitWhitespace(s)) == ScanId(s, true)
    ensures LowerString(SplitWhitespace(s)[0]) + CapitalizeAll(SplitWhitespace(s)[1..]) == ScanId(s, false)
    decreases |s|
  {
    if s == [] {
    } else if IsJsWhitespace(s[0]) {
      SplitCapitalizeIsScan(DropWhitespace(s[1..]));
      WhitespaceStep(s);
    } else {
      SplitCapitalizeIsScan(s[1..]);
      WordStep(s[0], s[1..]);
      assert s == [s[0]] + s[1..];
    }
  }

  /** The step of SplitCapitalizeIsScan at a whitespace character. */
  lemma WhitespaceStep(s: string)
    requires s != [] && IsJsWhitespace(s[0])
    requires CapitalizeAll(SplitWhitespace(DropWhitespace(s))) == ScanId(DropWhitespace(s), true)
    ensures CapitalizeAll(SplitWhitespace(s)) == ScanId(s, true)
    ensures LowerString(SplitWhitespace(s)[0]) + CapitalizeAll(SplitWhitespace(s)[1..]) == ScanId(s, false)
  {
    var d := DropWhitespace(s);
    var words := SplitWhitespace(s);
    ScanSkipsWhitespace(s, true);
    ScanSkipsWhitespace(s, false);
    assert words == [""] + SplitWhitespace(d);
    assert words[1..] == SplitWhitespace(d);
    assert CapitalizeAll(words) == Capitalize("") + CapitalizeAll(SplitWhitespace(d));
    assert LowerString(words[0]) == "";
  }

  /** The step of SplitCapitalizeIsScan at a character inside a word. */
  lemma WordStep(c: char, t: string)
    requires !IsJsWhitespace(c)
    requires LowerString(SplitWhitespace(t)[0]) + CapitalizeAll(SplitWhitespace(t)[1..]) == ScanId(t, false)
    ensures CapitalizeAll(SplitWhitespace([c] + t)) == ScanId([c] + t, true)
    ensures LowerString(SplitWhitespace([c] + t)[0]) + CapitalizeAll(SplitWhitespace([c] + t)[1..]) == ScanId([c] + t, false)
  {
    var rest := SplitWhitespace(t);
    var w := [c] + rest[0];
    var words := SplitWhitespace([c] + t);
    assert ([c] + t)[0] == c && ([c] + t)[1..] == t;
    assert words[0] == w && words[1..] == rest[1..];
    WordStepFirst(c, rest[0], rest[1..]);
    WordStepInside(c, rest[0], rest[1..]);
  }

  lemma WordStepFirst(c: char, w: string, more: seq<string>)
    ensures CapitalizeAll([[c] + w] + more) == [ToUpper(c)] + (LowerString(w) + CapitalizeAll(more))
  {
    CapitalizeAllCons([c] + w, more);
    CapitalizeCons(c, w);
    var l, r := LowerString(w), CapitalizeAll(more);
    assert ([ToUpper(c)] + l) + r == [ToUpper(c)] + (l + r);
  }

  lemma CapitalizeAllCons(w: string, more: seq<string>)
    ensures CapitalizeAll([w] + more) == Capitalize(w) + CapitalizeAll(more)
  {
    assert ([w] + more)[0] == w && ([w] + more)[1..] == more;
  }

  lemma CapitalizeCons(c: char, w: string)
    ensures Capitalize([c] + w) == [ToUpper(c)] + LowerString(w)
  {
    assert ([c] + w)[0] == c && ([c] + w)[1..] == w;
  }

  lemma WordStepInside(c: char, w: string, more: seq<string>)
    ensures LowerString([c] + w) + CapitalizeAll(more) == [ToLower(c)] + (LowerString(w) + CapitalizeAll(more))
  {
    LowerCons(c, w);
    var l, r := LowerString(w), CapitalizeAll(more);
    assert ([ToLower(c)] + l) + r == [ToLower(c)] + (l + r);
  }

  lemma LowerCons(c: char, w: string)
    ensures LowerString([c] + w) == [ToLower(c)] + LowerString(w)
  {
    LowerStringAppend([c], w);
    assert LowerString([c]) == [ToLower(c)];
  }

  /** The identifier is the one-pass scan of the stripped title. */
  lemma ProfileIdIsScan(name: string)
    ensures GenerateProfileId(name) == ScanId(StripDisallowed(name), true)
  {
    SplitCapitalizeIsScan(StripDisallowed(name));
  }

  // ---------------------------------------------------------------------
  // What the identifier looks like
  // ---------------------------------------------------------------------

  predicate AllAlnum(s: string)
  {
    forall i :: 0 <= i < |s| ==> IsAsciiAlnum(s[i])
  }

  /** The ASCII letters and digits of `s`, in order. */
  function AlnumOnly(s: string): string
    decreases |s|
  {
    if s == [] then [] else (if IsAsciiAlnum(s[0]) then [s[0]] else []) + AlnumOnly(s[1..])
  }

  lemma {:induction false} ScanAlnum(s: string, atWordStart: bool)
    requires forall i :: 0 <= i < |s| ==> IsAsciiAlnum(s[i]) || IsJsWhitespace(s[i])
    ensures AllAlnum(ScanId(s, atWordStart))
    ensures LowerString(ScanId(s, atWordStart)) == LowerString(AlnumOnly(s))
    decreases |s|
  {
    if s != [] {
      ScanAlnum(s[1..], true);
      ScanAlnum(s[1..], false);
      if !IsJsWhitespace(s[0]) {
        var c := s[0];
        assert IsAsciiAlnum(c);
        var t := ScanId(s[1..], false);
        LowerStringAppend([if atWordStart then ToUpper(c) else ToLower(c)], t);
        LowerStringAppend([c], AlnumOnly(s[1..]));
      }
    }
  }

  lemma {:induction false} StripDisallowedKeeps(s: string)
    ensures forall i :: 0 <= i < |StripDisallowed(s)| ==>
              IsAsciiAlnum(StripDisallowed(s)[i]) || IsJsWhitespace(StripDisallowed(s)[i])
    ensures AlnumOnly(StripDisallowed(s)) == AlnumOnly(s)
    decreases |s|
  {
    if s != [] {
      StripDisallowedKeeps(s[1..]);
      if IsAsciiAlnum(s[0]) || IsJsWhitespace(s[0]) {
        var r := StripDisallowed(s[1..]);
        assert ([s[0]] + r)[1..] == r;
      }
    }
  }

  /**
    The identifier has only ASCII letters and digits, and spells the letters
    and digits of the title in order, up to case.
  */
  lemma ProfileIdShape(name: string)
    ensures AllAlnum(GenerateProfileId(name))
    ensures LowerString(GenerateProfileId(name)) == LowerString(AlnumOnly(name))
  {
    ProfileIdIsScan(name);
    StripDisallowedKeeps(name);
    ScanAlnum(StripDisallowed(name), true);
  }

  // ---------------------------------------------------------------------
  // Helpers for evaluating the derivation on given titles
  // ---------------------------------------------------------------------

  predicate NoWhitespace(w: string) { forall i :: 0 <= i < |w| ==> !IsJsWhitespace(w[i]) }

  /** A whitespace-free word in front of a string extends the first word. */
  lemma {:induction false} SplitWhitespaceWordPrefix(w: string, u: string)
    requires NoWhitespace(w)
    ensures SplitWhitespace(w + u) == [w + SplitWhitespace(u)[0]] + SplitWhitespace(u)[1..]
    decreases |w|
  {
    var parts := SplitWhitespace(u);
    if w == [] {
      assert w + u == u && w + parts[0] == parts[0];
      assert parts == [parts[0]] + parts[1..];
    } else {
      SplitWhitespaceWordPrefix(w[1..], u);
      assert (w + u)[0] == w[0] && (w + u)[1..] == w[1..] + u;
      assert [w[0]] + (w[1..] + parts[0]) == w + parts[0];
    }
  }

  /** A word, one space, then a string that does not start with whitespace. */
  lemma WordsOfSentence(w: string, t: string)
    requires NoWhitespace(w)
    requires t == [] || !IsJsWhitespace(t[0])
    ensures SplitWhitespace(w + " " + t) == [w] + SplitWhitespace(t)
  {
    SplitWhitespaceWordPrefix(w, " " + t);
    assert w + " " + t == w + (" " + t);
    assert DropWhitespace(" " + t) == t by { assert (" " + t)[1..] == t; }
    assert w + "" == w;
  }

  /** A string without whitespace is a single word. */
  lemma SingleWord(w: string)
    requires NoWhitespace(w)
    ensures SplitWhitespace(w) == [w]
  {
    SplitWhitespaceWordPrefix(w, "");
    assert w + "" == w;
  }

  /** Stripping works piecewise. */
  lemma {:induction false} StripDisallowedAppend(a: string, b: string)
    ensures StripDisallowed(a + b) == StripDisallowed(a) + StripDisallowed(b)
    decreases |a|
  {
    if a == [] {
      assert a + b == b;
    } else {
      StripDisallowedAppend(a[1..], b);
      assert (a + b)[0] == a[0] && (a + b)[1..] == a[1..] + b;
    }
  }

  /** A string of letters, digits and whitespace is left as it is. */
  lemma {:induction false} StripDisallowedAllowed(s: string)
    requires forall i :: 0 <= i < |s| ==> IsAsciiAlnum(s[i]) || IsJsWhitespace(s[i])
    ensures StripDisallowed(s) == s
    decreases |s|
  {
    if s != [] { StripDisallowedAllowed(s[1..]); }
  }
}
