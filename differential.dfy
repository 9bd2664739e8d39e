/**
  The lookup-or-append step shared by both copies of
  `buildDifferentialElements`: a cardinality or binding constraint updates,
  in place, the FIRST element whose path equals the constraint's element, or
  appends a new element when there is none.
*/
module Differential {
  import opened Wrappers
  import opened Fhir

  /** A request's `{ element, min, max }` entry. */
  datatype CardinalityConstraint = CardinalityConstraint(element: string, min: int, max: string)

  /** A request's `{ element, valueSetUrl, strength }` entry. */
  datatype BindingConstraint = BindingConstraint(element: string, valueSetUrl: string, strength: string)

  /** One constraint as the merger applies it. */
  datatype Constraint =
    | Card(element: string, lower: int, upper: string)
    | Bind(element: string, binding: Binding)

  function CardinalityOf(c: CardinalityConstraint): Constraint
  {
    Card(c.element, c.min, c.max)
  }

  /** The binding a binding constraint sets, with its strength mapped. */
  function BindingOf(b: BindingConstraint): Constraint
  {
    Bind(b.element, Binding(MapBindingStrength(b.strength), b.valueSetUrl))
  }

  function Cardinalities(cs: seq<CardinalityConstraint>): seq<Constraint>
  {
    seq(|cs|, i requires 0 <= i < |cs| => CardinalityOf(cs[i]))
  }

  function Bindings(bs: seq<BindingConstraint>): seq<Constraint>
  {
    seq(|bs|, i requires 0 <= i < |bs| => BindingOf(bs[i]))
  }

  /** The element appended when no element has the constraint's path. */
  function NewElement(c: Constraint): ElementDefinition
  {
    match c
    case Card(p, lo, hi) => BareElement(p).(min := Some(lo), max := Some(hi))
    case Bind(p, b) => BareElement(p).(binding := Some(b))
  }

  /** The in-place update of the element found: `min`/`max`, or `binding`. */
  function Update(e: ElementDefinition, c: Constraint): ElementDefinition
  {
    match c
    case Card(_, lo, hi) => e.(min := Some(lo), max := Some(hi))
    case Bind(_, b) => e.(binding := Some(b))
  }

  /** The element carries the values the constraint sets. */
  predicate Carries(e: ElementDefinition, c: Constraint)
  {
    match c
    case Card(_, lo, hi) => e.min == Some(lo) && e.max == Some(hi)
    case Bind(_, b) => e.binding == Some(b)
  }

  predicate SameKind(c: Constraint, d: Constraint)
  {
    c.Card? == d.Card?
  }

  /** `e` and `f` agree on everything a constraint cannot change. */
  predicate SameButConstraints(e: ElementDefinition, f: ElementDefinition)
  {
    f == e.(min := f.min, max := f.max, binding := f.binding)
  }

  predicate IsFirstWithPath(els: seq<ElementDefinition>, k: nat, p: string)
  {
    k < |els| && els[k].path == p && forall j :: 0 <= j < k ==> els[j].path != p
  }

  function PathSet(els: seq<ElementDefinition>): set<string>
  {
    set i | 0 <= i < |els| :: els[i].path
  }

  function ConstraintPaths(cs: seq<Constraint>): set<string>
  {
    set i | 0 <= i < |cs| :: cs[i].element
  }

  predicate DistinctPaths(els: seq<ElementDefinition>)
  {
    forall i, j :: 0 <= i < j < |els| ==> els[i].path != els[j].path
  }

  /** `elements.find(e => e.path === p)`, as the index of the element found. */
  function FindPath(els: seq<ElementDefinition>, p: string): (r: Option<nat>)
    ensures r.Some? ==> IsFirstWithPath(els, r.value, p)
    ensures r.None? ==> p !in PathSet(els)
  {
    FindPathFrom(els, p, 0)
  }

  function FindPathFrom(els: seq<ElementDefinition>, p: string, from: nat): (r: Option<nat>)
    requires forall j :: 0 <= j < from && j < |els| ==> els[j].path != p
    ensures r.Some? ==> IsFirstWithPath(els, r.value, p)
    ensures r.None? ==> forall j :: 0 <= j < |els| ==> els[j].path != p
    decreases |els| - from
  {
    if from >= |els| then None
    else if els[from].path == p then Some(from)
    else FindPathFrom(els, p, from + 1)
  }

  /**
    One lookup-or-append step. When an element has the constraint's path,
    only the first such element is updated and the length is unchanged;
    otherwise exactly the constraint's new element is appended.
  */
  function Apply(els: seq<ElementDefinition>, c: Constraint): (r: seq<ElementDefinition>)
    ensures c.element in PathSet(els) ==>
              |r| == |els| &&
              exists k: nat :: IsFirstWithPath(els, k, c.element) && r == els[k := Update(els[k], c)]
    ensures c.element !in PathSet(els) ==> r == els + [NewElement(c)]
  {
    match FindPath(els, c.element)
    case Some(k) => els[k := Update(els[k], c)]
    case None => els + [NewElement(c)]
  }

  /** The constraints applied one after the other, in input order. */
  function ApplyAll(els: seq<ElementDefinition>, cs: seq<Constraint>): seq<ElementDefinition>
    decreases |cs|
  {
    if cs == [] then els else Apply(ApplyAll(els, cs[..|cs| - 1]), cs[|cs| - 1])
  }

  /** One more constraint at the end is one more lookup-or-append step. */
  lemma ApplyAllSnoc(els: seq<ElementDefinition>, cs: seq<Constraint>, c: Constraint)
    ensures ApplyAll(els, cs + [c]) == Apply(ApplyAll(els, cs), c)
  {
    assert (cs + [c])[..|cs|] == cs;
  }

  /**
    The cardinality step of both builders: for each constraint in order,
    overwrite `min` and `max` of the first element with its path, or push a
    new element carrying them.
  */
  method ApplyCardinalityConstraints(start: seq<ElementDefinition>, cards: seq<CardinalityConstraint>)
    returns (elements: seq<ElementDefinition>)
    ensures elements == ApplyAll(start, Cardinalities(cards))
  {
    elements := start;
    for j := 0 to |cards|
      invariant elements == ApplyAll(start, Cardinalities(cards[..j]))
    {
      var c := cards[j];
      var existing := FindPath(elements, c.element);
      if existing.Some? {
        var k := existing.value;
        elements := elements[k := elements[k].(min := Some(c.min), max := Some(c.max))];
      } else {
        elements := elements + [BareElement(c.element).(min := Some(c.min), max := Some(c.max))];
      }
      assert Cardinalities(cards[..j + 1]) == Cardinalities(cards[..j]) + [CardinalityOf(c)];
      ApplyAllSnoc(start, Cardinalities(cards[..j]), CardinalityOf(c));
    }
    assert cards[..|cards|] == cards;
  }

  /**
    The binding step of both builders: for each constraint in order, set the
    binding (strength mapped, value set) of the first element with its path,
    or push a new element carrying it.
  */
  method ApplyBindingConstraints(start: seq<ElementDefinition>, binds: seq<BindingConstraint>)
    returns (elements: seq<ElementDefinition>)
    ensures elements == ApplyAll(start, Bindings(binds))
  {
    elements := start;
    for j := 0 to |binds|
      invariant elements == ApplyAll(start, Bindings(binds[..j]))
    {
      var b := binds[j];
      var existing := FindPath(elements, b.element);
      var bindingDefinition := Binding(MapBindingStrength(b.strength), b.valueSetUrl);
      if existing.Some? {
        var k := existing.value;
        elements := elements[k := elements[k].(binding := Some(bindingDefinition))];
      } else {
        elements := elements + [BareElement(b.element).(binding := Some(bindingDefinition))];
      }
      assert Bindings(binds[..j + 1]) == Bindings(binds[..j]) + [BindingOf(b)];
      ApplyAllSnoc(start, Bindings(binds[..j]), BindingOf(b));
    }
    assert binds[..|binds|] == binds;
  }

  // ---------------------------------------------------------------------
  // Paths and length
  // ---------------------------------------------------------------------

  lemma ApplyPaths(els: seq<ElementDefinition>, c: Constraint)
    ensures PathSet(Apply(els, c)) == PathSet(els) + {c.element}
    ensures |Apply(els, c)| == |els| + (if c.element in PathSet(els) then 0 else 1)
  {
    var r := Apply(els, c);
    if c.element in PathSet(els) {
      var k: nat :| IsFirstWithPath(els, k, c.element) && r == els[k := Update(els[k], c)];
      assert forall i :: 0 <= i < |r| ==> r[i].path == els[i].path;
    } else {
      assert r[|els|].path == c.element;
      assert forall i :: 0 <= i < |els| ==> r[i] == els[i];
    }
  }

  /**
    After all constraints the paths present are the old ones plus the
    constraints' paths, and the list grew by one element per constraint path
    that was not present before: a path met again finds the element its
    first constraint appended.
  */
  lemma {:induction false} ApplyAllPaths(els: seq<ElementDefinition>, cs: seq<Constraint>)
    ensures PathSet(ApplyAll(els, cs)) == PathSet(els) + ConstraintPaths(cs)
    ensures |ApplyAll(els, cs)| == |els| + |ConstraintPaths(cs) - PathSet(els)|
    decreases |cs|
  {
    if cs == [] {
      assert ConstraintPaths(cs) == {};
    } else {
      var front, c := cs[..|cs| - 1], cs[|cs| - 1];
      ApplyAllPaths(els, front);
      var mid := ApplyAll(els, front);
      assert ApplyAll(els, cs) == Apply(mid, c);
      ApplyPaths(mid, c);
      ConstraintPathsLast(cs);
      PathCountStep(PathSet(els), ConstraintPaths(front), PathSet(mid), c.element,
                    |els|, |mid|, |Apply(mid, c)|);
    }
  }

  /** The set arithmetic of one ApplyAllPaths step, on plain sets and lengths. */
  lemma PathCountStep(present: set<string>, seen: set<string>, now: set<string>, x: string,
                      start: nat, before: nat, after: nat)
    requires now == present + seen
    requires before == start + |seen - present|
    requires after == before + (if x in now then 0 else 1)
    ensures now + {x} == present + (seen + {x})
    ensures after == start + |(seen + {x}) - present|
  {
    NewPathCount(seen, present, x);
  }

  lemma ConstraintPathsLast(cs: seq<Constraint>)
    requires cs != []
    ensures ConstraintPaths(cs) == ConstraintPaths(cs[..|cs| - 1]) + {cs[|cs| - 1].element}
  {
    var front := cs[..|cs| - 1];
    assert forall i :: 0 <= i < |front| ==> front[i] == cs[i];
  }

  /** The set arithmetic of one ApplyAllPaths step. */
  lemma NewPathCount(seen: set<string>, present: set<string>, x: string)
    ensures |(seen + {x}) - present| == |seen - present| + (if x in present + seen then 0 else 1)
  {
    if x in present + seen {
      assert (seen + {x}) - present == seen - present;
    } else {
      assert (seen + {x}) - present == (seen - present) + {x};
    }
  }

  // ---------------------------------------------------------------------
  // Elements already present
  // ---------------------------------------------------------------------

  lemma ApplyKeeps(els: seq<ElementDefinition>, c: Constraint)
    ensures |Apply(els, c)| >= |els|
    ensures forall i :: 0 <= i < |els| ==> SameButConstraints(els[i], Apply(els, c)[i])
    ensures forall i :: 0 <= i < |els| && !IsFirstWithPath(els, i, c.element) ==> Apply(els, c)[i] == els[i]
  {
    var r := Apply(els, c);
    if c.element in PathSet(els) {
      var k: nat :| IsFirstWithPath(els, k, c.element) && r == els[k := Update(els[k], c)];
      forall i | 0 <= i < |els| && !IsFirstWithPath(els, i, c.element)
        ensures r[i] == els[i]
      {
        if i == k { assert false; }
      }
    }
  }

  /**
    The constraints never change an element's identity, path, short text,
    definition, must-support flag, slice or type; an element changes at all
    only if it is the first with its path and a constraint names that path.
  */
  lemma {:induction false} ApplyAllKeeps(els: seq<ElementDefinition>, cs: seq<Constraint>)
    ensures |ApplyAll(els, cs)| >= |els|
    ensures forall i :: 0 <= i < |els| ==> SameButConstraints(els[i], ApplyAll(els, cs)[i])
    ensures forall i :: 0 <= i < |els| && els[i].path !in ConstraintPaths(cs) ==> ApplyAll(els, cs)[i] == els[i]
    ensures forall i :: 0 <= i < |els| && !IsFirstWithPath(els, i, els[i].path) ==> ApplyAll(els, cs)[i] == els[i]
    decreases |cs|
  {
    if cs != [] {
      var front, c := cs[..|cs| - 1], cs[|cs| - 1];
      ApplyAllKeeps(els, front);
      var mid := ApplyAll(els, front);
      ApplyKeeps(mid, c);
      var r := ApplyAll(els, cs);
      ConstraintPathsLast(cs);
      forall i | 0 <= i < |els|
        ensures mid[i].path == els[i].path
        ensures IsFirstWithPath(mid, i, c.element) ==> IsFirstWithPath(els, i, els[i].path)
      {
        assert SameButConstraints(els[i], mid[i]);
        if IsFirstWithPath(mid, i, c.element) {
          forall j | 0 <= j < i ensures els[j].path != els[i].path {
            assert SameButConstraints(els[j], mid[j]);
          }
        }
      }
    }
  }

  // ---------------------------------------------------------------------
  // Distinct paths and the last constraint on a path
  // ---------------------------------------------------------------------

  /** Lookup-or-append never introduces a second element with a path. */
  lemma {:induction false} ApplyAllKeepsDistinct(els: seq<ElementDefinition>, cs: seq<Constraint>)
    requires DistinctPaths(els)
    ensures DistinctPaths(ApplyAll(els, cs))
    decreases |cs|
  {
    if cs != [] {
      var front, c := cs[..|cs| - 1], cs[|cs| - 1];
      ApplyAllKeepsDistinct(els, front);
      var mid := ApplyAll(els, front);
      var r := Apply(mid, c);
      if c.element in PathSet(mid) {
        var k: nat :| IsFirstWithPath(mid, k, c.element) && r == mid[k := Update(mid[k], c)];
        assert forall i :: 0 <= i < |r| ==> r[i].path == mid[i].path;
      } else {
        assert forall i :: 0 <= i < |mid| ==> r[i] == mid[i] && r[i].path != c.element;
      }
    }
  }

  /** Where `c` lands in `Apply(els, c)`: the first element with its path. */
  lemma ApplyLands(els: seq<ElementDefinition>, c: Constraint)
    ensures FindPath(Apply(els, c), c.element).Some?
    ensures Carries(Apply(els, c)[FindPath(Apply(els, c), c.element).value], c)
    ensures FindPath(els, c.element).Some? ==>
              FindPath(Apply(els, c), c.element) == FindPath(els, c.element) &&
              Apply(els, c)[FindPath(els, c.element).value] == Update(els[FindPath(els, c.element).value], c)
  {
    var r := Apply(els, c);
    var p := c.element;
    assert p in PathSet(r) by { ApplyPaths(els, c); }
    var k := FindPath(r, p).value;
    match FindPath(els, p)
    case Some(k0) => {
      assert r == els[k0 := Update(els[k0], c)];
      assert IsFirstWithPath(r, k0, p);
      FirstIsUnique(r, k, k0, p);
    }
    case None => {
      assert r == els + [NewElement(c)];
      assert IsFirstWithPath(r, |els|, p);
      FirstIsUnique(r, k, |els|, p);
    }
  }

  lemma FirstIsUnique(els: seq<ElementDefinition>, a: nat, b: nat, p: string)
    requires IsFirstWithPath(els, a, p) && IsFirstWithPath(els, b, p)
    ensures a == b
  {
  }

  /** A constraint on another path leaves the first element with `p` alone. */
  lemma ApplyOtherPath(els: seq<ElementDefinition>, c: Constraint, p: string)
    requires c.element != p
    ensures FindPath(Apply(els, c), p) == FindPath(els, p)
    ensures FindPath(els, p).Some? ==> Apply(els, c)[FindPath(els, p).value] == els[FindPath(els, p).value]
  {
    var r := Apply(els, c);
    ApplyKeeps(els, c);
    assert forall i :: 0 <= i < |els| ==> r[i].path == els[i].path by {
      assert forall i :: 0 <= i < |els| ==> SameButConstraints(els[i], r[i]);
    }
    assert forall i :: |els| <= i < |r| ==> r[i].path == c.element by {
      ApplyPaths(els, c);
      if c.element !in PathSet(els) { assert r == els + [NewElement(c)]; }
    }
    match FindPath(els, p)
    case Some(k) => {
      assert IsFirstWithPath(r, k, p);
      assert !IsFirstWithPath(els, k, c.element);
    }
    case None => {
      assert forall j :: 0 <= j < |r| ==> r[j].path != p;
    }
  }

  /**
    Last constraint wins: after all constraints, the first element with a
    path carries the values of the last constraint of each kind on that path.
  */
  lemma {:induction false} LastConstraintWins(els: seq<ElementDefinition>, cs: seq<Constraint>, i: nat)
    requires i < |cs|
    requires forall j :: i < j < |cs| && cs[j].element == cs[i].element ==> !SameKind(cs[j], cs[i])
    ensures FindPath(ApplyAll(els, cs), cs[i].element).Some?
    ensures Carries(ApplyAll(els, cs)[FindPath(ApplyAll(els, cs), cs[i].element).value], cs[i])
    decreases |cs|
  {
    var front, c := cs[..|cs| - 1], cs[|cs| - 1];
    var mid := ApplyAll(els, front);
    var p := cs[i].element;
    if i == |cs| - 1 {
      ApplyLands(mid, c);
    } else {
      assert front[i] == cs[i];
      LastConstraintWins(els, front, i);
      var k := FindPath(mid, p).value;
      if c.element == p {
        assert !SameKind(c, cs[i]);
        ApplyLands(mid, c);
      } else {
        ApplyOtherPath(mid, c, p);
      }
    }
  }

  // ---------------------------------------------------------------------
  // The merger's starting list and its two constraint phases
  // ---------------------------------------------------------------------

  /** The base element: id and path the base type, short the title, definition the description. */
  function BaseElement(baseType: string, profileName: string, description: string): ElementDefinition
  {
    BareElement(baseType).(short := Some(profileName), definition := Some(description))
  }

  /** `{ id: p, path: p, mustSupport: true }`. */
  function MustSupportElement(p: string): ElementDefinition
  {
    BareElement(p).(mustSupport := Some(true))
  }

  function MustSupportElements(ms: seq<string>): seq<ElementDefinition>
  {
    seq(|ms|, i requires 0 <= i < |ms| => MustSupportElement(ms[i]))
  }

  /** The list before any constraint: the base element, then one element per must-support path. */
  function StartElements(baseType: string, profileName: string, description: string, ms: seq<string>): seq<ElementDefinition>
  {
    [BaseElement(baseType, profileName, description)] + MustSupportElements(ms)
  }

  /** The first two steps of both builders: push the base element, then one element per must-support path. */
  method PushStartElements(baseType: string, profileName: string, description: string, ms: seq<string>)
    returns (elements: seq<ElementDefinition>)
    ensures elements == StartElements(baseType, profileName, description, ms)
  {
    elements := [BareElement(baseType).(short := Some(profileName), definition := Some(description))];
    for i := 0 to |ms|
      invariant elements == StartElements(baseType, profileName, description, ms[..i])
    {
      elements := elements + [BareElement(ms[i]).(mustSupport := Some(true))];
      assert MustSupportElements(ms[..i + 1]) == MustSupportElements(ms[..i]) + [MustSupportElement(ms[i])];
    }
    assert ms[..|ms|] == ms;
  }

  /** All cardinality constraints in order, then all binding constraints in order. */
  function MergedElements(start: seq<ElementDefinition>, cards: seq<CardinalityConstraint>, binds: seq<BindingConstraint>): seq<ElementDefinition>
  {
    ApplyAll(ApplyAll(start, Cardinalities(cards)), Bindings(binds))
  }

  function Elements(xs: seq<string>): set<string>
  {
    set i | 0 <= i < |xs| :: xs[i]
  }

  predicate NoDuplicates(xs: seq<string>)
  {
    forall i, j :: 0 <= i < j < |xs| ==> xs[i] != xs[j]
  }

  lemma StartPaths(baseType: string, profileName: string, description: string, ms: seq<string>)
    ensures |StartElements(baseType, profileName, description, ms)| == 1 + |ms|
    ensures PathSet(StartElements(baseType, profileName, description, ms)) == {baseType} + Elements(ms)
  {
    var start := StartElements(baseType, profileName, description, ms);
    assert start[0].path == baseType;
    assert forall i :: 0 <= i < |ms| ==> start[1 + i].path == ms[i];
    forall p | p in PathSet(start) ensures p in {baseType} + Elements(ms) {
      var k :| 0 <= k < |start| && start[k].path == p;
      if k > 0 { assert ms[k - 1] == p; }
    }
  }

  /** The starting list has distinct paths exactly when the must-support paths do and none is the base type. */
  lemma StartDistinct(baseType: string, profileName: string, description: string, ms: seq<string>)
    ensures DistinctPaths(StartElements(baseType, profileName, description, ms)) <==>
            NoDuplicates(ms) && baseType !in Elements(ms)
  {
    var start := StartElements(baseType, profileName, description, ms);
    assert start[0].path == baseType;
    assert forall i :: 0 <= i < |ms| ==> start[1 + i].path == ms[i];
    if DistinctPaths(start) {
      forall i, j | 0 <= i < j < |ms| ensures ms[i] != ms[j] {
        assert start[1 + i].path != start[1 + j].path;
      }
      forall k | 0 <= k < |ms| ensures ms[k] != baseType {
        assert start[0].path != start[1 + k].path;
      }
    }
  }

  /** Applying two constraint lists one after the other is applying their concatenation. */
  lemma {:induction false} ApplyAllAppend(els: seq<ElementDefinition>, a: seq<Constraint>, b: seq<Constraint>)
    ensures ApplyAll(ApplyAll(els, a), b) == ApplyAll(els, a + b)
    decreases |b|
  {
    if b == [] {
      assert a + b == a;
    } else {
      ApplyAllAppend(els, a, b[..|b| - 1]);
      assert (a + b)[..|a + b| - 1] == a + b[..|b| - 1];
    }
  }

  /**
    Length after both phases: one element for the base, one per must-support
    path (duplicates kept), and one per constraint path that was not yet
    present when its first constraint was applied.
  */
  lemma MergedLength(baseType: string, profileName: string, description: string, ms: seq<string>,
                     cards: seq<CardinalityConstraint>, binds: seq<BindingConstraint>)
    ensures var present := {baseType} + Elements(ms);
            var cardPaths, bindPaths := ConstraintPaths(Cardinalities(cards)), ConstraintPaths(Bindings(binds));
            |MergedElements(StartElements(baseType, profileName, description, ms), cards, binds)|
            == 1 + |ms| + |cardPaths - present| + |bindPaths - (present + cardPaths)|
    ensures PathSet(MergedElements(StartElements(baseType, profileName, description, ms), cards, binds))
            == {baseType} + Elements(ms) + ConstraintPaths(Cardinalities(cards)) + ConstraintPaths(Bindings(binds))
  {
    var start := StartElements(baseType, profileName, description, ms);
    StartPaths(baseType, profileName, description, ms);
    ApplyAllPaths(start, Cardinalities(cards));
    ApplyAllPaths(ApplyAll(start, Cardinalities(cards)), Bindings(binds));
  }

  /**
    Element 0 is the base element and elements 1..|ms| are the must-support
    elements in input order; constraints only touch their min, max and
    binding, the base element not at all unless a constraint names its path,
    and a repeated must-support path's later copies not at all.
  */
  lemma MergedStart(baseType: string, profileName: string, description: string, ms: seq<string>,
                    cards: seq<CardinalityConstraint>, binds: seq<BindingConstraint>)
    ensures var r := MergedElements(StartElements(baseType, profileName, description, ms), cards, binds);
            |r| >= 1 + |ms|
            && SameButConstraints(BaseElement(baseType, profileName, description), r[0])
            && (forall i :: 0 <= i < |ms| ==> SameButConstraints(MustSupportElement(ms[i]), r[1 + i]))
    ensures var r := MergedElements(StartElements(baseType, profileName, description, ms), cards, binds);
            baseType !in ConstraintPaths(Cardinalities(cards)) + ConstraintPaths(Bindings(binds)) ==>
              r[0] == BaseElement(baseType, profileName, description)
    ensures var r := MergedElements(StartElements(baseType, profileName, description, ms), cards, binds);
            forall i, j :: 0 <= i < j < |ms| && ms[i] == ms[j] ==> r[1 + j] == MustSupportElement(ms[j])
  {
    var start := StartElements(baseType, profileName, description, ms);
    var cs, bs := Cardinalities(cards), Bindings(binds);
    ApplyAllAppend(start, cs, bs);
    ApplyAllKeeps(start, cs + bs);
    ConstraintPathsAppend(cs, bs);
    assert start[0] == BaseElement(baseType, profileName, description);
    assert forall i :: 0 <= i < |ms| ==> start[1 + i] == MustSupportElement(ms[i]);
    forall i, j | 0 <= i < j < |ms| && ms[i] == ms[j] ensures !IsFirstWithPath(start, 1 + j, start[1 + j].path) {
      assert start[1 + i].path == ms[i];
    }
  }

  lemma ConstraintPathsAppend(a: seq<Constraint>, b: seq<Constraint>)
    ensures ConstraintPaths(a + b) == ConstraintPaths(a) + ConstraintPaths(b)
  {
    var ab := a + b;
    assert forall i :: 0 <= i < |a| ==> ab[i] == a[i];
    assert forall i :: 0 <= i < |b| ==> ab[|a| + i] == b[i];
  }

  /** After both phases paths are distinct exactly when the starting list's paths were. */
  lemma MergedDistinct(baseType: string, profileName: string, description: string, ms: seq<string>,
                       cards: seq<CardinalityConstraint>, binds: seq<BindingConstraint>)
    ensures DistinctPaths(MergedElements(StartElements(baseType, profileName, description, ms), cards, binds))
            <==> NoDuplicates(ms) && baseType !in Elements(ms)
  {
    var start := StartElements(baseType, profileName, description, ms);
    var cs, bs := Cardinalities(cards), Bindings(binds);
    var mid := ApplyAll(start, cs);
    var r := ApplyAll(mid, bs);
    StartDistinct(baseType, profileName, description, ms);
    if DistinctPaths(start) {
      ApplyAllKeepsDistinct(start, cs);
      ApplyAllKeepsDistinct(mid, bs);
    } else {
      var i, j :| 0 <= i < j < |start| && start[i].path == start[j].path;
      ApplyAllKeeps(start, cs);
      ApplyAllKeeps(mid, bs);
      assert SameButConstraints(start[i], mid[i]) && SameButConstraints(mid[i], r[i]);
      assert SameButConstraints(start[j], mid[j]) && SameButConstraints(mid[j], r[j]);
      assert r[i].path == r[j].path;
    }
  }

  /**
    The last cardinality constraint on a path wins: the first element with
    that path ends with its `min` and `max` (bindings do not touch them).
  */
  lemma CardinalityWins(start: seq<ElementDefinition>, cards: seq<CardinalityConstraint>, binds: seq<BindingConstraint>, i: nat)
    requires i < |cards|
    requires forall j :: i < j < |cards| ==> cards[j].element != cards[i].element
    ensures var r := MergedElements(start, cards, binds);
            FindPath(r, cards[i].element).Some?
            && r[FindPath(r, cards[i].element).value].min == Some(cards[i].min)
            && r[FindPath(r, cards[i].element).value].max == Some(cards[i].max)
  {
    var cs, bs := Cardinalities(cards), Bindings(binds);
    ApplyAllAppend(start, cs, bs);
    var all := cs + bs;
    assert all[i] == CardinalityOf(cards[i]);
    forall j | i < j < |cs| ensures all[j].element != all[i].element {
      assert all[j] == CardinalityOf(cards[j]);
    }
    forall j | |cs| <= j < |all| ensures !SameKind(all[j], all[i]) {
      assert all[j] == bs[j - |cs|];
    }
    LastConstraintWins(start, all, i);
  }

  /**
    The last binding constraint on a path wins: the first element with that
    path ends with its value set and its mapped strength.
  */
  lemma BindingWins(start: seq<ElementDefinition>, cards: seq<CardinalityConstraint>, binds: seq<BindingConstraint>, i: nat)
    requires i < |binds|
    requires forall j :: i < j < |binds| ==> binds[j].element != binds[i].element
    ensures var r := MergedElements(start, cards, binds);
            FindPath(r, binds[i].element).Some?
            && r[FindPath(r, binds[i].element).value].binding
               == Some(Binding(MapBindingStrength(binds[i].strength), binds[i].valueSetUrl))
  {
    var bs := Bindings(binds);
    assert forall j :: 0 <= j < |bs| ==> bs[j].element == binds[j].element;
    assert bs[i] == BindingOf(binds[i]);
    LastConstraintWins(ApplyAll(start, Cardinalities(cards)), bs, i);
  }

  /** An element that is not an extension slice: no slice name and no type. */
  predicate NotASlice(e: ElementDefinition)
  {
    e.sliceName.None? && e.types.None?
  }

  /** Lookup-or-append never creates an extension slice. */
  lemma {:induction false} ApplyAllNoSlices(els: seq<ElementDefinition>, cs: seq<Constraint>)
    requires forall i :: 0 <= i < |els| ==> NotASlice(els[i])
    ensures forall i :: 0 <= i < |ApplyAll(els, cs)| ==> NotASlice(ApplyAll(els, cs)[i])
    decreases |cs|
  {
    if cs != [] {
      var front, c := cs[..|cs| - 1], cs[|cs| - 1];
      ApplyAllNoSlices(els, front);
      var mid := ApplyAll(els, front);
      ApplyKeeps(mid, c);
      var r := Apply(mid, c);
      forall i | 0 <= i < |r| ensures NotASlice(r[i]) {
        if i < |mid| {
          assert SameButConstraints(mid[i], r[i]);
        } else {
          assert r == mid + [NewElement(c)];
        }
      }
    }
  }
}
