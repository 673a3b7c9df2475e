/** Span-dependent branches of the assembler a86: which of them must be long (sdi.c). */
module Relax {

  import opened Basics

  datatype Section = Text | Data | Bss

  /** What relaxation needs to know of one branch: where it lies with all branches short, the length
      of its long form, and its target in the same layout, if that is defined in the same section. */
  datatype Item = Item(loc: int, sec: Section, gleng: nat, target: Option<int>)

  /** Bytes added before offset x of a section by long branches; `sdi_inc`. */
  function Inc(items: seq<Item>, lens: seq<nat>, sec: Section, x: int): int
    requires |lens| == |items|
  {
    if items == [] then 0
    else
      var n := |items| - 1;
      Inc(items[..n], lens[..n], sec, x) + Extra(items[n], lens[n], sec, x)
  }

  function Extra(it: Item, leng: nat, sec: Section, x: int): int {
    if it.sec == sec && it.loc < x then leng - 2 else 0
  }

  /** Where offset x of a section ends up. */
  function Real(items: seq<Item>, lens: seq<nat>, sec: Section, x: int): int
    requires |lens| == |items|
  {
    x + Inc(items, lens, sec, x)
  }

  /** The displacement the two-byte form of branch i would need. */
  function Exact(items: seq<Item>, lens: seq<nat>, i: nat): int
    requires |lens| == |items| && i < |items| && items[i].target.Some?
  {
    Real(items, lens, items[i].sec, items[i].target.value) - Real(items, lens, items[i].sec, items[i].loc) - 2
  }

  predicate InByte(span: int) {
    -128 <= span <= 127
  }

  /** Branches do not overlap, and no target lies inside one. */
  ghost predicate Placed(items: seq<Item>) {
    && (forall i: nat :: i < |items| ==> items[i].gleng > 2)
    && (forall i: nat, j: nat :: i < |items| && j < |items| && i != j && items[i].sec == items[j].sec ==>
          items[i].loc + 2 <= items[j].loc || items[j].loc + 2 <= items[i].loc)
    && (forall i: nat, j: nat :: i < |items| && j < |items| && items[i].target.Some? && items[i].sec == items[j].sec ==>
          items[i].target.value <= items[j].loc || items[j].loc + 2 <= items[i].target.value)
  }

  ghost predicate Lengths(items: seq<Item>, lens: seq<nat>) {
    |lens| == |items| && forall i: nat :: i < |items| ==> lens[i] == 2 || lens[i] == items[i].gleng
  }

  /** An assignment of lengths in which every short branch reaches its target. */
  ghost predicate Fits(items: seq<Item>, lens: seq<nat>) {
    Lengths(items, lens) &&
    forall i: nat :: i < |items| && lens[i] == 2 ==> items[i].target.Some? && InByte(Exact(items, lens, i))
  }

  /** No assignment that fits has a shorter branch anywhere. */
  ghost predicate Least(items: seq<Item>, lens: seq<nat>)
    requires |lens| == |items|
  {
    forall other: seq<nat> :: Fits(items, other) ==> AtMost(lens, other)
  }

  predicate AtMost(a: seq<nat>, b: seq<nat>) {
    |a| == |b| && forall i: nat :: i < |a| ==> a[i] <= b[i]
  }

  // ---------------------------------------------------------------------------------------
  // Growth is monotone

  lemma {:induction false} IncMonotone(items: seq<Item>, lens: seq<nat>, sec: Section, x: int, y: int)
    requires Lengths(items, lens) && x <= y && forall i: nat :: i < |items| ==> items[i].gleng > 2
    ensures 0 <= Inc(items, lens, sec, x) <= Inc(items, lens, sec, y)
  {
    if items != [] {
      var n := |items| - 1;
      IncMonotone(items[..n], lens[..n], sec, x, y);
    }
  }

  /** Making branch i longer by delta moves what lies behind it. */
  lemma {:induction false} IncUpdate(items: seq<Item>, lens: seq<nat>, i: nat, delta: nat, sec: Section, x: int)
    requires |lens| == |items| && i < |items|
    ensures Inc(items, lens[i := lens[i] + delta], sec, x)
         == Inc(items, lens, sec, x) + if items[i].sec == sec && items[i].loc < x then delta else 0
  {
    var n := |items| - 1;
    var more := lens[i := lens[i] + delta];
    if i < n {
      IncUpdate(items[..n], lens[..n], i, delta, sec, x);
      assert more[..n] == lens[..n][i := lens[i] + delta];
    } else {
      assert more[..n] == lens[..n];
    }
  }

  /** Growth between x and y is larger in a pointwise larger assignment. */
  lemma {:induction false} GapMonotone(items: seq<Item>, a: seq<nat>, b: seq<nat>, sec: Section, x: int, y: int)
    requires |a| == |items| && AtMost(a, b) && x <= y
    ensures Inc(items, a, sec, y) - Inc(items, a, sec, x) <= Inc(items, b, sec, y) - Inc(items, b, sec, x)
  {
    if items != [] {
      var n := |items| - 1;
      GapMonotone(items[..n], a[..n], b[..n], sec, x, y);
    }
  }

  /** Lengthening never brings a displacement nearer to zero. */
  lemma {:induction false} ExactMonotone(items: seq<Item>, a: seq<nat>, b: seq<nat>, i: nat)
    requires Placed(items) && Lengths(items, a) && Lengths(items, b) && AtMost(a, b)
    requires i < |items| && items[i].target.Some?
    ensures if items[i].target.value <= items[i].loc then Exact(items, b, i) <= Exact(items, a, i) < 0
            else 0 <= Exact(items, a, i) <= Exact(items, b, i)
  {
    var it := items[i];
    var v := it.target.value;
    if v <= it.loc {
      GapMonotone(items, a, b, it.sec, v, it.loc);
      IncMonotone(items, a, it.sec, v, it.loc);
    } else {
      GapMonotone(items, a, b, it.sec, it.loc, v);
      IncMonotone(items, a, it.sec, it.loc, v);
    }
  }

  /** Order of places is kept by growth. */
  lemma {:induction false} RealOrder(items: seq<Item>, lens: seq<nat>, sec: Section, x: int, y: int)
    requires Lengths(items, lens) && forall i: nat :: i < |items| ==> items[i].gleng > 2
    ensures x <= y ==> Real(items, lens, sec, x) + (y - x) <= Real(items, lens, sec, y)
    ensures y <= x ==> Real(items, lens, sec, y) + (x - y) <= Real(items, lens, sec, x)
  {
    if x <= y { IncMonotone(items, lens, sec, x, y); } else { IncMonotone(items, lens, sec, y, x); }
  }

  // ---------------------------------------------------------------------------------------
  // What the descriptors keep

  /** span and base of a branch while relaxation runs. A short branch's span is exact; a long one's
      need not be, but both it and the exact displacement stay out of a byte's range. */
  predicate Tracks(items: seq<Item>, lens: seq<nat>, i: nat, span: int, base: int)
    requires |lens| == |items| && i < |items|
  {
    items[i].target.Some? ==>
      && base == Real(items, lens, items[i].sec, items[i].loc) + 2
      && (lens[i] == 2 ==> span == Exact(items, lens, i))
      && (lens[i] != 2 ==> !InByte(span) && !InByte(Exact(items, lens, i)))
  }

  /** `longsdi` on another branch's span when the branch really at `loc` grows. */
  function MovedSpan(span: int, base: int, loc: int, delta: nat): int {
    if span < 0 && span + base <= loc && loc < base then span - delta
    else if span >= 0 && base <= loc && loc < span + base then span + delta
    else span
  }

  function MovedBase(base: int, loc: int, delta: nat): int {
    if base > loc then base + delta else base
  }

  /** The updates of `longsdi` keep every other branch in its section tracked. */
  lemma {:induction false} MoveTracks(items: seq<Item>, lens: seq<nat>, s: nat, t: nat, span: int, base: int,
                                      delta: nat)
    requires Placed(items) && Lengths(items, lens) && s < |items| && t < |items| && s != t
    requires items[t].sec == items[s].sec && items[t].target.Some?
    requires lens[s] == 2 && delta == items[s].gleng - 2
    requires Tracks(items, lens, t, span, base)
    ensures var loc := Real(items, lens, items[s].sec, items[s].loc);
      Tracks(items, lens[s := lens[s] + delta], t, MovedSpan(span, base, loc, delta), MovedBase(base, loc, delta))
  {
    var more, sec := lens[s := lens[s] + delta], items[s].sec;
    var v := items[t].target.value;
    IncUpdate(items, lens, s, delta, sec, items[t].loc);
    IncUpdate(items, lens, s, delta, sec, v);
    RealOrder(items, lens, sec, items[s].loc, items[t].loc);
    if lens[t] == 2 {
      RealOrder(items, lens, sec, items[s].loc, v);
      RealOrder(items, lens, sec, items[t].loc, v);
    } else {
      ExactMonotone(items, lens, more, t);
    }
  }

  /** Growth in another section is not seen. */
  lemma {:induction false} OtherSectionTracks(items: seq<Item>, lens: seq<nat>, s: nat, t: nat, span: int, base: int,
                                              delta: nat)
    requires |lens| == |items| && s < |items| && t < |items| && items[t].sec != items[s].sec
    requires Tracks(items, lens, t, span, base)
    ensures Tracks(items, lens[s := lens[s] + delta], t, span, base)
  {
    if items[t].target.Some? {
      IncUpdate(items, lens, s, delta, items[t].sec, items[t].loc);
      IncUpdate(items, lens, s, delta, items[t].sec, items[t].target.value);
    }
  }

  /** A branch made long keeps its span and base, and was out of range for good. */
  lemma {:induction false} LongTracks(items: seq<Item>, lens: seq<nat>, s: nat, span: int, base: int)
    requires Placed(items) && Lengths(items, lens) && s < |items| && lens[s] == 2
    requires Tracks(items, lens, s, span, base) && (items[s].target.Some? ==> !InByte(span))
    ensures Tracks(items, lens[s := items[s].gleng], s, span, base)
  {
    if items[s].target.Some? {
      var delta := items[s].gleng - 2;
      assert lens[s := items[s].gleng] == lens[s := lens[s] + delta];
      IncUpdate(items, lens, s, delta, items[s].sec, items[s].loc);
      ExactMonotone(items, lens, lens[s := items[s].gleng], s);
    }
  }

  /** A branch that must be long now must be long in every assignment that fits. */
  lemma {:induction false} LongStaysLeast(items: seq<Item>, lens: seq<nat>, s: nat)
    requires Placed(items) && Lengths(items, lens) && Least(items, lens) && s < |items| && lens[s] == 2
    requires items[s].target.Some? ==> !InByte(Exact(items, lens, s))
    ensures Least(items, lens[s := items[s].gleng])
  {
    forall other: seq<nat> | Fits(items, other)
      ensures AtMost(lens[s := items[s].gleng], other)
    {
      assert AtMost(lens, other);
      if other[s] == 2 {
        ExactMonotone(items, lens, other, s);
        assert false;
      }
    }
  }

  /** Only a short branch's span is exact. Here a long branch at 0 aims just behind a branch at 129;
      when that one grows, `longsdi` compares its real place, 132, with a target that leaves out the
      first branch's own growth, 131, and does not move the span although the target moves. */
  lemma {:induction false} LongSpanInexact()
    ensures var items := [Item(0, Text, 5, Some(131)), Item(129, Text, 3, Some(1000))];
      && Placed(items)
      && Tracks(items, [5, 2], 0, 129, 2) && 129 == Exact(items, [5, 2], 0) - 3
      && Real(items, [5, 2], Text, 129) == 132
      && MovedSpan(129, 2, 132, 1) == 129 != Exact(items, [5, 3], 0) - 3
  {
    var items := [Item(0, Text, 5, Some(131)), Item(129, Text, 3, Some(1000))];
    IncTwo(items, [5, 2], 0);
    IncTwo(items, [5, 2], 129);
    IncTwo(items, [5, 2], 131);
    IncTwo(items, [5, 3], 0);
    IncTwo(items, [5, 3], 131);
  }

  lemma {:induction false} IncTwo(items: seq<Item>, lens: seq<nat>, x: int)
    requires |items| == |lens| == 2
    ensures Inc(items, lens, Text, x) == Extra(items[0], lens[0], Text, x) + Extra(items[1], lens[1], Text, x)
  {
    assert items[..1][0] == items[0] && lens[..1][0] == lens[0];
    assert Inc(items[..1], lens[..1], Text, x) ==
           Inc(items[..1][..0], lens[..1][..0], Text, x) + Extra(items[0], lens[0], Text, x);
  }
}
