/** The descriptors of span-dependent branches and their resolution between the passes (sdi.c). */
module Sdi {

  import opened Basics
  import opened Relax

  /** A symbol bucket: its section, its value, and whether a label has defined it. */
  datatype Symbol = Symbol(sec: Option<Section>, value: int, defined: bool)

  datatype Desc = Desc(loc: int, sec: Section, sym: string, gleng: nat, leng: nat, span: int, base: int)

  const SHORT: nat := 2

  function Target(syms: map<string, Symbol>, d: Desc): Option<int> {
    if d.sym in syms && syms[d.sym].defined && syms[d.sym].sec == Some(d.sec) then Some(syms[d.sym].value) else None
  }

  function Items(syms: map<string, Symbol>, list: seq<Desc>): (items: seq<Item>)
    ensures |items| == |list|
  {
    seq(|list|, i requires 0 <= i < |list| => Item(list[i].loc, list[i].sec, list[i].gleng, Target(syms, list[i])))
  }

  function Lens(list: seq<Desc>): (lens: seq<nat>)
    ensures |lens| == |list|
  {
    seq(|list|, i requires 0 <= i < |list| => list[i].leng)
  }

  /** The list is ordered by location, over all sections. */
  ghost predicate Ordered(list: seq<Desc>) {
    forall i: nat, j: nat :: i < j < |list| ==> list[i].loc <= list[j].loc
  }

  /** What resolution keeps: spans and bases are tracked, and no length is larger than it has to be. */
  ghost predicate Resolving(syms: map<string, Symbol>, list: seq<Desc>) {
    var items, lens := Items(syms, list), Lens(list);
    && Placed(items) && Lengths(items, lens) && Least(items, lens) && Ordered(list)
    && (forall i: nat :: i < |list| ==> list[i].sym in syms && Tracks(items, lens, i, list[i].span, list[i].base))
  }

  /** Total room left for growth. */
  function Slack(list: seq<Desc>): int {
    if list == [] then 0
    else Slack(list[..|list| - 1]) + list[|list| - 1].gleng - list[|list| - 1].leng
  }

  /** Same branches, possibly other lengths, spans and bases. */
  predicate SameBranches(a: seq<Desc>, b: seq<Desc>) {
    |a| == |b| &&
    forall i: nat :: i < |a| ==>
      a[i].loc == b[i].loc && a[i].sec == b[i].sec && a[i].sym == b[i].sym && a[i].gleng == b[i].gleng
  }

  /** `longsdi` on one other descriptor. */
  function Moved(syms: map<string, Symbol>, t: Desc, sec: Section, loc: int, delta: nat): Desc {
    if t.sym in syms && syms[t.sym].sec == Some(sec) then
      t.(span := MovedSpan(t.span, t.base, loc, delta), base := MovedBase(t.base, loc, delta))
    else t
  }

  class Sdis {
    var list: seq<Desc>

    constructor ()
      ensures list == []
    {
      list := [];
    }

    /** `makesdi`: a new descriptor, short to begin with, goes behind those at or before its place. */
    method MakeSdi(dot: int, sec: Section, sym: string, gleng: nat, base: int) returns (leng: nat, ghost p: nat)
      requires Ordered(list)
      modifies this
      ensures leng == SHORT && p <= |old(list)|
      ensures list == old(list)[..p] + [Desc(dot, sec, sym, gleng, SHORT, -base, base)] + old(list)[p..]
      ensures Ordered(list)
    {
      var i := 0;
      while i < |list|
        invariant 0 <= i <= |list| && forall k: nat :: k < i ==> list[k].loc <= dot
      {
        if dot < list[i].loc {
          break;
        }
        i := i + 1;
      }
      p := i;
      list := list[..i] + [Desc(dot, sec, sym, gleng, SHORT, -base, base)] + list[i..];
      leng := SHORT;
    }

    /** `sdi_inc`: stops at the first descriptor of the section at or behind the offset. */
    method SdiInc(ghost syms: map<string, Symbol>, sec: Section, offset: int) returns (total: int)
      requires Ordered(list)
      ensures total == Inc(Items(syms, list), Lens(list), sec, offset)
    {
      total := 0;
      var i := 0;
      while i < |list|
        invariant 0 <= i <= |list|
        invariant total == Inc(Items(syms, list[..i]), Lens(list[..i]), sec, offset)
      {
        if list[i].sec == sec {
          if offset <= list[i].loc {
            NoneBehind(syms, list, i, sec, offset, |list|);
            assert list[..|list|] == list;
            return;
          }
          total := total + list[i].leng - SHORT;
        }
        IncPrefix(syms, list, i, sec, offset);
        i := i + 1;
      }
      assert list[..i] == list;
    }

    /** `sdi_len`: the length the descriptor's span now asks for. */
    method SdiLen(syms: map<string, Symbol>, i: nat) returns (leng: nat)
      requires i < |list|
      ensures leng == Wanted(syms, list[i])
    {
      var d := list[i];
      if !(d.sym in syms && syms[d.sym].defined) || syms[d.sym].sec != Some(d.sec) {
        return d.gleng;
      }
      if -128 <= d.span <= 127 {
        return SHORT;
      }
      return d.gleng;
    }

    /** `longsdi`: descriptor i must be delta bytes longer; the others' spans and bases move. */
    method LongSdi(syms: map<string, Symbol>, i: nat, delta: nat)
      requires Ordered(list) && i < |list|
      modifies this
      ensures Lengthened(syms, old(list), i, delta, list)
    {
      hide Inc;
      ghost var was := list;
      list := list[i := list[i].(leng := list[i].leng + delta)];
      var inc := SdiInc(syms, list[i].sec, list[i].loc);
      var loc := list[i].loc + inc;
      LengthenedInc(syms, was, i, delta, list);
      var t := 0;
      while t < |list|
        invariant 0 <= t <= |list| == |was|
        invariant list[i] == was[i].(leng := was[i].leng + delta)
        invariant forall k: nat :: k < |list| && k != i ==>
          list[k] == if k < t then Moved(syms, was[k], was[i].sec, loc, delta) else was[k]
      {
        var d := list[t];
        if t != i && d.sym in syms && syms[d.sym].sec == Some(list[i].sec) {
          var span := d.span;
          if d.span < 0 && d.span + d.base <= loc && loc < d.base {
            span := d.span - delta;
          } else if d.span >= 0 && d.base <= loc && loc < d.span + d.base {
            span := d.span + delta;
          }
          list := list[t := d.(span := span, base := if d.base > loc then d.base + delta else d.base)];
        }
        t := t + 1;
      }
    }

    /** `sdi_resolve`: afterwards every short branch reaches its target, no long one would as a short
        one, and no assignment of lengths that fits has a shorter branch anywhere. */
    method Resolve(syms: map<string, Symbol>)
      requires Fresh(syms, list)
      modifies this
      ensures SameBranches(old(list), list) && Ordered(list)
      ensures Fits(Items(syms, list), Lens(list)) && Least(Items(syms, list), Lens(list))
      ensures forall i: nat :: i < |list| && list[i].leng != SHORT && Target(syms, list[i]).Some? ==>
        !InByte(Exact(Items(syms, list), Lens(list), i))
    {
      ghost var was := list;
      var i := 0;
      while i < |list|
        invariant 0 <= i <= |list| == |was|
        invariant forall k: nat :: k < |list| ==> list[k] == if k < i then Spanned(syms, was[k]) else was[k]
      {
        var d := list[i];
        if d.sym in syms && syms[d.sym].sec == Some(d.sec) && syms[d.sym].defined {
          list := list[i := d.(span := d.span + syms[d.sym].value)];
        }
        i := i + 1;
      }
      FreshResolving(syms, was, list);
      var changed := true;
      while changed
        invariant SameBranches(was, list) && Resolving(syms, list)
        invariant !changed ==> forall k: nat :: k < |list| ==> Wanted(syms, list[k]) == list[k].leng
        decreases Slack(list), changed
      {
        changed := Pass(syms);
      }
      SettledFits(syms, list);
    }

    /** One pass over the list; it never meets a "Pathological sdi", one that should be shorter. */
    method Pass(syms: map<string, Symbol>) returns (changed: bool)
      requires Resolving(syms, list)
      modifies this
      ensures SameBranches(old(list), list) && Resolving(syms, list)
      ensures if changed then 0 <= Slack(list) < Slack(old(list))
        else list == old(list) && forall k: nat :: k < |list| ==> Wanted(syms, list[k]) == list[k].leng
    {
      hide Resolving, SameBranches, Slack;
      SlackBound(syms, list);
      SameTrans(list, list, list);
      changed := false;
      var s := 0;
      while s < |list|
        invariant 0 <= s <= |list| && SameBranches(old(list), list) && Resolving(syms, list)
        invariant if changed then 0 <= Slack(list) < Slack(old(list))
          else list == old(list) && forall k: nat :: k < s ==> Wanted(syms, list[k]) == list[k].leng
      {
        ghost var before := list;
        var grown := Visit(syms, s);
        SameTrans(old(list), before, list);
        changed := changed || grown;
        s := s + 1;
      }
    }

    /** One branch of a pass. */
    method Visit(syms: map<string, Symbol>, s: nat) returns (grown: bool)
      requires Resolving(syms, list) && s < |list|
      modifies this
      ensures SameBranches(old(list), list) && Resolving(syms, list)
      ensures if grown then 0 <= Slack(list) < Slack(old(list))
        else list == old(list) && Wanted(syms, list[s]) == list[s].leng
    {
      NotPathological(syms, list, s);
      var leng := SdiLen(syms, s);
      var t := leng - list[s].leng;
      grown := t > 0;
      if t > 0 {
        ghost var before := list;
        LongSdi(syms, s, t);
        LongKeeps(syms, before, s, t, list);
        SlackBound(syms, list);
      } else if t < 0 {
        assert false;
      }
    }
  }

  lemma {:induction false} SameTrans(a: seq<Desc>, b: seq<Desc>, c: seq<Desc>)
    ensures SameBranches(a, a)
    ensures SameBranches(a, b) && SameBranches(b, c) ==> SameBranches(a, c) && |a| == |b| == |c|
  {
  }

  /** The list after `longsdi`. */
  ghost predicate Lengthened(syms: map<string, Symbol>, was: seq<Desc>, i: nat, delta: nat, list: seq<Desc>)
    requires i < |was|
  {
    var loc := Real(Items(syms, was), Lens(was), was[i].sec, was[i].loc);
    && |list| == |was| && list[i] == was[i].(leng := was[i].leng + delta)
    && forall k: nat :: k < |was| && k != i ==> list[k] == Moved(syms, was[k], was[i].sec, loc, delta)
  }

  /** The list as pass 1 leaves it. */
  ghost predicate Fresh(syms: map<string, Symbol>, list: seq<Desc>) {
    && Ordered(list) && Placed(Items(syms, list))
    && forall i: nat :: i < |list| ==>
         list[i].sym in syms && list[i].leng == SHORT && list[i].base == list[i].loc + 2 &&
           list[i].span == -list[i].base
  }

  function Spanned(syms: map<string, Symbol>, d: Desc): Desc {
    if Target(syms, d).Some? then d.(span := d.span + Target(syms, d).value) else d
  }

  /** A descriptor's own growth does not move its own place. */
  lemma {:induction false} LengthenedInc(syms: map<string, Symbol>, was: seq<Desc>, i: nat, delta: nat, list: seq<Desc>)
    requires i < |was| && list == was[i := was[i].(leng := was[i].leng + delta)]
    ensures Inc(Items(syms, list), Lens(list), was[i].sec, was[i].loc) ==
            Inc(Items(syms, was), Lens(was), was[i].sec, was[i].loc)
  {
    assert Items(syms, list) == Items(syms, was);
    assert Lens(list) == Lens(was)[i := was[i].leng + delta];
    IncUpdate(Items(syms, was), Lens(was), i, delta, was[i].sec, was[i].loc);
  }

  lemma {:induction false} AllShort(items: seq<Item>, lens: seq<nat>, sec: Section, x: int)
    requires |lens| == |items| && forall i: nat :: i < |lens| ==> lens[i] == 2
    ensures Inc(items, lens, sec, x) == 0
  {
    if items != [] {
      var n := |items| - 1;
      AllShort(items[..n], lens[..n], sec, x);
    }
  }

  lemma {:induction false} FreshResolving(syms: map<string, Symbol>, was: seq<Desc>, list: seq<Desc>)
    requires Fresh(syms, was) && |list| == |was|
    requires forall k: nat :: k < |list| ==> list[k] == Spanned(syms, was[k])
    ensures SameBranches(was, list) && Resolving(syms, list)
  {
    hide Inc;
    var items, lens := Items(syms, list), Lens(list);
    assert items == Items(syms, was);
    forall i: nat | i < |list|
      ensures Tracks(items, lens, i, list[i].span, list[i].base)
    {
      AllShort(items, lens, list[i].sec, list[i].loc);
      if items[i].target.Some? {
        AllShort(items, lens, list[i].sec, items[i].target.value);
      }
    }
  }

  /** A long branch never asks to be short again. */
  lemma {:induction false} NotPathological(syms: map<string, Symbol>, list: seq<Desc>, s: nat)
    requires Resolving(syms, list) && s < |list|
    ensures list[s].leng == SHORT || (list[s].leng == list[s].gleng == Wanted(syms, list[s]))
    ensures Wanted(syms, list[s]) > list[s].leng ==> list[s].leng == SHORT && Wanted(syms, list[s]) == list[s].gleng
  {
    var items, lens := Items(syms, list), Lens(list);
    assert Tracks(items, lens, s, list[s].span, list[s].base);
    assert lens[s] == 2 || lens[s] == items[s].gleng;
    assert items[s].gleng > 2;
  }

  lemma {:induction false} LongKeeps(syms: map<string, Symbol>, was: seq<Desc>, s: nat, delta: nat, list: seq<Desc>)
    requires Resolving(syms, was) && s < |was| && Lengthened(syms, was, s, delta, list)
    requires was[s].leng == SHORT && Wanted(syms, was[s]) == was[s].gleng == SHORT + delta > SHORT
    ensures SameBranches(was, list) && Resolving(syms, list) && Slack(list) == Slack(was) - delta
  {
    hide Placed;
    var items, lens := Items(syms, was), Lens(was);
    assert Items(syms, list) == items;
    assert Lens(list) == lens[s := items[s].gleng] == lens[s := lens[s] + delta];
    assert Tracks(items, lens, s, was[s].span, was[s].base);
    LongStaysLeast(items, lens, s);
    LongTracks(items, lens, s, was[s].span, was[s].base);
    forall t: nat | t < |list|
      ensures list[t].sym in syms && Tracks(items, Lens(list), t, list[t].span, list[t].base)
    {
      assert Tracks(items, lens, t, was[t].span, was[t].base);
      if t != s && items[t].target.Some? {
        if items[t].sec == items[s].sec {
          MoveTracks(items, lens, s, t, was[t].span, was[t].base, delta);
        } else {
          OtherSectionTracks(items, lens, s, t, was[t].span, was[t].base, delta);
        }
      }
    }
    SlackDrops(was, s, delta, list);
  }

  lemma {:induction false} SlackDrops(was: seq<Desc>, s: nat, delta: nat, list: seq<Desc>)
    requires s < |was| && SameBranches(was, list)
    requires forall k: nat :: k < |was| ==> list[k].leng == was[k].leng + if k == s then delta else 0
    ensures Slack(list) == Slack(was) - delta
  {
    var n := |was| - 1;
    if s < n {
      SlackDrops(was[..n], s, delta, list[..n]);
    } else {
      SlackSame(was[..n], list[..n]);
    }
  }

  lemma {:induction false} SlackSame(was: seq<Desc>, list: seq<Desc>)
    requires SameBranches(was, list) && forall k: nat :: k < |was| ==> list[k].leng == was[k].leng
    ensures Slack(list) == Slack(was)
  {
    if was != [] {
      SlackSame(was[..|was| - 1], list[..|list| - 1]);
    }
  }

  lemma {:induction false} SlackBound(syms: map<string, Symbol>, list: seq<Desc>)
    requires Resolving(syms, list)
    ensures Slack(list) >= 0
  {
    forall k: nat | k < |list|
      ensures list[k].leng <= list[k].gleng
    {
      NotPathological(syms, list, k);
      assert Items(syms, list)[k].gleng > 2;
    }
    SlackNonNegative(list);
  }

  lemma {:induction false} SlackNonNegative(list: seq<Desc>)
    requires forall k: nat :: k < |list| ==> list[k].leng <= list[k].gleng
    ensures Slack(list) >= 0
  {
    if list != [] { SlackNonNegative(list[..|list| - 1]); }
  }

  /** When nothing wants to change, the lengths fit. */
  lemma {:induction false} SettledFits(syms: map<string, Symbol>, list: seq<Desc>)
    requires Resolving(syms, list) && forall k: nat :: k < |list| ==> Wanted(syms, list[k]) == list[k].leng
    ensures Fits(Items(syms, list), Lens(list))
    ensures forall i: nat :: i < |list| && list[i].leng != SHORT && Target(syms, list[i]).Some? ==>
      !InByte(Exact(Items(syms, list), Lens(list), i))
  {
    var items, lens := Items(syms, list), Lens(list);
    forall i: nat | i < |list|
      ensures lens[i] == 2 ==> items[i].target.Some? && InByte(Exact(items, lens, i))
      ensures lens[i] != 2 && items[i].target.Some? ==> !InByte(Exact(items, lens, i))
    {
      assert Tracks(items, lens, i, list[i].span, list[i].base);
      assert Wanted(syms, list[i]) == list[i].leng;
      assert items[i].gleng > 2;
    }
  }

  function Wanted(syms: map<string, Symbol>, d: Desc): nat {
    if Target(syms, d).Some? && InByte(d.span) then SHORT else d.gleng
  }

  lemma {:induction false} IncPrefix(syms: map<string, Symbol>, list: seq<Desc>, i: nat, sec: Section, x: int)
    requires i < |list|
    ensures Inc(Items(syms, list[..i + 1]), Lens(list[..i + 1]), sec, x)
         == Inc(Items(syms, list[..i]), Lens(list[..i]), sec, x)
          + if list[i].sec == sec && list[i].loc < x then list[i].leng - 2 else 0
  {
    var a := list[..i + 1];
    assert a[..i] == list[..i];
    assert Items(syms, a)[..i] == Items(syms, list[..i]);
    assert Lens(a)[..i] == Lens(list[..i]);
  }

  lemma {:induction false} NoneBehind(syms: map<string, Symbol>, list: seq<Desc>, i: nat, sec: Section, x: int, n: nat)
    requires Ordered(list) && i < |list| && x <= list[i].loc && i <= n <= |list|
    ensures Inc(Items(syms, list[..n]), Lens(list[..n]), sec, x)
         == Inc(Items(syms, list[..i]), Lens(list[..i]), sec, x)
    decreases n
  {
    if i < n {
      NoneBehind(syms, list, i, sec, x, n - 1);
      IncPrefix(syms, list, n - 1, sec, x);
    }
  }
}
