/** The switch table while a function is compiled: `savebc`, `swstart`, `addcase`, `adddef`, `swend` of
    cgram.c, and the output of `genswitch` and `genbinary`. */
module SwitchTable {

  import opened Machine
  import opened Switch
  import opened CaseSort
  import opened Emitter

  datatype Status = Fine | NotInSwitch | SecondDefault | TableFull | DuplicateCase

  /** Case values are values of an int. */
  predicate AllFit(s: seq<Case>) {
    forall i :: 0 <= i < |s| ==> -32768 <= s[i].sval < 32768
  }

  /** The entries behind lo up to hi have labels, unless two are the same case: then they may be what was left of a
      switch that was given a case twice, with the entry that opened it. */
  predicate Labelled(s: seq<Case>, lo: nat, hi: nat) {
    lo < hi <= |s| && Distinct(s[lo + 1..hi]) ==> forall i :: lo < i < hi ==> s[i].slab >= 0
  }

  /** Where the entries of switch i end: at the switch in it. */
  function Until(swx: nat, saved: seq<nat>, i: nat): nat {
    if i + 1 < |saved| then saved[i + 1] else swx
  }

  /** So are the entries of all switches around the one that opens at swx. */
  predicate AllLabelled(s: seq<Case>, swx: nat, saved: seq<nat>) {
    forall i: nat :: i < |saved| ==> Labelled(s, saved[i], Until(swx, saved, i))
  }

  /** Switches open one behind the other. */
  predicate Nested(swx: nat, saved: seq<nat>) {
    && (forall i :: 0 <= i < |saved| ==> saved[i] <= swx)
    && forall i, j :: 0 <= i < j < |saved| ==> saved[i] <= saved[j]
  }

  class SwitchTable {
    const swtab: array<Case>
    // next free entry, and the entry that opens the current switch
    var swp: nat
    var swx: nat
    // what `savebc` has put away of swx
    var saved: seq<nat>
    const out: Emitter

    ghost predicate Valid()
      reads this, swtab
    {
      && swtab.Length == SWITSZ && swx <= swp <= SWITSZ && swx < SWITSZ
      && Nested(swx, saved) && AllFit(swtab[..]) && Labelled(swtab[..], swx, swp) && AllLabelled(swtab[..], swx, saved)
    }

    /** The entries of the current switch: the default first, then the cases as they came. */
    function Current(): seq<Case>
      requires Valid()
      reads this, swtab
    {
      swtab[swx..swp]
    }

    constructor (out: Emitter)
      ensures Valid() && swp == 0 && swx == 0 && saved == [] && this.out == out
      ensures fresh(swtab)
    {
      swtab := new Case[SWITSZ](i => Case(0, 0));
      swp, swx, saved := 0, 0, [];
      this.out := out;
    }

    /** `savebc` and `swstart` */
    method Begin() returns (status: Status)
      requires Valid()
      modifies this, swtab
      ensures status == if old(swp) < SWITSZ then Fine else TableFull
      ensures Valid() && saved == old(saved) + [old(swx)] && swtab[..old(swp)] == old(swtab[..swp])
      ensures status == Fine ==> swx == old(swp) && swp == old(swp) + 1 && swtab[swx].slab == -1
      ensures status != Fine ==> swx == old(swx) && swp == old(swp)
    {
      ghost var s := swtab[..];
      if swp >= SWITSZ {
        Opens(s, s, swx, swx, saved);
        saved := saved + [swx];
        return TableFull;
      }
      saved := saved + [swx];
      swx := swp;
      swtab[swp] := swtab[swp].(slab := -1);
      Opens(s, swtab[..], swp, old(swx), old(saved));
      swp := swp + 1;
      return Fine;
    }

    /** `addcase`, for a constant that fits an int */
    method AddCase(v: int) returns (status: Status)
      requires Valid() && -32768 <= v < 32768 && out.next >= 0
      modifies this`swp, swtab, out
      ensures status == if old(swp) == 0 then NotInSwitch else if old(swp) >= SWITSZ then TableFull else Fine
      ensures Valid() && swtab[..old(swp)] == old(swtab[..swp]) && out.deferred == old(out.deferred)
      ensures status == Fine ==>
        && out.next == old(out.next) + 1 && out.code == old(out.code) + [LabelDef(old(out.next))]
        && swp == old(swp) + 1 && swtab[old(swp)] == Case(v, old(out.next))
      ensures status != Fine ==> swp == old(swp) && out.next == old(out.next) && out.code == old(out.code)
    {
      if swp == 0 {
        return NotInSwitch;
      }
      if swp >= SWITSZ {
        return TableFull;
      }
      var lab := out.GetLab();
      out.Emit(LabelDef(lab));
      ghost var s := swtab[..];
      swtab[swp] := Case(v, lab);
      OneMore(s, swtab[..], swx, swp);
      assert s[..swx] == s[..swp][..swx] && swtab[..swx] == swtab[..swp][..swx];
      OthersStay(s, swtab[..], swx, saved);
      swp := swp + 1;
      return Fine;
    }

    /** `adddef`. The table starts out zeroed, so a default outside of any switch is first taken for a
        second one. */
    method AddDefault() returns (status: Status)
      requires Valid() && out.next >= 0
      modifies swtab, out
      ensures status == if old(swtab[swx].slab) >= 0 then SecondDefault else if swp == 0 then NotInSwitch else Fine
      ensures Valid() && out.deferred == old(out.deferred)
      ensures status == Fine ==>
        && out.next == old(out.next) + 1 && out.code == old(out.code) + [LabelDef(old(out.next))]
        && swtab[swx].slab == old(out.next) && forall i :: 0 <= i < SWITSZ && i != swx ==> swtab[i] == old(swtab[i])
      ensures status != Fine ==> swtab[..] == old(swtab[..]) && out.next == old(out.next) && out.code == old(out.code)
    {
      if swtab[swx].slab >= 0 {
        return SecondDefault;
      }
      if swp == 0 {
        return NotInSwitch;
      }
      var lab := out.GetLab();
      ghost var s := swtab[..];
      swtab[swx] := swtab[swx].(slab := lab);
      OthersStay(s, swtab[..], swx, saved);
      assert swx < swp ==> swtab[..][swx + 1..swp] == s[swx + 1..swp];
      out.Emit(LabelDef(lab));
      return Fine;
    }

    /** `genbinary`: entries lo to hi of the current switch, behind label lab unless that is 0. */
    method Binary(lo: nat, hi: int, lab: int)
      requires Valid() && 1 <= lo <= hi + 1 <= |Current()| && out.next > 0
      modifies out
      ensures out.code == old(out.code) + DefIf(lab != 0, lab) + GenBinary(Current(), lo, hi, old(out.next)).code
      ensures out.next == GenBinary(Current(), lo, hi, old(out.next)).next >= old(out.next) &&
              out.deferred == old(out.deferred)
      decreases hi - lo, 1
    {
      if lab != 0 {
        out.Emit(LabelDef(lab));
      }
      if hi - lo > 4 {
        Level(lo, hi);
      } else {
        Leaf(lo, hi);
      }
    }

    method Level(lo: nat, hi: int)
      requires Valid() && 1 <= lo && hi < |Current()| && hi - lo > 4 && out.next > 0
      modifies out
      ensures out.code == old(out.code) + GenBinary(Current(), lo, hi, old(out.next)).code
      ensures out.next == GenBinary(Current(), lo, hi, old(out.next)).next >= old(out.next) &&
              out.deferred == old(out.deferred)
      decreases hi - lo, 0
    {
      hide GenBinary;
      ghost var before, p := out.code, Current();
      var i := lo + (hi - lo) / 2;
      out.Emit(CmpConst(swtab[swx + i].sval));
      out.Emit(Branch(EQ, swtab[swx + i].slab));
      var lab1 := out.GetLab();
      ghost var left := GenBinary(p, lo, i - 1, lab1 + 1);
      ghost var right := GenBinary(p, i + 1, hi, left.next);
      out.Emit(Branch(GT, lab1));
      Binary(lo, i - 1, 0);
      Binary(i + 1, hi, lab1);
      BinaryIs(p, lo, hi, lab1, i, left, right);
      LevelCode(before, [CmpConst(p[i].sval), Branch(EQ, p[i].slab), Branch(GT, lab1)], left.code, [LabelDef(lab1)],
        right.code);
    }

    method Leaf(lo: nat, hi: int)
      requires Valid() && 1 <= lo <= hi + 1 <= |Current()|
      modifies out
      ensures out.code == old(out.code) + (Chain(Current(), lo, hi) + JumpIf(Current()[0].slab))
      ensures out.next == old(out.next) && out.deferred == old(out.deferred)
    {
      ghost var before, p := out.code, Current();
      var i := lo;
      while i <= hi
        invariant lo <= i <= hi + 1
        invariant out.code == before + Chain(p, lo, i - 1) && out.next == old(out.next) &&
                  out.deferred == old(out.deferred)
      {
        out.Emit(CmpConst(swtab[swx + i].sval));
        out.Emit(Branch(EQ, swtab[swx + i].slab));
        i := i + 1;
      }
      if swtab[swx].slab >= 0 {
        out.Jmp(swtab[swx].slab);
      }
    }

    /** The table of a direct switch, value by value. */
    method Words(d: int) returns (words: seq<int>)
      requires Valid() && |Current()| >= 2 && Ascending(Current())
      ensures Range(Current()) >= 0 && words == Table(Current(), d)
    {
      ghost var p := Current();
      var i, j := 1, swtab[swx + 1].sval;
      words := [];
      while swx + i < swp
        invariant 1 <= i <= |p| && swtab[swx + 1].sval <= j && |words| == j - p[1].sval
        invariant j <= p[|p| - 1].sval + 1 && (i < |p| ==> j <= p[i].sval) && (i > 1 ==> p[i - 1].sval < j)
        invariant i == |p| ==> j == p[|p| - 1].sval + 1
        invariant forall k :: 0 <= k < |words| ==> words[k] == Pick(p, 1, |p| - 1, p[1].sval + k, d)
        decreases p[|p| - 1].sval + 1 - j
      {
        PickNext(p, i, j, d);
        if j == swtab[swx + i].sval {
          words := words + [swtab[swx + i].slab];
          i := i + 1;
        } else {
          words := words + [d];
        }
        j := j + 1;
      }
    }

    /** `genswitch` when a table is worth it */
    method Direct(range: int)
      requires Valid() && |Current()| >= 2 && Ascending(Current()) && range == Range(Current()) >= 0
      modifies out
      ensures out.code == old(out.code) + GenDirect(Current(), old(out.next)).code
      ensures out.next == GenDirect(Current(), old(out.next)).next && out.deferred == old(out.deferred)
    {
      hide Table, Range;
      ghost var before, p := out.code, Current();
      var dlab := swtab[swx].slab;
      if dlab < 0 {
        dlab := out.GetLab();
      }
      Indirect(range, dlab);
      if swtab[swx].slab < 0 {
        out.Emit(LabelDef(dlab));
      }
      Rejoin(before, SubIf(p[1].sval), [CmpConst(range), Branch(UGT, dlab), Shl, Xchg, JumpTable(Table(p, dlab))],
             DefIf(p[0].slab < 0, dlab));
    }

    method Indirect(range: int, dlab: int)
      requires Valid() && |Current()| >= 2 && Ascending(Current()) && range == Range(Current()) >= 0
      modifies out
      ensures out.code == old(out.code) + SubIf(Current()[1].sval) +
        [CmpConst(range), Branch(UGT, dlab), Shl, Xchg, JumpTable(Table(Current(), dlab))]
      ensures out.next == old(out.next) + 1 && out.deferred == old(out.deferred)
    {
      hide Table, Range, Ascending;
      if swtab[swx + 1].sval != 0 {
        out.Emit(SubConst(swtab[swx + 1].sval));
      }
      out.Emit(CmpConst(range));
      out.Emit(Branch(UGT, dlab));
      out.Emit(Shl);
      out.Emit(Xchg);
      var swlab := out.GetLab();
      var words := Words(dlab);
      out.Emit(JumpTable(words));
    }

    /** `genswitch`. With no case at all the source reads a range it then does not use. */
    method Dispatch()
      requires Valid() && swx < swp && Ascending(Current()) && out.next > 0
      modifies out
      ensures out.code == old(out.code) + GenSwitch(Current(), old(out.next)).code
      ensures out.next == GenSwitch(Current(), old(out.next)).next && out.deferred == old(out.deferred)
    {
      hide GenBinary, GenDirect;
      var n := swp - swx - 1;
      var range := if n >= 1 then swtab[swp - 1].sval - swtab[swx + 1].sval else 0;
      assert n >= 1 ==> Current()[n] == swtab[swp - 1] && Current()[1] == swtab[swx + 1] && range == Range(Current());
      if range > 0 && range <= 3 * n && n >= 4 {
        Direct(range);
      } else {
        Binary(1, n, 0);
      }
    }

    /** The sort of `swend` */
    method Order()
      requires Valid() && swx < swp
      modifies swtab
      ensures Valid() && Ordered(Current(), 1, |Current()|) && Current()[0] == old(Current()[0])
      ensures multiset(Current()[1..]) == multiset(old(Current()[1..])) && swtab[..swx] == old(swtab[..swx])
    {
      hide Ordered, Same, AllFit, Labelled, AllLabelled, Nested;
      ghost var s := swtab[..];
      assert Current() == s[swx..swp] && swtab[..swx] == s[..swx];
      Sort(swtab, swx + 1, swp);
      ghost var t := swtab[..];
      SortedCases(s, t, swp, swx, saved);
      assert Current() == t[swx..swp] && swtab[..swx] == t[..swx];
    }

    /** `swend` and `resetbc`: the cases are sorted and dispatched on, and the table is as it was before the
        switch. When a case is given twice, that is reported, and the sorted entries stay behind those of the switch
        around this one. So that one has a case twice as well, and will be reported too. */
    method End() returns (status: Status)
      requires Valid() && swx < swp && |saved| > 0 && out.next > 0
      modifies this, swtab, out
      ensures status == if Distinct(old(Current()[1..])) then Fine else DuplicateCase
      ensures swtab[..old(swx)] == old(swtab[..swx]) && out.deferred == old(out.deferred)
      ensures swx == old(saved[|saved| - 1]) && saved == old(saved[..|saved| - 1])
      ensures Valid()
      ensures status == Fine ==>
        && swp == old(swx) && old(out.code) <= out.code && out.next >= old(out.next)
        && Dispatches(out.code[|old(out.code)|..], old(out.next), out.next, old(Current()[1..]), old(Current()[0].slab))
        && DefsIn(out.code[|old(out.code)|..], old(out.next), out.next)
      ensures status != Fine ==>
        && swp == old(swp) && out.code == old(out.code) && out.next == old(out.next)
        && swtab[old(swx)] == old(swtab[swx]) && Ordered(swtab[old(swx)..swp], 1, swp - old(swx))
        && multiset(swtab[old(swx)..swp][1..]) == multiset(old(Current()[1..]))
        && swx < swp && !Distinct(Current()[1..])
    {
      hide Ordered, AllFit, Labelled, AllLabelled, Nested, Distinct;
      ghost var cases := Current()[1..];
      Order();
      var distinct := CheckDistinct(cases);
      if !distinct {
        assert Current()[0] == swtab[swx];
        Leave(cases);
        return DuplicateCase;
      }
      DispatchOn(cases);
      Pop();
      return Fine;
    }

    method DispatchOn(ghost cases: seq<Case>)
      requires Valid() && swx < swp && Ascending(Current()) && out.next > 0 &&
               multiset(Current()[1..]) == multiset(cases)
      modifies out
      ensures old(out.code) <= out.code && out.next >= old(out.next) && out.deferred == old(out.deferred)
      ensures Dispatches(out.code[|old(out.code)|..], old(out.next), out.next, cases, Current()[0].slab)
      ensures DefsIn(out.code[|old(out.code)|..], old(out.next), out.next)
    {
      ghost var p, n := Current(), out.next;
      hide Ascending, GenSwitch, Dispatches;
      Dispatch();
      assert out.code[|old(out.code)|..] == GenSwitch(p, n).code;
      assert Wellformed(p);
      SwitchDispatches(p, cases, n);
      SwitchLabels(p, n);
    }

    method Leave(ghost cases: seq<Case>)
      requires Valid() && swx < swp && |saved| > 0
      requires multiset(Current()[1..]) == multiset(cases) && !Distinct(cases)
      modifies this`swx, this`saved
      ensures swx == old(saved[|saved| - 1]) && saved == old(saved[..|saved| - 1])
      ensures Valid() && swx < swp && !Distinct(Current()[1..])
    {
      hide AllFit, Labelled, AllLabelled, Distinct;
      ghost var s, x, o := swtab[..], swx, saved[|saved| - 1];
      if Distinct(Current()[1..]) {
        DistinctPermutes(Current()[1..], cases);
      }
      assert Current()[1..] == s[x + 1..swp];
      Reopens(s, x, saved);
      RepeatsOutside(s, o, x, swp);
      Restore();
      assert Current()[1..] == s[o + 1..swp];
    }

    method Pop()
      requires Valid() && |saved| > 0
      modifies this`swp, this`swx, this`saved
      ensures Valid() && swp == old(swx) && swx == old(saved[|saved| - 1]) && saved == old(saved[..|saved| - 1])
    {
      hide AllFit, Labelled, AllLabelled;
      Reopens(swtab[..], swx, saved);
      swp := swx;
      Restore();
    }

    /** `resetbc`, as far as it concerns the table */
    method Restore()
      requires |saved| > 0
      modifies this`swx, this`saved
      ensures swx == old(saved[|saved| - 1]) && saved == old(saved[..|saved| - 1])
    {
      swx := saved[|saved| - 1];
      saved := saved[..|saved| - 1];
    }

    method CheckDistinct(ghost cases: seq<Case>) returns (distinct: bool)
      requires Valid() && swx < swp && Ordered(Current(), 1, |Current()|) && multiset(Current()[1..]) == multiset(cases)
      ensures distinct == Distinct(cases) && (distinct ==> Ascending(Current()))
    {
      hide Ordered, Ascending, Distinct, AllFit, Labelled, AllLabelled, Nested;
      ghost var p := Current();
      var q := swx + 2;
      while q < swp
        invariant swx + 2 <= q <= swp || swp == swx + 1
        invariant forall k :: 2 <= k < q - swx && k < |p| ==> p[k].sval != p[k - 1].sval
      {
        if swtab[q].sval == swtab[q - 1].sval {
          NotDistinct(p, cases, q - swx);
          return false;
        }
        q := q + 1;
      }
      AllDistinct(p, cases);
      return true;
    }
  }

  // ---------------------------------------------------------------------------------------
  // What sorting keeps

  predicate Distinct(cases: seq<Case>) {
    forall i, j :: 0 <= i < j < |cases| ==> cases[i].sval != cases[j].sval
  }

  lemma {:induction false} TwoPlaces(a: seq<Case>, c: Case)
    requires multiset(a)[c] >= 2
    ensures exists i, j :: 0 <= i < j < |a| && a[i] == a[j] == c
  {
    var last := |a| - 1;
    assert a == a[..last] + [a[last]];
    if multiset(a[..last])[c] >= 2 {
      TwoPlaces(a[..last], c);
      var i, j :| 0 <= i < j < last && a[..last][i] == a[..last][j] == c;
      assert a[i] == a[j] == c;
    } else {
      assert c in multiset(a[..last]);
      var i :| 0 <= i < last && a[..last][i] == c;
      assert a[i] == a[last] == c;
    }
  }

  lemma {:induction false} DistinctPermutes(a: seq<Case>, b: seq<Case>)
    requires multiset(a) == multiset(b) && Distinct(a)
    ensures Distinct(b)
  {
    forall i, j | 0 <= i < j < |b| ensures b[i].sval != b[j].sval {
      if b[i] == b[j] {
        assert b == b[..j] + b[j..] && b[i] in b[..j] && b[j] in b[j..];
        assert multiset(b)[b[i]] == multiset(b[..j])[b[i]] + multiset(b[j..])[b[i]];
        TwoPlaces(a, b[i]);
      } else {
        assert b[i] in multiset(a) && b[j] in multiset(a);
      }
    }
  }

  lemma {:induction false} NotDistinct(p: seq<Case>, cases: seq<Case>, k: nat)
    requires 2 <= k < |p| && multiset(p[1..]) == multiset(cases) && p[k].sval == p[k - 1].sval
    ensures !Distinct(cases)
  {
    assert p[1..][k - 2].sval == p[1..][k - 1].sval;
    if Distinct(cases) {
      DistinctPermutes(cases, p[1..]);
    }
  }

  lemma {:induction false} AllDistinct(p: seq<Case>, cases: seq<Case>)
    requires 1 <= |p| && Ordered(p, 1, |p|) && multiset(p[1..]) == multiset(cases)
    requires forall k :: 2 <= k < |p| ==> p[k].sval != p[k - 1].sval
    ensures Ascending(p) && Distinct(cases)
  {
    forall i, j | 1 <= i < j < |p| ensures p[i].sval < p[j].sval {
      assert p[i].sval <= p[j - 1].sval;
    }
    DistinctPermutes(p[1..], cases);
  }

  lemma {:induction false} SortParts(s: seq<Case>, t: seq<Case>, x: nat, y: nat)
    requires x < y && Same(t, s, x + 1, y)
    ensures multiset(t[x + 1..y]) == multiset(s[x + 1..y]) && t[x] == s[x] && t[..x] == s[..x]
  {
    SamePart(s, t, x + 1, y);
    assert t[..x + 1][x] == s[..x + 1][x] && t[..x] == t[..x + 1][..x] && s[..x] == s[..x + 1][..x];
  }

  /** What a sort of the current cases, from s to t, leaves true. */
  lemma {:induction false} Sorts(s: seq<Case>, t: seq<Case>, swx: nat, swp: nat)
    requires swx < swp && Same(t, s, swx + 1, swp) && Ordered(t, swx + 1, swp)
    ensures Ordered(t[swx..swp], 1, swp - swx) && multiset(t[swx..swp][1..]) == multiset(s[swx..swp][1..])
    ensures t[..swx] == s[..swx] && t[swx] == s[swx]
    ensures forall i :: 0 <= i < |t| ==> t[i] in s
    ensures forall i :: swx < i < swp ==> t[i] in s[swx + 1..swp]
  {
    SortParts(s, t, swx, swp);
    assert t[swx..swp][1..] == t[swx + 1..swp] && s[swx..swp][1..] == s[swx + 1..swp];
    MembersKept(s, t);
    MembersKept(s[swx + 1..swp], t[swx + 1..swp]);
    assert forall i :: swx < i < swp ==> t[i] == t[swx + 1..swp][i - swx - 1];
  }

  /** Sorting the current cases leaves all values and labels fit. */
  lemma {:induction false} SortsFit(s: seq<Case>, t: seq<Case>, swx: nat, swp: nat)
    requires swx < swp <= |s| == |t| && AllFit(s) && Labelled(s, swx, swp)
    requires multiset(t[swx..swp][1..]) == multiset(s[swx..swp][1..]) && forall i :: 0 <= i < |t| ==> t[i] in s
    requires forall i :: swx < i < swp ==> t[i] in s[swx + 1..swp]
    ensures AllFit(t) && Labelled(t, swx, swp)
  {
    var a, b := s[swx + 1..swp], t[swx + 1..swp];
    assert s[swx..swp][1..] == a && t[swx..swp][1..] == b;
    if Distinct(b) {
      DistinctPermutes(b, a);
      assert forall i :: swx < i < swp ==> s[i] == a[i - swx - 1];
    }
  }

  lemma {:induction false} SortedCases(s: seq<Case>, t: seq<Case>, swp: nat, swx: nat, saved: seq<nat>)
    requires swx < swp && Same(t, s, swx + 1, swp) && Ordered(t, swx + 1, swp)
    requires AllFit(s) && Labelled(s, swx, swp) && AllLabelled(s, swx, saved) && Nested(swx, saved)
    ensures Ordered(t[swx..swp], 1, swp - swx) && multiset(t[swx..swp][1..]) == multiset(s[swx..swp][1..])
    ensures t[..swx] == s[..swx] && t[swx] == s[swx]
    ensures AllFit(t) && Labelled(t, swx, swp) && AllLabelled(t, swx, saved)
  {
    hide Ordered, AllFit, Labelled, AllLabelled, Nested;
    Sorts(s, t, swx, swp);
    SortsFit(s, t, swx, swp);
    OthersStay(s, t, swx, saved);
  }

  /** The entries in front of swx decide on the switches around it. */
  lemma {:induction false} OthersStay(s: seq<Case>, t: seq<Case>, swx: nat, saved: seq<nat>)
    requires AllLabelled(s, swx, saved) && Nested(swx, saved) && swx <= |s| && swx <= |t| && s[..swx] == t[..swx]
    ensures AllLabelled(t, swx, saved)
  {
    hide Labelled;
    forall i: nat | i < |saved| ensures Labelled(t, saved[i], Until(swx, saved, i)) {
      var hi := Until(swx, saved, i);
      assert s[..hi] == s[..swx][..hi] && t[..hi] == t[..swx][..hi];
      StaysLabelled(s, t, saved[i], hi);
    }
  }

  lemma {:induction false} StaysLabelled(s: seq<Case>, t: seq<Case>, lo: nat, hi: nat)
    requires Labelled(s, lo, hi) && lo <= hi <= |s| && hi <= |t| && s[..hi] == t[..hi]
    ensures Labelled(t, lo, hi)
  {
    if lo < hi {
      assert forall i :: lo < i < hi ==> s[i] == s[..hi][i] && t[i] == t[..hi][i];
      assert s[lo + 1..hi] == s[..hi][lo + 1..] && t[lo + 1..hi] == t[..hi][lo + 1..];
    }
  }

  /** A new switch opens behind the entries there are. */
  lemma {:induction false} Opens(s: seq<Case>, t: seq<Case>, swp: nat, swx: nat, saved: seq<nat>)
    requires Labelled(s, swx, swp) && AllLabelled(s, swx, saved) && Nested(swx, saved)
    requires swx <= swp <= |s| && swp <= |t| && s[..swp] == t[..swp]
    ensures AllLabelled(t, swp, saved + [swx]) && Nested(swp, saved + [swx]) && Labelled(t, swp, swp + 1)
  {
    hide Labelled;
    assert s[..swx] == s[..swp][..swx] && t[..swx] == t[..swp][..swx];
    OthersStay(s, t, swx, saved);
    StaysLabelled(s, t, swx, swp);
    NoneLabelled(t, swp);
    forall i: nat | i < |saved| + 1 ensures Labelled(t, (saved + [swx])[i], Until(swp, saved + [swx], i)) {
      assert i < |saved| ==> Until(swp, saved + [swx], i) == Until(swx, saved, i);
    }
  }

  lemma {:induction false} NoneLabelled(s: seq<Case>, lo: nat)
    ensures Labelled(s, lo, lo) && Labelled(s, lo, lo + 1)
  {
  }

  /** When the current switch is left, the one around it is as fit as it was. */
  lemma {:induction false} Reopens(s: seq<Case>, swx: nat, saved: seq<nat>)
    requires |saved| > 0 && AllLabelled(s, swx, saved) && Nested(swx, saved)
    ensures var o, outer := saved[|saved| - 1], saved[..|saved| - 1];
      Labelled(s, o, swx) && AllLabelled(s, o, outer) && Nested(o, outer)
  {
    hide Labelled;
    var o, outer := saved[|saved| - 1], saved[..|saved| - 1];
    assert Until(swx, saved, |saved| - 1) == swx;
    forall i: nat | i < |outer| ensures Labelled(s, outer[i], Until(o, outer, i)) {
      assert Until(o, outer, i) == Until(swx, saved, i);
    }
  }

  lemma {:induction false} OneMore(s: seq<Case>, t: seq<Case>, swx: nat, swp: nat)
    requires Labelled(s, swx, swp) && swx <= swp < |s| == |t| && s[..swp] == t[..swp] && t[swp].slab >= 0
    ensures Labelled(t, swx, swp + 1)
  {
    if swx < swp && Distinct(t[swx + 1..swp + 1]) {
      assert t[swx + 1..swp] == t[swx + 1..swp + 1][..swp - swx - 1];
      StaysLabelled(s, t, swx, swp);
    }
  }

  /** Entries that repeat a case do so in a switch around theirs. */
  lemma {:induction false} RepeatsOutside(s: seq<Case>, o: nat, swx: nat, swp: nat)
    requires o <= swx < swp <= |s| && !Distinct(s[swx + 1..swp])
    ensures !Distinct(s[o + 1..swp]) && Labelled(s, o, swp)
  {
    var part, whole := s[swx + 1..swp], s[o + 1..swp];
    var i, j :| 0 <= i < j < |part| && part[i].sval == part[j].sval;
    assert whole[swx - o + i] == part[i] && whole[swx - o + j] == part[j];
  }

  lemma {:induction false} SamePart(s: seq<Case>, t: seq<Case>, x: nat, y: nat)
    requires Same(t, s, x, y)
    ensures multiset(t[x..y]) == multiset(s[x..y])
  {
    assert s == s[..x] + (s[x..y] + s[y..]) && t == t[..x] + (t[x..y] + t[y..]);
    Cancel(multiset(s[..x]), multiset(s[x..y]), multiset(t[x..y]), multiset(s[y..]));
  }

  lemma {:induction false} Cancel(a: multiset<Case>, b: multiset<Case>, d: multiset<Case>, c: multiset<Case>)
    requires a + (b + c) == a + (d + c)
    ensures b == d
  {
    forall e: Case ensures b[e] == d[e] {
      assert (a + (b + c))[e] == (a + (d + c))[e];
    }
  }

  lemma {:induction false} MembersKept(s: seq<Case>, t: seq<Case>)
    requires multiset(s) == multiset(t)
    ensures forall i :: 0 <= i < |t| ==> t[i] in s
  {
    forall i | 0 <= i < |t| ensures t[i] in s {
      assert t[i] in multiset(s);
    }
  }

  lemma {:induction false} PickNext(p: seq<Case>, i: nat, j: int, d: int)
    requires 1 <= i < |p| && Ascending(p) && j <= p[i].sval && (i > 1 ==> p[i - 1].sval < j)
    ensures Pick(p, 1, |p| - 1, j, d) == if j == p[i].sval then p[i].slab else d
  {
    PickIs(p, 1, |p| - 1, j, d);
  }

  lemma {:induction false} BinaryIs(p: seq<Case>, lo: nat, hi: int, n: int, i: nat, left: Out, right: Out)
    requires 1 <= lo && hi < |p| && hi - lo > 4 && i == lo + (hi - lo) / 2
    requires left == GenBinary(p, lo, i - 1, n + 1) && right == GenBinary(p, i + 1, hi, left.next)
    ensures GenBinary(p, lo, hi, n) ==
      Out([CmpConst(p[i].sval), Branch(EQ, p[i].slab), Branch(GT, n)] + left.code + [LabelDef(n)] + right.code,
        right.next)
  {
  }

  lemma {:induction false} LevelCode(a: seq<Instr>, b: seq<Instr>, c: seq<Instr>, d: seq<Instr>, e: seq<Instr>)
    ensures a + b + c + d + e == a + (b + c + d + e)
  {
  }
}
