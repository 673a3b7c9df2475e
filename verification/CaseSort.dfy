/** The in-place sort of a switch's cases (`swend` of cgram.c). */
module CaseSort {

  import opened Switch

  /** Everything from lo to r is at most everything behind r. */
  predicate Below(s: seq<Case>, lo: nat, r: int, hi: nat)
    requires hi <= |s|
  {
    forall i, j :: lo <= i <= r < j < hi ==> s[i].sval <= s[j].sval
  }

  predicate Ordered(s: seq<Case>, lo: int, hi: int)
    requires 0 <= lo && hi <= |s|
  {
    forall i, j :: lo <= i < j < hi ==> s[i].sval <= s[j].sval
  }

  predicate Largest(s: seq<Case>, lo: nat, r: nat)
    requires r < |s|
  {
    forall k :: lo <= k < r ==> s[k].sval <= s[r].sval
  }

  function Exchanged(s: seq<Case>, q: nat): seq<Case>
    requires q + 1 < |s|
  {
    s[q := s[q + 1]][q + 1 := s[q]]
  }

  method Swap(a: array<Case>, q: nat)
    requires q + 1 < a.Length
    modifies a
    ensures a[..] == Exchanged(old(a[..]), q)
  {
    var temp := a[q].sval;
    a[q] := a[q].(sval := a[q + 1].sval);
    a[q + 1] := a[q + 1].(sval := temp);
    var tempi := a[q].slab;
    a[q] := a[q].(slab := a[q + 1].slab);
    a[q + 1] := a[q + 1].(slab := tempi);
  }

  lemma {:induction false} ExchangeKeeps(s: seq<Case>, lo: nat, q: nat, r: nat, hi: nat)
    requires lo <= q < r < hi <= |s| && Below(s, lo, r, hi)
    ensures var t := Exchanged(s, q);
      && multiset(t) == multiset(s) && Below(t, lo, r, hi) && t[..lo] == s[..lo] && t[r + 1..] == s[r + 1..]
      && (Largest(s, lo, r) && q + 1 < r ==> Largest(t, lo, r))
  {
  }

  lemma {:induction false} ExchangeExtends(s: seq<Case>, lo: nat, r1: nat, q: nat)
    requires lo <= r1 <= q && q + 1 < |s| && Largest(s, lo, r1) && Ordered(s, r1, q + 1) && s[q].sval > s[q + 1].sval
    ensures Largest(Exchanged(s, q), lo, q + 1)
  {
  }

  /** What holds in the middle of a sweep up to r that has come to q, with the last exchange at r1. */
  ghost predicate Swept(s: seq<Case>, lo: nat, r1: int, q: int, r: nat, hi: nat, settled: bool) {
    && lo <= r1 <= q <= r < hi <= |s| && Below(s, lo, r, hi)
    && Largest(s, lo, r1) && Ordered(s, r1, q + 1) && (settled ==> r1 < r && Largest(s, lo, r))
  }

  ghost predicate Same(s: seq<Case>, t: seq<Case>, lo: nat, hi: nat) {
    lo <= hi <= |s| == |t| && multiset(s) == multiset(t) && s[..lo] == t[..lo] && s[hi..] == t[hi..]
  }

  lemma {:induction false} ExchangeSweeps(s: seq<Case>, lo: nat, r1: int, q: nat, r: nat, hi: nat, settled: bool)
    requires Swept(s, lo, r1, q, r, hi, settled) && q < r
    ensures var up := s[q].sval > s[q + 1].sval;
      var t := if up then Exchanged(s, q) else s;
      Swept(t, lo, if up then q + 1 else r1, q + 1, r, hi, settled) && Same(t, s, lo, r + 1)
  {
    if s[q].sval > s[q + 1].sval {
      ExchangeKeeps(s, lo, q, r, hi);
      ExchangeExtends(s, lo, r1, q);
    }
  }

  /** One sweep up to r: the place of the last exchange holds the largest of all before it, and what
      follows is in order. When the largest is at r already, no exchange happens there. */
  method Sweep(a: array<Case>, lo: nat, r: nat, hi: nat) returns (r1: nat)
    requires lo < r < hi <= a.Length && Below(a[..], lo, r, hi)
    modifies a
    ensures Same(a[..], old(a[..]), lo, r + 1) && Swept(a[..], lo, r1, r, r, hi, Largest(old(a[..]), lo, r))
  {
    ghost var settled := Largest(a[..], lo, r);
    r1 := lo;
    var q := lo;
    while q < r
      invariant lo <= q <= r && Same(a[..], old(a[..]), lo, r + 1) && Swept(a[..], lo, r1, q, r, hi, settled)
    {
      r1 := CompareExchange(a, lo, r1, q, r, hi, settled);
      q := q + 1;
    }
  }

  method CompareExchange(a: array<Case>, lo: nat, last: nat, q: nat, r: nat, hi: nat, ghost settled: bool)
    returns (r1: nat)
    requires q < r && Swept(a[..], lo, last, q, r, hi, settled)
    modifies a
    ensures Same(a[..], old(a[..]), lo, r + 1) && Swept(a[..], lo, r1, q + 1, r, hi, settled)
  {
    hide Swept, Same, Exchanged;
    assert q + 1 < a.Length by { Within(a[..], lo, last, q, r, hi, settled); }
    ExchangeSweeps(a[..], lo, last, q, r, hi, settled);
    r1 := last;
    if a[q].sval > a[q + 1].sval {
      r1 := q + 1;
      Swap(a, q);
    }
  }

  lemma {:induction false} Within(s: seq<Case>, lo: nat, r1: int, q: nat, r: nat, hi: nat, settled: bool)
    requires Swept(s, lo, r1, q, r, hi, settled)
    ensures lo <= r1 <= q <= r < hi <= |s|
  {
  }

  lemma {:induction false} SweptOrder(s: seq<Case>, lo: nat, r1: nat, r: nat, hi: nat)
    requires lo <= r1 <= r < hi <= |s| && Below(s, lo, r, hi) && Ordered(s, r + 1, hi) && Ordered(s, r1, r + 1) &&
             Largest(s, lo, r1)
    ensures Below(s, lo, r1, hi) && Ordered(s, r1 + 1, hi) && Ordered(s, r1, hi)
  {
    forall i, j | lo <= i <= r1 < j < hi ensures s[i].sval <= s[j].sval {
      assert s[i].sval <= s[r1].sval;
    }
  }

  /** Bubble sort whose bound drops to the place of the last exchange. The bound may stay where it is once,
      after the first sweep; from then on it falls. */
  method Sort(a: array<Case>, lo: nat, hi: nat)
    requires lo <= hi <= a.Length
    modifies a
    ensures Same(a[..], old(a[..]), lo, hi)
    ensures Ordered(a[..], lo, hi)
  {
    var r1 := lo;
    var r: int := hi - 1;
    ghost var settled := false;
    while lo < r
      invariant lo - 1 <= r < hi && (r < lo ==> hi <= lo) && Same(a[..], old(a[..]), lo, hi)
      invariant Below(a[..], lo, r, hi) && Ordered(a[..], r + 1, hi)
      invariant settled ==> r >= lo && Largest(a[..], lo, r) && Ordered(a[..], r, hi)
      decreases r, !settled
    {
      ghost var was := a[..];
      r1 := Sweep(a, lo, r, hi);
      assert a[hi..] == a[r + 1..][hi - r - 1..] == was[r + 1..][hi - r - 1..];
      assert forall k :: r < k < hi ==> a[..][k] == a[r + 1..][k - r - 1] == was[k];
      SweptOrder(a[..], lo, r1, r, hi);
      r := r1;
      settled := true;
    }
  }
}
