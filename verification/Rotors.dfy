/** The rotor machine of crypt: building the rotors, and the cipher (crypt.c). */
module Rotors {

  const ROTORSZ := 256

  // & MASK
  function Mask(x: int): (r: int)
    ensures 0 <= r < ROTORSZ
  {
    x % ROTORSZ
  }

  // ---------------------------------------------------------------------------------------
  // What the rotors are

  predicate InRange(t: seq<int>) {
    |t| == ROTORSZ && forall i :: 0 <= i < ROTORSZ ==> 0 <= t[i] < ROTORSZ
  }

  predicate Inverses(s: seq<int>, t: seq<int>) {
    InRange(s) && InRange(t) && forall i :: 0 <= i < ROTORSZ ==> t[s[i]] == i && s[t[i]] == i
  }

  /** Slots are paired off: t is its own inverse and leaves nothing in place. */
  predicate Reflects(t: seq<int>) {
    InRange(t) && forall i :: 0 <= i < ROTORSZ ==> t[i] != i && t[t[i]] == i
  }

  // ---------------------------------------------------------------------------------------
  // Pairing

  /** Slots below k that have no partner yet. */
  function Unpaired(t: seq<int>, k: nat): set<int>
    requires k <= |t|
  {
    set x | 0 <= x < k && t[x] == 0
  }

  /** Slots from k on have partners. A slot below k is marked by a partner that is not 0, and that partner is
      not below k. An even number is left. */
  ghost predicate Pairing(t: seq<int>, k: nat) {
    && InRange(t) && k <= ROTORSZ && |Unpaired(t, k)| % 2 == 0
    && (forall x :: k <= x < ROTORSZ ==> t[x] != x && t[t[x]] == x)
    && (forall x :: 0 <= x < k && t[x] != 0 ==> t[x] >= k && t[t[x]] == x)
  }

  lemma {:induction false} AllUnpaired(t: seq<int>, k: nat)
    requires k <= |t| && forall x :: 0 <= x < k ==> t[x] == 0
    ensures |Unpaired(t, k)| == k
  {
    if k > 0 {
      AllUnpaired(t, k - 1);
      assert Unpaired(t, k) == Unpaired(t, k - 1) + {k - 1};
    } else {
      assert Unpaired(t, k) == {};
    }
  }

  lemma {:induction false} PairedOn(t: seq<int>, k: nat)
    requires k > 0 && Pairing(t, k) && t[k - 1] != 0
    ensures Pairing(t, k - 1)
  {
    assert Unpaired(t, k) == Unpaired(t, k - 1);
  }

  /** A slot without partner is never the last one. */
  lemma {:induction false} AnotherUnpaired(t: seq<int>, k: nat) returns (u: nat)
    requires k > 0 && Pairing(t, k) && t[k - 1] == 0
    ensures u < k - 1 && t[u] == 0
  {
    var s := Unpaired(t, k);
    assert k - 1 in s;
    var rest := s - {k - 1};
    assert |rest| == |s| - 1;
    u :| u in rest;
  }

  lemma {:induction false} PairUp(t: seq<int>, k: nat, ic: nat)
    requires k > 0 && Pairing(t, k) && t[k - 1] == 0 && ic < k - 1 && t[ic] == 0
    ensures Pairing(t[k - 1 := ic][ic := k - 1], k - 1)
  {
    var v := t[k - 1 := ic][ic := k - 1];
    TwoFewer(t, v, k, ic);
    forall x | k - 1 <= x < ROTORSZ ensures v[x] != x && v[v[x]] == x {
      if x >= k {
        var y := t[x];
        assert t[y] == x;
        assert v[y] == x;
      }
    }
    forall x | 0 <= x < k - 1 && v[x] != 0 ensures v[x] >= k - 1 && v[v[x]] == x {
      if x != ic {
        assert t[x] >= k;
      }
    }
  }

  lemma {:induction false} TwoFewer(t: seq<int>, v: seq<int>, k: nat, ic: nat)
    requires 0 < k <= |t| && ic < k - 1 && t[k - 1] == 0 && t[ic] == 0 && v == t[k - 1 := ic][ic := k - 1]
    ensures |Unpaired(v, k - 1)| == |Unpaired(t, k)| - 2
  {
    var s := Unpaired(t, k);
    assert ic in s && k - 1 in s;
    assert Unpaired(v, k - 1) == s - {k - 1} - {ic};
  }

  // ---------------------------------------------------------------------------------------
  // What the random numbers make of the rotors

  /** The slot a round chooses, of those not gone over yet. */
  function Choice(randoms: seq<(nat, nat)>, i: nat): (ic: nat)
    requires i < |randoms| == ROTORSZ
    ensures ic < ROTORSZ - i
  {
    randoms[i].0 % (ROTORSZ - i)
  }

  /** t1 after i rounds: a slot, from the last one down, trades places with one not behind it. */
  function Shuffled(randoms: seq<(nat, nat)>, i: nat): (t: seq<int>)
    requires i <= |randoms| == ROTORSZ
    ensures |t| == ROTORSZ
  {
    if i == 0 then seq(ROTORSZ, j => j)
    else
      var t, k := Shuffled(randoms, i - 1), ROTORSZ - i;
      var ic := Choice(randoms, i - 1);
      t[k := t[ic]][ic := t[k]]
  }

  lemma {:induction false} ShuffledNext(randoms: seq<(nat, nat)>, i: nat)
    requires i < |randoms| == ROTORSZ
    ensures var t, k := Shuffled(randoms, i), ROTORSZ - 1 - i;
      var ic := Choice(randoms, i);
      Shuffled(randoms, i + 1) == t[k := t[ic]][ic := t[k]]
  {
    hide Choice;
  }

  predicate Different(t: seq<int>) {
    forall x, y :: 0 <= x < y < |t| ==> t[x] != t[y]
  }

  lemma {:induction false} ShuffledDifferent(randoms: seq<(nat, nat)>, i: nat)
    requires i <= |randoms| == ROTORSZ
    ensures InRange(Shuffled(randoms, i)) && Different(Shuffled(randoms, i))
  {
    hide Choice;
    if i > 0 {
      ShuffledDifferent(randoms, i - 1);
      ShuffledNext(randoms, i - 1);
      hide Shuffled;
    }
  }

  /** Where a number is. */
  lemma {:induction false} Whereabouts(randoms: seq<(nat, nat)>, i: nat, v: nat) returns (x: nat)
    requires i <= |randoms| == ROTORSZ && v < ROTORSZ
    ensures x < ROTORSZ && Shuffled(randoms, i)[x] == v
  {
    hide Choice;
    if i == 0 {
      return v;
    }
    x := Whereabouts(randoms, i - 1, v);
    ShuffledNext(randoms, i - 1);
    var k := ROTORSZ - i;
    var ic := Choice(randoms, i - 1);
    hide Shuffled;
    x := if x == k then ic else if x == ic then k else x;
  }

  /** A slot that has been gone over stays as it is. */
  lemma {:induction false} GoneOver(randoms: seq<(nat, nat)>, i: nat, j: nat, x: nat)
    requires i <= j <= |randoms| == ROTORSZ && ROTORSZ - i <= x < ROTORSZ
    ensures Shuffled(randoms, j)[x] == Shuffled(randoms, i)[x]
  {
    hide Choice;
    if i < j {
      GoneOver(randoms, i, j - 1, x);
      ShuffledNext(randoms, j - 1);
      hide Shuffled;
    }
  }

  /** The rounds before depend on the numbers before. */
  lemma {:induction false} ShuffledSame(a: seq<(nat, nat)>, b: seq<(nat, nat)>, i: nat)
    requires i <= |a| == |b| == ROTORSZ && forall j :: 0 <= j < i ==> Choice(a, j) == Choice(b, j)
    ensures Shuffled(a, i) == Shuffled(b, i)
  {
    hide Choice;
    if i > 0 {
      ShuffledSame(a, b, i - 1);
      assert Choice(a, i - 1) == Choice(b, i - 1);
      ShuffledNext(a, i - 1);
      ShuffledNext(b, i - 1);
      hide Shuffled;
    }
  }

  /** What a round chooses stays in the slot gone over. */
  lemma {:induction false} Chosen(randoms: seq<(nat, nat)>, i: nat)
    requires i < |randoms| == ROTORSZ
    ensures Shuffled(randoms, ROTORSZ)[ROTORSZ - 1 - i] == Shuffled(randoms, i)[Choice(randoms, i)]
  {
    ShuffledNext(randoms, i);
    hide Choice, Shuffled;
    GoneOver(randoms, i + 1, ROTORSZ, ROTORSZ - 1 - i);
  }

  /** The outcome tells the numbers. */
  lemma {:induction false} ChoicesTold(a: seq<(nat, nat)>, b: seq<(nat, nat)>, i: nat)
    requires i <= |a| == |b| == ROTORSZ && Shuffled(a, ROTORSZ) == Shuffled(b, ROTORSZ)
    ensures forall j :: 0 <= j < i ==> Choice(a, j) == Choice(b, j)
  {
    hide Choice, Shuffled;
    if i > 0 {
      ChoicesTold(a, b, i - 1);
      ShuffledSame(a, b, i - 1);
      Chosen(a, i - 1);
      Chosen(b, i - 1);
      ShuffledDifferent(a, i - 1);
    }
  }

  /** Different choices, each of a slot that has not been gone over, make different rotors. */
  lemma {:induction false} ShuffledApart(a: seq<(nat, nat)>, b: seq<(nat, nat)>)
    requires |a| == |b| == ROTORSZ
    ensures Shuffled(a, ROTORSZ) == Shuffled(b, ROTORSZ)
            <==> forall j :: 0 <= j < ROTORSZ ==> Choice(a, j) == Choice(b, j)
  {
    hide Choice;
    if Shuffled(a, ROTORSZ) == Shuffled(b, ROTORSZ) {
      ChoicesTold(a, b, ROTORSZ);
    }
    if forall j :: 0 <= j < ROTORSZ ==> Choice(a, j) == Choice(b, j) {
      ShuffledSame(a, b, ROTORSZ);
    }
  }

  /** One slot more. */
  lemma {:induction false} MadeNext(s: seq<int>, before: seq<(nat, nat)>, i: nat) returns (randoms: seq<(nat, nat)>)
    requires InRange(s) && Different(s) && i < |before| == ROTORSZ
    requires forall x :: ROTORSZ - i <= x < ROTORSZ ==> Shuffled(before, i)[x] == s[x]
    ensures |randoms| == ROTORSZ && forall x :: ROTORSZ - (i + 1) <= x < ROTORSZ ==> Shuffled(randoms, i + 1)[x] == s[x]
  {
    hide Shuffled, Choice;
    var k := ROTORSZ - 1 - i;
    var ic := Whereabouts(before, i, s[k]);
    assert ic <= k;
    randoms := before[i := (ic, 0)];
    ChoiceOf(before, i, ic);
    ShuffledSame(randoms, before, i);
    ShuffledNext(randoms, i);
  }

  lemma {:induction false} ChoiceOf(randoms: seq<(nat, nat)>, i: nat, ic: nat)
    requires i < |randoms| == ROTORSZ && ic < ROTORSZ - i
    ensures Choice(randoms[i := (ic, 0)], i) == ic
    ensures forall j :: 0 <= j < i ==> Choice(randoms[i := (ic, 0)], j) == Choice(randoms, j)
  {
    SmallMod(ic, ROTORSZ - i);
    forall j | 0 <= j < i ensures Choice(randoms[i := (ic, 0)], j) == Choice(randoms, j) {
      assert randoms[i := (ic, 0)][j] == randoms[j];
    }
  }

  lemma {:induction false} SmallMod(x: nat, m: nat)
    requires x < m
    ensures x % m == x
  {
  }

  /** The last i slots made those of s. */
  lemma {:induction false} MadeFrom(s: seq<int>, i: nat) returns (randoms: seq<(nat, nat)>)
    requires InRange(s) && Different(s) && i <= ROTORSZ
    ensures |randoms| == ROTORSZ && forall x :: ROTORSZ - i <= x < ROTORSZ ==> Shuffled(randoms, i)[x] == s[x]
  {
    hide Shuffled, InRange, Different;
    if i == 0 {
      return seq(ROTORSZ, _ => (0, 0));
    }
    var before := MadeFrom(s, i - 1);
    randoms := MadeNext(s, before, i - 1);
  }

  /** Every rotor can come of it. */
  lemma {:induction false} ShuffledAny(s: seq<int>) returns (randoms: seq<(nat, nat)>)
    requires InRange(s) && Different(s)
    ensures |randoms| == ROTORSZ && Shuffled(randoms, ROTORSZ) == s
  {
    randoms := MadeFrom(s, ROTORSZ);
  }

  /** The first slot without partner from lo on, or hi. */
  function FreeFrom(t: seq<int>, lo: nat, hi: nat): (r: nat)
    requires lo <= hi <= |t|
    ensures lo <= r <= hi && (forall x :: lo <= x < r ==> t[x] != 0) && (r < hi ==> t[r] == 0)
    decreases hi - lo
  {
    if lo == hi || t[lo] == 0 then lo else FreeFrom(t, lo + 1, hi)
  }

  /** The first slot without partner among k, going around from ic. */
  function NextFree(t: seq<int>, k: nat, ic: nat): (r: nat)
    requires ic <= k <= |t|
    ensures r <= k && (r < k ==> t[r] == 0)
  {
    if FreeFrom(t, ic, k) < k then FreeFrom(t, ic, k) else FreeFrom(t, 0, k)
  }

  /** t3 after i rounds. */
  function Partners(randoms: seq<(nat, nat)>, i: nat): (t: seq<int>)
    requires i <= |randoms| == ROTORSZ
    ensures |t| == ROTORSZ
  {
    if i == 0 then seq(ROTORSZ, _ => 0)
    else
      var t, k := Partners(randoms, i - 1), ROTORSZ - i;
      if t[k] != 0 || k == 0 then t
      else
        var ic := NextFree(t, k, randoms[i - 1].1 % k);
        if ic < k then t[k := ic][ic := k] else t
  }

  lemma {:induction false} PartnersNext(randoms: seq<(nat, nat)>, i: nat)
    requires i < |randoms| == ROTORSZ
    ensures var t, k := Partners(randoms, i), ROTORSZ - 1 - i;
      Partners(randoms, i + 1)
      == if t[k] != 0 || k == 0 then t
         else var ic := NextFree(t, k, randoms[i].1 % k); if ic < k then t[k := ic][ic := k] else t
  {
  }

  // ---------------------------------------------------------------------------------------
  // The cipher

  /** What becomes of byte i with the rotors turned by n1 and n2. */
  function Turned(t1: seq<int>, t2: seq<int>, t3: seq<int>, n1: int, n2: int, i: int): (r: int)
    requires InRange(t1) && InRange(t2) && InRange(t3)
    ensures 0 <= r < ROTORSZ
  {
    Mask(t2[Mask(t3[Mask(t1[Mask(i + n1)] + n2)] - n2)] - n1)
  }

  lemma {:induction false} MaskShift(x: int, q: int)
    ensures Mask(x + ROTORSZ * q) == Mask(x)
  {
  }

  lemma {:induction false} MaskBack(x: int, n: int)
    ensures Mask(Mask(x + n) - n) == Mask(x)
  {
    var q := (x + n) / ROTORSZ;
    assert Mask(x + n) - n == x + ROTORSZ * (0 - q);
    MaskShift(x, 0 - q);
  }

  lemma {:induction false} MaskAll(x: int, m: int, y: int, n: int)
    requires 0 <= x < ROTORSZ && 0 <= y < ROTORSZ
    ensures Mask(Mask(x + m) - m) == x && Mask(Mask(y + n) - n) == y
  {
    MaskBack(x, m);
    MaskBack(y, n);
  }

  /** Behind the first rotor, turned by n1, a byte and what becomes of it stand at slots that the third, turned by n2,
      pairs off. */
  lemma {:induction false} TurnedPairs(t1: seq<int>, t2: seq<int>, t3: seq<int>, n1: int, n2: int, i: int)
    requires Inverses(t1, t2) && Reflects(t3) && 0 <= i < ROTORSZ
    ensures var r := Turned(t1, t2, t3, n1, n2, i);
      t3[Mask(t1[Mask(i + n1)] + n2)] == Mask(t1[Mask(r + n1)] + n2)
  {
    var b := Mask(t1[Mask(i + n1)] + n2);
    var c := t3[b];
    var d := t2[Mask(c - n2)];
    var r := Mask(d - n1);
    hide Mask;
    MaskAll(d, 0 - n1, c, 0 - n2);
    MaskAll(t1[Mask(i + n1)], n2, i, n1);
    assert t1[d] == Mask(c - n2);
  }

  /** Going through twice comes back, and no byte stays what it is. */
  lemma {:induction false} TurnedTwice(t1: seq<int>, t2: seq<int>, t3: seq<int>, n1: int, n2: int, i: int)
    requires Inverses(t1, t2) && Reflects(t3) && 0 <= i < ROTORSZ
    ensures var r := Turned(t1, t2, t3, n1, n2, i); r != i && Turned(t1, t2, t3, n1, n2, r) == i
  {
    var a := Mask(i + n1);
    var b := Mask(t1[a] + n2);
    var c := t3[b];
    var d := t2[Mask(c - n2)];
    var r := Mask(d - n1);
    hide Mask;
    MaskAll(d, 0 - n1, c, 0 - n2);
    MaskAll(t1[a], n2, i, n1);
    assert t1[d] == Mask(c - n2) && t3[c] == b && t2[t1[a]] == a;
  }

  /** n1 and n2 after j bytes. */
  function Fast(j: nat): nat {
    j % ROTORSZ
  }

  function Slow(j: nat): nat {
    j / ROTORSZ % ROTORSZ
  }

  lemma {:induction false} Start()
    ensures Fast(0) == 0 && Slow(0) == 0
  {
  }

  lemma {:induction false} Turn(j: nat)
    ensures Fast(j) < ROTORSZ && Slow(j) < ROTORSZ
    ensures Fast(j + 1) == if Fast(j) + 1 == ROTORSZ then 0 else Fast(j) + 1
    ensures Slow(j + 1) == if Fast(j) + 1 < ROTORSZ then Slow(j) else if Slow(j) + 1 == ROTORSZ then 0 else Slow(j) + 1
  {
    var q, r := j / ROTORSZ, j % ROTORSZ;
    assert j + 1 == ROTORSZ * q + (r + 1);
    assert (j + 1) / ROTORSZ == if r + 1 == ROTORSZ then q + 1 else q;
  }

  /** The text enciphered by rotors at rest, byte j after j turns. */
  function Enciphered(t1: seq<int>, t2: seq<int>, t3: seq<int>, text: seq<int>): (r: seq<int>)
    requires InRange(t1) && InRange(t2) && InRange(t3)
    ensures |r| == |text|
  {
    seq(|text|, j requires 0 <= j < |text| => Turned(t1, t2, t3, Fast(j), Slow(j), text[j]))
  }

  /** Enciphering any text twice gives it back, and no byte of it is ever enciphered to itself. */
  lemma {:induction false} EncipheredTwice(t1: seq<int>, t2: seq<int>, t3: seq<int>, text: seq<int>)
    requires Inverses(t1, t2) && Reflects(t3) && forall j :: 0 <= j < |text| ==> 0 <= text[j] < ROTORSZ
    ensures var r := Enciphered(t1, t2, t3, text);
      Enciphered(t1, t2, t3, r) == text && forall j :: 0 <= j < |text| ==> r[j] != text[j]
  {
    var r := Enciphered(t1, t2, t3, text);
    forall j | 0 <= j < |text| ensures r[j] != text[j] && Enciphered(t1, t2, t3, r)[j] == text[j] {
      TurnedTwice(t1, t2, t3, Fast(j), Slow(j), text[j]);
    }
  }

  // ---------------------------------------------------------------------------------------
  // The program

  class Crypt {
    const t1: array<int>
    const t2: array<int>
    const t3: array<int>

    ghost predicate Valid()
      reads this, t1, t2, t3
    {
      t1 != t2 && t1 != t3 && t2 != t3 && Inverses(t1[..], t2[..]) && Reflects(t3[..])
    }

    /** `setup`. The two bytes of each random number are taken as they come. */
    constructor (randoms: seq<(nat, nat)>)
      requires |randoms| == ROTORSZ
      ensures Valid()
      ensures t1[..] == Shuffled(randoms, ROTORSZ) && t3[..] == Partners(randoms, ROTORSZ)
    {
      t1, t2, t3 := new int[ROTORSZ](i => i), new int[ROTORSZ](i => 0), new int[ROTORSZ](i => 0);
      new;
      assert t1[..] == Shuffled(randoms, 0) && t3[..] == Partners(randoms, 0);
      ghost var inv := t1[..];
      AllUnpaired(t3[..], ROTORSZ);
      Build(randoms, inv);
    }

    method Build(randoms: seq<(nat, nat)>, ghost start: seq<int>)
      requires Building(randoms, 0, start)
      modifies t1, t2, t3
      ensures Valid()
      ensures t1[..] == Shuffled(randoms, ROTORSZ) && t3[..] == Partners(randoms, ROTORSZ)
    {
      ghost var inv := start;
      var i := 0;
      while i < ROTORSZ
        invariant 0 <= i <= ROTORSZ && Building(randoms, i, inv)
      {
        inv := Round(randoms, i, inv);
        i := i + 1;
      }
      Invert(inv);
    }

    /** i rounds are done. */
    ghost predicate Building(randoms: seq<(nat, nat)>, i: nat, inv: seq<int>)
      reads t1, t2, t3
    {
      && t1 != t2 && t1 != t3 && t2 != t3 && t2.Length == ROTORSZ && i <= |randoms| == ROTORSZ
      && Inverses(t1[..], inv) && Pairing(t3[..], ROTORSZ - i)
      && t1[..] == Shuffled(randoms, i) && t3[..] == Partners(randoms, i)
    }

    method Round(randoms: seq<(nat, nat)>, i: nat, ghost inv: seq<int>) returns (ghost inv': seq<int>)
      requires i < ROTORSZ && Building(randoms, i, inv)
      modifies t1, t3
      ensures Building(randoms, i + 1, inv')
    {
      hide Partners, NextFree, Inverses, Pairing;
      var k := ROTORSZ - 1 - i;
      inv' := Exchange(k, randoms[i].0 % (k + 1), inv);
      PartnersNext(randoms, i);
      if t3[k] != 0 {
        PairedOn(t3[..], k + 1);
      } else {
        Pair(k, randoms[i].1);
      }
    }

    method Exchange(k: nat, ic: nat, ghost inv: seq<int>) returns (ghost inv': seq<int>)
      requires k < ROTORSZ && ic <= k && Inverses(t1[..], inv)
      modifies t1
      ensures Inverses(t1[..], inv') && t1[..] == old(t1[..])[k := old(t1[ic])][ic := old(t1[k])]
    {
      ghost var was := t1[..];
      var temp := t1[k];
      t1[k] := t1[ic];
      t1[ic] := temp;
      assert t1[..] == was[k := was[ic]][ic := was[k]];
      inv' := SwapInverse(was, inv, k, ic);
    }

    /** Finds a partner for slot k, from a random slot on. */
    method Pair(k: nat, random: nat)
      requires k < t3.Length && Pairing(t3[..], k + 1) && t3[k] == 0
      modifies t3
      ensures Pairing(t3[..], k) && k > 0
      ensures var ic := NextFree(old(t3[..]), k, random % k); ic < k && t3[..] == old(t3[..])[k := ic][ic := k]
    {
      ghost var t := t3[..];
      ghost var u := AnotherUnpaired(t, k + 1);
      assert t3[u] == 0;
      var ic := random % k;
      ghost var start := ic;
      while t3[ic] != 0
        invariant 0 <= ic < k && t3[..] == t
        invariant if start <= ic then FreeFrom(t, start, k) == FreeFrom(t, ic, k)
                  else FreeFrom(t, start, k) == k && FreeFrom(t, 0, k) == FreeFrom(t, ic, k)
        decreases if ic <= u then u - ic else u - ic + k
      {
        NextSlot(ic, k);
        ic := (ic + 1) % k;
      }
      t3[k] := ic;
      t3[ic] := k;
      assert t3[..] == t[k := ic][ic := k];
      PairUp(t, k + 1, ic);
    }

    method Invert(ghost inv: seq<int>)
      requires t1 != t2 && t2.Length == ROTORSZ && Inverses(t1[..], inv)
      modifies t2
      ensures t2[..] == inv
    {
      var i := 0;
      while i < ROTORSZ
        invariant 0 <= i <= ROTORSZ && t1[..] == old(t1[..])
        invariant forall j :: 0 <= j < i ==> t2[t1[j]] == j
      {
        t2[Mask(t1[i])] := i;
        i := i + 1;
      }
      forall x | 0 <= x < ROTORSZ ensures t2[x] == inv[x] {
        assert t1[inv[x]] == x;
      }
    }

    method One(i: int, n1: int, n2: int) returns (r: int)
      requires Valid()
      ensures r == Turned(t1[..], t2[..], t3[..], n1, n2, i)
    {
      r := Mask(t2[Mask(t3[Mask(t1[Mask(i + n1)] + n2)] - n2)] - n1);
    }

    /** The loop of `main` over the input. */
    method Encipher(text: seq<int>) returns (r: seq<int>)
      requires Valid() && forall j :: 0 <= j < |text| ==> 0 <= text[j] < ROTORSZ
      ensures r == Enciphered(t1[..], t2[..], t3[..], text)
    {
      hide Fast, Slow, Turned;
      Start();
      var n1, n2, j := 0, 0, 0;
      r := [];
      while j < |text|
        invariant 0 <= j <= |text| && n1 == Fast(j) && n2 == Slow(j)
        invariant |r| == j && forall i :: 0 <= i < j ==> r[i] == Enciphered(t1[..], t2[..], t3[..], text)[i]
      {
        Turn(j);
        var i := One(text[j], n1, n2);
        r := r + [i];
        n1 := n1 + 1;
        if n1 == ROTORSZ {
          n1 := 0;
          n2 := n2 + 1;
          if n2 == ROTORSZ {
            n2 := 0;
          }
        }
        j := j + 1;
      }
    }
  }

  lemma {:induction false} NextSlot(ic: nat, k: nat)
    requires ic < k
    ensures (ic + 1) % k == if ic + 1 == k then 0 else ic + 1
  {
  }

  lemma {:induction false} SwapInverse(s: seq<int>, inv: seq<int>, k: nat, ic: nat) returns (inv': seq<int>)
    requires Inverses(s, inv) && k < ROTORSZ && ic < ROTORSZ
    ensures Inverses(s[k := s[ic]][ic := s[k]], inv')
  {
    inv' := inv[s[ic] := k][s[k] := ic];
  }
}
