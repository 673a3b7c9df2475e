/** The compressor's hash table of (prefix, character) pairs: first probe by exclusive or, then
    double hashing (`compress` and `cl_hash` of compress.c). */
module CodeTable {

  import opened Basics
  import opened BitStream
  import opened Lzw
  import opened Primes

  function Xor(a: nat, b: nat): nat
    decreases a + b
  {
    if a == 0 && b == 0 then 0
    else (if a % 2 == b % 2 then 0 else 1) + 2 * Xor(a / 2, b / 2)
  }

  lemma {:induction false} XorBound(a: nat, b: nat, k: nat)
    requires a < Pow2(k) && b < Pow2(k)
    ensures Xor(a, b) < Pow2(k)
    decreases k
  {
    if k > 0 { XorBound(a / 2, b / 2, k - 1); }
  }

  lemma {:induction false} ShlBound(x: nat, j: nat, k: nat)
    requires x < Pow2(j)
    ensures Shl(x, k) < Pow2(j + k)
    decreases k
  {
    if k > 0 { ShlBound(x, j, k - 1); }
  }

  /** The pair's key: (c << maxbits) + ent. */
  function Key(maxbits: nat, c: nat, ent: nat): nat {
    Shl(c, maxbits) + ent
  }

  /** The key determines the pair. */
  lemma {:induction false} KeyInjective(m: nat, c: nat, ent: nat, c': nat, ent': nat)
    requires ent < Pow2(m) && ent' < Pow2(m) && Key(m, c, ent) == Key(m, c', ent')
    ensures c == c' && ent == ent'
  {
    if m > 0 {
      KeyInjective(m - 1, c, ent / 2, c', ent' / 2);
    }
  }

  /** The first probe of every pair falls inside the table. */
  lemma {:induction false} FirstProbe(bits: nat, maxbits: nat, c: byte, ent: nat)
    requires 12 <= bits <= 16 && maxbits <= bits && ent < Pow2(maxbits)
    ensures Xor(Shl(c, bits - 8), ent) < HSize(bits)
  {
    Sizes(bits);
    assert Pow2(8) == 256;
    ShlBound(c, 8, bits - 8);
    Pow2Mono(maxbits, bits);
    XorBound(Shl(c, bits - 8), ent, bits);
  }

  // ---------------------------------------------------------------------------------------
  // The probe sequence

  /** The k-th slot looked at when the first is i0. */
  function Probe(i0: nat, k: nat, h: nat): (i: nat)
    requires i0 < h
    ensures i < h
  {
    if k == 0 then i0
    else
      var i := Probe(i0, k - 1, h) - if i0 == 0 then 1 else h - i0;
      if i < 0 then i + h else i
  }

  lemma {:induction false} ProbeIsMultiple(i0: nat, k: nat, h: nat)
    requires 0 < i0 < h
    ensures Probe(i0, k, h) == ((k + 1) * i0) % h
  {
    if k == 0 {
      ModUnique(i0, 0, i0, h);
    } else {
      ProbeIsMultiple(i0, k - 1, h);
      NextMultiple(k, i0, h);
    }
  }

  lemma {:induction false} NextMultiple(k: nat, a: nat, h: nat)
    requires a < h
    ensures var i := (k * a) % h + a;
      ((k + 1) * a) % h == if i < h then i else i - h
  {
    AddMod(k * a, a, h);
    assert k * a + a == (k + 1) * a;
    var i := (k * a) % h + a;
    if i < h { ModUnique(i, 0, i, h); } else { ModUnique(i, 1, i - h, h); }
  }

  lemma {:induction false} ProbeFromZero(k: nat, h: nat)
    requires 0 < k <= h
    ensures Probe(0, k, h) == h - k
  {
    if k > 1 { ProbeFromZero(k - 1, h); }
  }

  /** The displacement is prime to the table size, so every slot is reached in at most h probes. */
  lemma {:induction false} ProbeReaches(i0: nat, t: nat, h: nat) returns (k: nat)
    requires IsPrime(h) && i0 < h && t < h
    ensures 0 < k <= h && Probe(i0, k, h) == t
  {
    if i0 == 0 {
      k := h - t;
      ProbeFromZero(k, h);
    } else {
      var m := MultiplesReach(i0, t, h);
      if m == 1 {
        // t is the start itself, which comes round again after h steps
        ModUnique(i0, 0, i0, h);
        k := h;
        AddMultiple(i0, i0, h);
        assert (h + 1) * i0 == i0 + h * i0;
      } else {
        k := m - 1;
      }
      ProbeIsMultiple(i0, k, h);
    }
  }

  // ---------------------------------------------------------------------------------------
  // Searching

  /** The k-th slot of the probe from i0 is come to: all before it are in use, for other keys. */
  ghost predicate Passed(htab: seq<int>, i0: nat, k: nat, key: int) {
    i0 < |htab| && forall j: nat :: j < k ==>
      var v := htab[Probe(i0, j, |htab|)];
      v != key && if j == 0 then v >= 0 else v > 0
  }

  lemma {:induction false} NothingPassed(htab: seq<int>, i0: nat, key: int)
    requires i0 < |htab|
    ensures Passed(htab, i0, 0, key) && Probe(i0, 0, |htab|) == i0
  {
  }

  /** One probe more. */
  lemma {:induction false} PassedNext(htab: seq<int>, i0: nat, k: nat, key: int)
    requires Passed(htab, i0, k, key)
    requires var v := htab[Probe(i0, k, |htab|)]; v != key && if k == 0 then v >= 0 else v > 0
    ensures Passed(htab, i0, k + 1, key)
    ensures Probe(i0, k + 1, |htab|)
         == var i := Probe(i0, k, |htab|) - if i0 == 0 then 1 else |htab| - i0; if i < 0 then i + |htab| else i
  {
  }

  /** It ends the search: on the first probe a key of 0 does not. */
  predicate Stops(v: int, k: nat) {
    if k == 0 then v < 0 else v <= 0
  }

  /** A search for the key from i0 finds it. */
  ghost predicate Reached(htab: seq<int>, i0: nat, key: int) {
    exists k: nat :: Passed(htab, i0, k, key) && htab[Probe(i0, k, |htab|)] == key
  }

  lemma {:induction false} NotReached(htab: seq<int>, i0: nat, k: nat, key: int)
    requires Passed(htab, i0, k, key) && Stops(htab[Probe(i0, k, |htab|)], k) && key > 0
    ensures !Reached(htab, i0, key)
  {
    hide Probe;
  }

  /** Writing over a slot that is not in use for a key above 0 hides no other key. */
  lemma {:induction false} StillReached(htab: seq<int>, i0: nat, key: int, i: nat, x: int)
    requires Reached(htab, i0, key) && key > 0 && i < |htab| && htab[i] <= 0 && x >= 0 && x != key
    ensures Reached(htab[i := x], i0, key)
  {
    hide Probe;
    var k: nat :| Passed(htab, i0, k, key) && htab[Probe(i0, k, |htab|)] == key;
    assert Passed(htab[i := x], i0, k, key);
  }

  /** A key written where its search has ended is found there. */
  lemma {:induction false} NowReached(htab: seq<int>, i0: nat, k: nat, key: int)
    requires Passed(htab, i0, k, key) && htab[Probe(i0, k, |htab|)] <= 0
    ensures Reached(htab[Probe(i0, k, |htab|) := key], i0, key)
  {
    hide Probe;
    var i := Probe(i0, k, |htab|);
    var now := htab[i := key];
    if Probe(i0, 0, |htab|) == i {
      assert Passed(now, i0, 0, key) && now[Probe(i0, 0, |now|)] == key;
    } else {
      assert Passed(now, i0, k, key) && now[Probe(i0, k, |now|)] == key;
    }
  }

  // ---------------------------------------------------------------------------------------
  // What the table says

  /** How many slots the probe loop runs over. */
  function Positive(htab: seq<int>): (n: nat)
    ensures n <= |htab|
  {
    if htab == [] then 0
    else Positive(htab[..|htab| - 1]) + if htab[|htab| - 1] > 0 then 1 else 0
  }

  lemma {:induction false} FreeSlot(htab: seq<int>) returns (t: nat)
    requires Positive(htab) < |htab|
    ensures t < |htab| && htab[t] <= 0
  {
    t := |htab| - 1;
    if htab[t] > 0 {
      var front := htab[..t];
      t := FreeSlot(front);
    }
  }

  lemma {:induction false} PositiveGrows(htab: seq<int>, i: nat, x: int)
    requires i < |htab|
    ensures Positive(htab[i := x]) <= Positive(htab) + 1
  {
    var n := |htab| - 1;
    if i < n {
      PositiveGrows(htab[..n], i, x);
      assert htab[i := x][..n] == htab[..n][i := x];
    } else {
      assert htab[i := x][..n] == htab[..n];
    }
  }

  lemma {:induction false} NonePositive(htab: seq<int>)
    requires forall i: nat :: i < |htab| ==> htab[i] < 0
    ensures Positive(htab) == 0
  {
    if htab != [] { NonePositive(htab[..|htab| - 1]); }
  }

  /** The slot of the first probe. */
  function Start(bits: nat, e: Entry): nat
    requires bits >= 8
  {
    Xor(Shl(e.suffix, bits - 8), e.prefix)
  }

  /** Completeness: every entry is found by a search for it. The one whose key is 0 may have been overwritten. */
  ghost predicate Complete(cfg: Config, tab: seq<Entry>, htab: seq<int>) {
    cfg.bits >= 8 && forall x: nat :: 256 <= x < |tab| && Usable(cfg, tab, x) ==> Listed(cfg, tab[x], htab)
  }

  ghost predicate Listed(cfg: Config, e: Entry, htab: seq<int>)
    requires cfg.bits >= 8
  {
    var key := Key(cfg.maxbits, e.suffix, e.prefix);
    key > 0 ==> Reached(htab, Start(cfg.bits, e), key)
  }

  /** A search that has ended shows that the table does not have the pair. */
  lemma {:induction false} Absent(cfg: Config, tab: seq<Entry>, htab: seq<int>, e: Entry, k: nat)
    requires Complete(cfg, tab, htab) && Key(cfg.maxbits, e.suffix, e.prefix) > 0
    requires Passed(htab, Start(cfg.bits, e), k, Key(cfg.maxbits, e.suffix, e.prefix))
    requires Stops(htab[Probe(Start(cfg.bits, e), k, |htab|)], k)
    ensures forall x: nat :: 256 <= x < |tab| && Usable(cfg, tab, x) ==> tab[x] != e
  {
    hide Probe, Passed, Stops, Key, Start, Reached;
    NotReached(htab, Start(cfg.bits, e), k, Key(cfg.maxbits, e.suffix, e.prefix));
  }

  /** Another entry, put where the search for it has ended. */
  lemma {:induction false} EnterCompletes(cfg: Config, tab: seq<Entry>, htab: seq<int>, e: Entry, k: nat)
    requires TableOk(cfg, tab) && |tab| <= Pow2(cfg.maxbits) && Complete(cfg, tab, htab) && e.prefix < Pow2(cfg.maxbits)
    requires Passed(htab, Start(cfg.bits, e), k, Key(cfg.maxbits, e.suffix, e.prefix))
    requires Stops(htab[Probe(Start(cfg.bits, e), k, |htab|)], k)
    ensures var i := Probe(Start(cfg.bits, e), k, |htab|);
      Complete(cfg, tab + [e], htab[i := Key(cfg.maxbits, e.suffix, e.prefix)])
  {
    var i, key := Probe(Start(cfg.bits, e), k, |htab|), Key(cfg.maxbits, e.suffix, e.prefix);
    hide Probe, Passed, Key, Start, Reached, Pow2;
    if key > 0 {
      Absent(cfg, tab, htab, e, k);
      NowReached(htab, Start(cfg.bits, e), k, key);
    }
    KeyNat(cfg.maxbits, e);
    forall x: nat | 256 <= x < |tab| && Usable(cfg, tab, x)
      ensures Listed(cfg, tab[x], htab[i := key])
    {
      var other := Key(cfg.maxbits, tab[x].suffix, tab[x].prefix);
      if other > 0 {
        if other == key {
          KeyInjective(cfg.maxbits, e.suffix, e.prefix, tab[x].suffix, tab[x].prefix);
          assert false;
        }
        StillReached(htab, Start(cfg.bits, tab[x]), other, i, key);
      }
    }
  }

  lemma {:induction false} KeyNat(maxbits: nat, e: Entry)
    ensures Key(maxbits, e.suffix, e.prefix) >= 0
  {
  }

  /** Only the pair of code 0 and character 0 has the key 0. */
  lemma {:induction false} KeyZero(maxbits: nat, c: nat, ent: nat)
    ensures Key(maxbits, c, ent) == 0 <==> c == 0 && ent == 0
  {
    if maxbits > 0 {
      KeyZero(maxbits - 1, c, 0);
    }
  }

  /** Soundness: an occupied slot holds the key of the table entry its code names. */
  ghost predicate Sound(cfg: Config, tab: seq<Entry>, htab: seq<int>, codetab: seq<nat>) {
    |htab| == |codetab| &&
    forall i: nat :: i < |htab| && htab[i] >= 0 ==>
      && 256 <= codetab[i] && Usable(cfg, tab, codetab[i])
      && htab[i] == Key(cfg.maxbits, tab[codetab[i]].suffix, tab[codetab[i]].prefix)
  }

  /** A slot whose key is that of (c, ent) names the code of ent's string followed by c. */
  lemma {:induction false} FoundCode(cfg: Config, tab: seq<Entry>, htab: seq<int>, codetab: seq<nat>, i: nat,
                                     c: byte, ent: nat)
    requires TableOk(cfg, tab) && |tab| <= Pow2(cfg.maxbits) && Usable(cfg, tab, ent)
    requires Sound(cfg, tab, htab, codetab) && i < |htab| && htab[i] == Key(cfg.maxbits, c, ent)
    ensures Usable(cfg, tab, codetab[i])
    ensures Str(cfg, tab, codetab[i]) == Str(cfg, tab, ent) + [c]
  {
    var e := tab[codetab[i]];
    assert e.prefix < codetab[i];
    KeyInjective(cfg.maxbits, c, ent, e.suffix, e.prefix);
  }

  /** Entering a new pair keeps the table sound, whatever the slot held before. */
  lemma {:induction false} EnterKeeps(cfg: Config, tab: seq<Entry>, htab: seq<int>, codetab: seq<nat>, i: nat, e: Entry)
    requires Sound(cfg, tab, htab, codetab) && i < |htab|
    requires 256 <= |tab| && Usable(cfg, tab + [e], |tab|)
    ensures Sound(cfg, tab + [e], htab[i := Key(cfg.maxbits, e.suffix, e.prefix)], codetab[i := |tab|])
  {
  }

  // ---------------------------------------------------------------------------------------
  // The key 0

  /** The search for the pair ends without success at the k-th slot, and the pair is entered there. */
  ghost predicate Put(cfg: Config, htab: seq<int>, e: Entry, k: nat, htab': seq<int>)
    requires cfg.bits >= 8
  {
    var i0, key := Start(cfg.bits, e), Key(cfg.maxbits, e.suffix, e.prefix);
    Passed(htab, i0, k, key) && Stops(htab[Probe(i0, k, |htab|)], k) && htab' == htab[Probe(i0, k, |htab|) := key]
  }

  lemma {:induction false} PutFirst(cfg: Config, htab: seq<int>, e: Entry, i: nat, key: int)
    requires cfg.bits >= 8 && i < |htab| && htab[i] < 0
    requires Start(cfg.bits, e) == i && Key(cfg.maxbits, e.suffix, e.prefix) == key
    ensures Put(cfg, htab, e, 0, htab[i := key])
  {
  }

  lemma {:induction false} PutSecond(cfg: Config, htab: seq<int>, e: Entry, i: nat, j: nat, key: int)
    requires cfg.bits >= 8 && i < |htab| && j < |htab| && htab[i] >= 0 && htab[i] != key && htab[j] <= 0
    requires Start(cfg.bits, e) == i && Probe(i, 1, |htab|) == j && Key(cfg.maxbits, e.suffix, e.prefix) == key
    ensures Put(cfg, htab, e, 1, htab[j := key])
  {
  }

  lemma {:induction false} XorStep(a: nat, b: nat)
    ensures Xor(a, b) == (if a % 2 == b % 2 then 0 else 1) + 2 * Xor(a / 2, b / 2)
  {
  }

  lemma {:induction false} XorShl(a: nat, b: nat, y: nat, k: nat)
    requires y < Pow2(k)
    ensures Xor(Shl(a, k), Shl(b, k) + y) == Shl(Xor(a, b), k) + y
    decreases k
  {
    if k > 0 {
      var p, q := Shl(a, k - 1), Shl(b, k - 1);
      XorShl(a, b, y / 2, k - 1);
      XorStep(2 * p, 2 * q + y);
      hide Xor, Pow2;
      assert 2 * p / 2 == p && (2 * q + y) / 2 == q + y / 2;
      assert y == 2 * (y / 2) + y % 2;
    }
  }

  /** The first slots of a few pairs. */
  lemma {:induction false} StartIs(c: byte, b: nat, y: nat)
    requires y < 16
    ensures Start(12, Entry(16 * b + y, c)) == 16 * Xor(c, b) + y && Key(12, c, 16 * b + y) == 4096 * c + 16 * b + y
  {
    XorShl(c, b, y, 4);
    assert Pow2(4) == 16;
    SixteenFold(b);
    SixteenFold(Xor(c, b));
    SixteenFold(c);
    SixteenFold(16 * c);
    SixteenFold(256 * c);
    ShlShl(c, 4, 4);
    ShlShl(c, 8, 4);
  }

  lemma {:induction false} SixteenFold(x: nat)
    ensures Shl(x, 4) == 16 * x
  {
    assert Shl(x, 1) == 2 * x;
    assert Shl(x, 2) == 4 * x;
    assert Shl(x, 3) == 8 * x;
  }

  /** With 12 bits, the text 10 01 00 00 05 9c 15 9d 00 00 (hexadecimal). Its third pair is entered with the key 0,
      which the seventh is written over; so the ninth, the same pair, is not found. */
  lemma {:induction false} ZeroPairLost(cfg: Config) returns (tables: seq<seq<int>>)
    requires cfg.bits == 12 && cfg.maxbits == 12
    ensures |tables| == 9 && tables[0] == seq(HSize(12), _ => -1)
    ensures Put(cfg, tables[0], Entry(0x10, 0x01), 0, tables[1]) && Put(cfg, tables[1], Entry(0x01, 0x00), 0, tables[2])
    ensures Put(cfg, tables[2], Entry(0x00, 0x00), 1, tables[3]) && Put(cfg, tables[3], Entry(0x00, 0x05), 0, tables[4])
    ensures Put(cfg, tables[4], Entry(0x05, 0x9c), 0, tables[5]) && Put(cfg, tables[5], Entry(0x9c, 0x15), 0, tables[6])
    ensures Put(cfg, tables[6], Entry(0x15, 0x9d), 1, tables[7]) && Put(cfg, tables[7], Entry(0x9d, 0x00), 0, tables[8])
    ensures Passed(tables[8], Start(12, Entry(0, 0)), 2, Key(12, 0, 0))
    ensures Stops(tables[8][Probe(Start(12, Entry(0, 0)), 2, HSize(12))], 2)
  {
    hide Put, Start, Key, Xor, Shl, Probe;
    PairStarts();
    SomeXors();
    var t0 := seq(HSize(12), _ => -1);
    var t1 := t0[0 := 4112];
    var t2 := t1[1 := 1];
    var t3 := t2[5002 := 0];
    var t4 := t3[80 := 20480];
    var t5 := t4[2501 := 638981];
    var t6 := t5[460 := 86172];
    var t7 := t6[5002 := 643093];
    var t8 := t7[157 := 157];
    tables := [t0, t1, t2, t3, t4, t5, t6, t7, t8];
    PutFirst(cfg, t0, Entry(0x10, 0x01), 0, 4112);
    PutFirst(cfg, t1, Entry(0x01, 0x00), 1, 1);
    PutSecond(cfg, t2, Entry(0x00, 0x00), 0, 5002, 0);
    PutFirst(cfg, t3, Entry(0x00, 0x05), 80, 20480);
    PutFirst(cfg, t4, Entry(0x05, 0x9c), 2501, 638981);
    PutFirst(cfg, t5, Entry(0x9c, 0x15), 460, 86172);
    PutSecond(cfg, t6, Entry(0x15, 0x9d), 2501, 5002, 643093);
    PutFirst(cfg, t7, Entry(0x9d, 0x00), 157, 157);
  }

  lemma {:induction false} PairStarts()
    ensures Start(12, Entry(0x10, 0x01)) == 0 && Start(12, Entry(0x01, 0x00)) == 1 && Start(12, Entry(0x00, 0x00)) == 0
    ensures Start(12, Entry(0x00, 0x05)) == 80 && Start(12, Entry(0x05, 0x9c)) == 2501
    ensures Start(12, Entry(0x9c, 0x15)) == 460 && Start(12, Entry(0x15, 0x9d)) == 2501
    ensures Start(12, Entry(0x9d, 0x00)) == 157
    ensures Key(12, 0x01, 0x10) == 4112 && Key(12, 0x00, 0x01) == 1 && Key(12, 0x00, 0x00) == 0
    ensures Key(12, 0x05, 0x00) == 20480 && Key(12, 0x9c, 0x05) == 638981
    ensures Key(12, 0x15, 0x9c) == 86172 && Key(12, 0x9d, 0x15) == 643093
    ensures Key(12, 0x00, 0x9d) == 157
  {
    hide Start, Key, Xor, Shl, Probe;
    SomeXors();
    StartIs(0x01, 1, 0);
    StartIs(0x00, 0, 1);
    StartIs(0x00, 0, 0);
    StartIs(0x05, 0, 0);
    StartIs(0x9c, 0, 5);
    StartIs(0x15, 9, 12);
    StartIs(0x9d, 1, 5);
    StartIs(0x00, 9, 13);
  }

  lemma {:induction false} SomeXors()
    ensures Xor(1, 1) == 0 && Xor(0, 0) == 0 && Xor(5, 0) == 5 && Xor(0x9c, 0) == 0x9c && Xor(0x15, 9) == 28
    ensures Xor(0x9d, 1) == 0x9c && Xor(0, 9) == 9
    ensures Probe(0, 0, 5003) == 0 && Probe(0, 1, 5003) == 5002 && Probe(0, 2, 5003) == 5001
    ensures Probe(2501, 1, 5003) == 5002
  {
  }
}
