/** The compiler's symbol table as a value: linear probing, and what is left of it when the entries of a
    scope are removed (`lookup`, `relook`, `clearst`, `checkst` of pftn.c). */
module Scopes {

  const SYMTSZ := 450
  const NCHNAM := 8
  const UNDEF := 0
  // pointer to UNDEF; marks an empty slot
  const TNULL := 16

  /** A name as far as it counts, and the flags that tell tags and members from other names. */
  datatype Key = Key(name: string, flags: nat)

  /** info stands for the fields that play no part here. */
  datatype Slot = Slot(stype: int, key: Key, level: int, sclass: nat, info: nat)

  predicate Free(s: Slot) {
    s.stype == TNULL
  }

  function Fold(name: string): nat {
    if name == [] then 0 else Fold(name[..|name| - 1]) * 2 + name[|name| - 1] as int
  }

  function Cut(name: string): string {
    if |name| > NCHNAM then name[..NCHNAM] else name
  }

  function Home(k: Key): (h: nat)
    ensures h < SYMTSZ
  {
    Fold(Cut(k.name)) % SYMTSZ
  }

  function Next(i: nat): nat {
    if i + 1 >= SYMTSZ then 0 else i + 1
  }

  /** `lookup`: the slot of the key or the first empty one, from slot i on; SYMTSZ when the table is full. */
  function Probe(t: seq<Slot>, k: Key, i: nat, n: nat): (r: nat)
    requires |t| == SYMTSZ && i < SYMTSZ
    ensures r <= SYMTSZ
    decreases n
  {
    if n == 0 then SYMTSZ
    else if Free(t[i]) || t[i].key == k then i
    else Probe(t, k, Next(i), n - 1)
  }

  lemma {:induction false} ProbeTurn(t: seq<Slot>, k: Key, i: nat, n: nat)
    requires |t| == SYMTSZ && i < SYMTSZ && n > 0
    ensures Probe(t, k, i, n) == if Free(t[i]) || t[i].key == k then i else Probe(t, k, Next(i), n - 1)
    ensures n == 1 && !Free(t[i]) && t[i].key != k ==> Probe(t, k, i, n) == SYMTSZ
  {
  }

  /** Every entry is found where it lies: what `checkst` tests. */
  ghost predicate Sound(t: seq<Slot>)
    requires |t| == SYMTSZ
  {
    forall i :: 0 <= i < SYMTSZ && !Free(t[i]) ==> Probe(t, t[i].key, Home(t[i].key), |t|) == i
  }

  ghost predicate DistinctKeys(t: seq<Slot>) {
    forall i, j :: 0 <= i < j < |t| && !Free(t[i]) && !Free(t[j]) ==> t[i].key != t[j].key
  }

  // ---------------------------------------------------------------------------------------
  // The table seen from an empty slot

  function Rot(t: seq<Slot>, q: nat): (u: seq<Slot>)
    requires q < |t|
    ensures |u| == |t|
  {
    t[q..] + t[..q]
  }

  function Back(q: nat, l: nat): nat {
    if q + l < SYMTSZ then q + l else q + l - SYMTSZ
  }

  function Fore(q: nat, i: nat): nat
    requires q < SYMTSZ
  {
    if i >= q then i - q else i + SYMTSZ - q
  }

  function HomeAt(q: nat, k: Key): nat
    requires q < SYMTSZ
  {
    Fore(q, Home(k))
  }

  predicate Full(u: seq<Slot>, a: nat, b: nat)
    requires b <= |u|
  {
    forall y :: a <= y < b ==> !Free(u[y])
  }

  /** No empty slot between the home of entry x and its place. */
  predicate Reached(u: seq<Slot>, q: nat, x: nat)
    requires q < SYMTSZ && x < |u|
  {
    HomeAt(q, u[x].key) <= x && Full(u, HomeAt(q, u[x].key), x)
  }

  ghost predicate AllReached(u: seq<Slot>, q: nat, l: nat)
    requires q < SYMTSZ && l <= |u|
  {
    forall x :: 0 <= x < l && !Free(u[x]) ==> Reached(u, q, x)
  }

  lemma {:induction false} RotAt(t: seq<Slot>, q: nat, l: nat)
    requires |t| == SYMTSZ && q < SYMTSZ && l < SYMTSZ
    ensures Back(q, l) < SYMTSZ && Rot(t, q)[l] == t[Back(q, l)]
    ensures Next(Back(q, l)) == Back(q, if l + 1 == SYMTSZ then 0 else l + 1)
  {
  }

  lemma {:induction false} RotFore(t: seq<Slot>, q: nat, i: nat)
    requires |t| == SYMTSZ && q < SYMTSZ && i < SYMTSZ
    ensures Back(q, Fore(q, i)) == i && Fore(q, i) < SYMTSZ && Rot(t, q)[Fore(q, i)] == t[i]
  {
  }

  lemma {:induction false} RotDistinct(t: seq<Slot>, q: nat)
    requires |t| == SYMTSZ && q < SYMTSZ
    ensures DistinctKeys(t) <==> DistinctKeys(Rot(t, q))
  {
    var u := Rot(t, q);
    if DistinctKeys(t) {
      forall x, y | 0 <= x < y < SYMTSZ && !Free(u[x]) && !Free(u[y]) ensures u[x].key != u[y].key {
        RotAt(t, q, x);
        RotAt(t, q, y);
        assert t[Back(q, x)].key != t[Back(q, y)].key;
      }
    }
    if DistinctKeys(u) {
      forall i, j | 0 <= i < j < SYMTSZ && !Free(t[i]) && !Free(t[j]) ensures t[i].key != t[j].key {
        RotFore(t, q, i);
        RotFore(t, q, j);
        assert u[Fore(q, i)].key != u[Fore(q, j)].key;
      }
    }
  }

  lemma {:induction false} ProbeOn(t: seq<Slot>, q: nat, k: Key, a: nat, b: nat, n: nat)
    requires |t| == SYMTSZ && q < SYMTSZ && a <= b < SYMTSZ && n > b - a
    requires var u := Rot(t, q);
      Full(u, a, b) && (Free(u[b]) || u[b].key == k) && forall y :: a <= y < b ==> u[y].key != k
    ensures Probe(t, k, Back(q, a), n) == Back(q, b)
    decreases b - a
  {
    hide Rot;
    RotAt(t, q, a);
    if a < b {
      ProbeOn(t, q, k, a + 1, b, n - 1);
    }
  }

  lemma {:induction false} ProbeFrom(t: seq<Slot>, q: nat, a: nat, x: nat, n: nat)
    requires |t| == SYMTSZ && q < SYMTSZ && a < SYMTSZ && x < SYMTSZ && Free(t[q]) && DistinctKeys(t)
    requires var u := Rot(t, q); !Free(u[x]) && Probe(t, u[x].key, Back(q, a), n) == Back(q, x)
    ensures a <= x && Full(Rot(t, q), a, x)
    decreases n
  {
    hide Rot;
    var u := Rot(t, q);
    RotAt(t, q, a);
    RotAt(t, q, x);
    RotAt(t, q, 0);
    if !Free(u[a]) && u[a].key != u[x].key && a + 1 < SYMTSZ {
      ProbeFrom(t, q, a + 1, x, n - 1);
    }
  }

  lemma {:induction false} SoundReached(t: seq<Slot>, q: nat)
    requires |t| == SYMTSZ && q < SYMTSZ && Free(t[q]) && DistinctKeys(t) && Sound(t)
    ensures AllReached(Rot(t, q), q, SYMTSZ)
  {
    hide Rot, Probe;
    var u := Rot(t, q);
    forall x | 0 <= x < SYMTSZ && !Free(u[x]) ensures Reached(u, q, x) {
      RotAt(t, q, x);
      RotFore(t, q, Home(u[x].key));
      ProbeFrom(t, q, HomeAt(q, u[x].key), x, |t|);
    }
  }

  lemma {:induction false} ReachedSound(t: seq<Slot>, q: nat)
    requires |t| == SYMTSZ && q < SYMTSZ && DistinctKeys(t) && AllReached(Rot(t, q), q, SYMTSZ)
    ensures Sound(t)
  {
    hide Rot, Probe;
    var u := Rot(t, q);
    RotDistinct(t, q);
    forall i | 0 <= i < SYMTSZ && !Free(t[i]) ensures Probe(t, t[i].key, Home(t[i].key), |t|) == i {
      var x := Fore(q, i);
      RotFore(t, q, i);
      RotFore(t, q, Home(t[i].key));
      assert Reached(u, q, x);
      assert forall y :: 0 <= y < x && !Free(u[y]) ==> u[y].key != u[x].key;
      ProbeOn(t, q, t[i].key, HomeAt(q, t[i].key), x, |t|);
    }
  }

  // ---------------------------------------------------------------------------------------
  // Removing a scope

  predicate Removed(s: Slot, lev: int) {
    !Free(s) && s.level > lev
  }

  predicate Kept(s: Slot, lev: int) {
    !Free(s) && s.level <= lev
  }

  /** An entry has been removed since the last slot that was empty to begin with. */
  ghost predicate Stirred(u: seq<Slot>, lev: int, l: nat)
    requires l <= |u|
  {
    exists z :: 0 <= z < l && Removed(u[z], lev) && Full(u, z, l)
  }

  /** From a to l all entries stay, and none of them has its home before a. */
  predicate Steady(u: seq<Slot>, q: nat, lev: int, a: nat, l: nat)
    requires q < SYMTSZ && l <= |u|
  {
    forall y :: a <= y < l ==> Kept(u[y], lev) && HomeAt(q, u[y].key) >= a
  }

  /** An entry that stays, is of no type yet, is looked up again because something before it was removed, and
      is found where it is. `relook` takes it for a slot that `lookup` has just made, and empties it. */
  ghost predicate Loses(u: seq<Slot>, q: nat, lev: int, x: nat)
    requires q < SYMTSZ && x < |u|
  {
    && Kept(u[x], lev) && u[x].stype == UNDEF && Stirred(u, lev, x)
    && exists a :: 0 <= a <= HomeAt(q, u[x].key) && a <= x && Steady(u, q, lev, a, x)
  }

  ghost predicate LosesBefore(u: seq<Slot>, q: nat, lev: int, l: nat)
    requires q < SYMTSZ && l <= |u|
  {
    exists x :: 0 <= x < l && Loses(u, q, lev, x)
  }

  /** The places of the sweep that has come to l: before it only entries that stay, all reached; behind it the
      table as it was. */
  ghost predicate Placed(u0: seq<Slot>, u: seq<Slot>, q: nat, lev: int, l: nat) {
    && q < SYMTSZ && |u| == |u0| == SYMTSZ && l <= SYMTSZ && DistinctKeys(u) && Free(u[0])
    && (forall x :: 0 <= x < l && !Free(u[x]) ==> u[x].level <= lev) && AllReached(u, q, l)
    && (forall x :: l <= x < SYMTSZ ==> u[x] == u0[x])
  }

  /** The entries: none new; those behind l and those that stay are there, except that one of no type may
      have been lost. */
  ghost predicate Held(u0: seq<Slot>, u: seq<Slot>, lev: int, l: nat, lost: bool) {
    && (forall x :: 0 <= x < |u| && !Free(u[x]) ==> u[x] in u0)
    && (forall z :: 0 <= z < |u0| && !Free(u0[z]) ==>
          (z < l && (u0[z].level > lev || (u0[z].stype == UNDEF && lost))) || u0[z] in u)
    && (lost ==> exists z :: 0 <= z < |u0| && Kept(u0[z], lev) && u0[z] !in u)
  }

  /** How the flag rehash and the loss of an entry follow from the table as it was. */
  ghost predicate Follows(u0: seq<Slot>, u: seq<Slot>, q: nat, lev: int, l: nat, rehash: bool, lost: bool)
    requires Placed(u0, u, q, lev, l)
  {
    && rehash == Stirred(u0, lev, l)
    && (!rehash ==> forall x :: l <= x < SYMTSZ && !Free(u[x]) && Full(u, l, x) ==> Reached(u, q, x))
    && (forall c :: 0 <= c <= l && Full(u, c, l) ==> u[c..l] == u0[c..l])
    && (!lost ==> forall a :: 0 <= a <= l && Steady(u0, q, lev, a, l) ==> u[a..l] == u0[a..l])
    && lost == LosesBefore(u0, q, lev, l)
  }

  /** What is known all along: the table as it was. */
  ghost predicate Base(u0: seq<Slot>, q: nat) {
    |u0| == SYMTSZ && q < SYMTSZ && Free(u0[0]) && DistinctKeys(u0) && AllReached(u0, q, SYMTSZ)
  }

  function Emptied(s: Slot): Slot {
    s.(stype := TNULL)
  }

  lemma {:induction false} StepFree(u0: seq<Slot>, u: seq<Slot>, q: nat, lev: int, l: nat, rehash: bool, lost: bool)
    requires Base(u0, q) && Placed(u0, u, q, lev, l) && l < SYMTSZ && Free(u[l])
    requires Held(u0, u, lev, l, lost) && Follows(u0, u, q, lev, l, rehash, lost)
    ensures Placed(u0, u, q, lev, l + 1) && Held(u0, u, lev, l + 1, lost) && Follows(u0, u, q, lev, l + 1, false, lost)
  {
    hide Held, Follows;
    FollowsFree(u0, u, q, lev, l, rehash, lost);
    HeldFree(u0, u, q, lev, l, lost);
  }

  lemma {:induction false} HeldFree(u0: seq<Slot>, u: seq<Slot>, q: nat, lev: int, l: nat, lost: bool)
    requires Placed(u0, u, q, lev, l) && l < SYMTSZ && Free(u[l]) && Held(u0, u, lev, l, lost)
    ensures Held(u0, u, lev, l + 1, lost)
  {
    hide DistinctKeys, AllReached;
  }

  lemma {:induction false} FollowsFree(u0: seq<Slot>, u: seq<Slot>, q: nat, lev: int, l: nat, rehash: bool, lost: bool)
    requires Base(u0, q) && Placed(u0, u, q, lev, l) && l < SYMTSZ && Free(u[l])
    requires Follows(u0, u, q, lev, l, rehash, lost)
    ensures Placed(u0, u, q, lev, l + 1) && Follows(u0, u, q, lev, l + 1, false, lost)
  {
    hide DistinctKeys, Loses, LosesBefore;
    LosesNext(u0, q, lev, l);
    assert !Loses(u0, q, lev, l) by {
      NotKept(u0, q, lev, l);
    }
    forall x | l + 1 <= x < SYMTSZ && !Free(u[x]) && Full(u, l + 1, x) ensures Reached(u, q, x) {
      assert Reached(u0, q, x);
    }
  }

  lemma {:induction false} NotKept(u: seq<Slot>, q: nat, lev: int, x: nat)
    requires q < SYMTSZ && x < |u| && Free(u[x])
    ensures !Loses(u, q, lev, x)
  {
  }

  lemma {:induction false} PlacedEmptied(u0: seq<Slot>, u: seq<Slot>, q: nat, lev: int, l: nat)
    requires Placed(u0, u, q, lev, l) && 0 < l < SYMTSZ
    ensures Placed(u0, u[l := Emptied(u[l])], q, lev, l + 1)
  {
    var v := u[l := Emptied(u[l])];
    forall x | 0 <= x < l + 1 && !Free(v[x]) ensures Reached(v, q, x) {
      assert Reached(u, q, x);
    }
  }

  /** Slot l is given up: its entry was to go, or is one that is lost. */
  lemma {:induction false} HeldEmptied(u0: seq<Slot>, u: seq<Slot>, q: nat, lev: int, l: nat, lost: bool)
    requires Placed(u0, u, q, lev, l) && l < SYMTSZ && Held(u0, u, lev, l, lost) && !Free(u[l]) && DistinctKeys(u0)
    requires u[l].level > lev || u[l].stype == UNDEF
    ensures Held(u0, u[l := Emptied(u[l])], lev, l + 1, lost || u[l].level <= lev)
  {
    var v := u[l := Emptied(u[l])];
    forall z | 0 <= z < SYMTSZ && z != l && !Free(u0[z]) && u0[z] in u ensures u0[z] in v {
      var x :| 0 <= x < SYMTSZ && u[x] == u0[z];
      assert x != l by {
        assert u0[l] == u[l] && u0[z].key != u0[l].key;
      }
      assert v[x] == u0[z];
    }
    forall z | 0 <= z < SYMTSZ && !Free(u0[z]) && u0[z] !in u ensures u0[z] !in v {
    }
    assert u0[l] !in v;
  }

  /** When slot m - 1 ends up empty, nothing stands before m. */
  lemma {:induction false} NothingUpTo(u0: seq<Slot>, v: seq<Slot>, q: nat, lev: int, m: nat)
    requires q < SYMTSZ && 0 < m <= |v| == |u0| && Free(v[m - 1])
    ensures forall c: nat :: c <= m && Full(v, c, m) ==> c == m
    ensures !Kept(u0[m - 1], lev) ==> forall a: nat :: a <= m && Steady(u0, q, lev, a, m) ==> a == m
  {
  }

  lemma {:induction false} FollowsRemoved(u0: seq<Slot>, u: seq<Slot>, q: nat, lev: int, l: nat, rehash: bool,
                                          lost: bool)
    requires Base(u0, q) && Placed(u0, u, q, lev, l) && 0 < l < SYMTSZ && Removed(u[l], lev)
    requires Follows(u0, u, q, lev, l, rehash, lost)
    ensures var v := u[l := Emptied(u[l])];
      Placed(u0, v, q, lev, l + 1) && Follows(u0, v, q, lev, l + 1, true, lost)
  {
    hide AllReached, DistinctKeys, Reached, LosesBefore, Base;
    var v := u[l := Emptied(u[l])];
    PlacedEmptied(u0, u, q, lev, l);
    assert Full(u0, l, l + 1) && Stirred(u0, lev, l + 1);
    assert !Loses(u0, q, lev, l) && Free(v[l]) && !Kept(u0[l], lev);
    LosesNext(u0, q, lev, l);
    NothingUpTo(u0, v, q, lev, l + 1);
  }

  lemma {:induction false} StepRemoved(u0: seq<Slot>, u: seq<Slot>, q: nat, lev: int, l: nat, rehash: bool, lost: bool)
    requires Base(u0, q) && Placed(u0, u, q, lev, l) && 0 < l < SYMTSZ && Removed(u[l], lev)
    requires Held(u0, u, lev, l, lost) && Follows(u0, u, q, lev, l, rehash, lost)
    ensures var v := u[l := Emptied(u[l])];
      Placed(u0, v, q, lev, l + 1) && Held(u0, v, lev, l + 1, lost) && Follows(u0, v, q, lev, l + 1, true, lost)
  {
    hide Held, Follows;
    HeldEmptied(u0, u, q, lev, l, lost);
    FollowsRemoved(u0, u, q, lev, l, rehash, lost);
  }

  /** The entry at l stays where it is. */
  lemma {:induction false} StepStays(u0: seq<Slot>, u: seq<Slot>, q: nat, lev: int, l: nat, rehash: bool, lost: bool)
    requires Base(u0, q) && Placed(u0, u, q, lev, l) && 0 < l < SYMTSZ && Kept(u[l], lev)
    requires Held(u0, u, lev, l, lost) && Follows(u0, u, q, lev, l, rehash, lost)
    requires Reached(u, q, l) && !(rehash && u[l].stype == UNDEF)
    ensures Placed(u0, u, q, lev, l + 1) && Held(u0, u, lev, l + 1, lost) && Follows(u0, u, q, lev, l + 1, rehash, lost)
  {
    FollowsStays(u0, u, q, lev, l, rehash, lost);
  }

  lemma {:induction false} PlacedStays(u0: seq<Slot>, u: seq<Slot>, q: nat, lev: int, l: nat)
    requires Placed(u0, u, q, lev, l) && l < SYMTSZ && Kept(u[l], lev) && Reached(u, q, l)
    ensures Placed(u0, u, q, lev, l + 1)
  {
    hide DistinctKeys, Reached;
  }

  lemma {:induction false} NotLost(u0: seq<Slot>, q: nat, lev: int, l: nat)
    requires q < SYMTSZ && l < |u0| && !(Stirred(u0, lev, l) && u0[l].stype == UNDEF)
    ensures !Loses(u0, q, lev, l)
  {
  }

  lemma {:induction false} LosesNext(u0: seq<Slot>, q: nat, lev: int, l: nat)
    requires q < SYMTSZ && l < |u0|
    ensures LosesBefore(u0, q, lev, l + 1) <==> LosesBefore(u0, q, lev, l) || Loses(u0, q, lev, l)
  {
    hide Loses;
  }

  lemma {:induction false} FollowsStays(u0: seq<Slot>, u: seq<Slot>, q: nat, lev: int, l: nat, rehash: bool, lost: bool)
    requires Base(u0, q) && Placed(u0, u, q, lev, l) && 0 < l < SYMTSZ && Kept(u[l], lev)
    requires Follows(u0, u, q, lev, l, rehash, lost) && Reached(u, q, l) && !(rehash && u[l].stype == UNDEF)
    ensures Placed(u0, u, q, lev, l + 1) && Follows(u0, u, q, lev, l + 1, rehash, lost)
  {
    hide AllReached, DistinctKeys, Reached, Loses, LosesBefore, Steady, Stirred, Base;
    PlacedStays(u0, u, q, lev, l);
    NotLost(u0, q, lev, l);
    LosesNext(u0, q, lev, l);
    forall x | l + 1 <= x < SYMTSZ && !Free(u[x]) && Full(u, l + 1, x) && !rehash ensures Reached(u, q, x) {
      assert Full(u, l, x);
    }
    StirredOn(u0, lev, l);
    BlockOn(u0, u, q, lev, l, l + 1);
  }

  lemma {:induction false} StirredOn(u: seq<Slot>, lev: int, l: nat)
    requires l < |u| && Kept(u[l], lev)
    ensures Stirred(u, lev, l + 1) == Stirred(u, lev, l)
  {
    if Stirred(u, lev, l) {
      var z :| 0 <= z < l && Removed(u[z], lev) && Full(u, z, l);
      assert Full(u, z, l + 1);
    }
    if Stirred(u, lev, l + 1) {
      var z :| 0 <= z < l + 1 && Removed(u[z], lev) && Full(u, z, l + 1);
      assert Full(u, z, l);
    }
  }

  lemma {:induction false} SliceOn(u: seq<Slot>, v: seq<Slot>, a: nat, l: nat)
    requires a <= l < |u| == |v| && u[a..l] == v[a..l] && u[l] == v[l]
    ensures u[a..l + 1] == v[a..l + 1]
  {
    assert u[a..l + 1] == u[a..l] + [u[l]] && v[a..l + 1] == v[a..l] + [v[l]];
  }

  lemma {:induction false} BlockOn(u0: seq<Slot>, u: seq<Slot>, q: nat, lev: int, l: nat, m: nat)
    requires q < SYMTSZ && m == l + 1 <= |u0| == |u| && u[l] == u0[l]
    ensures (forall c :: 0 <= c <= l && Full(u, c, l) ==> u[c..l] == u0[c..l]) ==>
      forall c :: 0 <= c <= m && Full(u, c, m) ==> u[c..m] == u0[c..m]
    ensures (forall a :: 0 <= a <= l && Steady(u0, q, lev, a, l) ==> u[a..l] == u0[a..l]) ==>
      forall a :: 0 <= a <= m && Steady(u0, q, lev, a, m) ==> u[a..m] == u0[a..m]
  {
    forall c | 0 <= c <= m && Full(u, c, m) && (c <= l && Full(u, c, l) ==> u[c..l] == u0[c..l])
      ensures u[c..m] == u0[c..m]
    {
      if c <= l {
        assert Full(u, c, l);
        SliceOn(u, u0, c, l);
      }
    }
    forall a | 0 <= a <= m && Steady(u0, q, lev, a, m)
               && (a <= l && Steady(u0, q, lev, a, l) ==> u[a..l] == u0[a..l])
      ensures u[a..m] == u0[a..m]
    {
      if a <= l {
        assert Steady(u0, q, lev, a, l);
        SliceOn(u, u0, a, l);
      }
    }
  }

  function Moved(u: seq<Slot>, r: nat, l: nat): seq<Slot>
    requires r < |u| && l < |u|
  {
    u[r := u[l]][l := Emptied(u[l])]
  }

  /** r is the first empty slot at or after the home of the entry at l. */
  predicate Hole(u: seq<Slot>, q: nat, r: nat, l: nat)
    requires q < SYMTSZ && l < |u|
  {
    HomeAt(q, u[l].key) <= r < l && Free(u[r]) && Full(u, HomeAt(q, u[l].key), r)
  }

  lemma {:induction false} PlacedMoved(u0: seq<Slot>, u: seq<Slot>, q: nat, lev: int, r: nat, l: nat)
    requires Placed(u0, u, q, lev, l) && 0 < r < l < SYMTSZ && Kept(u[l], lev) && Hole(u, q, r, l)
    ensures Placed(u0, Moved(u, r, l), q, lev, l + 1)
  {
    var v := Moved(u, r, l);
    forall x | 0 <= x < l + 1 && !Free(v[x]) ensures Reached(v, q, x) && v[x].level <= lev {
      if x != r {
        assert Reached(u, q, x);
      }
    }
    MovedDistinct(u, r, l);
  }

  lemma {:induction false} MovedDistinct(u: seq<Slot>, r: nat, l: nat)
    requires r < l < |u| && Free(u[r]) && DistinctKeys(u)
    ensures DistinctKeys(Moved(u, r, l))
  {
    var v := Moved(u, r, l);
    forall i, j | 0 <= i < j < |v| && !Free(v[i]) && !Free(v[j]) ensures v[i].key != v[j].key {
      var i', j' := if i == r then l else i, if j == r then l else j;
      assert u[i'].key != u[j'].key by {
        if i' < j' {
        } else {
          assert j' < i';
        }
      }
    }
  }

  lemma {:induction false} HeldMoved(u0: seq<Slot>, u: seq<Slot>, lev: int, r: nat, l: nat, lost: bool)
    requires r < l < |u| == |u0| && Free(u[r]) && !Free(u[l]) && Held(u0, u, lev, l, lost) && Kept(u[l], lev)
    requires u[l] == u0[l]
    ensures Held(u0, Moved(u, r, l), lev, l + 1, lost)
  {
    var v := Moved(u, r, l);
    forall s: Slot | s in u && !Free(s) ensures s in v {
      var x :| 0 <= x < |u| && u[x] == s;
      assert v[if x == l then r else x] == s;
    }
    forall s: Slot | s in v && !Free(s) ensures s in u {
    }
  }

  lemma {:induction false} FollowsMoved(u0: seq<Slot>, u: seq<Slot>, q: nat, lev: int, r: nat, l: nat, lost: bool)
    requires Base(u0, q) && Placed(u0, u, q, lev, l) && 0 < r < l < SYMTSZ && Kept(u[l], lev) && Hole(u, q, r, l)
    requires Follows(u0, u, q, lev, l, true, lost)
    ensures Placed(u0, Moved(u, r, l), q, lev, l + 1) && Follows(u0, Moved(u, r, l), q, lev, l + 1, true, lost)
  {
    hide AllReached, DistinctKeys, Reached, Loses, LosesBefore, Stirred, Base;
    var v := Moved(u, r, l);
    PlacedMoved(u0, u, q, lev, r, l);
    StirredOn(u0, lev, l);
    NothingUpTo(u0, v, q, lev, l + 1);
    if !lost {
      Unsteady(u0, u, q, lev, r, l, l + 1);
    }
    LosesNext(u0, q, lev, l);
  }

  /** Where there is a hole to move to, the entry does not end a steady stretch. */
  lemma {:induction false} Unsteady(u0: seq<Slot>, u: seq<Slot>, q: nat, lev: int, r: nat, l: nat, m: nat)
    requires q < SYMTSZ && 0 < r < l < m == l + 1 <= |u| == |u0| && u[l] == u0[l] && Hole(u, q, r, l)
    requires forall a :: 0 <= a <= l && Steady(u0, q, lev, a, l) ==> u[a..l] == u0[a..l]
    ensures !Loses(u0, q, lev, l)
    ensures forall a: nat :: a <= m && Steady(u0, q, lev, a, m) ==> a == m
  {
    forall a: nat | a <= HomeAt(q, u0[l].key) && a <= l ensures !Steady(u0, q, lev, a, l) {
      if u[a..l] == u0[a..l] {
        SliceAt(u, u0, a, l, r);
      }
    }
    forall a: nat | a <= l ensures !Steady(u0, q, lev, a, m) {
      SteadyLast(u0, q, lev, a, l, m);
    }
  }

  lemma {:induction false} SteadyLast(u: seq<Slot>, q: nat, lev: int, a: nat, l: nat, m: nat)
    requires q < SYMTSZ && a <= l < m == l + 1 <= |u|
    ensures Steady(u, q, lev, a, m) ==> Steady(u, q, lev, a, l) && HomeAt(q, u[l].key) >= a
  {
  }

  lemma {:induction false} SliceAt(u: seq<Slot>, v: seq<Slot>, a: nat, l: nat, r: nat)
    requires a <= r < l <= |u| == |v| && u[a..l] == v[a..l]
    ensures u[r] == v[r]
  {
    assert u[r] == u[a..l][r - a];
  }

  lemma {:induction false} StepMoved(u0: seq<Slot>, u: seq<Slot>, q: nat, lev: int, r: nat, l: nat, lost: bool)
    requires Base(u0, q) && Placed(u0, u, q, lev, l) && 0 < r < l < SYMTSZ && Kept(u[l], lev) && Hole(u, q, r, l)
    requires Held(u0, u, lev, l, lost) && Follows(u0, u, q, lev, l, true, lost)
    ensures var v := Moved(u, r, l);
      Placed(u0, v, q, lev, l + 1) && Held(u0, v, lev, l + 1, lost) && Follows(u0, v, q, lev, l + 1, true, lost)
  {
    hide Held, Follows;
    HeldMoved(u0, u, lev, r, l, lost);
    FollowsMoved(u0, u, q, lev, r, l, lost);
  }

  lemma {:induction false} LastHole(u: seq<Slot>, l: nat) returns (c: nat)
    requires 0 < l <= |u| && Free(u[0])
    ensures 0 < c <= l && Free(u[c - 1]) && Full(u, c, l)
    decreases l
  {
    if Free(u[l - 1]) {
      c := l;
    } else {
      c := LastHole(u, l - 1);
    }
  }

  /** What stands between the last empty slot and l has not been moved, and nothing in it is at home before it. */
  lemma {:induction false} LossIsSeen(u0: seq<Slot>, u: seq<Slot>, q: nat, lev: int, l: nat, lost: bool)
    requires Base(u0, q) && Placed(u0, u, q, lev, l) && 0 < l < SYMTSZ && Kept(u[l], lev) && Reached(u, q, l) &&
             u[l].stype == UNDEF
    requires Follows(u0, u, q, lev, l, true, lost)
    ensures Loses(u0, q, lev, l)
  {
    var c := LastHole(u, l);
    assert u[c..l] == u0[c..l];
    forall y | c <= y < l ensures Kept(u0[y], lev) && HomeAt(q, u0[y].key) >= c {
      SliceAt(u, u0, c, l, y);
      assert Reached(u, q, y);
    }
    assert Steady(u0, q, lev, c, l);
  }

  lemma {:induction false} StepLost(u0: seq<Slot>, u: seq<Slot>, q: nat, lev: int, l: nat, lost: bool)
    requires Base(u0, q) && Placed(u0, u, q, lev, l) && 0 < l < SYMTSZ && Kept(u[l], lev) && Reached(u, q, l) &&
             u[l].stype == UNDEF
    requires Held(u0, u, lev, l, lost) && Follows(u0, u, q, lev, l, true, lost)
    ensures var v := u[l := Emptied(u[l])];
      Placed(u0, v, q, lev, l + 1) && Held(u0, v, lev, l + 1, true) && Follows(u0, v, q, lev, l + 1, true, true)
  {
    hide Held, Loses, Reached;
    LossIsSeen(u0, u, q, lev, l, lost);
    HeldEmptied(u0, u, q, lev, l, lost);
    FollowsLost(u0, u, q, lev, l, lost);
  }

  lemma {:induction false} FollowsLost(u0: seq<Slot>, u: seq<Slot>, q: nat, lev: int, l: nat, lost: bool)
    requires Base(u0, q) && Placed(u0, u, q, lev, l) && 0 < l < SYMTSZ && Kept(u[l], lev)
    requires Loses(u0, q, lev, l) && Follows(u0, u, q, lev, l, true, lost)
    ensures var v := u[l := Emptied(u[l])];
      Placed(u0, v, q, lev, l + 1) && Follows(u0, v, q, lev, l + 1, true, true)
  {
    hide Loses;
    PlacedEmptied(u0, u, q, lev, l);
    StirredOn(u0, lev, l);
    NothingUpTo(u0, u[l := Emptied(u[l])], q, lev, l + 1);
  }

  /** The start: nothing has been visited. */
  lemma {:induction false} SweepStart(u0: seq<Slot>, q: nat, lev: int)
    requires Base(u0, q)
    ensures Placed(u0, u0, q, lev, 0) && Held(u0, u0, lev, 0, false) && Follows(u0, u0, q, lev, 0, false, false)
  {
  }

  // ---------------------------------------------------------------------------------------
  // The whole sweep

  function FirstFree(t: seq<Slot>, i: nat): (q: nat)
    requires i <= |t|
    ensures i <= q <= |t| && (q < |t| ==> Free(t[q]))
    decreases |t| - i
  {
    if i == |t| || Free(t[i]) then i else FirstFree(t, i + 1)
  }

  /** Some entry that is to stay is lost. */
  ghost predicate LosesOne(t: seq<Slot>, lev: int)
    requires |t| == SYMTSZ
  {
    var q := FirstFree(t, 0);
    q < SYMTSZ && LosesBefore(Rot(t, q), q, lev, SYMTSZ)
  }

  /** What `clearst` owes: only entries that were there and are to stay, each found where it lies; of those
      that are to stay, all that have a type, and all there are exactly if none is lost. */
  ghost predicate Cleared(t: seq<Slot>, v: seq<Slot>, lev: int)
    requires |t| == SYMTSZ
  {
    && |v| == SYMTSZ && DistinctKeys(v) && Sound(v)
    && (forall x :: 0 <= x < SYMTSZ && !Free(v[x]) ==> v[x] in t && v[x].level <= lev)
    && (forall z :: 0 <= z < SYMTSZ && Kept(t[z], lev) && t[z].stype != UNDEF ==> t[z] in v)
    && ((forall z :: 0 <= z < SYMTSZ && Kept(t[z], lev) ==> t[z] in v) <==> !LosesOne(t, lev))
  }

  lemma {:induction false} RotMembers(t: seq<Slot>, q: nat)
    requires |t| == SYMTSZ && q < SYMTSZ
    ensures forall s: Slot :: s in t <==> s in Rot(t, q)
  {
    forall s: Slot ensures s in t <==> s in Rot(t, q) {
      assert t == t[..q] + t[q..];
    }
  }

  lemma {:induction false} SweepEnd(t: seq<Slot>, v: seq<Slot>, q: nat, lev: int, rehash: bool, lost: bool)
    requires |t| == |v| == SYMTSZ && q == FirstFree(t, 0) < SYMTSZ && Base(Rot(t, q), q)
    requires Placed(Rot(t, q), Rot(v, q), q, lev, SYMTSZ) && Held(Rot(t, q), Rot(v, q), lev, SYMTSZ, lost)
    requires Follows(Rot(t, q), Rot(v, q), q, lev, SYMTSZ, rehash, lost)
    ensures Cleared(t, v, lev)
  {
    var u0, u := Rot(t, q), Rot(v, q);
    RotDistinct(v, q);
    ReachedSound(v, q);
    RotMembers(t, q);
    RotMembers(v, q);
    forall x | 0 <= x < SYMTSZ && !Free(v[x]) ensures v[x] in t && v[x].level <= lev {
      RotFore(v, q, x);
    }
    forall z | 0 <= z < SYMTSZ && Kept(t[z], lev) && !(t[z].stype == UNDEF && lost) ensures t[z] in v {
      RotFore(t, q, z);
    }
    if lost {
      var z :| 0 <= z < SYMTSZ && Kept(u0[z], lev) && u0[z] !in u;
      RotAt(t, q, z);
    }
  }

  /** With every kept entry of a type, nothing is lost. */
  lemma {:induction false} TypedKept(t: seq<Slot>, lev: int)
    requires |t| == SYMTSZ && forall i :: 0 <= i < SYMTSZ && Kept(t[i], lev) ==> t[i].stype != UNDEF
    ensures !LosesOne(t, lev)
  {
    var q := FirstFree(t, 0);
    if q < SYMTSZ {
      forall x | 0 <= x < SYMTSZ ensures !Loses(Rot(t, q), q, lev, x) {
        RotAt(t, q, x);
      }
    }
  }

  /** Looking up the entry at l again leads to the first hole between its home and it, or to itself. */
  lemma {:induction false} FirstHole(u: seq<Slot>, a: nat, l: nat) returns (r: nat)
    requires a <= l < |u|
    ensures a <= r <= l && Full(u, a, r) && (r < l ==> Free(u[r]))
    decreases l - a
  {
    if a == l || Free(u[a]) {
      r := a;
    } else {
      r := FirstHole(u, a + 1, l);
    }
  }

  lemma {:induction false} RelookWhere(t: seq<Slot>, u0: seq<Slot>, q: nat, lev: int, l: nat) returns (r: nat)
    requires |t| == SYMTSZ && Base(u0, q) && 0 < l < SYMTSZ && Placed(u0, Rot(t, q), q, lev, l) && !Free(Rot(t, q)[l])
    ensures 0 < r <= l && if r < l then Hole(Rot(t, q), q, r, l) else Reached(Rot(t, q), q, l)
    ensures Probe(t, t[Back(q, l)].key, Home(t[Back(q, l)].key), |t|) == Back(q, r)
  {
    hide Rot;
    var u := Rot(t, q);
    RotAt(t, q, l);
    assert Reached(u0, q, l);
    var a := HomeAt(q, u[l].key);
    r := FirstHole(u, a, l);
    RotFore(t, q, Home(u[l].key));
    assert forall y :: a <= y < r ==> u[y].key != u[l].key;
    ProbeOn(t, q, u[l].key, a, r, |t|);
  }

  lemma {:induction false} RotUpdate(t: seq<Slot>, q: nat, l: nat, s: Slot)
    requires |t| == SYMTSZ && q < SYMTSZ && l < SYMTSZ
    ensures Back(q, l) < SYMTSZ && Rot(t[Back(q, l) := s], q) == Rot(t, q)[l := s]
  {
  }

  lemma {:induction false} BackOnce(q: nat, x: nat, y: nat)
    requires q < SYMTSZ && x < SYMTSZ && y < SYMTSZ
    ensures Back(q, x) == Back(q, y) <==> x == y
  {
  }

  /** A move in the table is a move as seen from q. */
  lemma {:induction false} MoveIs(t: seq<Slot>, v: seq<Slot>, q: nat, r: nat, l: nat)
    requires |t| == |v| == SYMTSZ && q < SYMTSZ && r < SYMTSZ && l < SYMTSZ && Back(q, r) != Back(q, l)
    requires v[Back(q, r)] == t[Back(q, l)] && v[Back(q, l)] == Emptied(t[Back(q, l)])
    requires forall x :: 0 <= x < SYMTSZ && x != Back(q, r) && x != Back(q, l) ==> v[x] == t[x]
    ensures Rot(v, q) == Moved(Rot(t, q), r, l)
  {
    var w := t[Back(q, r) := t[Back(q, l)]];
    RotUpdate(t, q, r, t[Back(q, l)]);
    RotUpdate(w, q, l, Emptied(t[Back(q, l)]));
    assert v == w[Back(q, l) := Emptied(t[Back(q, l)])];
  }

  lemma {:induction false} NotFirst(u0: seq<Slot>, u: seq<Slot>, q: nat, lev: int, l: nat)
    requires Placed(u0, u, q, lev, l) && l < SYMTSZ && !Free(u[l])
    ensures l > 0
  {
  }

  lemma {:induction false} Unstirred(u0: seq<Slot>, u: seq<Slot>, q: nat, lev: int, l: nat, lost: bool)
    requires Placed(u0, u, q, lev, l) && l < SYMTSZ && !Free(u[l]) && Follows(u0, u, q, lev, l, false, lost)
    ensures Reached(u, q, l)
  {
    assert Full(u, l, l);
  }

  lemma {:induction false} BaseOf(t: seq<Slot>, q: nat)
    requires |t| == SYMTSZ && DistinctKeys(t) && Sound(t) && q == FirstFree(t, 0) < SYMTSZ
    ensures Base(Rot(t, q), q)
  {
    SoundReached(t, q);
    RotDistinct(t, q);
    RotAt(t, q, 0);
  }

  /** A local a at level 2 is removed; the global b of no type behind it, found where it is, is lost. */
  lemma {:induction false} LossExample() returns (t: seq<Slot>)
    ensures |t| == SYMTSZ && DistinctKeys(t) && Sound(t) && LosesOne(t, 1)
  {
    hide Next;
    var free, a, b := Slot(TNULL, Key("", 0), 0, 0, 0), Slot(1, Key("a", 0), 2, 0, 0), Slot(UNDEF, Key("b", 0), 0, 0,
      0);
    t := seq(SYMTSZ, i => if i == 97 then a else if i == 98 then b else free);
    assert Fold("a") == 97 && Fold("b") == 98;
    assert Rot(t, 0) == t && FirstFree(t, 0) == 0;
    assert Full(t, 97, 98) && Stirred(t, 1, 98);
    assert HomeAt(0, b.key) == 98 && Steady(t, 0, 1, 98, 98);
    assert Loses(t, 0, 1, 98);
  }
}
