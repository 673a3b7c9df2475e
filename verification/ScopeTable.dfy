/** The compiler's symbol table as it is kept: `lookup`, `relook`, `movestab` and `clearst` of pftn.c on the
    array of slots. */
module ScopeTable {

  import opened Scopes

  const SNULL := 0

  class SymbolTable {
    const stab: array<Slot>

    ghost predicate Valid()
      reads stab
    {
      stab.Length == SYMTSZ
    }

    constructor ()
      ensures Valid() && fresh(stab) && forall i :: 0 <= i < SYMTSZ ==> Free(stab[i])
    {
      stab := new Slot[SYMTSZ](i => Slot(TNULL, Key("", 0), 0, SNULL, 0));
    }

    /** `lookup`: an empty slot is made an entry without a type. SYMTSZ means that the table is full. */
    method Lookup(k: Key) returns (i: nat)
      requires Valid()
      modifies stab
      ensures i == Probe(old(stab[..]), k, Home(k), SYMTSZ)
      ensures i < SYMTSZ && Free(old(stab[i])) ==>
        stab[..] == old(stab[..])[i := old(stab[i]).(stype := UNDEF, key := k, sclass := SNULL)]
      ensures i == SYMTSZ || !Free(old(stab[i])) ==> stab[..] == old(stab[..])
    {
      hide Probe, Home;
      ghost var t := stab[..];
      i := Home(k);
      var ii := i;
      ghost var n: nat := SYMTSZ;
      while true
        invariant i < SYMTSZ && 0 < n <= SYMTSZ && stab[..] == t && Probe(t, k, ii, SYMTSZ) == Probe(t, k, i, n)
        invariant i == if ii + (SYMTSZ - n) < SYMTSZ then ii + (SYMTSZ - n) else ii - n
        decreases n
      {
        ProbeTurn(t, k, i, n);
        if Free(stab[i]) {
          stab[i] := stab[i].(stype := UNDEF, key := k, sclass := SNULL);
          return i;
        }
        if stab[i].key == k {
          return i;
        }
        i := i + 1;
        if i >= SYMTSZ {
          i := 0;
        }
        n := n - 1;
        if i == ii {
          return SYMTSZ;
        }
      }
    }

    /** `relook`: the slot where the entry at p is found now, or the empty one it can move to. */
    method Relook(p: nat) returns (r: nat)
      requires Valid() && p < SYMTSZ && !Free(stab[p])
      requires var k := stab[p].key;
        var i := Probe(stab[..], k, Home(k), SYMTSZ);
        i == p || (i < SYMTSZ && Free(stab[i]))
      modifies stab
      ensures var k := old(stab[p].key); r == Probe(old(stab[..]), k, Home(k), SYMTSZ)
      ensures forall x :: 0 <= x < SYMTSZ && x != r ==> stab[x] == old(stab[x])
      ensures if r != p then Free(stab[r])
              else stab[p] == if old(stab[p]).stype == UNDEF then Emptied(old(stab[p])) else old(stab[p])
    {
      r := Lookup(stab[p].key);
      assert forall x :: 0 <= x < SYMTSZ ==> stab[x] == stab[..][x];
      if stab[r].stype == UNDEF {
        stab[r] := stab[r].(stype := TNULL);
      }
    }

    /** `movestab` */
    method Movestab(p: nat, q: nat)
      requires Valid() && p < SYMTSZ && q < SYMTSZ
      modifies stab
      ensures stab[..] == old(stab[..])[p := old(stab[q])]
    {
      stab[p] := stab[q];
    }

    /** An entry that stays, visited after one before it was removed. */
    method Rehash(p: nat, ghost u0: seq<Slot>, ghost q: nat, ghost lev: int, ghost l: nat, ghost lost: bool)
      returns (ghost lost': bool)
      requires Valid() && q < SYMTSZ && Base(u0, q) && 0 < l < SYMTSZ && p == Back(q, l) < SYMTSZ
      requires var u := Rot(stab[..], q);
        Placed(u0, u, q, lev, l) && Kept(u[l], lev) && Held(u0, u, lev, l, lost) &&
          Follows(u0, u, q, lev, l, true, lost)
      modifies stab
      ensures var u := Rot(stab[..], q);
        Placed(u0, u, q, lev, l + 1) && Held(u0, u, lev, l + 1, lost') && Follows(u0, u, q, lev, l + 1, true, lost')
    {
      hide Placed, Held, Follows, Base, Probe, Home;
      ghost var t := stab[..];
      ghost var u := Rot(t, q);
      RotAt(t, q, l);
      ghost var at := RelookWhere(t, u0, q, lev, l);
      RotAt(t, q, at);
      var r := Relook(p);
      lost' := lost;
      if r != p {
        Movestab(r, p);
        stab[p] := stab[p].(stype := TNULL);
        MoveIs(t, stab[..], q, at, l);
        StepMoved(u0, u, q, lev, at, l, lost);
      } else {
        BackOnce(q, at, l);
        if t[p].stype == UNDEF {
          assert stab[..] == t[p := Emptied(t[p])];
          RotUpdate(t, q, l, Emptied(t[p]));
          StepLost(u0, u, q, lev, l, lost);
          lost' := true;
        } else {
          assert stab[..] == t;
          StepStays(u0, u, q, lev, l, true, lost);
        }
      }
    }

    /** One turn of the sweep. */
    method Visit(p: nat, lev: int, rehash: bool, ghost u0: seq<Slot>, ghost q: nat, ghost l: nat, ghost lost: bool)
      returns (rehash': bool, ghost lost': bool)
      requires Valid() && q < SYMTSZ && Base(u0, q) && l < SYMTSZ && p == Back(q, l) < SYMTSZ
      requires var u := Rot(stab[..], q);
        Placed(u0, u, q, lev, l) && Held(u0, u, lev, l, lost) && Follows(u0, u, q, lev, l, rehash, lost)
      modifies stab
      ensures var u := Rot(stab[..], q);
        Placed(u0, u, q, lev, l + 1) && Held(u0, u, lev, l + 1, lost') && Follows(u0, u, q, lev, l + 1, rehash', lost')
    {
      hide Placed, Held, Follows, Base;
      ghost var t := stab[..];
      ghost var u := Rot(t, q);
      RotAt(t, q, l);
      rehash', lost' := rehash, lost;
      if Free(stab[p]) {
        rehash' := false;
        StepFree(u0, u, q, lev, l, rehash, lost);
        return;
      }
      NotFirst(u0, u, q, lev, l);
      if stab[p].level > lev {
        StepRemoved(u0, u, q, lev, l, rehash, lost);
        stab[p] := stab[p].(stype := TNULL);
        RotUpdate(t, q, l, Emptied(t[p]));
        assert stab[..] == t[p := Emptied(t[p])];
        rehash' := true;
        return;
      }
      if rehash {
        lost' := Rehash(p, u0, q, lev, l, lost);
      } else {
        Unstirred(u0, u, q, lev, l, lost);
        StepStays(u0, u, q, lev, l, false, lost);
      }
    }

    /** The sweep of `clearst`, once round from the empty slot q. */
    method SweepFrom(q: nat, lev: int)
      requires Valid() && DistinctKeys(stab[..]) && Sound(stab[..]) && q == FirstFree(stab[..], 0) < SYMTSZ
      modifies stab
      ensures Cleared(old(stab[..]), stab[..], lev)
    {
      hide Placed, Held, Follows, Base, DistinctKeys, Sound, Cleared, FirstFree;
      ghost var t, lost, l := stab[..], false, 0;
      ghost var u0 := Rot(t, q);
      BaseOf(t, q);
      SweepStart(u0, q, lev);
      var p, rehash := q, false;
      while true
        invariant l < SYMTSZ && p == Back(q, l) < SYMTSZ
        invariant var u := Rot(stab[..], q);
          Placed(u0, u, q, lev, l) && Held(u0, u, lev, l, lost) && Follows(u0, u, q, lev, l, rehash, lost)
        decreases SYMTSZ - l
      {
        RotAt(t, q, l);
        rehash, lost := Visit(p, lev, rehash, u0, q, l, lost);
        p := p + 1;
        if p >= SYMTSZ {
          p := 0;
        }
        l := l + 1;
        if p == q {
          SweepEnd(t, stab[..], q, lev, rehash, lost);
          return;
        }
      }
    }

    /** `clearst`: entries of levels above lev go; the others move up to where they are found. */
    method Clearst(lev: int) returns (ok: bool)
      requires Valid() && DistinctKeys(stab[..]) && Sound(stab[..])
      modifies stab
      ensures ok == exists i :: 0 <= i < SYMTSZ && Free(old(stab[i]))
      ensures if ok then Cleared(old(stab[..]), stab[..], lev) else stab[..] == old(stab[..])
    {
      hide Sound, DistinctKeys, Cleared;
      ghost var t := stab[..];
      var q := 0;
      while q < SYMTSZ && !Free(stab[q])
        invariant q <= SYMTSZ && FirstFree(t, 0) == FirstFree(t, q) && forall i :: 0 <= i < q ==> !Free(t[i])
      {
        q := q + 1;
      }
      if q == SYMTSZ {
        return false;
      }
      SweepFrom(q, lev);
      return true;
    }
  }
}
