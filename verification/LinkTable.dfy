/** The linker's symbol table as it is kept: segments allocated as needed, with arrays changed in place
    (`lookup`, `enter`, `symfree` of ld86.c, and the way `load1` uses them). */
module LinkTable {

  import opened Basics
  import opened Buckets
  import opened Segments
  import Symbols

  /** struct symseg, with its two arrays allocated */
  class Segment {
    const first: array<Sym>
    const hash: array<int>
    var used: nat

    ghost predicate Valid()
      reads this, first, hash
    {
      first.Length == NSYM && hash.Length == HSIZE && used <= NSYM && Sound(View())
    }

    ghost function View(): Seg
      requires used <= first.Length
      reads this, first, hash
    {
      Seg(first[..used], hash[..])
    }

    constructor ()
      ensures Valid() && View() == Empty() && fresh(first) && fresh(hash)
    {
      first := new Sym[NSYM](i => Sym("", 0, Symbols.Undf, 0));
      hash := new int[HSIZE](i => -1);
      used := 0;
      new;
      assert hash[..] == Empty().buckets;
      EmptySound();
    }

    /** The probe loop of `lookup` in one segment */
    method Probe(name: string) returns (r: Buckets.Probe)
      requires Valid()
      ensures r == Search(View(), name, 0)
    {
      ghost var v := View();
      var hp, i := Home(name), 1;
      ghost var k: nat := 0;
      while true
        invariant k < NSYM && i == 2 * k + 1 && hp == Place(Home(name), k) && Search(v, name, k) == Search(v, name, 0)
        decreases HSIZE - i
      {
        if hash[hp] < 0 {
          return if used == NSYM then Full else Free(hp);
        }
        if first[hash[hp]].name == name {
          return Hit(hp);
        }
        hp := hp + i;
        i := i + 2;
        if hp >= HSIZE {
          hp := hp - HSIZE;
        }
        if i >= HSIZE {
          return Botch;
        }
        k := k + 1;
      }
    }

    method Put(b: nat, name: string, typ: Symbols.Kind, value: int)
      requires Valid() && used < NSYM && b < HSIZE && !Has(View(), name) && Belongs(View(), name, b)
      modifies this, first, hash
      ensures Valid() && View() == Add(old(View()), name, typ, value, b)
    {
      ghost var v := View();
      AddSound(v, name, typ, value, b);
      hash[b] := used;
      first[used] := Sym(name, b, typ, value);
      used := used + 1;
      assert View() == Add(v, name, typ, value, b);
    }

    /** Clears the bucket of the newest symbol and forgets it. */
    method TakeBack()
      requires Valid() && used > 0
      modifies this, hash
      ensures Valid() && View() == Drop(old(View()))
    {
      ghost var v := View();
      DropSound(v);
      hash[first[used - 1].hash] := -1;
      used := used - 1;
      assert View() == Drop(v);
    }

    /** A definition or a larger common size for a symbol that is there */
    method Set(j: nat, typ: Symbols.Kind, value: int)
      requires Valid() && j < used
      modifies first
      ensures Valid() && View() == Retyped(old(View()), j, typ, value)
    {
      ghost var v := View();
      RetypedSound(v, j, typ, value);
      first[j] := first[j].(typ := typ, value := value);
      assert View() == Retyped(v, j, typ, value);
    }

    /** The loop of `symfree` over one segment: symbols go, newest first, until the mark is reached. */
    method FreeTo(off: int) returns (hit: bool)
      requires Valid()
      modifies this, hash
      ensures Valid() && hit == (0 <= off <= old(used))
      ensures View() == Cut(old(View()), if hit then off else 0)
    {
      ghost var target := if 0 <= off <= used then off else 0;
      if used == off {
        return true;
      }
      while used > 0
        invariant Valid() && target <= used && Cut(View(), target) == Cut(old(View()), target) && used != off
        decreases used
      {
        TakeBack();
        if used == off {
          return true;
        }
      }
      return false;
    }
  }

  /** Failed is one of the two errors of `lookup`, Botched that of `symfree`. */
  datatype Fate = Kept | Dropped | Failed | Botched

  /** Behind a symbol, if it is not null. */
  predicate Pointer(p: Ptr) {
    p.At? ==> 0 < p.off <= NSYM
  }

  datatype Entered = New | Known | EnterBotch

  ghost predicate Consistent(t: SymbolTable)
    reads t, t.Repr
  {
    && t !in t.Repr && t.Apart() && (forall i :: 0 <= i < |t.segs| ==> t.segs[i].Valid())
    && Settled(t.Views(), t.cur) && Pointer(t.nextsym)
  }

  ghost function Listed(t: SymbolTable): seq<Symbols.Entry>
    requires Consistent(t)
    reads t, t.Repr
  {
    List(t.Views())
  }

  lemma {:induction false} AddSize(v: Seg, name: string, typ: Symbols.Kind, value: int, b: nat)
    requires Shaped(v) && b < HSIZE
    ensures |Add(v, name, typ, value, b).syms| == |v.syms| + 1
  {
  }

  lemma {:induction false} Footprint(t: SymbolTable)
    requires Consistent(t)
    ensures forall g :: 0 <= g < |t.segs| ==> t.segs[g].first in t.Repr
  {
  }

  /** `lookup` ends in an error on this name. */
  ghost predicate Refuses(t: SymbolTable, name: string)
    reads t, t.Repr
  {
    Consistent(t) && !LookupFrom(t.Views(), name, 0).Bucket?
  }

  class SymbolTable {
    var segs: seq<Segment>
    var cur: int
    var nextsym: Ptr
    var lastsym: Ptr

    // the segments and their arrays
    ghost var Repr: set<object>

    /** Segments and their arrays are all different objects. */
    ghost predicate Apart()
      reads this
    {
      && (forall i :: 0 <= i < |segs| ==> segs[i] in Repr && segs[i].first in Repr && segs[i].hash in Repr)
      && (forall i, j :: 0 <= i < j < |segs| ==>
           segs[i] != segs[j] && segs[i].first != segs[j].first && segs[i].hash != segs[j].hash)
    }

    ghost predicate Valid()
      reads this, Repr
    {
      Consistent(this)
    }

    /** The symbols in the order of entry. */
    ghost function Contents(): seq<Symbols.Entry>
      requires Valid()
      reads this, Repr
    {
      Listed(this)
    }

    ghost function Views(): seq<Seg>
      requires Apart() && forall i :: 0 <= i < |segs| ==> segs[i].Valid()
      reads this, Repr
    {
      seq(|segs|, i requires 0 <= i < |segs| && segs[i] in Repr && segs[i].first in Repr && segs[i].hash in Repr &&
        segs[i].Valid() reads this, Repr => segs[i].View())
    }

    constructor ()
      ensures Valid() && Contents() == [] && nextsym == Null && Repr == {}
    {
      segs, cur, nextsym, lastsym := [], -1, Null, Null;
      Repr := {};
    }

    method Allocate()
      requires Valid() && |segs| < NSEG
      modifies this
      ensures Valid() && |segs| == |old(segs)| + 1 && cur == old(cur) && Views() == old(Views()) + [Empty()]
      ensures nextsym == old(nextsym) && lastsym == old(lastsym) && fresh(Repr - old(Repr)) && old(Repr) <= Repr
    {
      hide Settled, Sound, Shaped;
      ghost var vs := Views();
      var s := new Segment();
      segs := segs + [s];
      Repr := Repr + {s, s.first, s.hash};
      GrowSettled(vs, cur);
      assert Views() == vs + [Empty()];
    }

    /** Makes sure that segment g exists; it is current from now on, unless a later one is. */
    method Open(g: nat)
      requires Valid() && g < NSEG && g <= |segs| && forall i :: 0 <= i < g ==> |Views()[i].syms| == NSYM
      modifies this
      ensures Valid() && g < |segs| && cur == if old(cur) < g then g else old(cur)
      ensures Views() == if g < |old(segs)| then old(Views()) else old(Views()) + [Empty()]
      ensures nextsym == old(nextsym) && lastsym == old(lastsym) && fresh(Repr - old(Repr)) && old(Repr) <= Repr
    {
      hide Sound, Shaped, Settled;
      SettledSize(Views(), cur);
      if g == |segs| {
        Allocate();
      }
      if g > cur {
        ghost var vs := Views();
        OpenSettled(vs, cur, g);
        cur := g;
        assert Views() == vs;
      }
    }

    /** One turn of `lookup`: segment g is opened and searched. */
    method Visit(name: string, g: nat) returns (p: Buckets.Probe)
      requires Valid() && g < NSEG && g <= |segs| && forall i :: 0 <= i < g ==> |Views()[i].syms| == NSYM
      modifies this
      ensures Valid() && fresh(Repr - old(Repr)) && old(Repr) <= Repr && nextsym == old(nextsym) &&
              lastsym == old(lastsym)
      ensures Views() == if g < |old(segs)| then old(Views()) else old(Views()) + [Empty()]
      ensures g < |segs| && g <= cur && Shaped(Views()[g]) && p == Search(Views()[g], name, 0)
    {
      hide Settled, Search;
      Open(g);
      p := segs[g].Probe(name);
    }

    /** `lookup` */
    method Lookup(name: string) returns (r: Outcome)
      requires Valid()
      modifies this
      ensures Valid() && fresh(Repr - old(Repr)) && old(Repr) <= Repr && nextsym == old(nextsym) &&
              lastsym == old(lastsym)
      ensures Views() == old(Views()) || Views() == old(Views()) + [Empty()]
      ensures r == LookupFrom(old(Views()), name, 0)
      ensures if r.Bucket? then r.seg < |segs| && r.seg <= cur else Views() == old(Views())
    {
      hide Settled, Sound, Search, Shaped, LookupFrom;
      ghost var vs, before := Views(), cur;
      ShapedAll(vs, cur);
      LookupOver(vs, name);
      var g := 0;
      while g < NSEG
        invariant g <= NSEG && g <= |vs| && Valid() && Views() == vs && fresh(Repr - old(Repr)) && old(Repr) <= Repr
        invariant nextsym == old(nextsym) && lastsym == old(lastsym) &&
                  LookupFrom(vs, name, 0) == LookupFrom(vs, name, g)
        invariant forall i :: 0 <= i < g ==> |vs[i].syms| == NSYM
      {
        var p := Visit(name, g);
        LookupTurn(vs, Views(), before, name, g);
        match p
        case Hit(b) => return Outcome.Bucket(g, b);
        case Free(b) => return Outcome.Bucket(g, b);
        case Botch => return HashBotch;
        case Full =>
          g := g + 1;
      }
      return Overflow;
    }

    /** The pointer points to a symbol. */
    predicate Within(p: Ptr)
      requires Apart() && p.At?
      reads this, Repr
    {
      p.seg < |segs| && p.off < segs[p.seg].used && segs[p.seg].first.Length == NSYM && segs[p.seg].used <= NSYM
    }

    /** `enter`, for the empty bucket of a new name in the current segment */
    method EnterNew(b: nat, name: string, typ: Symbols.Kind, value: int)
      requires Valid() && 0 <= cur && AtBucket(Views()[cur], name, b) && !Has(Views()[cur], name)
      requires forall i :: 0 <= i < cur ==> Passes(Views()[i], name)
      modifies this`nextsym, this`lastsym, segs[cur], segs[cur].first, segs[cur].hash
      ensures Valid() && segs == old(segs) && cur == old(cur) && Repr == old(Repr)
      ensures var n := |old(Views())[cur].syms|; lastsym == At(cur, n) && nextsym == At(cur, n + 1) && Within(lastsym)
      ensures Views() == old(Views())[cur := Add(old(Views())[cur], name, typ, value, b)]
    {
      hide Sound, Belongs, Settled, Has, AtBucket, Passes, Shaped, Add;
      PutNew(b, name, typ, value);
      ghost var vs := Views();
      var s := segs[cur];
      lastsym := At(cur, s.used - 1);
      nextsym := At(cur, s.used);
      assert Views() == vs;
    }

    /** The symbol and its bucket */
    method PutNew(b: nat, name: string, typ: Symbols.Kind, value: int)
      requires Valid() && 0 <= cur && AtBucket(Views()[cur], name, b) && !Has(Views()[cur], name)
      requires forall i :: 0 <= i < cur ==> Passes(Views()[i], name)
      modifies segs[cur], segs[cur].first, segs[cur].hash
      ensures Valid() && segs == old(segs) && cur == old(cur) && Repr == old(Repr) && nextsym == old(nextsym)
      ensures cur < |segs| && segs[cur].used == |old(Views())[cur].syms| + 1
      ensures Views() == old(Views())[cur := Add(old(Views())[cur], name, typ, value, b)]
    {
      hide Sound, Belongs, Settled, Has, AtBucket, Passes, Shaped;
      ghost var vs := Views();
      assert |vs| == |segs|;
      SettledSize(vs, cur);
      var s := segs[cur];
      EnterReady(vs, cur, name, typ, value, b);
      s.Put(b, name, typ, value);
      AddSize(vs[cur], name, typ, value, b);
      assert Views() == vs[cur := Add(vs[cur], name, typ, value, b)];
    }

    /** `enter`, for the bucket that `lookup` has just returned */
    method Enter(seg: nat, b: nat, name: string, typ: Symbols.Kind, value: int) returns (r: Entered)
      requires Valid() && seg < |segs| && seg <= cur && AtBucket(Views()[seg], name, b)
      requires forall i :: 0 <= i < seg ==> Passes(Views()[i], name)
      modifies this`nextsym, this`lastsym, segs[seg], segs[seg].first, segs[seg].hash
      ensures Valid() && segs == old(segs) && cur == old(cur) && Repr == old(Repr)
      ensures r == if Has(old(Views())[seg], name) then Known else New
      ensures lastsym.At? && Within(lastsym)
      ensures r == New ==>
        && seg == cur && lastsym == At(cur, |old(Views())[cur].syms|) &&
          nextsym == At(cur, |old(Views())[cur].syms| + 1)
        && Views() == old(Views())[cur := Add(old(Views())[cur], name, typ, value, b)]
      ensures r == Known ==>
        Views() == old(Views()) && nextsym == old(nextsym) && lastsym == At(seg, old(Views())[seg].buckets[b])
    {
      hide Belongs, Settled, Has, Reachable, DistinctNames;
      ghost var vs := Views();
      SoundShaped(vs[seg]);
      if segs[seg].hash[b] < 0 {
        RoomIsCurrent(vs, cur, seg);
        if seg != cur {
          return EnterBotch;
        }
        EnterNew(b, name, typ, value);
        return New;
      } else {
        lastsym := At(seg, segs[seg].hash[b]);
        assert Views() == vs;
        return Known;
      }
    }

    /** `enter`, after `lookup` has perhaps added a segment. */
    method EnterFound(name: string, typ: Symbols.Kind, value: int, r: Outcome, ghost vs: seq<Seg>, ghost before: int)
      returns (isNew: bool)
      requires Valid() && Settled(vs, before) && (Views() == vs || Views() == vs + [Empty()])
      requires r.Bucket? && r == LookupFrom(vs, name, 0) && r.seg < |segs| && r.seg <= cur
      modifies this`nextsym, this`lastsym, Repr
      ensures Valid() && Repr == old(Repr) && cur == old(cur)
      ensures isNew == !Live(vs, name) && lastsym.At? && Within(lastsym)
      ensures EnteredAs(vs, old(Views()), Views(), name, typ, value, isNew, lastsym, nextsym)
      ensures !isNew ==> nextsym == old(nextsym)
    {
      hide Sound, Settled, AtBucket, Passes, AllExtend, LookupFrom, Has, Shaped, Belongs, List, MarkFits, Live, Newest;
      hide EnteredAs;
      ghost var ws := Views();
      LookupReady(vs, ws, before, cur, name);
      SettledSize(ws, cur);
      var e := Enter(r.seg, r.bucket, name, typ, value);
      isNew := e == New;
      if isNew {
        NewEntered(vs, ws, before, cur, name, typ, value, r.bucket);
      } else {
        KnownEntered(vs, ws, before, cur, name, typ, value, nextsym);
      }
    }

    /** `enter(lookup())`: fails exactly when `lookup` does, and then with one of its two errors. */
    method LookupEnter(name: string, typ: Symbols.Kind, value: int) returns (ok: bool, isNew: bool)
      requires Valid()
      modifies this, Repr
      ensures Valid() && fresh(Repr - old(Repr)) && AllExtend(old(Views()), Views())
      ensures ok == LookupFrom(old(Views()), name, 0).Bucket? && (ok ==> Live(Views(), name))
      ensures isNew == (ok && !Live(old(Views()), name)) && (!ok ==> Views() == old(Views()))
      ensures ok ==> lastsym.At? && Within(lastsym)
      ensures MarkFits(old(Views()), old(nextsym)) ==> MarkFits(Views(), nextsym)
      ensures ok ==>
                && isNew == (Symbols.Index(old(Contents()), name) == |old(Contents())|)
                && Contents()
                   == old(Contents()) + (if isNew then [Symbols.Entry(name, Symbols.Sym(typ, value))] else [])
                && Number(lastsym) == Some(Symbols.Index(old(Contents()), name))
                && Number(nextsym) == if isNew then Some(|Contents()|) else Number(old(nextsym))
    {
      hide Sound, Settled, MarkFits, AllExtend, LookupFrom, Shaped, List, Live;
      ghost var vs, before := Views(), cur;
      LookupIs(vs, cur, name, 0);
      var r := Lookup(name);
      Unchanged(vs, Views());
      if !r.Bucket? {
        return false, false;
      }
      isNew := EnterFound(name, typ, value, r, vs, before);
      ok := true;
    }

    /** One segment of `symfree` */
    method FreeSegment(g: nat, off: int) returns (hit: bool)
      requires Apart() && this !in Repr && (forall i :: 0 <= i < |segs| ==> segs[i].Valid()) && g < |segs|
      modifies segs[g], segs[g].hash
      ensures Apart() && (forall i :: 0 <= i < |segs| ==> segs[i].Valid()) &&
              hit == (0 <= off <= |old(Views())[g].syms|)
      ensures Views() == old(Views())[g := Cut(old(Views())[g], if hit then off else 0)]
    {
      hide Cut, Reachable, DistinctNames;
      ghost var vs := Views();
      hit := segs[g].FreeTo(off);
      assert Views() == vs[g := Cut(vs[g], if hit then off else 0)];
    }

    /** The mark is in the table. */
    predicate Marks(saved: Ptr)
      requires Valid()
      reads this, Repr
    {
      saved.At? && saved.seg < |segs| && saved.seg as int <= cur && saved.off <= segs[saved.seg].used
    }

    /** The segments behind cur have been emptied; the mark is in none of them. */
    ghost predicate Freeing(vs: seq<Seg>, before: int, saved: Ptr)
      reads this, Repr
    {
      && Apart() && this !in Repr && (forall i :: 0 <= i < |segs| ==> segs[i].Valid())
      && Settled(vs, before) && -1 <= cur <= before < |vs| == |segs| && FreedAbove(vs, Views(), cur)
      && (saved.At? && cur < saved.seg <= before ==> |vs[saved.seg].syms| < saved.off)
    }

    /** One round of the loop in `symfree`; hit if the mark is in this segment. */
    method FreeRound(saved: Ptr, ghost vs: seq<Seg>, ghost before: int) returns (hit: bool)
      requires Freeing(vs, before, saved) && cur >= 0 && Pointer(saved)
      modifies this`cur, this`nextsym, Repr
      ensures hit ==>
                && saved.At? && cur == old(cur) == saved.seg && saved.off <= |vs[saved.seg].syms|
                && Valid() && CutTo(vs, Views(), saved.seg, saved.off) && nextsym == saved
      ensures !hit ==> Freeing(vs, before, saved) && cur == old(cur) - 1 && nextsym == old(nextsym)
    {
      hide Sound, Settled, Cut, CutTo, FreedAbove;
      ghost var ws := Views();
      var off := if saved.At? && saved.seg == cur then saved.off as int else -1;
      hit := FreeSegment(cur, off);
      FreeNext(vs, ws, Views(), cur, off, hit);
      if hit {
        CutSettled(vs, Views(), before, cur, off);
      }
      Move(if hit then cur else cur - 1, if hit then saved else nextsym);
    }

    method Move(g: int, next: Ptr)
      requires Apart() && forall i :: 0 <= i < |segs| ==> segs[i].Valid()
      modifies this`cur, this`nextsym
      ensures cur == g && nextsym == next && Apart() && (forall i :: 0 <= i < |segs| ==> segs[i].Valid())
      ensures Views() == old(Views())
    {
      ghost var vs := Views();
      cur, nextsym := g, next;
      assert Views() == vs;
    }

    /** `symfree`: takes back all symbols behind the mark; without one, all there are. A null mark is no
        place to set nextsym to, so that is left where it was. */
    method SymFree(saved: Ptr) returns (ok: bool)
      requires Valid() && Pointer(saved)
      modifies this`cur, this`nextsym, Repr
      ensures Valid() && ok == (saved == Null || old(Marks(saved)))
      ensures old(Marks(saved)) ==>
                CutTo(old(Views()), Views(), saved.seg, saved.off) && cur == saved.seg && nextsym == saved
      ensures !old(Marks(saved)) ==> CutTo(old(Views()), Views(), -1, 0) && cur == -1 && nextsym == old(nextsym)
      ensures old(Marks(saved)) <==> saved.At? && Number(saved).value <= |old(Contents())|
      ensures Contents() == if old(Marks(saved)) then old(Contents())[..Number(saved).value] else []
    {
      hide Sound, Settled, Cut, CutTo, FreedAbove, List, Linked;
      ghost var vs, before := Views(), cur;
      SettledSize(vs, cur);
      FreeStart(vs, cur);
      MarkNumber(vs, cur, saved);
      while cur >= 0
        invariant Freeing(vs, before, saved) && nextsym == old(nextsym)
        decreases cur
      {
        var hit := FreeRound(saved, vs, before);
        if hit {
          ListCut(vs, Views(), before, saved.seg, saved.off);
          return true;
        }
      }
      FreedAll(vs, Views());
      CutSettled(vs, Views(), before, -1, 0);
      ListCut(vs, Views(), before, -1, 0);
      return saved == Null;
    }

    method SetLast(typ: Symbols.Kind, value: int)
      requires Valid() && lastsym.At? && Within(lastsym)
      modifies segs[lastsym.seg].first
      ensures Valid() && AllExtend(old(Views()), Views())
      ensures forall p :: MarkFits(old(Views()), p) ==> MarkFits(Views(), p)
      ensures var j := Number(lastsym).value;
        && j < |old(Contents())|
        && Contents() == old(Contents())[j := Symbols.Entry(old(Contents())[j].name, Symbols.Sym(typ, value))]
    {
      hide Sound, Settled, MarkFits, AllExtend, Retyped, List;
      ghost var vs := Views();
      WithinCur(vs, cur, lastsym.seg);
      SettledFilled(vs, cur);
      ListAt(vs, lastsym.seg, lastsym.off);
      ListSet(vs, cur, lastsym.seg, lastsym.off, typ, value);
      segs[lastsym.seg].Set(lastsym.off, typ, value);
      RetypedSettled(vs, cur, lastsym.seg, lastsym.off, typ, value);
      assert Views() == vs[lastsym.seg := Retyped(vs[lastsym.seg], lastsym.off, typ, value)];
    }

    /** The symbol that was entered or found last. */
    method Last() returns (s: Symbols.Sym)
      requires Valid() && lastsym.At? && Within(lastsym)
      ensures Number(lastsym).value < |Contents()| && s == Contents()[Number(lastsym).value].sym
    {
      hide Sound, Settled;
      WithinCur(Views(), cur, lastsym.seg);
      SettledFilled(Views(), cur);
      ListAt(Views(), lastsym.seg, lastsym.off);
      var sp := segs[lastsym.seg].first[lastsym.off];
      s := Symbols.Sym(sp.typ, sp.value);
    }

    /** A symbol that was there already. */
    method Join(c: Symbols.Sym) returns (def: bool)
      requires Valid() && lastsym.At? && Within(lastsym)
      modifies set i | 0 <= i < |segs| :: segs[i].first
      ensures Valid() && AllExtend(old(Views()), Views())
      ensures forall p :: MarkFits(old(Views()), p) ==> MarkFits(Views(), p)
      ensures var j, l := Number(lastsym).value, old(Contents());
        && j < |l| && Contents() == l[j := Symbols.Entry(l[j].name, Symbols.Joined(l[j].sym, c).0)]
        && def == Symbols.Joined(l[j].sym, c).1
    {
      hide Sound, Settled, MarkFits, AllExtend, List;
      ghost var l := Contents();
      ExtendRefl(Views());
      var s := Last();
      if s.kind != Symbols.Undf {
        return false;
      }
      if c.kind == Symbols.Undf {
        if c.value > s.value {
          SetLast(s.kind, c.value);
        }
        return false;
      }
      if s.value != 0 && c.kind == Symbols.Text {
        return false;
      }
      SetLast(c.kind, c.value);
      return true;
    }

    /** One external symbol of an object file on pass 1; counts those it defines. */
    method Merge(c: Symbols.Entry, ndef: nat) returns (ok: bool, ndef': nat)
      requires Valid()
      modifies this, Repr
      ensures Valid() && fresh(Repr - old(Repr)) && AllExtend(old(Views()), Views())
      ensures ok == LookupFrom(old(Views()), c.name, 0).Bucket? && (!ok ==> Views() == old(Views()))
      ensures MarkFits(old(Views()), old(nextsym)) ==> MarkFits(Views(), nextsym)
      ensures ok ==> var (l, def) := Symbols.Merge(old(Contents()), c);
                Contents() == l && ndef' == if def then ndef + 1 else ndef
      ensures ok ==> Number(nextsym) == if |Contents()| > |old(Contents())| then Some(|Contents()|)
                                        else Number(old(nextsym))
    {
      hide Sound, Settled, MarkFits, AllExtend, List, Symbols.Index, Symbols.Joined;
      ghost var vs := Views();
      ndef' := ndef;
      var isNew;
      ok, isNew := LookupEnter(c.name, c.sym.kind, c.sym.value);
      if !ok || isNew {
        return;
      }
      ghost var ws := Views();
      var def := Join(c.sym);
      ExtendTrans(vs, ws, Views());
      if def {
        ndef' := ndef + 1;
      }
    }

    /** `symfree` in `load1`. If the mark fitted, names and buckets are what they were. */
    method RipOut(saved: Ptr, ghost vs: seq<Seg>, ghost before: int) returns (ok: bool)
      requires Valid() && Settled(vs, before) && AllExtend(vs, Views()) && Pointer(saved)
      modifies this`cur, this`nextsym, Repr
      ensures Valid() && nextsym == if ok && saved.At? then saved else old(nextsym)
      ensures ok <==> saved.Null? || Number(saved).value <= |old(Contents())|
      ensures Contents() == if ok && saved.At? then old(Contents())[..Number(saved).value] else []
      ensures MarkFits(vs, saved) ==>
                ok && Restored(vs, Views()) && (MarkFits(Views(), nextsym) <==> saved.At? || old(nextsym).Null?)
    {
      hide Sound, Settled, MarkFits, AllExtend, CutTo, Restored, List;
      ghost var ws, cur' := Views(), cur;
      if saved.At? && MarkFits(vs, saved) {
        MarkStays(vs, ws, cur, saved.seg, saved.off);
        assert Marks(saved);
      }
      ok := SymFree(saved);
      if MarkFits(vs, saved) {
        if saved.At? {
          MarkRestores(vs, ws, Views(), before, cur', saved);
        } else {
          NullRestores(vs, ws, Views(), before, nextsym);
        }
      }
    }

    /** All external symbols of an object file. */
    method MergeAll(file: seq<Symbols.Entry>) returns (ok: bool, ndef: nat)
      requires Valid()
      modifies this, Repr
      ensures Valid() && fresh(Repr - old(Repr)) && AllExtend(old(Views()), Views())
      ensures ok ==> Symbols.MergeAll(old(Contents()), file, |file|) == (Contents(), ndef)
      ensures ok ==> Number(nextsym) == if |Contents()| > |old(Contents())| then Some(|Contents()|)
                                        else Number(old(nextsym))
      ensures MarkFits(old(Views()), old(nextsym)) ==>
                MarkFits(Views(), nextsym) && (ok && (file != [] || old(nextsym).At?) ==> nextsym.At?)
      ensures file == [] ==> nextsym == old(nextsym)
      ensures !ok ==> exists e :: e in file && !LookupFrom(Views(), e.name, 0).Bucket?
    {
      hide Sound, Settled, MarkFits, AllExtend, List, LookupFrom, Symbols.Merge;
      ghost var vs := Views();
      ghost var l := Contents();
      var i := 0;
      ndef := 0;
      ExtendRefl(vs);
      while i < |file|
        invariant i <= |file| && Valid() && fresh(Repr - old(Repr)) && AllExtend(vs, Views())
        invariant MarkFits(vs, old(nextsym)) ==> MarkFits(Views(), nextsym)
        invariant i == 0 ==> nextsym == old(nextsym)
        invariant Symbols.MergeAll(l, file, i) == (Contents(), ndef)
        invariant Number(nextsym) == if |Contents()| > |l| then Some(|Contents()|) else Number(old(nextsym))
      {
        ghost var ws := Views();
        ok, ndef := Merge(file[i], ndef);
        ExtendTrans(vs, ws, Views());
        if !ok {
          assert file[i] in file;
          return;
        }
        i := i + 1;
      }
      ok := true;
      if file != [] && MarkFits(vs, old(nextsym)) {
        Symbols.MergeSome(l, file, |file|);
        NoneWithoutMark(Views(), cur, nextsym);
      }
    }

    /** The symbols of one object file on pass 1: a library member that defines nothing is ripped out again. When
        nothing had been entered before it, nextsym then points to nowhere. */
    method Load1(file: seq<Symbols.Entry>, libflg: bool) returns (r: Fate)
      requires Valid()
      modifies this, Repr
      ensures Valid() && fresh(Repr - old(Repr))
      ensures match r
              case Failed => true
              case Kept => Symbols.Load(old(Contents()), Number(old(nextsym)), file, libflg)
                           == Symbols.Kept(Contents(), Number(nextsym))
              case Dropped => Symbols.Load(old(Contents()), Number(old(nextsym)), file, libflg)
                              == Symbols.Dropped(Contents(), Number(nextsym))
              case Botched => Symbols.Load(old(Contents()), Number(old(nextsym)), file, libflg) == Symbols.Botch
      ensures MarkFits(old(Views()), old(nextsym)) ==>
                && r != Botched
                && (r == Kept ==> AllExtend(old(Views()), Views()) && MarkFits(Views(), nextsym))
                && (r == Dropped ==>
                      && libflg && Restored(old(Views()), Views())
                      && (MarkFits(Views(), nextsym) <==> old(nextsym).At? || file == [])
                      && (old(nextsym).At? ==> nextsym == old(nextsym)))
      ensures r == Failed ==> exists e :: e in file && Refuses(this, e.name)
    {
      hide Sound, Settled, MarkFits, AllExtend, CutTo, Restored, List, Symbols.MergeAll;
      ghost var vs, before := Views(), cur;
      var savnext := nextsym;
      var ok, ndef := MergeAll(file);
      if !ok {
        return Failed;
      }
      if !libflg || ndef > 0 {
        return Kept;
      }
      ok := RipOut(savnext, vs, before);
      return if ok then Dropped else Botched;
    }

    // -------------------------------------------------------------------------------------
    // Between and in the passes

    /** `slookup`, or `lookup` on pass 2: the number of the symbol, if there is one of that name. */
    method Find(name: string) returns (ok: bool, r: Option<nat>)
      requires Valid()
      modifies this
      ensures Valid() && fresh(Repr - old(Repr)) && Contents() == old(Contents()) && nextsym == old(nextsym)
      ensures var j := Symbols.Index(Contents(), name);
        && (j < |Contents()| ==> ok)
        && (ok ==> r == if j < |Contents()| then Some(j) else None)
      ensures !ok ==> Refuses(this, name)
    {
      hide Sound, Settled, AtBucket, Passes, Shaped, Belongs, List, LookupFrom, Live, Place;
      ghost var vs, before := Views(), cur;
      LookupIs(vs, cur, name, 0);
      var b := Lookup(name);
      if !Live(vs, name) {
        ListAbsent(vs, before, name);
      } else {
        LiveIndex(vs, before, name);
      }
      ListMore(vs);
      if !b.Bucket? {
        return false, None;
      }
      LookupReady(vs, Views(), before, cur, name);
      SettledSize(Views(), cur);
      SoundShaped(Views()[b.seg]);
      var k := segs[b.seg].hash[b.bucket];
      if k < 0 {
        return true, None;
      }
      KnownInList(Views(), cur, b.seg, name, b.bucket);
      return true, Some(b.seg * NSYM + k);
    }

    /** `symx(nextsym)` */
    method Count() returns (n: nat)
      requires Valid() && Symbols.Marked(Contents(), Number(nextsym))
      ensures n == |Contents()|
    {
      n := if nextsym.Null? then 0 else nextsym.seg * NSYM + nextsym.off;
    }

    /** The symbol `xsym(i)` */
    method Get(i: nat) returns (e: Symbols.Entry)
      requires Valid() && i < |Contents()|
      ensures e == Contents()[i]
    {
      hide Sound, Settled, List;
      SettledFilled(Views(), cur);
      ListPlace(Views(), cur, i);
      e := Entry(segs[i / NSYM].first[i % NSYM]);
    }

    method Set(i: nat, typ: Symbols.Kind, value: int)
      requires Valid() && i < |Contents()|
      modifies set g | 0 <= g < |segs| :: segs[g].first
      ensures Valid() && Contents() ==
              old(Contents())[i := Symbols.Entry(old(Contents())[i].name, Symbols.Sym(typ, value))]
    {
      hide Sound, Settled, MarkFits, AllExtend, List, Retyped;
      ghost var vs := Views();
      var g, j := i / NSYM, i % NSYM;
      SettledFilled(vs, cur);
      ListPlace(vs, cur, i);
      ListSet(vs, cur, g, j, typ, value);
      segs[g].Set(j, typ, value);
      RetypedSettled(vs, cur, g, j, typ, value);
      assert Views() == vs[g := Retyped(vs[g], j, typ, value)];
    }
  }
}
