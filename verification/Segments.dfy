/** The linker's segmented symbol table as a value: which segment a name is looked for in, and what is left
    when the newest symbols are taken back (`lookup`, `symfree` of ld86.c). */
module Segments {

  import opened Basics
  import opened Buckets
  import Symbols

  const NSEG := 40

  /** Segments below cur are full, those above are empty. A name lies in one segment only, and all segments
      before that one have an empty bucket among its probes. */
  ghost predicate Settled(vs: seq<Seg>, cur: int) {
    && |vs| <= NSEG && -1 <= cur < |vs|
    && (forall g :: 0 <= g < |vs| ==> Sound(vs[g]))
    && (forall g :: 0 <= g < cur ==> |vs[g].syms| == NSYM)
    && (forall g :: cur < g < |vs| ==> |vs[g].syms| == 0)
    && (forall g, i, j :: 0 <= g < i < |vs| && 0 <= j < |vs[i].syms| ==> Passes(vs[g], vs[i].syms[j].name))
  }

  /** A search for the name goes on to the next segment once this one is full. */
  ghost predicate Passes(v: Seg, name: string)
    requires Sound(v)
  {
    !Has(v, name) && !Crowded(v, Home(name))
  }

  predicate Live(vs: seq<Seg>, name: string) {
    exists g :: 0 <= g < |vs| && Has(vs[g], name)
  }

  datatype Outcome = Bucket(seg: nat, bucket: nat) | HashBotch | Overflow

  /** `lookup` from segment g on; segments that are not allocated yet are empty. */
  function LookupFrom(vs: seq<Seg>, name: string, g: nat): (r: Outcome)
    requires g <= |vs| <= NSEG && forall i :: 0 <= i < |vs| ==> Shaped(vs[i])
    decreases |vs| - g
  {
    if g < |vs| then
      match Search(vs[g], name, 0)
      case Hit(b) => Outcome.Bucket(g, b)
      case Free(b) => Outcome.Bucket(g, b)
      case Full => LookupFrom(vs, name, g + 1)
      case Botch => HashBotch
    else if g < NSEG then Outcome.Bucket(g, Home(name))
    else Overflow
  }

  lemma {:induction false} EmptySound()
    ensures Sound(Empty())
  {
  }

  /** A full segment on whose probes a name finds only others. */
  ghost predicate Blocks(v: Seg, name: string)
    requires Linked(v)
  {
    |v.syms| == NSYM && Crowded(v, Home(name))
  }

  /** The bucket holds the symbol of the name, or is the empty one where the name belongs. */
  ghost predicate AtBucket(v: Seg, name: string, b: nat)
    requires Sound(v)
  {
    && b < HSIZE
    && if Has(v, name) then v.buckets[b] >= 0 && v.syms[v.buckets[b]].name == name
       else v.buckets[b] < 0 && |v.syms| < NSYM && Belongs(v, name, b)
  }

  lemma {:induction false} SearchAt(v: Seg, name: string)
    requires Sound(v)
    ensures var r := Search(v, name, 0);
      && (r.Hit? <==> Has(v, name)) && (r.Free? <==> !Has(v, name) && |v.syms| < NSYM)
      && (r.Botch? <==> !Has(v, name) && |v.syms| == NSYM && Crowded(v, Home(name)))
      && (r.Hit? || r.Free? ==> AtBucket(v, name, r.bucket))
  {
    SearchIs(v, name);
  }

  /** What `lookup` finds: the symbol of a live name; for a new name the empty bucket where it belongs in the
      first segment with room; the error exactly when a full segment blocks the name, or all are full. */
  lemma {:induction false} LookupIs(vs: seq<Seg>, cur: int, name: string, g: nat)
    requires Settled(vs, cur) && g <= |vs| && forall i :: 0 <= i < g ==> |vs[i].syms| == NSYM && Passes(vs[i], name)
    ensures var r := LookupFrom(vs, name, g);
      && (r.Bucket? ==>
            && r.seg < NSEG && g <= r.seg <= |vs|
            && forall i :: 0 <= i < r.seg ==> |vs[i].syms| == NSYM && Passes(vs[i], name))
      && (r.Bucket? && r.seg < |vs| ==> AtBucket(vs[r.seg], name, r.bucket))
      && (r.Bucket? && r.seg == |vs| ==> r.bucket == Home(name))
      && (Live(vs, name) ==> r.Bucket? && r.seg < |vs| && Has(vs[r.seg], name))
      && (r.HashBotch? <==> !Live(vs, name) && exists i :: 0 <= i < |vs| && Blocks(vs[i], name))
      && (r.Overflow? ==> !Live(vs, name) && |vs| == NSEG && forall i :: 0 <= i < NSEG ==> |vs[i].syms| == NSYM)
    decreases |vs| - g
  {
    hide Search, Reachable, DistinctNames, Crowded, Belongs;
    if g < |vs| {
      SearchAt(vs[g], name);
      var r := Search(vs[g], name, 0);
      if r.Full? {
        LookupIs(vs, cur, name, g + 1);
      }
    }
  }

  /** A table of one full segment can end the search for a new name in the error. */
  lemma {:induction false} BotchHappens() returns (v: Seg, name: string)
    ensures Sound(v) && Settled([v], 0) && !Live([v], name) && Blocks(v, name)
    ensures LookupFrom([v], name, 0) == HashBotch
  {
    hide Search, Crowded, Reachable, DistinctNames;
    v, name := Blocking();
  }

  lemma {:induction false} GrowSettled(vs: seq<Seg>, cur: int)
    requires Settled(vs, cur) && |vs| < NSEG
    ensures Settled(vs + [Empty()], cur)
  {
    EmptySound();
  }

  lemma {:induction false} ShapedAll(vs: seq<Seg>, cur: int)
    requires Settled(vs, cur)
    ensures (forall i :: 0 <= i < |vs| ==> Shaped(vs[i])) && |vs| <= NSEG && Shaped(Empty())
  {
  }

  lemma {:induction false} LookupOver(vs: seq<Seg>, name: string)
    requires |vs| <= NSEG && forall i :: 0 <= i < |vs| ==> Shaped(vs[i])
    ensures |vs| == NSEG ==> LookupFrom(vs, name, NSEG) == Overflow
  {
  }

  lemma {:induction false} SoundShaped(v: Seg)
    requires Sound(v)
    ensures Shaped(v) && |v.syms| <= NSYM
  {
  }

  lemma {:induction false} SettledSize(vs: seq<Seg>, cur: int)
    requires Settled(vs, cur)
    ensures -1 <= cur < |vs| <= NSEG
  {
  }

  /** One turn of `lookup`, in a table that has just got segment g if it did not have it. */
  lemma {:induction false} LookupTurn(vs: seq<Seg>, ws: seq<Seg>, cur: int, name: string, g: nat)
    requires Settled(vs, cur) && g <= |vs| && ws == (if g < |vs| then vs else vs + [Empty()]) && g < NSEG
    ensures Shaped(ws[g]) && forall i :: 0 <= i < |vs| ==> Shaped(vs[i])
    ensures LookupFrom(vs, name, g) ==
      match Search(ws[g], name, 0)
      case Hit(b) => Outcome.Bucket(g, b)
      case Free(b) => Outcome.Bucket(g, b)
      case Full => if g + 1 <= |vs| then LookupFrom(vs, name, g + 1) else HashBotch
      case Botch => HashBotch
    ensures Search(ws[g], name, 0).Full? ==> g < |vs| && |vs[g].syms| == NSYM
    ensures Search(ws[g], name, 0).Botch? ==> g < |vs|
  {
    EmptySearch(name);
    if g < |vs| {
      SearchAt(vs[g], name);
    }
  }

  lemma {:induction false} OpenSettled(vs: seq<Seg>, cur: int, g: nat)
    requires Settled(vs, cur) && cur <= g < |vs| && forall i :: 0 <= i < g ==> |vs[i].syms| == NSYM
    ensures Settled(vs, g)
  {
  }

  lemma {:induction false} EmptySearch(name: string)
    ensures Sound(Empty()) && Search(Empty(), name, 0) == Free(Home(name)) && AtBucket(Empty(), name, Home(name)) &&
            !Has(Empty(), name)
  {
    EmptySound();
    assert FirstEmpty(Empty(), Home(name), 0, Home(name));
  }

  // ---------------------------------------------------------------------------------------
  // Entering

  /** Entering a new name where lookup found room for it. */
  lemma {:induction false} EnterSettled(vs: seq<Seg>, cur: int, name: string, typ: Symbols.Kind, value: int, b: nat)
    requires Settled(vs, cur) && cur >= 0 && !Live(vs, name) && AtBucket(vs[cur], name, b)
    requires forall i :: 0 <= i < cur ==> Passes(vs[i], name)
    ensures Settled(vs[cur := Add(vs[cur], name, typ, value, b)], cur)
  {
    assert !Has(vs[cur], name);
    AddSound(vs[cur], name, typ, value, b);
    var w := Add(vs[cur], name, typ, value, b);
    var ws := vs[cur := w];
    forall g, i, j | 0 <= g < i < |ws| && 0 <= j < |ws[i].syms| ensures Passes(ws[g], ws[i].syms[j].name) {
      if i == cur && j == |vs[cur].syms| {
        assert Passes(vs[g], name);
      } else {
        assert Passes(vs[g], vs[i].syms[j].name);
      }
    }
  }

  /** A segment with room is not below the current one. */
  lemma {:induction false} RoomIsCurrent(vs: seq<Seg>, cur: int, g: nat)
    requires Settled(vs, cur) && g < |vs| && |vs[g].syms| < NSYM
    ensures g >= cur
  {
  }

  lemma {:induction false} NotLive(vs: seq<Seg>, cur: int, name: string)
    requires Settled(vs, cur) && cur >= 0 && !Has(vs[cur], name)
    requires forall i :: 0 <= i < cur ==> Passes(vs[i], name)
    ensures !Live(vs, name)
  {
  }

  /** A name that no segment has can be entered in the bucket found for it. */
  lemma {:induction false} EnterReady(vs: seq<Seg>, cur: int, name: string, typ: Symbols.Kind, value: int, b: nat)
    requires Settled(vs, cur) && cur >= 0 && AtBucket(vs[cur], name, b) && !Has(vs[cur], name)
    requires forall i :: 0 <= i < cur ==> Passes(vs[i], name)
    ensures Shaped(vs[cur]) && |vs[cur].syms| < NSYM && b < HSIZE && Belongs(vs[cur], name, b)
    ensures Settled(vs[cur := Add(vs[cur], name, typ, value, b)], cur)
  {
    SettledSize(vs, cur);
    SoundShaped(vs[cur]);
    NotLive(vs, cur, name);
    EnterSettled(vs, cur, name, typ, value, b);
  }

  // ---------------------------------------------------------------------------------------
  // Taking back

  /** A segment cut down to its first n symbols, newest first. */
  function Cut(v: Seg, n: nat): (w: Seg)
    requires n <= |v.syms| && Linked(v)
    ensures Linked(w) && w.syms == v.syms[..n]
    decreases |v.syms|
  {
    if |v.syms| == n then v else Cut(Drop(v), n)
  }

  lemma {:induction false} CutSound(v: Seg, n: nat)
    requires n <= |v.syms| && Sound(v)
    ensures Sound(Cut(v, n))
    decreases |v.syms|
  {
    if |v.syms| > n {
      DropSound(v);
      CutSound(Drop(v), n);
    }
  }

  /** An empty segment is empty buckets too. */
  lemma {:induction false} CutEmpty(v: Seg)
    requires Linked(v)
    ensures Cut(v, 0) == Empty()
  {
    Determined(Cut(v, 0), Empty());
  }

  /** How many symbols a mark in segment g at offset n leaves in segment i. */
  function Left(vs: seq<Seg>, g: int, n: nat, i: nat): nat
    requires i < |vs|
  {
    if i < g then |vs[i].syms| else if i == g then n else 0
  }

  ghost predicate CutTo(vs: seq<Seg>, ws: seq<Seg>, g: int, n: nat) {
    && |ws| == |vs|
    && (forall i :: 0 <= i < |vs| ==> Linked(vs[i]) && Left(vs, g, n, i) <= |vs[i].syms|)
    && (forall i :: 0 <= i < |vs| ==> ws[i] == Cut(vs[i], Left(vs, g, n, i)))
  }

  lemma {:induction false} CutSettled(vs: seq<Seg>, ws: seq<Seg>, cur: int, g: int, n: nat)
    requires Settled(vs, cur) && -1 <= g <= cur && CutTo(vs, ws, g, n)
    ensures Settled(ws, g)
  {
    forall i | 0 <= i < |ws| ensures Sound(ws[i]) && (i < g ==> ws[i] == vs[i]) && (i > g ==> ws[i].syms == []) {
      CutSound(vs[i], Left(vs, g, n, i));
    }
    forall h, i, j | 0 <= h < i < |ws| && 0 <= j < |ws[i].syms| ensures Passes(ws[h], ws[i].syms[j].name) {
      assert ws[i].syms[j] == vs[i].syms[j];
      assert Passes(vs[h], vs[i].syms[j].name);
    }
  }

  // ---------------------------------------------------------------------------------------
  // Runs

  predicate SamePlace(a: Sym, b: Sym) {
    a.name == b.name && a.hash == b.hash
  }

  /** w still begins with the symbols of v; their types and values may have changed. */
  predicate Extends(v: Seg, w: Seg) {
    |v.syms| <= |w.syms| && forall j :: 0 <= j < |v.syms| ==> SamePlace(v.syms[j], w.syms[j])
  }

  predicate AllExtend(vs: seq<Seg>, ws: seq<Seg>) {
    |vs| <= |ws| && forall i :: 0 <= i < |vs| ==> Extends(vs[i], ws[i])
  }

  predicate SameTable(v: Seg, w: Seg) {
    v.buckets == w.buckets && |v.syms| == |w.syms| && forall j :: 0 <= j < |v.syms| ==> SamePlace(v.syms[j], w.syms[j])
  }

  /** The mark of a table that holds something: behind the newest symbol. */
  predicate Newest(vs: seq<Seg>, g: nat, n: nat) {
    && g < |vs| && n == |vs[g].syms| > 0 && forall i :: g < i < |vs| ==> vs[i].syms == []
  }

  /** A pointer into a segment's symbols. */
  datatype Ptr = Null | At(seg: nat, off: nat)

  /** The pointer is behind the newest symbol, or null while there is none. */
  predicate MarkFits(vs: seq<Seg>, p: Ptr) {
    match p
    case Null => forall i :: 0 <= i < |vs| ==> vs[i].syms == []
    case At(g, n) => Newest(vs, g, n)
  }

  /** Whatever was entered since a mark was taken, cutting back to the mark restores names and buckets. */
  lemma {:induction false} CutRestores(vs: seq<Seg>, ws: seq<Seg>, us: seq<Seg>, cur: int, cur': int, g: nat, n: nat)
    requires Settled(vs, cur) && Settled(ws, cur') && AllExtend(vs, ws) && Newest(vs, g, n) && CutTo(ws, us, g, n)
    ensures forall i :: 0 <= i < |vs| ==> SameTable(vs[i], us[i])
    ensures forall i :: |vs| <= i < |us| ==> us[i] == Empty()
  {
    forall i | 0 <= i < |us|
      ensures if i < |vs| then SameTable(vs[i], us[i]) else us[i] == Empty()
    {
      if i < |vs| {
        assert Extends(vs[i], ws[i]);
        BelowFull(vs, ws, cur, cur', g, i);
        assert us[i].syms == ws[i].syms[..|vs[i].syms|];
        Determined(vs[i], us[i]);
      } else {
        CutEmpty(ws[i]);
      }
    }
  }

  /** Segments below the one with the newest symbol were full when the mark was taken. */
  lemma {:induction false} BelowFull(vs: seq<Seg>, ws: seq<Seg>, cur: int, cur': int, g: nat, i: nat)
    requires Settled(vs, cur) && Settled(ws, cur') && AllExtend(vs, ws) && i < |vs| && g < |vs| && |vs[g].syms| > 0
    requires forall i :: g < i < |vs| ==> vs[i].syms == []
    ensures Left(ws, g, |vs[g].syms|, i) == |vs[i].syms|
  {
    assert Extends(vs[i], ws[i]);
    if i < g {
      assert g <= cur;
    }
  }

  lemma {:induction false} Unchanged(vs: seq<Seg>, ws: seq<Seg>)
    requires ws == vs || ws == vs + [Empty()]
    ensures AllExtend(vs, ws)
    ensures forall p :: MarkFits(vs, p) ==> MarkFits(ws, p)
  {
  }

  /** After `lookup`, perhaps with a segment more, everything `enter` relies on holds. */
  lemma {:induction false} LookupReady(vs: seq<Seg>, ws: seq<Seg>, cur: int, cur': int, name: string)
    requires Settled(vs, cur) && Settled(ws, cur') && (ws == vs || ws == vs + [Empty()])
    requires var r := LookupFrom(vs, name, 0); r.Bucket? && r.seg < |ws|
    ensures var r := LookupFrom(vs, name, 0);
      && AtBucket(ws[r.seg], name, r.bucket) && (Has(ws[r.seg], name) <==> Live(vs, name))
      && forall i :: 0 <= i < r.seg ==> Passes(ws[i], name)
  {
    LookupIs(vs, cur, name, 0);
    EmptySearch(name);
  }

  lemma {:induction false} AfterEnter(vs: seq<Seg>, ws: seq<Seg>, cur: int, name: string, typ: Symbols.Kind,
                                      value: int, b: nat)
    requires Settled(ws, cur) && cur >= 0 && (ws == vs || ws == vs + [Empty()]) && b < HSIZE
    ensures var us := ws[cur := Add(ws[cur], name, typ, value, b)];
      AllExtend(vs, us) && Live(us, name) && MarkFits(us, At(cur, |ws[cur].syms| + 1))
  {
    var us := ws[cur := Add(ws[cur], name, typ, value, b)];
    assert us[cur].syms[|ws[cur].syms|].name == name;
    assert Has(us[cur], name);
  }

  /** `symfree` has emptied the segments above g so far. */
  ghost predicate FreedAbove(vs: seq<Seg>, ws: seq<Seg>, g: int) {
    && |ws| == |vs| && (forall i :: 0 <= i < |vs| ==> Linked(vs[i]))
    && (forall i :: 0 <= i < |vs| && i <= g ==> ws[i] == vs[i])
    && (forall i :: 0 <= i < |vs| && g < i ==> ws[i] == Cut(vs[i], 0))
  }

  lemma {:induction false} FreeStart(vs: seq<Seg>, cur: int)
    requires Settled(vs, cur)
    ensures FreedAbove(vs, vs, cur)
  {
  }

  lemma {:induction false} FreeNext(vs: seq<Seg>, ws: seq<Seg>, us: seq<Seg>, g: nat, off: int, hit: bool)
    requires FreedAbove(vs, ws, g) && g < |vs| == |ws| && hit == (0 <= off <= |ws[g].syms|)
    requires us == ws[g := Cut(ws[g], if hit then off else 0)]
    ensures ws[g] == vs[g] && if hit then CutTo(vs, us, g, off) else FreedAbove(vs, us, g - 1)
  {
  }

  lemma {:induction false} FreedAll(vs: seq<Seg>, ws: seq<Seg>)
    requires FreedAbove(vs, ws, -1)
    ensures CutTo(vs, ws, -1, 0)
  {
  }

  /** A symbol with its type and value changed. */
  function Retyped(v: Seg, j: nat, typ: Symbols.Kind, value: int): Seg
    requires j < |v.syms|
  {
    v.(syms := v.syms[j := v.syms[j].(typ := typ, value := value)])
  }

  lemma {:induction false} RetypedSound(v: Seg, j: nat, typ: Symbols.Kind, value: int)
    requires Sound(v) && j < |v.syms|
    ensures Sound(Retyped(v, j, typ, value))
  {
    var w := Retyped(v, j, typ, value);
    assert Linked(w);
    forall i: nat | i < |w.syms| ensures Found(w, i) {
      assert Found(v, i);
      var k: nat :| Lies(v, i, k);
      assert Lies(w, i, k) by {
        forall m: nat | m < k ensures 0 <= Buckets.Bucket(w, Home(w.syms[i].name), m) < i {
          assert 0 <= Buckets.Bucket(v, Home(v.syms[i].name), m) < i;
        }
      }
    }
  }

  lemma {:induction false} RetypedSettled(vs: seq<Seg>, cur: int, g: nat, j: nat, typ: Symbols.Kind, value: int)
    requires Settled(vs, cur) && g < |vs| && j < |vs[g].syms|
    ensures var ws := vs[g := Retyped(vs[g], j, typ, value)];
      Settled(ws, cur) && AllExtend(vs, ws) && forall p :: MarkFits(vs, p) ==> MarkFits(ws, p)
  {
    hide Linked;
    var ws := vs[g := Retyped(vs[g], j, typ, value)];
    RetypedSound(vs[g], j, typ, value);
    forall h, i, k | 0 <= h < i < |ws| && 0 <= k < |ws[i].syms| ensures Passes(ws[h], ws[i].syms[k].name) {
      assert Passes(vs[h], vs[i].syms[k].name);
      PassesOn(vs[h], ws[h], ws[i].syms[k].name);
    }
  }

  lemma {:induction false} PassesOn(v: Seg, w: Seg, name: string)
    requires Sound(v) && Sound(w) && Passes(v, name) && v.buckets == w.buckets && |v.syms| == |w.syms|
    requires forall j :: 0 <= j < |v.syms| ==> SamePlace(v.syms[j], w.syms[j])
    ensures Passes(w, name)
  {
    assert forall k: nat :: k < NSYM ==> Buckets.Bucket(w, Home(name), k) == Buckets.Bucket(v, Home(name), k);
  }

  lemma {:induction false} ExtendTrans(us: seq<Seg>, vs: seq<Seg>, ws: seq<Seg>)
    requires AllExtend(us, vs) && AllExtend(vs, ws)
    ensures AllExtend(us, ws)
  {
    forall i | 0 <= i < |us| ensures Extends(us[i], ws[i]) {
      assert Extends(us[i], vs[i]) && Extends(vs[i], ws[i]);
    }
  }

  /** A mark stays one while symbols are added. */
  lemma {:induction false} MarkStays(vs: seq<Seg>, ws: seq<Seg>, cur': int, g: nat, n: nat)
    requires Settled(ws, cur') && AllExtend(vs, ws) && MarkFits(vs, At(g, n))
    ensures g < |ws| && g <= cur' && n <= |ws[g].syms|
  {
    assert Extends(vs[g], ws[g]);
  }

  /** Cutting back to a mark that fits. */
  lemma {:induction false} MarkRestores(vs: seq<Seg>, ws: seq<Seg>, us: seq<Seg>, cur: int, cur': int, p: Ptr)
    requires Settled(vs, cur) && Settled(ws, cur') && AllExtend(vs, ws) && MarkFits(vs, p) && p.At? &&
             CutTo(ws, us, p.seg, p.off)
    ensures Restored(vs, us) && MarkFits(us, p)
  {
    CutRestores(vs, ws, us, cur, cur', p.seg, p.off);
    forall i | p.seg < i < |us| ensures us[i].syms == [] {
      if i < |vs| {
        assert SameTable(vs[i], us[i]);
      }
    }
    assert SameTable(vs[p.seg], us[p.seg]);
  }

  /** The same names behind the same buckets; segments allocated since are empty. */
  predicate Restored(vs: seq<Seg>, us: seq<Seg>) {
    && |vs| <= |us| && (forall i :: 0 <= i < |vs| ==> SameTable(vs[i], us[i]))
    && forall i :: |vs| <= i < |us| ==> us[i] == Empty()
  }

  /** Cutting back everything, when there was nothing before. */
  lemma {:induction false} NullRestores(vs: seq<Seg>, ws: seq<Seg>, us: seq<Seg>, cur: int, p: Ptr)
    requires Settled(vs, cur) && AllExtend(vs, ws) && MarkFits(vs, Null) && CutTo(ws, us, -1, 0)
    ensures Restored(vs, us) && (MarkFits(us, p) <==> p.Null?)
  {
    forall i | 0 <= i < |us| ensures us[i] == Empty() {
      CutEmpty(ws[i]);
    }
    forall i | 0 <= i < |vs| ensures SameTable(vs[i], us[i]) {
      EmptySound();
      Determined(vs[i], Empty());
    }
  }

  lemma {:induction false} LiveHas(vs: seq<Seg>, g: nat, name: string)
    requires g < |vs| && Has(vs[g], name)
    ensures Live(vs, name)
  {
  }

  lemma {:induction false} ExtendRefl(vs: seq<Seg>)
    ensures AllExtend(vs, vs)
  {
  }

  // ---------------------------------------------------------------------------------------
  // All symbols as one list

  function Entry(s: Sym): Symbols.Entry {
    Symbols.Entry(s.name, Symbols.Sym(s.typ, s.value))
  }

  function Entries(v: Seg): seq<Symbols.Entry> {
    seq(|v.syms|, j requires 0 <= j < |v.syms| => Entry(v.syms[j]))
  }

  function List(vs: seq<Seg>): seq<Symbols.Entry> {
    if vs == [] then [] else List(vs[..|vs| - 1]) + Entries(vs[|vs| - 1])
  }

  /** Segments below cur are full, those above are empty. */
  predicate Filled(vs: seq<Seg>, cur: int) {
    && -1 <= cur < |vs| && (cur >= 0 ==> |vs[cur].syms| <= NSYM)
    && (forall g :: 0 <= g < cur ==> |vs[g].syms| == NSYM) && (forall g :: cur < g < |vs| ==> |vs[g].syms| == 0)
  }

  lemma {:induction false} SettledFilled(vs: seq<Seg>, cur: int)
    requires Settled(vs, cur)
    ensures Filled(vs, cur)
  {
  }

  lemma {:induction false} ListSize(vs: seq<Seg>, cur: int)
    requires Filled(vs, cur)
    ensures |List(vs)| == if cur < 0 then 0 else cur * NSYM + |vs[cur].syms|
  {
    if |vs| > 0 {
      ListSize(vs[..|vs| - 1], if cur == |vs| - 1 then cur - 1 else cur);
    }
  }

  /** The place of a symbol in the list. */
  lemma {:induction false} ListAt(vs: seq<Seg>, g: nat, j: nat)
    requires g < |vs| && j < |vs[g].syms| && forall i :: 0 <= i < g ==> |vs[i].syms| == NSYM
    ensures g * NSYM + j < |List(vs)| && List(vs)[g * NSYM + j] == Entry(vs[g].syms[j])
  {
    var n := |vs| - 1;
    if g < n {
      ListAt(vs[..n], g, j);
    } else if n > 0 {
      ListSize(vs[..n], n - 1);
    }
  }

  /** The symbol of a place in the list (`xsym`). */
  lemma {:induction false} ListPlace(vs: seq<Seg>, cur: int, i: nat)
    requires Filled(vs, cur) && i < |List(vs)|
    ensures var (g, j) := (i / NSYM, i % NSYM);
      g <= cur && j < |vs[g].syms| && i == g * NSYM + j && List(vs)[i] == Entry(vs[g].syms[j])
  {
    ListSize(vs, cur);
    ListAt(vs, i / NSYM, i % NSYM);
  }

  lemma {:induction false} ListMore(vs: seq<Seg>)
    ensures List(vs + [Empty()]) == List(vs)
  {
    assert (vs + [Empty()])[..|vs|] == vs;
  }

  lemma {:induction false} ListAdd(vs: seq<Seg>, cur: int, name: string, typ: Symbols.Kind, value: int, b: nat)
    requires Filled(vs, cur) && cur >= 0 && |vs[cur].syms| < NSYM && b < |vs[cur].buckets|
    ensures var ws := vs[cur := Add(vs[cur], name, typ, value, b)];
      List(ws) == List(vs) + [Symbols.Entry(name, Symbols.Sym(typ, value))]
  {
    var ws := vs[cur := Add(vs[cur], name, typ, value, b)];
    ListSize(vs, cur);
    ListSize(ws, cur);
    forall i: nat | i < |List(ws)|
      ensures List(ws)[i] == (List(vs) + [Symbols.Entry(name, Symbols.Sym(typ, value))])[i]
    {
      ListPlace(ws, cur, i);
      if i < |List(vs)| {
        ListPlace(vs, cur, i);
      }
    }
  }

  lemma {:induction false} ListSet(vs: seq<Seg>, cur: int, g: nat, j: nat, typ: Symbols.Kind, value: int)
    requires Filled(vs, cur) && g <= cur && j < |vs[g].syms|
    ensures var ws := vs[g := Retyped(vs[g], j, typ, value)];
      && g * NSYM + j < |List(vs)|
      && List(ws) == List(vs)[g * NSYM + j := Symbols.Entry(vs[g].syms[j].name, Symbols.Sym(typ, value))]
  {
    hide List;
    var ws := vs[g := Retyped(vs[g], j, typ, value)];
    ListAt(vs, g, j);
    ListAt(ws, g, j);
    ListSize(vs, cur);
    ListSize(ws, cur);
    forall i: nat | i < |List(ws)| && i != g * NSYM + j ensures List(ws)[i] == List(vs)[i] {
      ListPlace(ws, cur, i);
      ListPlace(vs, cur, i);
    }
  }

  /** Cut back to a mark, the list is cut to its place. */
  lemma {:induction false} ListCut(vs: seq<Seg>, ws: seq<Seg>, cur: int, g: int, n: nat)
    requires Settled(vs, cur) && -1 <= g <= cur && CutTo(vs, ws, g, n)
    ensures if g < 0 then List(ws) == [] else g * NSYM + n <= |List(vs)| && List(ws) == List(vs)[..g * NSYM + n]
  {
    hide Sound, Linked, CutTo, Cut, Settled;
    SettledFilled(vs, cur);
    CutSettled(vs, ws, cur, g, n);
    SettledFilled(ws, g);
    CutSymbols(vs, ws, g, n);
    ListSize(vs, cur);
    ListSize(ws, g);
    forall i: nat | i < |List(ws)| ensures i < |List(vs)| && List(ws)[i] == List(vs)[i] {
      ListPlace(ws, g, i);
      ListAt(vs, i / NSYM, i % NSYM);
    }
  }

  lemma {:induction false} CutSymbols(vs: seq<Seg>, ws: seq<Seg>, g: int, n: nat)
    requires CutTo(vs, ws, g, n)
    ensures |ws| == |vs|
    ensures forall i :: 0 <= i < |vs| ==>
      Left(vs, g, n, i) <= |vs[i].syms| && ws[i].syms == vs[i].syms[..Left(vs, g, n, i)]
  {
  }

  lemma {:induction false} OtherBefore(vs: seq<Seg>, cur: int, g: nat, j: nat, i: nat)
    requires Settled(vs, cur) && g <= cur && j < |vs[g].syms| && i < g * NSYM + j
    ensures i < |List(vs)| && List(vs)[i].name != vs[g].syms[j].name
  {
    SettledFilled(vs, cur);
    ListAt(vs, g, j);
    ListPlace(vs, cur, i);
    var h := i / NSYM;
    if h < g {
      assert Passes(vs[h], vs[g].syms[j].name);
    }
  }

  /** Where a live name is in the list. */
  lemma {:induction false} ListIndex(vs: seq<Seg>, cur: int, g: nat, j: nat)
    requires Settled(vs, cur) && g <= cur && j < |vs[g].syms|
    ensures Symbols.Index(List(vs), vs[g].syms[j].name) == g * NSYM + j
  {
    SettledFilled(vs, cur);
    ListAt(vs, g, j);
    var name := vs[g].syms[j].name;
    forall i: nat | i < g * NSYM + j ensures List(vs)[i].name != name {
      OtherBefore(vs, cur, g, j, i);
    }
    Symbols.IndexIs(List(vs), name, g * NSYM + j);
  }

  lemma {:induction false} ListAbsent(vs: seq<Seg>, cur: int, name: string)
    requires Settled(vs, cur) && !Live(vs, name)
    ensures Symbols.Index(List(vs), name) == |List(vs)|
  {
    SettledFilled(vs, cur);
    var i := Symbols.Index(List(vs), name);
    if i < |List(vs)| {
      ListPlace(vs, cur, i);
      assert Has(vs[i / NSYM], name);
    }
  }

  /** Two marks of the same place: the pointer as a number of symbols. */
  function Number(p: Ptr): Option<nat> {
    match p
    case Null => None
    case At(g, n) => Some(g * NSYM + n)
  }

  /** Entering a new name puts it behind the list. */
  lemma {:induction false} NewInList(vs: seq<Seg>, ws: seq<Seg>, before: int, cur: int, name: string,
                                     typ: Symbols.Kind, value: int, b: nat)
    requires Settled(vs, before) && Settled(ws, cur) && (ws == vs || ws == vs + [Empty()]) && !Live(vs, name)
    requires cur >= 0 && |ws[cur].syms| < NSYM && b < HSIZE
    ensures var us := ws[cur := Add(ws[cur], name, typ, value, b)];
      && List(us) == List(vs) + [Symbols.Entry(name, Symbols.Sym(typ, value))]
      && Symbols.Index(List(vs), name) == |List(vs)| == cur * NSYM + |ws[cur].syms|
  {
    SettledFilled(ws, cur);
    ListMore(vs);
    ListSize(ws, cur);
    ListAdd(ws, cur, name, typ, value, b);
    ListAbsent(vs, before, name);
  }

  /** The bucket of a known name leads to its place in the list. */
  lemma {:induction false} KnownInList(vs: seq<Seg>, cur: int, g: nat, name: string, b: nat)
    requires Settled(vs, cur) && g <= cur && AtBucket(vs[g], name, b) && Has(vs[g], name)
    ensures vs[g].buckets[b] >= 0 && Symbols.Index(List(vs), name) == g * NSYM + vs[g].buckets[b] < |List(vs)|
  {
    ListIndex(vs, cur, g, vs[g].buckets[b]);
    ListAt(vs, g, vs[g].buckets[b]);
  }

  lemma {:induction false} WithinCur(vs: seq<Seg>, cur: int, g: nat)
    requires Settled(vs, cur) && g < |vs| && |vs[g].syms| > 0
    ensures g <= cur
  {
  }

  /** A mark is in the table exactly if there are as many symbols as it says. */
  lemma {:induction false} MarkNumber(vs: seq<Seg>, cur: int, p: Ptr)
    requires Settled(vs, cur) && (p.At? ==> 0 < p.off <= NSYM)
    ensures p.At? ==>
              (p.seg < |vs| && p.seg <= cur && p.off <= |vs[p.seg].syms| <==> Number(p).value <= |List(vs)|)
  {
    SettledFilled(vs, cur);
    ListSize(vs, cur);
  }

  lemma {:induction false} NoneWithoutMark(vs: seq<Seg>, cur: int, p: Ptr)
    requires Settled(vs, cur) && MarkFits(vs, p) && List(vs) != []
    ensures p.At?
  {
    SettledFilled(vs, cur);
    ListPlace(vs, cur, 0);
  }

  lemma {:induction false} LiveIndex(vs: seq<Seg>, cur: int, name: string)
    requires Settled(vs, cur) && Live(vs, name)
    ensures Symbols.Index(List(vs), name) < |List(vs)|
  {
    SettledFilled(vs, cur);
    var g :| 0 <= g < |vs| && Has(vs[g], name);
    var j :| 0 <= j < |vs[g].syms| && vs[g].syms[j].name == name;
    ListIndex(vs, cur, g, j);
    ListAt(vs, g, j);
  }

  /** What `enter` makes of a table that was vs before `lookup` and ws after it. */
  ghost predicate EnteredAs(vs: seq<Seg>, ws: seq<Seg>, us: seq<Seg>, name: string,
                            typ: Symbols.Kind, value: int, isNew: bool, last: Ptr, next: Ptr)
  {
    && AllExtend(vs, us) && Live(us, name) && (if isNew then MarkFits(us, next) else us == ws)
    && isNew == (Symbols.Index(List(vs), name) == |List(vs)|)
    && List(us) == List(vs) + (if isNew then [Symbols.Entry(name, Symbols.Sym(typ, value))] else [])
    && Number(last) == Some(Symbols.Index(List(vs), name)) && (isNew ==> Number(next) == Some(|List(us)|))
  }

  lemma {:induction false} NewEntered(vs: seq<Seg>, ws: seq<Seg>, before: int, cur: int, name: string,
                                      typ: Symbols.Kind, value: int, b: nat)
    requires Settled(vs, before) && Settled(ws, cur) && (ws == vs || ws == vs + [Empty()]) && !Live(vs, name)
    requires cur >= 0 && |ws[cur].syms| < NSYM && b < HSIZE
    ensures var n := |ws[cur].syms|;
      EnteredAs(vs, ws, ws[cur := Add(ws[cur], name, typ, value, b)], name, typ, value, true,
                At(cur, n), At(cur, n + 1))
  {
    hide Settled, List, MarkFits, AllExtend, Live, Add;
    AfterEnter(vs, ws, cur, name, typ, value, b);
    NewInList(vs, ws, before, cur, name, typ, value, b);
  }

  lemma {:induction false} KnownEntered(vs: seq<Seg>, ws: seq<Seg>, before: int, cur: int, name: string,
                                        typ: Symbols.Kind, value: int, next: Ptr)
    requires Settled(vs, before) && Settled(ws, cur) && (ws == vs || ws == vs + [Empty()]) && Live(vs, name)
    requires var r := LookupFrom(vs, name, 0); r.Bucket? && r.seg < |ws| && r.seg <= cur
    ensures var r := LookupFrom(vs, name, 0);
      && r.bucket < HSIZE && ws[r.seg].buckets[r.bucket] >= 0
      && EnteredAs(vs, ws, ws, name, typ, value, false, At(r.seg, ws[r.seg].buckets[r.bucket]), next)
  {
    hide Settled, List, MarkFits, AllExtend, Live, Shaped, Passes, LookupFrom;
    ShapedAll(vs, before);
    var r := LookupFrom(vs, name, 0);
    Unchanged(vs, ws);
    LookupReady(vs, ws, before, cur, name);
    ListMore(vs);
    LiveHas(ws, r.seg, name);
    KnownInList(ws, cur, r.seg, name, r.bucket);
  }
}
