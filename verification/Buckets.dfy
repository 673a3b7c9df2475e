/** One segment of the linker's symbol table as a value: symbols in the order they were entered and the
    buckets that point to them (`lookup` and `enter` of ld86.c). */
module Buckets {

  import opened Primes
  import Symbols

  const NSYM := 1103
  const HSIZE := 2206

  /** A symbol; hash is the bucket that points to it. */
  datatype Sym = Sym(name: string, hash: nat, typ: Symbols.Kind, value: int)

  /** Buckets hold an index into syms, or -1 if they are empty. */
  datatype Seg = Seg(syms: seq<Sym>, buckets: seq<int>)

  const TWO32: int := 0x1_0000_0000

  /** The shift-and-add over the characters, in 32 bits. */
  function Fold(name: string): nat {
    if name == [] then 0 else (Fold(name[..|name| - 1]) * 2 + name[|name| - 1] as int) % TWO32
  }

  /** The first bucket of a name. */
  function Home(name: string): (h: nat)
    ensures h < HSIZE
  {
    Fold(name) % 0x8000_0000 % HSIZE
  }

  // ---------------------------------------------------------------------------------------
  // Quadratic rehash

  /** The bucket of probe k: the step grows by two each time and is taken back into the table. */
  function Place(h: nat, k: nat): (b: nat)
    requires h < HSIZE && k < NSYM
    ensures b < HSIZE
  {
    if k == 0 then h
    else
      var b := Place(h, k - 1) + (2 * k - 1);
      if b >= HSIZE then b - HSIZE else b
  }

  /** The sum of the steps. */
  function Square(k: nat): nat {
    if k == 0 then 0 else Square(k - 1) + 2 * k - 1
  }

  lemma {:induction false} SquareIs(k: nat)
    ensures Square(k) == k * k
  {
    if k > 0 {
      SquareIs(k - 1);
    }
  }

  lemma {:induction false} PlaceIs(h: nat, k: nat)
    requires h < HSIZE && k < NSYM
    ensures Place(h, k) == (h + Square(k)) % HSIZE
  {
    if k > 0 {
      PlaceIs(h, k - 1);
      WrapOnce(h + Square(k - 1), 2 * k - 1);
    }
  }

  lemma {:induction false} WrapOnce(x: nat, step: nat)
    requires step < HSIZE
    ensures var b := x % HSIZE + step; (x + step) % HSIZE == if b >= HSIZE then b - HSIZE else b
  {
  }

  /** The probes of one name never meet: HSIZE is twice a prime, and the factors of a difference of two
      squares have the same parity. */
  lemma {:induction false} ProbesDistinct(h: nat, i: nat, j: nat)
    requires h < HSIZE && i < j < NSYM
    ensures Place(h, i) != Place(h, j)
  {
    PlaceIs(h, i);
    PlaceIs(h, j);
    var d := Difference(i, j);
    if Place(h, i) == Place(h, j) {
      SameRest(h + Square(i), d);
    }
  }

  /** Two squares differ by something that is not a multiple of HSIZE. */
  lemma {:induction false} Difference(i: nat, j: nat) returns (d: nat)
    requires i < j < NSYM
    ensures Square(j) == Square(i) + d && !(d % NSYM == 0 && d % 2 == 0)
  {
    hide Square;
    SquareIs(i);
    SquareIs(j);
    d := SquaresApart(i, j, j + i, j - i);
    NoMeeting(j + i, j - i);
  }

  lemma {:induction false} SquaresApart(i: nat, j: nat, x: nat, y: nat) returns (d: nat)
    requires x == j + i && y == j - i
    ensures d == x * y && j * j == i * i + d
  {
    d := x * y;
  }

  lemma {:induction false} NoMeeting(x: nat, y: nat)
    requires 0 < y < NSYM && y <= x < 2 * NSYM && (x - y) % 2 == 0
    ensures !((x * y) % NSYM == 0 && (x * y) % 2 == 0)
  {
    if (x * y) % NSYM == 0 {
      Prime1103();
      PrimeFactor(x, y, NSYM);
      assert x == NSYM;
      OddTimesOdd(x, y);
    }
  }

  lemma {:induction false} SameRest(x: int, d: int)
    requires (x + d) % HSIZE == x % HSIZE
    ensures d % NSYM == 0 && d % 2 == 0
  {
    var k := (x + d) / HSIZE - x / HSIZE;
    assert d == HSIZE * k;
    ModUnique(d, 2 * k, 0, NSYM);
    ModUnique(d, NSYM * k, 0, 2);
  }

  lemma {:induction false} OddTimesOdd(x: int, y: int)
    requires x % 2 == 1 && y % 2 == 1
    ensures (x * y) % 2 == 1
  {
    MulMod(x, y, 2);
  }

  lemma {:induction false} Pigeons(s: seq<nat>, m: nat)
    requires forall i :: 0 <= i < |s| ==> s[i] < m
    requires forall i, j :: 0 <= i < j < |s| ==> s[i] != s[j]
    ensures |s| <= m
  {
    if |s| > 0 {
      assert s[0] < m;
      if i :| 0 <= i < |s| && s[i] == m - 1 {
        Pigeons(s[..i] + s[i + 1..], m - 1);
      } else {
        Pigeons(s, m - 1);
      }
    }
  }

  // ---------------------------------------------------------------------------------------
  // Segments

  function Bucket(v: Seg, h: nat, k: nat): int
    requires |v.buckets| == HSIZE && h < HSIZE && k < NSYM
  {
    v.buckets[Place(h, k)]
  }

  /** Symbols and buckets point to each other. */
  ghost predicate Linked(v: Seg) {
    && |v.syms| <= NSYM && |v.buckets| == HSIZE
    && (forall b :: 0 <= b < HSIZE ==> -1 <= v.buckets[b] < |v.syms|)
    && (forall j :: 0 <= j < |v.syms| ==> v.syms[j].hash < HSIZE && v.buckets[v.syms[j].hash] == j)
    && (forall b :: 0 <= b < HSIZE && v.buckets[b] >= 0 ==> v.syms[v.buckets[b]].hash == b)
  }

  /** Symbol j lies at probe k of its name, and all probes before are taken by symbols older than j. */
  ghost predicate Lies(v: Seg, j: nat, k: nat)
    requires Linked(v) && j < |v.syms|
  {
    && k < NSYM && Place(Home(v.syms[j].name), k) == v.syms[j].hash
    && forall i: nat :: i < k ==> 0 <= Bucket(v, Home(v.syms[j].name), i) < j
  }

  ghost predicate Found(v: Seg, j: nat)
    requires Linked(v) && j < |v.syms|
  {
    exists k: nat :: Lies(v, j, k)
  }

  ghost predicate Reachable(v: Seg)
    requires Linked(v)
  {
    forall j: nat :: j < |v.syms| ==> Found(v, j)
  }

  ghost predicate DistinctNames(v: Seg) {
    forall i, j :: 0 <= i < j < |v.syms| ==> v.syms[i].name != v.syms[j].name
  }

  ghost predicate Sound(v: Seg) {
    Linked(v) && Reachable(v) && DistinctNames(v)
  }

  predicate Has(v: Seg, name: string) {
    exists j :: 0 <= j < |v.syms| && v.syms[j].name == name
  }

  /** All probes of a name find symbols. */
  ghost predicate Crowded(v: Seg, h: nat)
    requires |v.buckets| == HSIZE && h < HSIZE
  {
    forall k: nat :: k < NSYM ==> Bucket(v, h, k) >= 0
  }

  /** A segment with room is never crowded. */
  lemma {:induction false} CrowdedFull(v: Seg, h: nat)
    requires Linked(v) && h < HSIZE && Crowded(v, h)
    ensures |v.syms| == NSYM
  {
    var s := seq(NSYM, (k: nat) requires k < NSYM => Bucket(v, h, k) as nat);
    forall i, j | 0 <= i < j < |s| ensures s[i] != s[j] {
      ProbesDistinct(h, i, j);
    }
    Pigeons(s, |v.syms|);
  }

  // ---------------------------------------------------------------------------------------
  // Probing

  /** Hit: the bucket of the name. Free: the empty bucket where it belongs. Full: it is not here, and there
      is no room. Botch: the probes ran out. */
  datatype Probe = Hit(bucket: nat) | Free(bucket: nat) | Full | Botch

  predicate Shaped(v: Seg) {
    |v.buckets| == HSIZE && forall b :: 0 <= b < HSIZE ==> v.buckets[b] < |v.syms|
  }

  function Search(v: Seg, name: string, k: nat): (r: Probe)
    requires Shaped(v) && k < NSYM
    ensures r.Hit? || r.Free? ==> r.bucket < HSIZE
    decreases NSYM - k
  {
    var b := Place(Home(name), k);
    if v.buckets[b] < 0 then
      if |v.syms| == NSYM then Full else Free(b)
    else if v.syms[v.buckets[b]].name == name then Hit(b)
    else if k + 1 < NSYM then Search(v, name, k + 1)
    else Botch
  }

  /** b is the first empty bucket among the probes of a name. */
  ghost predicate FirstEmpty(v: Seg, h: nat, k: nat, b: nat)
    requires |v.buckets| == HSIZE && h < HSIZE
  {
    k < NSYM && b == Place(h, k) && v.buckets[b] < 0 && forall i: nat :: i < k ==> Bucket(v, h, i) >= 0
  }

  ghost predicate Belongs(v: Seg, name: string, b: nat)
    requires |v.buckets| == HSIZE
  {
    exists k: nat :: FirstEmpty(v, Home(name), k, b)
  }

  lemma {:induction false} SearchHits(v: Seg, name: string, j: nat, at: nat, k: nat)
    requires Sound(v) && j < |v.syms| && v.syms[j].name == name && Lies(v, j, at) && k <= at
    ensures Search(v, name, k) == Hit(v.syms[j].hash)
    decreases at - k
  {
    if k < at {
      var i := Bucket(v, Home(name), k);
      assert v.syms[i].name != name;
      SearchHits(v, name, j, at, k + 1);
    }
  }

  lemma {:induction false} SearchEnds(v: Seg, name: string, k: nat)
    requires Sound(v) && k < NSYM && forall i: nat :: i < k ==> Bucket(v, Home(name), i) >= 0
    ensures var r := Search(v, name, k);
      && (r.Hit? ==> v.buckets[r.bucket] >= 0 && v.syms[v.buckets[r.bucket]].name == name)
      && (r.Free? ==> Belongs(v, name, r.bucket) && |v.syms| < NSYM)
      && (r.Full? ==> |v.syms| == NSYM && !Crowded(v, Home(name)))
      && (r.Botch? ==> Crowded(v, Home(name)))
    decreases NSYM - k
  {
    var h := Home(name);
    if Bucket(v, h, k) < 0 {
      assert FirstEmpty(v, h, k, Place(h, k));
    } else if v.syms[Bucket(v, h, k)].name != name && k + 1 < NSYM {
      SearchEnds(v, name, k + 1);
    }
  }

  /** A search finds the name exactly when it is there; with room in the segment it otherwise ends at the
      bucket where the name belongs; in a full segment it gives up, or, if every probe finds another
      name, ends in the error. */
  lemma {:induction false} SearchIs(v: Seg, name: string)
    requires Sound(v)
    ensures var r := Search(v, name, 0);
      && (r.Hit? <==> Has(v, name)) && (r.Free? <==> !Has(v, name) && |v.syms| < NSYM)
      && (r.Botch? <==> !Has(v, name) && |v.syms| == NSYM && Crowded(v, Home(name)))
      && (r.Hit? ==> v.buckets[r.bucket] >= 0 && v.syms[v.buckets[r.bucket]].name == name)
      && (r.Free? ==> Belongs(v, name, r.bucket))
  {
    SearchEnds(v, name, 0);
    if Has(v, name) {
      var j :| 0 <= j < |v.syms| && v.syms[j].name == name;
      assert Found(v, j);
      var k: nat :| Lies(v, j, k);
      SearchHits(v, name, j, k, 0);
    } else if Search(v, name, 0).Botch? {
      CrowdedFull(v, Home(name));
    }
  }

  // ---------------------------------------------------------------------------------------
  // Entering and taking back

  function Empty(): Seg {
    Seg([], seq(HSIZE, i => -1))
  }

  function Add(v: Seg, name: string, typ: Symbols.Kind, value: int, b: nat): Seg
    requires b < |v.buckets|
  {
    Seg(v.syms + [Sym(name, b, typ, value)], v.buckets[b := |v.syms|])
  }

  function Drop(v: Seg): Seg
    requires |v.syms| > 0 && v.syms[|v.syms| - 1].hash < |v.buckets|
  {
    Seg(v.syms[..|v.syms| - 1], v.buckets[v.syms[|v.syms| - 1].hash := -1])
  }

  lemma {:induction false} LiesOn(v: Seg, w: Seg, j: nat, k: nat)
    requires Linked(v) && Linked(w) && j < |v.syms| && j < |w.syms| && w.syms[j] == v.syms[j] && Lies(v, j, k)
    requires forall b :: 0 <= b < HSIZE && 0 <= v.buckets[b] < j ==> w.buckets[b] == v.buckets[b]
    ensures Lies(w, j, k)
  {
    forall i: nat | i < k ensures 0 <= Bucket(w, Home(w.syms[j].name), i) < j {
      assert 0 <= Bucket(v, Home(v.syms[j].name), i) < j;
    }
  }

  lemma {:induction false} AddSound(v: Seg, name: string, typ: Symbols.Kind, value: int, b: nat)
    requires Sound(v) && |v.syms| < NSYM && b < HSIZE && !Has(v, name) && Belongs(v, name, b)
    ensures Sound(Add(v, name, typ, value, b))
  {
    var w := Add(v, name, typ, value, b);
    assert Linked(w);
    forall j: nat | j < |w.syms| ensures Found(w, j) {
      if j < |v.syms| {
        assert Found(v, j);
        var k: nat :| Lies(v, j, k);
        LiesOn(v, w, j, k);
      } else {
        var k: nat :| FirstEmpty(v, Home(name), k, b);
        LastLies(v, w, name, k, b);
      }
    }
  }

  lemma {:induction false} LastLies(v: Seg, w: Seg, name: string, k: nat, b: nat)
    requires Linked(v) && Linked(w) && b < HSIZE && w.buckets == v.buckets[b := |v.syms|] && |w.syms| == |v.syms| + 1
    requires w.syms[|v.syms|].name == name && w.syms[|v.syms|].hash == b && FirstEmpty(v, Home(name), k, b)
    ensures Lies(w, |v.syms|, k)
  {
    forall i: nat | i < k ensures 0 <= Bucket(w, Home(name), i) < |v.syms| {
      assert Bucket(v, Home(name), i) >= 0;
    }
  }

  /** Taking back the newest symbol hides none of the others: none of them was pushed on by it. */
  lemma {:induction false} DropSound(v: Seg)
    requires Sound(v) && |v.syms| > 0
    ensures Sound(Drop(v))
  {
    var w := Drop(v);
    assert Linked(w);
    forall j: nat | j < |w.syms| ensures Found(w, j) {
      assert Found(v, j);
      var k: nat :| Lies(v, j, k);
      LiesOn(v, w, j, k);
    }
  }

  /** The buckets follow from the symbols. */
  lemma {:induction false} Determined(v: Seg, w: Seg)
    requires Linked(v) && Linked(w) && |v.syms| == |w.syms|
    requires forall j :: 0 <= j < |v.syms| ==> v.syms[j].hash == w.syms[j].hash
    ensures v.buckets == w.buckets
  {
    forall b | 0 <= b < HSIZE ensures v.buckets[b] == w.buckets[b] {
      if v.buckets[b] >= 0 {
        assert v.syms[v.buckets[b]].hash == b;
      }
      if w.buckets[b] >= 0 {
        assert w.syms[w.buckets[b]].hash == b;
      }
    }
  }

  // ---------------------------------------------------------------------------------------
  // A segment that blocks a name

  /** Names of n pairs of letters, one for each k below the n-th power of two. "bd" adds as much to the sum as "cb". */
  function Twin(k: nat, n: nat): (name: string)
    ensures |name| == 2 * n
  {
    if n == 0 then "" else Twin(k / 2, n - 1) + if k % 2 == 0 then "bd" else "cb"
  }

  function Two(n: nat): nat {
    if n == 0 then 1 else 2 * Two(n - 1)
  }

  lemma {:induction false} TwinsDiffer(i: nat, k: nat, n: nat)
    requires i < k < Two(n)
    ensures Twin(i, n) != Twin(k, n)
  {
    var a, b := Twin(i, n), Twin(k, n);
    if i % 2 == k % 2 {
      TwinsDiffer(i / 2, k / 2, n - 1);
      assert a[..|a| - 2] == Twin(i / 2, n - 1) && b[..|b| - 2] == Twin(k / 2, n - 1);
    } else {
      assert a[|a| - 1] != b[|b| - 1];
    }
  }

  lemma {:induction false} TwinsFold(i: nat, k: nat, n: nat)
    ensures Fold(Twin(i, n)) == Fold(Twin(k, n))
  {
    if n > 0 {
      TwinsFold(i / 2, k / 2, n - 1);
      FoldPair(Twin(i / 2, n - 1), i % 2 == 0);
      FoldPair(Twin(k / 2, n - 1), k % 2 == 0);
    }
  }

  lemma {:induction false} FoldPair(s: string, first: bool)
    ensures Fold(s + if first then "bd" else "cb") == (4 * Fold(s) + 296) % TWO32
  {
    var c, d := if first then 'b' else 'c', if first then 'd' else 'b';
    var t := s + [c, d];
    assert t == s + (if first then "bd" else "cb");
    assert t[..|t| - 1] == s + [c] && (s + [c])[..|s|] == s;
    Wraps(2 * Fold(s) + c as int, d as int);
  }

  lemma {:induction false} Wraps(x: nat, d: nat)
    ensures (x % TWO32 * 2 + d) % TWO32 == (2 * x + d) % TWO32
  {
    var q := x / TWO32;
    assert 2 * x + d == (x % TWO32 * 2 + d) + TWO32 * (2 * q);
    WrapsOff(x % TWO32 * 2 + d, 2 * q);
  }

  lemma {:induction false} WrapsOff(x: nat, q: nat)
    ensures (x + TWO32 * q) % TWO32 == x % TWO32
  {
    if q > 0 {
      WrapsOff(x, q - 1);
      assert x + TWO32 * q == (x + TWO32 * (q - 1)) + TWO32;
    }
  }

  /** The first k names entered: each lies behind all those before it. */
  ghost predicate Filling(v: Seg, h: nat, k: nat)
    requires k <= NSYM && h < HSIZE
  {
    && Sound(v) && |v.syms| == k
    && (forall i :: 0 <= i < k ==> v.syms[i].name == Twin(i, 11))
    && (forall i: nat :: i < k ==> v.syms[i].hash == Place(h, i))
  }

  lemma {:induction false} Fill(h: nat, k: nat) returns (v: Seg)
    requires k <= NSYM && h == Home(Twin(0, 11))
    ensures Filling(v, h, k)
  {
    hide Place, Twin;
    if k == 0 {
      v := Empty();
    } else {
      var w := Fill(h, k - 1);
      var name, b := Twin(k - 1, 11), Place(h, k - 1);
      TwinsFold(0, k - 1, 11);
      NextTwin(w, h, k - 1);
      AddSound(w, name, Symbols.Undf, 0, b);
      v := Add(w, name, Symbols.Undf, 0, b);
    }
  }

  lemma {:induction false} TwoEleven()
    ensures Two(11) == 2048
  {
    assert Two(5) == 32 && Two(8) == 256;
  }

  lemma {:induction false} NextTwin(v: Seg, h: nat, k: nat)
    requires k <= NSYM && h == Home(Twin(0, 11)) && Filling(v, h, k)
    ensures !Has(v, Twin(k, 11)) && forall i: nat :: i < k ==> Bucket(v, h, i) >= 0
    ensures k < NSYM ==> FirstEmpty(v, h, k, Place(h, k)) && Belongs(v, Twin(k, 11), Place(h, k))
  {
    hide Fold, Twin, Two, Reachable, DistinctNames;
    TwoEleven();
    forall i: nat | i < k ensures Twin(i, 11) != Twin(k, 11) && Bucket(v, h, i) >= 0 {
      TwinsDiffer(i, k, 11);
    }
    if k < NSYM {
      TwinsFold(0, k, 11);
      if v.buckets[Place(h, k)] >= 0 {
        ProbesDistinct(h, v.buckets[Place(h, k)], k);
      }
      assert Home(Twin(k, 11)) == h;
      assert FirstEmpty(v, h, k, Place(h, k)) by {
        forall i: nat | i < k ensures Bucket(v, h, i) >= 0 {
          assert v.syms[i].hash == Place(h, i);
        }
      }
    }
  }

  /** A full segment that has not got the name, and on all of whose probes it finds others. */
  lemma {:induction false} Blocking() returns (v: Seg, name: string)
    ensures Sound(v) && |v.syms| == NSYM && !Has(v, name) && Crowded(v, Home(name)) && Search(v, name, 0) == Botch
  {
    var h := Home(Twin(0, 11));
    v := Fill(h, NSYM);
    name := Twin(NSYM, 11);
    NextTwin(v, h, NSYM);
    TwinsFold(0, NSYM, 11);
    SearchIs(v, name);
  }
}
