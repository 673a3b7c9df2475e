/** External symbols, and what pass 1 of the linker makes of them, as a list in the order of entry (`load1` and
    `symfree` of ld86.c). */
module Symbols {

  import opened Basics

  /** Types of external symbols; Comm is an undefined one that has been given room. */
  datatype Kind = Undf | Abs | Text | Data | Bss | Comm

  /** The value of an undefined symbol is the size it asks for. */
  datatype Sym = Sym(kind: Kind, value: int)

  datatype Entry = Entry(name: string, sym: Sym)

  /** Where the list has the name: behind its end if it has not. */
  function Index(l: seq<Entry>, name: string): (j: nat)
    ensures j <= |l| && (j < |l| ==> l[j].name == name) && forall i :: 0 <= i < j ==> l[i].name != name
  {
    if |l| == 0 then 0 else if l[0].name == name then 0 else 1 + Index(l[1..], name)
  }

  function Value(l: seq<Entry>, name: string): Option<Sym> {
    if Index(l, name) < |l| then Some(l[Index(l, name)].sym) else None
  }

  predicate Distinct(l: seq<Entry>) {
    forall i, j :: 0 <= i < j < |l| ==> l[i].name != l[j].name
  }

  // ---------------------------------------------------------------------------------------
  // Merging

  /** What a symbol becomes when another of its name comes, and whether that one defines it. Of two sizes the
      larger is asked for. A function does not take the place of common storage. */
  function Joined(s: Sym, c: Sym): (Sym, bool) {
    if s.kind != Undf then (s, false)
    else if c.kind == Undf then (if c.value > s.value then c else s, false)
    else if s.value != 0 && c.kind == Text then (s, false)
    else (c, true)
  }

  function Merge(l: seq<Entry>, e: Entry): (r: (seq<Entry>, bool))
    ensures |l| <= |r.0|
  {
    var j := Index(l, e.name);
    if j == |l| then (l + [e], false)
    else
      var (s, def) := Joined(l[j].sym, e.sym);
      (l[j := Entry(e.name, s)], def)
  }

  /** The first n symbols of a file, and how many that were asked for they define. */
  function MergeAll(l: seq<Entry>, es: seq<Entry>, n: nat): (r: (seq<Entry>, nat))
    requires n <= |es|
    ensures |l| <= |r.0|
  {
    if n == 0 then (l, 0)
    else
      var (k, ndef) := MergeAll(l, es, n - 1);
      var (k', def) := Merge(k, es[n - 1]);
      (k', if def then ndef + 1 else ndef)
  }

  /** What comes of a file on pass 1: the list and the mark afterwards. Botch is the error of `symfree`. */
  datatype Loading = Kept(l: seq<Entry>, mark: Option<nat>) | Dropped(l: seq<Entry>, mark: Option<nat>) | Botch

  /** The mark `nextsym` is behind the newest symbol once one has been entered. A library member that defines
      nothing is taken back to the mark of before; without one everything goes, and the mark stays behind. */
  function Load(l: seq<Entry>, mark: Option<nat>, es: seq<Entry>, lib: bool): Loading {
    var (k, ndef) := MergeAll(l, es, |es|);
    var mark' := if |k| > |l| then Some(|k|) else mark;
    if !lib || ndef > 0 then Kept(k, mark')
    else
      match mark
      case None => Dropped([], mark')
      case Some(n) => if n <= |k| then Dropped(k[..n], mark) else Botch
  }

  /** The mark is behind the newest symbol, or null while there has been none. */
  predicate Marked(l: seq<Entry>, mark: Option<nat>) {
    mark == if l == [] then None else Some(|l|)
  }

  // ---------------------------------------------------------------------------------------
  // One name

  /** What the first n symbols of a file make of one name. */
  function Fold(s: Option<Sym>, es: seq<Entry>, n: nat, name: string): Option<Sym>
    requires n <= |es|
  {
    if n == 0 then s
    else
      var r := Fold(s, es, n - 1, name);
      if es[n - 1].name != name then r
      else match r
        case None => Some(es[n - 1].sym)
        case Some(s0) => Some(Joined(s0, es[n - 1].sym).0)
  }

  lemma {:induction false} IndexIs(l: seq<Entry>, name: string, j: nat)
    requires j <= |l| && (j < |l| ==> l[j].name == name) && forall i :: 0 <= i < j ==> l[i].name != name
    ensures Index(l, name) == j
  {
  }

  lemma {:induction false} ValueOne(l: seq<Entry>, e: Entry, name: string)
    ensures Value(Merge(l, e).0, name)
         == if e.name != name then Value(l, name)
            else if Value(l, name).None? then Some(e.sym) else Some(Joined(Value(l, name).value, e.sym).0)
    ensures Distinct(l) ==> Distinct(Merge(l, e).0)
    ensures forall i :: 0 <= i < |l| ==> Merge(l, e).0[i].name == l[i].name
  {
    var k, j := Merge(l, e).0, Index(l, name);
    if e.name == name || j < |l| {
      IndexIs(k, name, j);
    } else {
      IndexIs(k, name, |k|);
    }
  }

  lemma {:induction false} ValueAll(l: seq<Entry>, es: seq<Entry>, n: nat, name: string)
    requires n <= |es|
    ensures Value(MergeAll(l, es, n).0, name) == Fold(Value(l, name), es, n, name)
    ensures Distinct(l) ==> Distinct(MergeAll(l, es, n).0)
    ensures forall i :: 0 <= i < |l| ==> MergeAll(l, es, n).0[i].name == l[i].name
  {
    if n > 0 {
      ValueAll(l, es, n - 1, name);
      ValueOne(MergeAll(l, es, n - 1).0, es[n - 1], name);
    }
  }

  /** While no symbol defines one that was asked for, none of any one name does. */
  lemma {:induction false} NoneDefines(l: seq<Entry>, es: seq<Entry>, n: nat, i: nat)
    requires i < n <= |es| && MergeAll(l, es, n).1 == 0
    ensures var s := Fold(Value(l, es[i].name), es, i, es[i].name); s.Some? ==> !Joined(s.value, es[i].sym).1
  {
    if i + 1 < n {
      NoneDefines(l, es, n - 1, i);
    } else {
      ValueAll(l, es, i, es[i].name);
    }
  }

  /** Of symbols of different names, some define what was asked for exactly if one does by itself. */
  lemma {:induction false} SomeDefines(l: seq<Entry>, es: seq<Entry>, n: nat)
    requires n <= |es| && Distinct(es)
    ensures MergeAll(l, es, n).1 > 0 <==>
            exists i :: 0 <= i < n && Value(l, es[i].name).Some? && Joined(Value(l, es[i].name).value, es[i].sym).1
  {
    hide Value, Joined, Merge;
    if n > 0 {
      SomeDefines(l, es, n - 1);
      var name := es[n - 1].name;
      ValueAll(l, es, n - 1, name);
      FoldOthers(Value(l, name), es, n - 1, name);
      MergeDefines(MergeAll(l, es, n - 1).0, es[n - 1]);
    }
  }

  lemma {:induction false} FoldOthers(s: Option<Sym>, es: seq<Entry>, n: nat, name: string)
    requires n <= |es| && forall i :: 0 <= i < n ==> es[i].name != name
    ensures Fold(s, es, n, name) == s
  {
    if n > 0 {
      FoldOthers(s, es, n - 1, name);
    }
  }

  lemma {:induction false} MergeDefines(l: seq<Entry>, e: Entry)
    ensures Merge(l, e).1 <==> Value(l, e.name).Some? && Joined(Value(l, e.name).value, e.sym).1
  {
  }

  /** Taken back to its first names, the list has what has become of them and nothing else. */
  lemma {:induction false} ValueCut(k: seq<Entry>, n: nat, name: string)
    requires n <= |k| && Distinct(k)
    ensures Value(k[..n], name) == if Index(k, name) < n then Value(k, name) else None
  {
    IndexIs(k[..n], name, if Index(k, name) < n then Index(k, name) else n);
  }

  /** A member taken back leaves, of every name there was, what its symbols have made of it, and no other name. */
  lemma {:induction false} TakeBack(l: seq<Entry>, es: seq<Entry>, name: string)
    requires Distinct(l)
    ensures var k := MergeAll(l, es, |es|).0[..|l|];
      && Distinct(k) && |k| == |l|
      && Value(k, name) == if Value(l, name).None? then None else Fold(Value(l, name), es, |es|, name)
  {
    var k := MergeAll(l, es, |es|).0;
    ValueAll(l, es, |es|, name);
    ValueCut(k, |l|, name);
    if Index(k, name) < |l| {
      IndexIs(l, name, Index(k, name));
    } else {
      IndexIs(l, name, |l|);
    }
  }

  lemma {:induction false} MergeSome(l: seq<Entry>, es: seq<Entry>, n: nat)
    requires 0 < n <= |es|
    ensures MergeAll(l, es, n).0 != []
  {
    if n > 1 {
      MergeSome(l, es, n - 1);
    }
  }

  /** From a good mark, a file that is kept leaves a good mark, one that is taken back the list as long as it was; the
      mark is lost only if there was none and something was entered. */
  lemma {:induction false} LoadMarked(l: seq<Entry>, mark: Option<nat>, es: seq<Entry>, lib: bool)
    requires Marked(l, mark)
    ensures var r := Load(l, mark, es, lib);
      && !r.Botch? && (r.Kept? ==> Marked(r.l, r.mark))
      && (r.Dropped? ==> |r.l| == |l| && (Marked(r.l, r.mark) <==> mark.Some? || r.mark.None?))
  {
  }
}
