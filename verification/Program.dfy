/** Assembly programs as the two passes of a86 see them, and where each statement lies. */
module Program {

  import opened Basics
  import opened Branches
  import opened Relax
  import opened Sdi

  /** One source statement: a section directive, a label, an instruction or datum whose size does not
      depend on the layout, or a branch pseudo-operation with a plain symbol for operand. */
  datatype Stmt =
    | Section(sec: Section)
    | Label(name: string)
    | Fixed(size: nat)
    | Branch(sym: string, op: Op)

  type Layout = seq<nat>  // the length chosen for each statement; only branches' entries matter

  function Size(st: Stmt, leng: nat): nat {
    match st
    case Fixed(n) => n
    case Branch(_, _) => leng
    case _ => 0
  }

  /** The section in force at statement k. */
  function Cur(prog: seq<Stmt>, k: nat): Section
    requires k <= |prog|
  {
    if k == 0 then Text
    else match prog[k - 1] case Section(s) => s case _ => Cur(prog, k - 1)
  }

  /** The offset section c has reached before statement k, when branch j takes lens[j] bytes. */
  function Offset(prog: seq<Stmt>, lens: Layout, k: nat, c: Section): nat
    requires k <= |prog| == |lens|
  {
    if k == 0 then 0
    else Offset(prog, lens, k - 1, c) + if Cur(prog, k - 1) == c then Size(prog[k - 1], lens[k - 1]) else 0
  }

  /** The layout of pass 1: every branch is short. */
  function Short(prog: seq<Stmt>): Layout {
    seq(|prog|, _ => 2)
  }

  function Dot(prog: seq<Stmt>, k: nat, c: Section): nat
    requires k <= |prog|
  {
    Offset(prog, Short(prog), k, c)
  }

  lemma {:induction false} OffsetGrows(prog: seq<Stmt>, lens: Layout, j: nat, k: nat, c: Section)
    requires j <= k <= |prog| == |lens|
    ensures Offset(prog, lens, j, c) <= Offset(prog, lens, k, c)
    ensures j < k && Cur(prog, j) == c ==> Offset(prog, lens, j, c) + Size(prog[j], lens[j]) <= Offset(prog, lens, k, c)
    decreases k
  {
    if j < k { OffsetGrows(prog, lens, j, k - 1, c); }
  }

  predicate IsLabel(prog: seq<Stmt>, k: nat, name: string) {
    k < |prog| && prog[k] == Label(name)
  }

  /** No label is defined twice. */
  ghost predicate UniqueLabels(prog: seq<Stmt>) {
    forall name: string, j: nat, k: nat :: IsLabel(prog, j, name) && IsLabel(prog, k, name) ==> j == k
  }

  // ---------------------------------------------------------------------------------------
  // The descriptor list of a program

  /** list[i] is the descriptor made for branch origin[i] among the first k statements; each of them
      has one. */
  ghost predicate Linked(prog: seq<Stmt>, k: nat, list: seq<Desc>, origin: seq<nat>)
    requires k <= |prog|
  {
    && |origin| == |list|
    && (forall i: nat :: i < |list| ==> origin[i] < k && Describes(prog, origin[i], list[i]))
    && (forall i: nat, j: nat :: i < j < |list| ==> origin[i] != origin[j])
    && (forall m: nat :: m < k && prog[m].Branch? ==> m in origin)
  }

  predicate Describes(prog: seq<Stmt>, m: nat, d: Desc)
    requires m < |prog|
  {
    && prog[m].Branch?
    && d.sec == Cur(prog, m) && d.loc == Dot(prog, m, d.sec)
    && d.sym == prog[m].sym && d.gleng == LongForm(prog[m].op)
  }

  /** The symbol table after the first k statements: labels where pass 1 saw them. */
  ghost predicate Table(prog: seq<Stmt>, k: nat, syms: map<string, Symbol>)
    requires k <= |prog|
  {
    && (forall m: nat, name: string :: m < k && IsLabel(prog, m, name) ==>
          name in syms && syms[name] == Symbol(Some(Cur(prog, m)), Dot(prog, m, Cur(prog, m)), true))
    && (forall name: string :: name in syms ==>
          if syms[name].defined then exists m: nat :: m < k && IsLabel(prog, m, name)
          else syms[name] == Symbol(None, 0, false))
    && (forall m: nat :: m < k && prog[m].Branch? ==> prog[m].sym in syms)
  }

  /** Branches of a program lie apart, and labels lie between statements. */
  lemma {:induction false} LinkedPlaced(prog: seq<Stmt>, list: seq<Desc>, origin: seq<nat>, syms: map<string, Symbol>)
    requires Linked(prog, |prog|, list, origin) && Table(prog, |prog|, syms)
    ensures Placed(Items(syms, list))
  {
    hide Offset;
    var items := Items(syms, list);
    forall i: nat, j: nat | i < |items| && j < |items| && items[i].sec == items[j].sec
      ensures i != j ==> items[i].loc + 2 <= items[j].loc || items[j].loc + 2 <= items[i].loc
      ensures items[i].target.Some? ==>
        items[i].target.value <= items[j].loc || items[j].loc + 2 <= items[i].target.value
    {
      assert Describes(prog, origin[i], list[i]) && Describes(prog, origin[j], list[j]);
      BranchesApart(prog, origin[i], list[i], origin[j], list[j]);
      if items[i].target.Some? {
        var m: nat :| m < |prog| && IsLabel(prog, m, list[i].sym);
        LabelApart(prog, m, origin[j], list[j]);
      }
    }
  }

  lemma {:induction false} BranchesApart(prog: seq<Stmt>, a: nat, d: Desc, b: nat, e: Desc)
    requires a < |prog| && b < |prog| && Describes(prog, a, d) && Describes(prog, b, e) && d.sec == e.sec
    ensures a != b ==> d.loc + 2 <= e.loc || e.loc + 2 <= d.loc
  {
    hide Offset;
    OffsetGrows(prog, Short(prog), if a < b then a else b, if a < b then b else a, d.sec);
  }

  lemma {:induction false} LabelApart(prog: seq<Stmt>, m: nat, b: nat, e: Desc)
    requires m < |prog| && prog[m].Label? && b < |prog| && Describes(prog, b, e) && Cur(prog, m) == e.sec
    ensures Dot(prog, m, e.sec) <= e.loc || e.loc + 2 <= Dot(prog, m, e.sec)
  {
    hide Offset;
    OffsetGrows(prog, Short(prog), if m < b then m else b, if m < b then b else m, e.sec);
  }

  /** No growth between x and y unless a branch lies there. */
  lemma {:induction false} IncFlat(items: seq<Item>, lens: seq<nat>, sec: Section, x: int, y: int)
    requires |lens| == |items| && x <= y
    requires forall i: nat :: i < |items| && items[i].sec == sec ==> items[i].loc < x || y <= items[i].loc
    ensures Inc(items, lens, sec, x) == Inc(items, lens, sec, y)
  {
    if items != [] {
      var n := |items| - 1;
      IncFlat(items[..n], lens[..n], sec, x, y);
    }
  }

  /** Just the growth of branch s, if that is all that lies between x and y. */
  lemma {:induction false} IncOne(items: seq<Item>, lens: seq<nat>, sec: Section, x: int, y: int, s: nat)
    requires |lens| == |items| && s < |items| && items[s].sec == sec && x <= items[s].loc < y
    requires forall i: nat :: i < |items| && i != s && items[i].sec == sec ==> items[i].loc < x || y <= items[i].loc
    ensures Inc(items, lens, sec, y) == Inc(items, lens, sec, x) + lens[s] - 2
  {
    var n := |items| - 1;
    if s < n {
      IncOne(items[..n], lens[..n], sec, x, y, s);
    } else {
      IncFlat(items[..n], lens[..n], sec, x, y);
    }
  }

  /** The layout the resolved descriptors stand for. */
  ghost predicate LaysOut(prog: seq<Stmt>, list: seq<Desc>, origin: seq<nat>, lens: Layout)
    requires Linked(prog, |prog|, list, origin)
  {
    |lens| == |prog| && forall i: nat :: i < |list| ==> lens[origin[i]] == list[i].leng
  }

  ghost function LayoutOf(prog: seq<Stmt>, list: seq<Desc>, origin: seq<nat>): (lens: Layout)
    requires |origin| == |list| && forall i: nat :: i < |origin| ==> origin[i] < |prog|
    requires forall i: nat, j: nat :: i < j < |list| ==> origin[i] != origin[j]
    ensures |lens| == |prog| && forall i: nat :: i < |list| ==> lens[origin[i]] == list[i].leng
  {
    if list == [] then Short(prog)
    else
      var n := |list| - 1;
      LayoutOf(prog, list[..n], origin[..n])[origin[n] := list[n].leng]
  }

  /** A branch other than statement k starts before k does or when k is over. */
  lemma {:induction false} BranchApart(prog: seq<Stmt>, k: nat, m: nat, c: Section)
    requires k < |prog| && m < |prog| && m != k && prog[m].Branch? && Cur(prog, m) == c
    ensures Dot(prog, m, c) < Dot(prog, k, c) || Dot(prog, k + 1, c) <= Dot(prog, m, c)
  {
    if m < k {
      OffsetGrows(prog, Short(prog), m, k, c);
    } else {
      OffsetGrows(prog, Short(prog), k + 1, m, c);
    }
  }

  /** Over one statement, growth is that of the statement itself. */
  lemma {:induction false} IncOverStatement(prog: seq<Stmt>, list: seq<Desc>, origin: seq<nat>, syms: map<string,
                                            Symbol>, k: nat, c: Section)
    requires Linked(prog, |prog|, list, origin) && k < |prog|
    ensures prog[k].Branch? ==> exists s: nat :: s < |list| && origin[s] == k
    ensures var grown := Inc(Items(syms, list), Lens(list), c, Dot(prog, k + 1, c))
                       - Inc(Items(syms, list), Lens(list), c, Dot(prog, k, c));
      if prog[k].Branch? && Cur(prog, k) == c then
        forall s: nat :: s < |list| && origin[s] == k ==> grown == list[s].leng - 2
      else grown == 0
  {
    var items, x, y := Items(syms, list), Dot(prog, k, c), Dot(prog, k + 1, c);
    forall i: nat | i < |list| && list[i].sec == c && !(origin[i] == k && Cur(prog, k) == c)
      ensures items[i].loc < x || y <= items[i].loc
    {
      assert Describes(prog, origin[i], list[i]);
      if origin[i] != k { BranchApart(prog, k, origin[i], c); }
    }
    if prog[k].Branch? && Cur(prog, k) == c {
      var s: nat :| s < |origin| && origin[s] == k;
      assert Describes(prog, k, list[s]);
      IncOne(items, Lens(list), c, x, y, s);
    } else {
      forall i: nat | i < |list| && list[i].sec == c
        ensures !(origin[i] == k && Cur(prog, k) == c)
      {
        assert Describes(prog, origin[i], list[i]);
      }
      IncFlat(items, Lens(list), c, x, y);
    }
  }

  lemma {:induction false} IncAtStart(prog: seq<Stmt>, list: seq<Desc>, origin: seq<nat>, syms: map<string, Symbol>,
                                      c: Section)
    requires Linked(prog, |prog|, list, origin)
    ensures Inc(Items(syms, list), Lens(list), c, 0) == 0
  {
    forall i: nat | i < |list|
      ensures Items(syms, list)[i].loc >= 0
    {
      assert Describes(prog, origin[i], list[i]);
    }
    NoneBefore(Items(syms, list), Lens(list), c);
  }

  /** The place `sdi_inc` computes for a statement is where the layout puts it. */
  lemma {:induction false} RealIsOffset(prog: seq<Stmt>, list: seq<Desc>, origin: seq<nat>, lens: Layout,
                                        syms: map<string, Symbol>, k: nat, c: Section)
    requires Linked(prog, |prog|, list, origin) && LaysOut(prog, list, origin, lens) && k <= |prog|
    ensures Real(Items(syms, list), Lens(list), c, Dot(prog, k, c)) == Offset(prog, lens, k, c)
  {
    hide Inc, Items, Lens, Describes, Cur;
    if k == 0 {
      IncAtStart(prog, list, origin, syms, c);
    } else {
      RealIsOffset(prog, list, origin, lens, syms, k - 1, c);
      IncOverStatement(prog, list, origin, syms, k - 1, c);
      if prog[k - 1].Branch? {
        var s: nat :| s < |list| && origin[s] == k - 1;
        assert lens[k - 1] == list[s].leng;
      }
    }
  }

  lemma {:induction false} NoneBefore(items: seq<Item>, lens: seq<nat>, c: Section)
    requires |lens| == |items| && forall i: nat :: i < |items| ==> items[i].loc >= 0
    ensures Inc(items, lens, c, 0) == 0
  {
    if items != [] {
      NoneBefore(items[..|items| - 1], lens[..|items| - 1], c);
    }
  }

  /** A new descriptor for statement k, wherever it goes in the list. */
  lemma {:induction false} LinkedInsert(prog: seq<Stmt>, k: nat, list: seq<Desc>, origin: seq<nat>, p: nat, d: Desc)
    requires k < |prog| && Linked(prog, k, list, origin) && p <= |list| && Describes(prog, k, d)
    ensures Linked(prog, k + 1, list[..p] + [d] + list[p..], origin[..p] + [k] + origin[p..])
  {
    hide Describes, Cur, Dot;
    var l, o := list[..p] + [d] + list[p..], origin[..p] + [k] + origin[p..];
    assert |o| == |l| == |list| + 1;
    forall i: nat, j: nat | i < j < |l|
      ensures o[i] != o[j]
    {
      if i != p && j != p {
        assert origin[if i < p then i else i - 1] != origin[if j < p then j else j - 1];
      }
    }
    forall m: nat | m < k + 1 && prog[m].Branch?
      ensures m in o
    {
      if m == k {
        assert o[p] == k;
      } else {
        var i: nat :| i < |origin| && origin[i] == m;
        assert o[if i < p then i else i + 1] == m;
      }
    }
    forall i: nat | i < |l|
      ensures o[i] < k + 1 && Describes(prog, o[i], l[i])
    {
      if i < p {
        assert Describes(prog, origin[i], list[i]);
      } else if i > p {
        assert Describes(prog, origin[i - 1], list[i - 1]);
      }
    }
  }

  lemma {:induction false} LinkedSame(prog: seq<Stmt>, k: nat, list: seq<Desc>, list': seq<Desc>, origin: seq<nat>)
    requires k <= |prog| && Linked(prog, k, list, origin) && SameBranches(list, list')
    ensures Linked(prog, k, list', origin)
  {
    forall i: nat | i < |list'|
      ensures Describes(prog, origin[i], list'[i])
    {
      assert Describes(prog, origin[i], list[i]);
    }
  }

  /** Data follow text, and bss follow data. */
  function Start(tsize: int, dsize: int, c: Section): int {
    match c case Text => 0 case Data => tsize case Bss => tsize + dsize
  }

  /** Where the symbols go between the passes: `Sym_Fix`, with the section starts added. */
  ghost predicate SymbolsFixed(prog: seq<Stmt>, lens: Layout, tsize: int, dsize: int, was: map<string, Symbol>,
                               syms: map<string, Symbol>)
    requires |lens| == |prog|
  {
    && was.Keys == syms.Keys
    && (forall m: nat, name: string :: IsLabel(prog, m, name) ==>
          && name in syms && name in was && was[name].defined
          && was[name].sec == Some(Cur(prog, m)) && was[name].value == Dot(prog, m, Cur(prog, m))
          && syms[name] == Symbol(was[name].sec, Start(tsize, dsize, Cur(prog, m)) + Offset(prog, lens, m, Cur(prog,
            m)), true))
    && (forall name: string :: name in was && !was[name].defined ==>
          was[name].sec == None && syms[name].sec == None)
    && (forall name: string :: name in syms && syms[name].sec.Some? ==> syms[name].defined)
    && (forall name: string :: name in was && was[name].defined ==> exists m: nat :: IsLabel(prog, m, name))
  }

  /** The displacement relaxation worked with is the one between the final places. */
  lemma {:induction false} ExactIsFinal(prog: seq<Stmt>, list: seq<Desc>, origin: seq<nat>, lens: Layout,
                                        was: map<string, Symbol>,
                     i: nat, k: nat, name: string)
    requires Linked(prog, |prog|, list, origin) && LaysOut(prog, list, origin, lens)
    requires i < |list| && IsLabel(prog, k, name) && list[i].sym == name && Cur(prog, k) == list[i].sec
    requires name in was && was[name] == Symbol(Some(list[i].sec), Dot(prog, k, list[i].sec), true)
    ensures Target(was, list[i]).Some?
    ensures Exact(Items(was, list), Lens(list), i)
         == Offset(prog, lens, k, list[i].sec) - (Offset(prog, lens, origin[i], list[i].sec) + 2)
  {
    hide Inc, Offset, Cur, LaysOut;
    assert Describes(prog, origin[i], list[i]);
    RealIsOffset(prog, list, origin, lens, was, k, list[i].sec);
    RealIsOffset(prog, list, origin, lens, was, origin[i], list[i].sec);
  }

  /** The length resolution chose for branch m is what its final displacement asks for. */
  lemma {:induction false} FinalLength(prog: seq<Stmt>, list: seq<Desc>, origin: seq<nat>, lens: Layout, tsize: int,
                                       dsize: int,
                    was: map<string, Symbol>, syms: map<string, Symbol>, m: nat)
    requires Linked(prog, |prog|, list, origin) && LaysOut(prog, list, origin, lens)
    requires Relax.Fits(Items(was, list), Lens(list)) && SymbolsFixed(prog, lens, tsize, dsize, was, syms)
    requires forall i: nat :: i < |list| && list[i].leng != SHORT && Target(was, list[i]).Some? ==>
        !InByte(Exact(Items(was, list), Lens(list), i))
    requires m < |prog| && prog[m].Branch? && prog[m].sym in was
    ensures var s, c := syms[prog[m].sym], Cur(prog, m);
      lens[m] == if s.sec == Some(c) &&
        InByte(s.value - (Start(tsize, dsize, c) + Offset(prog, lens, m, c) + 2)) then SHORT
                 else LongForm(prog[m].op)
  {
    hide Exact, Offset, Cur, Dot, Linked;
    var i := DescOf(prog, list, origin, m);
    assert lens[m] == list[i].leng == Lens(list)[i];
    var name := prog[m].sym;
    if was[name].defined {
      var k: nat :| IsLabel(prog, k, name);
      if Cur(prog, k) == Cur(prog, m) {
        ExactIsFinal(prog, list, origin, lens, was, i, k, name);
      }
    }
  }

  lemma {:induction false} DescOf(prog: seq<Stmt>, list: seq<Desc>, origin: seq<nat>, m: nat) returns (i: nat)
    requires Linked(prog, |prog|, list, origin) && m < |prog| && prog[m].Branch?
    ensures i < |list| == |origin| && origin[i] == m && Describes(prog, m, list[i])
  {
    i :| i < |origin| && origin[i] == m;
  }
}
