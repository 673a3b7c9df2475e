/** The two passes of the assembler (scan.c, ps.c, sym.c, and `branch` of ins.c): pass 2 recomputes
    every location on its own and must come to the places the symbols were given between the passes. */
module Assembler {

  import opened Basics
  import opened Branches
  import opened Relax
  import opened Sdi
  import opened Program

  ghost predicate Total(m: map<Section, int>) {
    forall c: Section :: c in m
  }

  ghost predicate UniqueUpTo(prog: seq<Stmt>, k: nat) {
    forall name: string, i: nat, j: nat :: i < k && j < k && IsLabel(prog, i, name) && IsLabel(prog, j, name) ==> i == j
  }

  /** The code of one branch: the statement it comes from, its address, its bytes. */
  datatype Emitted = Emitted(line: nat, at: int, code: seq<byte>)

  /** No descriptor has been touched since it was made. */
  ghost predicate AsMade(syms: map<string, Symbol>, list: seq<Desc>) {
    forall i: nat :: i < |list| ==>
      list[i].sym in syms && list[i].leng == SHORT && list[i].base == list[i].loc + 2 && list[i].span == -list[i].base
  }

  /** Keeps the greatest offset seen. */
  function Raised(m: map<Section, int>, c: Section, x: int): map<Section, int> {
    if c in m && m[c] >= x then m else m[c := x]
  }

  class Assembler {
    var pass: nat
    var errors: nat
    var dot: int
    var curSec: Section
    var dotCs: map<Section, int>
    var lenCs: map<Section, int>
    var symtab: map<string, Symbol>
    const sdis: Sdis
    var tsize: int
    var dsize: int
    // the branch code put out by pass 2
    var emitted: seq<Emitted>
    // which branch each descriptor was made for, and the layout resolution has chosen
    ghost var origin: seq<nat>
    ghost var lens: Layout

    /** Where a section starts in this pass. */
    function Base(c: Section): int
      reads this`pass, this`tsize, this`dsize
    {
      if pass == 1 then 0 else Start(tsize, dsize, c)
    }

    /** Location counters before statement k of a pass with the given layout. */
    ghost predicate Counters(prog: seq<Stmt>, layout: Layout, k: nat)
      reads this
      requires k <= |prog| == |layout|
    {
      && Total(dotCs) && Total(lenCs)
      && curSec == Cur(prog, k)
      && dot == Base(curSec) + Offset(prog, layout, k, curSec)
      && (forall c: Section :: dotCs[c] == Base(c) + Offset(prog, layout, k, c))
    }

    /** Pass 1 has done k statements. */
    ghost predicate First(prog: seq<Stmt>, k: nat)
      reads this, sdis
      requires k <= |prog|
    {
      && pass == 1 && Counters(prog, Short(prog), k)
      && (forall c: Section :: lenCs[c] == Dot(prog, k, c))
      && Ordered(sdis.list) && Linked(prog, k, sdis.list, origin)
      && AsMade(symtab, sdis.list)
      && (if errors == 0 then Table(prog, k, symtab) && UniqueUpTo(prog, k) else !UniqueLabels(prog))
    }

    /** Between the passes every symbol a label has defined has been moved to its final place. */
    ghost predicate Settled(prog: seq<Stmt>)
      reads this`pass, this`tsize, this`dsize, this`symtab, this`lens
    {
      && pass == 2 && |lens| == |prog|
      && (forall m: nat, name: string :: IsLabel(prog, m, name) ==>
            name in symtab && symtab[name].defined && symtab[name].sec == Some(Cur(prog, m))
            && symtab[name].value == Base(Cur(prog, m)) + Offset(prog, lens, m, Cur(prog, m)))
      && (forall m: nat :: m < |prog| && prog[m].Branch? ==> prog[m].sym in symtab && Chosen(prog, m))
    }

    /** The length resolution chose for branch m is the one its final displacement asks for. */
    ghost predicate Chosen(prog: seq<Stmt>, m: nat)
      reads this`pass, this`tsize, this`dsize, this`symtab, this`lens
      requires |lens| == |prog| && m < |prog| && prog[m].Branch? && prog[m].sym in symtab
    {
      var s, c := symtab[prog[m].sym], Cur(prog, m);
      && (s.sec.Some? ==> s.defined)
      && lens[m] == if s.sec == Some(c) && InByte(s.value - (Base(c) + Offset(prog, lens, m, c) + 2)) then SHORT
                 else LongForm(prog[m].op)
    }

    /** Pass 2 has done k statements without a complaint. */
    ghost predicate Second(prog: seq<Stmt>, k: nat)
      reads this
      requires k <= |prog|
    {
      && Settled(prog) && Counters(prog, lens, k) && errors == 0
      && (forall e: Emitted :: e in emitted ==> e.line < k && Lands(prog, e))
      && (forall m: nat :: m < k && prog[m].Branch? ==> exists e: Emitted :: e in emitted && e.line == m)
    }

    /** Emitted code lies where the layout says, is as long as it says, and goes where its label is. */
    ghost predicate Lands(prog: seq<Stmt>, e: Emitted)
      reads this`pass, this`tsize, this`dsize, this`lens
    {
      && |lens| == |prog| && e.line < |prog| && prog[e.line].Branch?
      && e.at == Base(Cur(prog, e.line)) + Offset(prog, lens, e.line, Cur(prog, e.line))
      && |e.code| == lens[e.line]
      && forall n: nat :: IsLabel(prog, n, prog[e.line].sym) ==>
           Goes(e.code, prog[e.line].op, e.at, Base(Cur(prog, n)) + Offset(prog, lens, n, Cur(prog, n)))
    }

    constructor ()
      ensures fresh(sdis) && sdis.list == []
    {
      sdis := new Sdis();
      pass, errors, dot, curSec, tsize, dsize := 0, 0, 0, Text, 0, 0;
      dotCs, lenCs, symtab := map[], map[], map[];
      emitted, origin, lens := [], [], [];
    }

    /** `Lookup`: makes an undefined bucket for a name not seen before. */
    method Lookup(name: string)
      modifies this`symtab
      ensures symtab == if name in old(symtab) then old(symtab) else old(symtab)[name := Symbol(None, 0, false)]
    {
      if name !in symtab {
        symtab := symtab[name := Symbol(None, 0, false)];
      }
    }

    /** `slabel`: pass 1 defines, pass 2 checks. */
    method SLabel(name: string)
      modifies this`symtab, this`errors
      ensures pass == 1 ==>
        && symtab == old(symtab)[name := Symbol(Some(curSec), dot, true)]
        && errors == old(errors) + if name in old(symtab) && old(symtab)[name].defined then 1 else 0
      ensures pass != 1 && name in old(symtab) ==>
        && symtab == old(symtab)
        && errors == old(errors)
             + if old(symtab)[name].sec == Some(curSec) && old(symtab)[name].value == dot then 0 else 1
    {
      Lookup(name);
      var s := symtab[name];
      if pass == 1 {
        if s.defined {
          errors := errors + 1;
        }
        symtab := symtab[name := Symbol(Some(curSec), dot, true)];
      } else if s.sec != Some(curSec) || s.value != dot {
        errors := errors + 1;
      }
    }

    /** What `scan` does after each instruction. */
    method StepOver(bc: nat)
      requires curSec in lenCs
      modifies this`dot, this`dotCs, this`lenCs
      ensures dot == old(dot) + bc && dotCs == old(dotCs)[curSec := dot]
      ensures lenCs == Raised(old(lenCs), curSec, dot)
    {
      dot := dot + bc;
      dotCs := dotCs[curSec := dot];
      if dot > lenCs[curSec] {
        lenCs := lenCs[curSec := dot];
      }
    }

    /** The counters behind a statement that takes bc bytes. */
    method Advance(prog: seq<Stmt>, ghost layout: Layout, ghost k: nat, bc: nat)
      requires k < |prog| == |layout| && (prog[k].Fixed? || prog[k].Branch?) && bc == Size(prog[k], layout[k])
      requires Counters(prog, layout, k)
      modifies this`dot, this`dotCs, this`lenCs
      ensures Counters(prog, layout, k + 1)
      ensures pass == 1 && (forall c: Section :: old(lenCs)[c] == Offset(prog, layout, k, c)) ==>
                forall c: Section :: lenCs[c] == Offset(prog, layout, k + 1, c)
    {
      StepOver(bc);
    }

    // -------------------------------------------------------------------------------------
    // Pass 1, statement by statement

    lemma {:induction false} SkipFirst(prog: seq<Stmt>, k: nat)
      requires k < |prog| && !prog[k].Branch? && !prog[k].Label? && Linked(prog, k, sdis.list, origin)
      ensures Linked(prog, k + 1, sdis.list, origin)
      ensures Table(prog, k, symtab) && UniqueUpTo(prog, k) ==> Table(prog, k + 1, symtab) && UniqueUpTo(prog, k + 1)
    {
      LinkedSkips(prog, k, sdis.list, origin);
      if Table(prog, k, symtab) && UniqueUpTo(prog, k) {
        TableSkips(prog, k, symtab);
      }
    }

    method SectionFirst(prog: seq<Stmt>, ghost k: nat, sec: Section)
      requires k < |prog| && prog[k] == Stmt.Section(sec) && First(prog, k)
      modifies this`curSec, this`dot
      ensures First(prog, k + 1)
    {
      curSec := sec;
      dot := dotCs[sec];
      SkipFirst(prog, k);
    }

    method LabelFirst(prog: seq<Stmt>, ghost k: nat, name: string)
      requires k < |prog| && prog[k] == Label(name) && First(prog, k)
      modifies this`symtab, this`errors
      ensures First(prog, k + 1)
    {
      SLabel(name);
      LinkedSkips(prog, k, sdis.list, origin);
      if old(errors) == 0 {
        TableLabel(prog, k, name, old(symtab), symtab);
      }
    }

    method FixedFirst(prog: seq<Stmt>, ghost k: nat, size: nat)
      requires k < |prog| && prog[k] == Fixed(size) && First(prog, k)
      modifies this`dot, this`dotCs, this`lenCs
      ensures First(prog, k + 1)
    {
      Advance(prog, Short(prog), k, size);
      SkipFirst(prog, k);
    }

    method BranchFirst(prog: seq<Stmt>, ghost k: nat, sym: string, op: Op)
      requires k < |prog| && prog[k] == Stmt.Branch(sym, op) && First(prog, k)
      modifies this`symtab, this`dot, this`dotCs, this`lenCs, this`origin, sdis
      ensures First(prog, k + 1)
    {
      hide Table, Describes;
      Lookup(sym);
      if errors == 0 {
        TableBranch(prog, k, sym, old(symtab), symtab);
      }
      var leng := Describe(prog, k, sym, op);
      hide Ordered, Linked, AsMade, UniqueUpTo, UniqueLabels, Offset;
      Advance(prog, Short(prog), k, leng);
    }

    method Describe(prog: seq<Stmt>, ghost k: nat, sym: string, op: Op) returns (leng: nat)
      requires k < |prog| && prog[k] == Stmt.Branch(sym, op) && curSec == Cur(prog, k) && dot == Dot(prog, k, curSec)
      requires sym in symtab && Ordered(sdis.list) && Linked(prog, k, sdis.list, origin) && AsMade(symtab, sdis.list)
      modifies this`origin, sdis
      ensures leng == SHORT
      ensures Ordered(sdis.list) && Linked(prog, k + 1, sdis.list, origin) && AsMade(symtab, sdis.list)
    {
      ghost var list, p := sdis.list, 0;
      leng, p := sdis.MakeSdi(dot, curSec, sym, LongForm(op), dot + 2);
      LinkedInsert(prog, k, list, origin, p, sdis.list[p]);
      origin := origin[..p] + [k] + origin[p..];
    }

    // -------------------------------------------------------------------------------------
    // Between the passes

    /** `Sym_Fix`, over the buckets in any order. */
    method SymFix(prog: seq<Stmt>)
      requires Ordered(sdis.list) && Linked(prog, |prog|, sdis.list, origin) && LaysOut(prog, sdis.list, origin, lens)
      requires Table(prog, |prog|, symtab)
      modifies this`symtab
      ensures SymbolsFixed(prog, lens, tsize, dsize, old(symtab), symtab)
    {
      ghost var was := symtab;
      ghost var list := sdis.list;
      var todo := symtab.Keys;
      while todo != {}
        invariant todo <= symtab.Keys == was.Keys
        invariant forall name: string :: name in was ==>
          symtab[name] == if name in todo then was[name] else FixedSymbol(was, list, was[name], tsize, dsize)
        decreases todo
      {
        var name :| name in todo;
        var s := FixOne(symtab[name], was);
        symtab := symtab[name := s];
        todo := todo - {name};
      }
      MovedFixes(prog, list, origin, lens, was, symtab, tsize, dsize);
    }

    method FixOne(s: Symbol, ghost was: map<string, Symbol>) returns (t: Symbol)
      requires Ordered(sdis.list)
      ensures t == FixedSymbol(was, sdis.list, s, tsize, dsize)
    {
      t := s;
      if s.sec.Some? {
        var inc := sdis.SdiInc(was, s.sec.value, s.value);
        t := t.(value := t.value + inc);
        if t.sec == Some(Data) {
          t := t.(value := t.value + tsize);
        } else if t.sec == Some(Bss) {
          t := t.(value := t.value + tsize + dsize);
        }
      }
    }

    /** Round up to a word. */
    static function Even(x: int): int {
      (x + 1) / 2 * 2
    }

    /** `sdi_resolve`, and the layout it amounts to. */
    method ResolveAll(prog: seq<Stmt>)
      requires First(prog, |prog|) && errors == 0
      modifies this`lens, sdis
      ensures Ordered(sdis.list) && Resolved(prog, sdis.list, origin, symtab) && NoneNeedless(symtab, sdis.list)
    {
      ghost var made := sdis.list;
      LinkedPlaced(prog, made, origin, symtab);
      sdis.Resolve(symtab);
      LinkedSame(prog, |prog|, made, sdis.list, origin);
      lens := LayoutOf(prog, sdis.list, origin);
    }

    /** `Start_Pass` for pass 2 */
    method StartSecond(prog: seq<Stmt>, ghost list: seq<Desc>, ghost was: map<string, Symbol>)
      requires Resolved(prog, list, origin, was) && NoneNeedless(was, list)
      requires SymbolsFixed(prog, lens, tsize, dsize, was, symtab) && Total(lenCs)
      modifies this`pass, this`errors, this`emitted, this`dotCs, this`curSec, this`dot
      ensures Second(prog, 0)
    {
      hide SymbolsFixed, Short;
      pass := 2;
      SettledNow(prog, list, was);
      errors := 0;
      emitted := [];
      hide Settled, Lands;
      SetCounters();
    }

    method SetCounters()
      modifies this`dotCs, this`curSec, this`dot
      ensures forall c: Section :: c in dotCs && dotCs[c] == Start(tsize, dsize, c)
      ensures curSec == Text && dot == dotCs[Text]
    {
      dotCs := map[Text := 0, Data := tsize, Bss := tsize + dsize];
      curSec := Text;
      dot := dotCs[Text];
      forall c: Section
        ensures c in dotCs && dotCs[c] == Start(tsize, dsize, c)
      {
        match c case Text => case Data => case Bss =>
      }
    }

    /** `End` after pass 1: branches are resolved, sections placed, symbols moved. */
    method EndFirst(prog: seq<Stmt>)
      requires First(prog, |prog|) && errors == 0
      modifies this, sdis
      ensures Second(prog, 0)
      ensures exists list: seq<Desc>, o: seq<nat>, was: map<string, Symbol> :: Resolved(prog, list, o, was)
      ensures forall c: Section :: c in lenCs && lenCs[c] == Offset(prog, lens, |prog|, c)
      ensures tsize == Even(lenCs[Text]) && dsize == Even(lenCs[Data])
    {
      hide Linked, Table, UniqueUpTo, AsMade, Items, Lens, Fits, Least, Ordered, LaysOut;
      ResolveAll(prog);
      GrowSections(prog);
      tsize := Even(lenCs[Text]);
      dsize := Even(lenCs[Data]);
      ghost var was, list := symtab, sdis.list;
      SymFix(prog);
      sdis.list := [];
      StartSecond(prog, list, was);
      assert Resolved(prog, list, origin, was);
    }

    /** What resolution established: the layout fits, and no layout that fits is shorter anywhere. */
    ghost predicate Resolved(prog: seq<Stmt>, list: seq<Desc>, o: seq<nat>, was: map<string, Symbol>)
      reads this`lens
    {
      && Linked(prog, |prog|, list, o) && LaysOut(prog, list, o, lens) && Table(prog, |prog|, was)
      && Relax.Fits(Items(was, list), Lens(list)) && Least(Items(was, list), Lens(list))
    }

    lemma {:induction false} SettledNow(prog: seq<Stmt>, list: seq<Desc>, was: map<string, Symbol>)
      requires pass == 2 && Linked(prog, |prog|, list, origin) && LaysOut(prog, list, origin, lens)
      requires Relax.Fits(Items(was, list), Lens(list)) && SymbolsFixed(prog, lens, tsize, dsize, was, symtab)
      requires NoneNeedless(was, list)
      requires forall m: nat :: m < |prog| && prog[m].Branch? ==> prog[m].sym in was
      ensures Settled(prog)
    {
      hide Short;
      forall m: nat | m < |prog| && prog[m].Branch?
        ensures prog[m].sym in symtab && Chosen(prog, m)
      {
        FinalLength(prog, list, origin, lens, tsize, dsize, was, symtab, m);
      }
    }

    /** `len_cs += sdi_inc(...)` for every section. */
    method GrowSections(prog: seq<Stmt>)
      requires Ordered(sdis.list) && Linked(prog, |prog|, sdis.list, origin) && LaysOut(prog, sdis.list, origin, lens)
      requires Total(lenCs) && forall c: Section :: lenCs[c] == Dot(prog, |prog|, c)
      modifies this`lenCs
      ensures Total(lenCs) && forall c: Section :: lenCs[c] == Offset(prog, lens, |prog|, c)
    {
      var t := sdis.SdiInc(symtab, Text, lenCs[Text]);
      var d := sdis.SdiInc(symtab, Data, lenCs[Data]);
      var b := sdis.SdiInc(symtab, Bss, lenCs[Bss]);
      RealIsOffset(prog, sdis.list, origin, lens, symtab, |prog|, Text);
      RealIsOffset(prog, sdis.list, origin, lens, symtab, |prog|, Data);
      RealIsOffset(prog, sdis.list, origin, lens, symtab, |prog|, Bss);
      lenCs := lenCs[Text := lenCs[Text] + t][Data := lenCs[Data] + d][Bss := lenCs[Bss] + b];
    }

    // -------------------------------------------------------------------------------------
    // Pass 2, statement by statement

    method SectionSecond(prog: seq<Stmt>, ghost k: nat, sec: Section)
      requires k < |prog| && prog[k] == Stmt.Section(sec) && Second(prog, k)
      modifies this`curSec, this`dot
      ensures Second(prog, k + 1)
    {
      curSec := sec;
      dot := dotCs[sec];
    }

    /** The check of `slabel` never fails. */
    method LabelSecond(prog: seq<Stmt>, ghost k: nat, name: string)
      requires k < |prog| && prog[k] == Label(name) && Second(prog, k)
      modifies this`symtab, this`errors
      ensures Second(prog, k + 1)
    {
      assert IsLabel(prog, k, name);
      SLabel(name);
    }

    method FixedSecond(prog: seq<Stmt>, ghost k: nat, size: nat)
      requires k < |prog| && prog[k] == Fixed(size) && Second(prog, k)
      modifies this`dot, this`dotCs, this`lenCs
      ensures Second(prog, k + 1)
    {
      Advance(prog, lens, k, size);
    }

    /** `branch` in pass 2 comes to the resolved length by itself. */
    method EmitBranch(prog: seq<Stmt>, k: nat, sym: string, op: Op) returns (leng: nat)
      requires k < |prog| && prog[k] == Stmt.Branch(sym, op) && Settled(prog)
      requires curSec == Cur(prog, k) && dot == Base(curSec) + Offset(prog, lens, k, curSec)
      modifies this`symtab, this`emitted
      ensures symtab == old(symtab) && leng == lens[k]
      ensures |emitted| == |old(emitted)| + 1 && emitted[..|old(emitted)|] == old(emitted)
      ensures emitted[|old(emitted)|].line == k && Lands(prog, emitted[|old(emitted)|])
    {
      hide Offset, Cur, Goes;
      Lookup(sym);
      var s := symtab[sym];
      var value := if s.defined then s.value else 0;
      var offs := value - (dot + 2);
      assert Chosen(prog, k);
      var code := Encode(op, s.sec == Some(curSec) && InByte(offs), offs, dot);
      emitted := emitted + [Emitted(k, dot, code)];
      leng := |code|;
    }

    method BranchSecond(prog: seq<Stmt>, k: nat, sym: string, op: Op)
      requires k < |prog| && prog[k] == Stmt.Branch(sym, op) && Second(prog, k)
      modifies this`symtab, this`dot, this`dotCs, this`lenCs, this`emitted
      ensures Second(prog, k + 1)
    {
      var leng := EmitBranch(prog, k, sym, op);
      hide Goes;
      EmittedExtends(prog, k, old(emitted), emitted);
      Advance(prog, lens, k, leng);
    }

    lemma {:induction false} EmittedExtends(prog: seq<Stmt>, k: nat, was: seq<Emitted>, now: seq<Emitted>)
      requires k < |prog| && prog[k].Branch?
      requires |now| == |was| + 1 && now[..|was|] == was && now[|was|].line == k && Lands(prog, now[|was|])
      requires forall e: Emitted :: e in was ==> e.line < k && Lands(prog, e)
      requires forall m: nat :: m < k && prog[m].Branch? ==> exists e: Emitted :: e in was && e.line == m
      ensures forall e: Emitted :: e in now ==> e.line < k + 1 && Lands(prog, e)
      ensures forall m: nat :: m < k + 1 && prog[m].Branch? ==> exists e: Emitted :: e in now && e.line == m
    {
      hide Goes, Offset, Cur;
      assert now == was + [now[|was|]];
      forall m: nat | m < k + 1 && prog[m].Branch?
        ensures exists e: Emitted :: e in now && e.line == m
      {
        if m == k {
          assert now[|was|] in now;
        } else {
          var e: Emitted :| e in was && e.line == m;
          assert e in now;
        }
      }
    }

    // -------------------------------------------------------------------------------------
    // Whole runs

    /** `scan`: one pass over the program. */
    method Scan(prog: seq<Stmt>)
      requires First(prog, 0) || Second(prog, 0)
      modifies this, sdis
      ensures pass == old(pass)
      ensures if pass == 1 then First(prog, |prog|) else Second(prog, |prog|)
      ensures pass == 2 ==> lens == old(lens) && tsize == old(tsize) && dsize == old(dsize)
    {
      var k := 0;
      while k < |prog|
        invariant 0 <= k <= |prog| && pass == old(pass)
        invariant if pass == 1 then First(prog, k) else Second(prog, k)
        invariant pass == 2 ==> lens == old(lens) && tsize == old(tsize) && dsize == old(dsize)
      {
        Statement(prog, k);
        k := k + 1;
      }
    }

    method Statement(prog: seq<Stmt>, k: nat)
      requires k < |prog| && (pass == 1 || pass == 2)
      requires if pass == 1 then First(prog, k) else Second(prog, k)
      modifies this, sdis
      ensures pass == old(pass)
      ensures if pass == 1 then First(prog, k + 1) else Second(prog, k + 1)
      ensures pass == 2 ==> lens == old(lens) && tsize == old(tsize) && dsize == old(dsize)
    {
      match prog[k]
      case Section(sec) => if pass == 1 { SectionFirst(prog, k, sec); } else { SectionSecond(prog, k, sec); }
      case Label(name) => if pass == 1 { LabelFirst(prog, k, name); } else { LabelSecond(prog, k, name); }
      case Fixed(size) => if pass == 1 { FixedFirst(prog, k, size); } else { FixedSecond(prog, k, size); }
      case Branch(sym, op) => if pass == 1 { BranchFirst(prog, k, sym, op); } else { BranchSecond(prog, k, sym, op); }
    }

    /** `Start_Pass` for pass 1 */
    method StartFirst(prog: seq<Stmt>)
      modifies this, sdis
      ensures First(prog, 0) && errors == 0
    {
      pass, errors, dot, curSec := 1, 0, 0, Text;
      dotCs := map[Text := 0, Data := 0, Bss := 0];
      lenCs := dotCs;
      symtab, origin := map[], [];
      sdis.list := [];
      forall c: Section
        ensures c in dotCs && dotCs[c] == 0
      {
        match c case Text => case Data => case Bss =>
      }
    }

    /** Both passes. Pass 1 complains exactly if a label is defined twice. If it does not, pass 2 does
        not either, every branch lands on its label, each section ends before the next starts, and the
        branch lengths are the least that fit. */
    method Assemble(prog: seq<Stmt>) returns (errors1: nat)
      modifies this, sdis
      ensures errors1 == 0 <==> UniqueLabels(prog)
      ensures errors1 == 0 ==> Second(prog, |prog|) && errors == 0
      ensures errors1 == 0 ==> forall e: Emitted :: e in emitted ==> ShortWhenNear(prog, e)
      ensures errors1 == 0 ==>
        exists list: seq<Desc>, o: seq<nat>, was: map<string, Symbol> :: Resolved(prog, list, o, was)
      ensures errors1 == 0 ==> dotCs[Text] <= Base(Data) <= dotCs[Data] <= Base(Bss)
    {
      hide Table, Total;
      StartFirst(prog);
      Scan(prog);
      errors1 := errors;
      if errors == 0 {
        EndFirst(prog);
        ghost var list: seq<Desc>, o: seq<nat>, was: map<string, Symbol> :| Resolved(prog, list, o, was);
        Scan(prog);
        assert Resolved(prog, list, o, was);
        NearOnes(prog);
      }
    }

    /** A branch to a label takes two bytes exactly if the label is in its section, and at most 128 bytes before and
        127 behind its end. */
    ghost predicate ShortWhenNear(prog: seq<Stmt>, e: Emitted)
      reads this`pass, this`tsize, this`dsize, this`lens
      requires |lens| == |prog|
    {
      e.line < |prog| && prog[e.line].Branch? &&
      forall n: nat :: IsLabel(prog, n, prog[e.line].sym) ==>
        (|e.code| == 2 <==>
          && Cur(prog, n) == Cur(prog, e.line)
          && -128 <= Base(Cur(prog, n)) + Offset(prog, lens, n, Cur(prog, n)) - (e.at + 2) <= 127)
    }

    lemma {:induction false} NearOnes(prog: seq<Stmt>)
      requires Second(prog, |prog|)
      ensures forall e: Emitted :: e in emitted ==> ShortWhenNear(prog, e)
    {
      hide Offset, Cur, Goes;
      forall e: Emitted | e in emitted
        ensures ShortWhenNear(prog, e)
      {
        assert Chosen(prog, e.line);
      }
    }
  }

  /** Every long branch to a label of its own section is out of a byte's reach. */
  ghost predicate NoneNeedless(syms: map<string, Symbol>, list: seq<Desc>) {
    forall i: nat :: i < |list| && list[i].leng != SHORT && Target(syms, list[i]).Some? ==>
      !InByte(Exact(Items(syms, list), Lens(list), i))
  }

  function FixedSymbol(was: map<string, Symbol>, list: seq<Desc>, s: Symbol, tsize: int, dsize: int): Symbol {
    if s.sec == None then s
    else s.(value := Start(tsize, dsize, s.sec.value) + Real(Items(was, list), Lens(list), s.sec.value, s.value))
  }

  lemma {:induction false} MovedFixes(prog: seq<Stmt>, list: seq<Desc>, origin: seq<nat>, lens: Layout,
                   was: map<string, Symbol>, syms: map<string, Symbol>, tsize: int, dsize: int)
    requires Linked(prog, |prog|, list, origin) && LaysOut(prog, list, origin, lens) && Table(prog, |prog|, was)
    requires syms.Keys == was.Keys &&
             forall name: string :: name in was ==> syms[name] == FixedSymbol(was, list, was[name], tsize, dsize)
    ensures SymbolsFixed(prog, lens, tsize, dsize, was, syms)
  {
    hide Linked;
    forall m: nat, name: string | IsLabel(prog, m, name)
      ensures name in was && was[name] == Symbol(Some(Cur(prog, m)), Dot(prog, m, Cur(prog, m)), true)
      ensures Real(Items(was, list), Lens(list), Cur(prog, m), Dot(prog, m, Cur(prog, m))) ==
              Offset(prog, lens, m, Cur(prog, m))
    {
      RealIsOffset(prog, list, origin, lens, was, m, Cur(prog, m));
    }
    forall name: string | name in was && was[name].defined
      ensures exists m: nat :: IsLabel(prog, m, name)
    {
      var m: nat :| m < |prog| && IsLabel(prog, m, name);
    }
  }

  lemma {:induction false} TableBranch(prog: seq<Stmt>, k: nat, sym: string, was: map<string, Symbol>,
                                       syms: map<string, Symbol>)
    requires k < |prog| && prog[k].Branch? && prog[k].sym == sym
    requires Table(prog, k, was) && UniqueUpTo(prog, k)
    requires syms == if sym in was then was else was[sym := Symbol(None, 0, false)]
    ensures Table(prog, k + 1, syms) && UniqueUpTo(prog, k + 1)
  {
    hide Dot, Cur;
    forall x: string | x in syms && syms[x].defined
      ensures exists m: nat :: m < k + 1 && IsLabel(prog, m, x)
    {
      var m: nat :| m < k && IsLabel(prog, m, x);
    }
  }

  lemma {:induction false} LinkedSkips(prog: seq<Stmt>, k: nat, list: seq<Desc>, origin: seq<nat>)
    requires k < |prog| && !prog[k].Branch? && Linked(prog, k, list, origin)
    ensures Linked(prog, k + 1, list, origin)
  {
  }

  lemma {:induction false} TableSkips(prog: seq<Stmt>, k: nat, syms: map<string, Symbol>)
    requires k < |prog| && !prog[k].Branch? && !prog[k].Label?
    requires Table(prog, k, syms) && UniqueUpTo(prog, k)
    ensures Table(prog, k + 1, syms) && UniqueUpTo(prog, k + 1)
  {
    hide Dot, Cur;
    forall x: string | x in syms && syms[x].defined
      ensures exists m: nat :: m < k + 1 && IsLabel(prog, m, x)
    {
      var m: nat :| m < k && IsLabel(prog, m, x);
    }
  }

  lemma {:induction false} TableLabel(prog: seq<Stmt>, k: nat, name: string, was: map<string, Symbol>,
                                      syms: map<string, Symbol>)
    requires k < |prog| && prog[k] == Label(name) && Table(prog, k, was) && UniqueUpTo(prog, k)
    requires syms == was[name := Symbol(Some(Cur(prog, k)), Dot(prog, k, Cur(prog, k)), true)]
    ensures if name in was && was[name].defined then !UniqueLabels(prog)
            else Table(prog, k + 1, syms) && UniqueUpTo(prog, k + 1)
  {
    hide Dot, Cur;
    assert IsLabel(prog, k, name);
    if name in was && was[name].defined {
      var m: nat :| m < k && IsLabel(prog, m, name);
      assert m != k;
    } else {
      forall x: string | x in syms && syms[x].defined
        ensures exists m: nat :: m < k + 1 && IsLabel(prog, m, x)
      {
        if x != name {
          var m: nat :| m < k && IsLabel(prog, m, x);
        }
      }
    }
  }
}
