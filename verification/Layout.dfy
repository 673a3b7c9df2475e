/** Where the linker puts modules and symbols: the sizes added up by pass 1 and the origins run by pass 2
    (`load1`, `middle`, `load2` of ld86.c). */
module Layout {

  import opened Basics
  import opened Symbols
  import Primes

  /** textEnd is where the data segment begins in the addresses of the file. listed says that the file has symbols
      at all; only the external ones are in syms. */
  datatype Module = Module(text: nat, textEnd: nat, data: nat, bss: nat, listed: bool, syms: seq<Entry>)

  /** Sizes asked for are not negative. */
  predicate Good(m: Module) {
    && (!m.listed ==> m.syms == [])
    && forall i :: 0 <= i < |m.syms| && m.syms[i].sym.kind == Undf ==> m.syms[i].sym.value >= 0
  }

  /** Addresses in front of a module: of its text, data and bss. */
  datatype Origins = Origins(text: int, data: int, bss: int)

  const ZERO := Origins(0, 0, 0)

  function RoundUp(x: int, r: int): int
    requires r > 0
  {
    (x + r - 1) / r * r
  }

  function Round4(x: int): int {
    RoundUp(x, 4)
  }

  function Advance(o: Origins, m: Module): Origins {
    Origins(o.text + m.text, o.data + Round4(m.data), o.bss + Round4(m.bss))
  }

  /** `symreloc` */
  function Relocated(s: Sym, m: Module, o: Origins): Sym {
    match s.kind
    case Text => Sym(Text, s.value + o.text)
    case Data => Sym(Data, s.value - m.textEnd + o.data)
    case Bss => Sym(Bss, s.value - m.textEnd - m.data + o.bss)
    case Undf => s
    case _ => Sym(Abs, s.value)
  }

  function Externs(m: Module, o: Origins): (es: seq<Entry>)
    ensures |es| == |m.syms|
    ensures forall i :: 0 <= i < |es| ==>
      es[i].name == m.syms[i].name && es[i].sym == Relocated(m.syms[i].sym, m, o)
  {
    seq(|m.syms|, i requires 0 <= i < |m.syms| => Entry(m.syms[i].name, Relocated(m.syms[i].sym, m, o)))
  }

  function Plus(s: Sym, base: Origins): Sym {
    match s.kind
    case Text => Sym(Text, s.value + base.text)
    case Data => Sym(Data, s.value + base.data)
    case Bss => Sym(Bss, s.value + base.bss)
    case _ => s
  }

  // ---------------------------------------------------------------------------------------
  // Pass 1

  /** A module that pass 1 looks at: a file, or a member of a library. */
  datatype Look = Look(m: Module, lib: bool)

  /** The symbols, and what has been kept of the modules looked at. */
  datatype State = State(l: seq<Entry>, kept: seq<bool>)

  /** NoNamelist is the error on a file with text or data but no symbols. Lost: a library member was ripped out
      whose symbols were the first ones; the mark is behind them still. */
  datatype Progress = Going(st: State) | NoNamelist | Lost

  /** The sizes of what was kept among the first n modules. */
  function Sizes(looks: seq<Look>, kept: seq<bool>, n: nat): Origins
    requires n <= |looks| && n <= |kept|
  {
    if n == 0 then ZERO
    else
      var o := Sizes(looks, kept, n - 1);
      if kept[n - 1] then Advance(o, looks[n - 1].m) else o
  }

  function Mark(l: seq<Entry>): Option<nat> {
    if l == [] then None else Some(|l|)
  }

  /** `load1`: a file without symbols, text and data is passed over, whatever bss it has. */
  function Load1(looks: seq<Look>, st: State): Progress
    requires |st.kept| < |looks|
  {
    var k, n := looks[|st.kept|], |st.kept|;
    if !k.m.listed then if k.m.text + k.m.data == 0 then Going(State(st.l, st.kept + [false])) else NoNamelist
    else match Load(st.l, Mark(st.l), Externs(k.m, Sizes(looks, st.kept, n)), k.lib)
      case Kept(l, mark) => Going(State(l, st.kept + [true]))
      case Dropped(l, mark) => if Marked(l, mark) then Going(State(l, st.kept + [false])) else Lost
      case Botch => Lost
  }

  /** Pass 1 over the first n modules. */
  function Run(looks: seq<Look>, n: nat): (r: Progress)
    requires n <= |looks|
    ensures r.Going? ==> |r.st.kept| == n
  {
    if n == 0 then Going(State([], []))
    else match Run(looks, n - 1)
      case Going(st) => Load1(looks, st)
      case other => other
  }

  /** A member ripped out after the first symbol leaves the list marked as it was. The mark is lost exactly when the
      first module with external symbols is ripped out. */
  lemma {:induction false} LostWhen(looks: seq<Look>, st: State)
    requires |st.kept| < |looks| && looks[|st.kept|].m.listed
    ensures var k := looks[|st.kept|];
      var ndef := MergeAll(st.l, Externs(k.m, Sizes(looks, st.kept, |st.kept|)), |k.m.syms|).1;
      Load1(looks, st) == Lost <==> k.lib && ndef == 0 && st.l == [] && k.m.syms != []
  {
    var k := looks[|st.kept|];
    var es := Externs(k.m, Sizes(looks, st.kept, |st.kept|));
    if k.m.syms != [] {
      MergeSome(st.l, es, |es|);
    }
  }

  /** Pass 1 goes on behind it, with no symbol more. */
  predicate Bare(m: Module) {
    m.syms == [] && (m.listed || m.text + m.data == 0)
  }

  /** Module j is a library member, and the first one with external symbols. */
  predicate LosesMark(looks: seq<Look>, j: nat) {
    && j < |looks| && looks[j].lib && looks[j].m.listed && looks[j].m.syms != []
    && forall k :: 0 <= k < j ==> Bare(looks[k].m)
  }

  /** The table is empty just as long as no module had symbols. If modules name their symbols once, the mark is lost
      exactly if a library member is the first one with symbols. */
  lemma {:induction false} LostExactly(looks: seq<Look>, n: nat)
    requires n <= |looks| && forall j :: 0 <= j < |looks| ==> Good(looks[j].m) && Distinct(looks[j].m.syms)
    ensures Run(looks, n).Going? ==>
              && (Run(looks, n).st.l == [] <==> forall j :: 0 <= j < n ==> Bare(looks[j].m))
              && forall j :: 0 <= j < n ==> looks[j].m.listed || looks[j].m.text + looks[j].m.data == 0
    ensures Run(looks, n) == Lost <==> exists j: nat :: j < n && LosesMark(looks, j)
    ensures (forall j :: 0 <= j < n ==> Bare(looks[j].m)) ==> Run(looks, n).Going?
  {
    hide Load1, LosesMark, Bare, Good, Distinct;
    if n > 0 {
      LostExactly(looks, n - 1);
      LostNext(looks, n - 1);
    }
  }

  /** One module more. */
  lemma {:induction false} LostNext(looks: seq<Look>, n: nat)
    requires n < |looks| && Good(looks[n].m) && Distinct(looks[n].m.syms)
    requires Run(looks, n).Going? ==>
               (Run(looks, n).st.l == [] <==> forall j :: 0 <= j < n ==> Bare(looks[j].m))
    ensures Run(looks, n).Going? ==>
              var r := Load1(looks, Run(looks, n).st);
              && (r.Going? ==>
                    && (r.st.l == [] <==> Run(looks, n).st.l == [] && Bare(looks[n].m))
                    && (looks[n].m.listed || looks[n].m.text + looks[n].m.data == 0))
              && (r == Lost <==> LosesMark(looks, n)) && (Bare(looks[n].m) ==> r.Going?)
    ensures LosesMark(looks, n) ==> forall j :: 0 <= j < n ==> Bare(looks[j].m)
  {
    hide Load, MergeAll, Sizes, Run, Distinct;
    var r := Run(looks, n);
    var m := looks[n].m;
    if r.Going? && m.listed {
      var es := Externs(m, Sizes(looks, r.st.kept, n));
      LostWhen(looks, r.st);
      LoadSize(r.st.l, es, looks[n].lib);
      if r.st.l == [] {
        ExternsDistinct(m, Sizes(looks, r.st.kept, n));
        DefinesNone(es, |es|);
      }
    }
  }

  lemma {:induction false} ExternsDistinct(m: Module, o: Origins)
    requires Distinct(m.syms)
    ensures Distinct(Externs(m, o))
  {
  }

  lemma {:induction false} LoadSize(l: seq<Entry>, es: seq<Entry>, lib: bool)
    ensures match Load(l, Mark(l), es, lib)
            case Kept(k, mark) => |k| >= |l| && (k == [] <==> l == [] && es == [])
            case Dropped(k, mark) => |k| == |l|
            case Botch => false
    ensures !lib ==> Load(l, Mark(l), es, lib).Kept?
    ensures var r := Load(l, Mark(l), es, lib); r.Dropped? && es == [] ==> Marked(r.l, r.mark)
  {
    LoadMarked(l, Mark(l), es, lib);
    if es != [] {
      MergeSome(l, es, |es|);
    }
  }

  /** Symbols of different names define none of each other. */
  lemma {:induction false} DefinesNone(es: seq<Entry>, n: nat)
    requires n <= |es| && Distinct(es)
    ensures MergeAll([], es, n) == (es[..n], 0)
  {
    if n > 0 {
      DefinesNone(es, n - 1);
      IndexIs(es[..n - 1], es[n - 1].name, n - 1);
      assert es[..n] == es[..n - 1] + [es[n - 1]];
    }
  }

  lemma {:induction false} RunPrefix(looks: seq<Look>, n: nat, m: nat)
    requires n <= m <= |looks| && Run(looks, m).Going?
    ensures Run(looks, n).Going? && Run(looks, n).st.kept == Run(looks, m).st.kept[..n]
  {
    hide Load;
    if n < m {
      RunPrefix(looks, n, m - 1);
    }
  }

  lemma {:induction false} SizesPrefix(looks: seq<Look>, kept: seq<bool>, more: seq<bool>, n: nat)
    requires n <= |looks| && n <= |kept| && n <= |more| && kept[..n] == more[..n]
    ensures Sizes(looks, kept, n) == Sizes(looks, more, n)
  {
    if n > 0 {
      assert kept[n - 1] == kept[..n][n - 1] == more[..n][n - 1];
      assert kept[..n - 1] == kept[..n][..n - 1] && more[..n - 1] == more[..n][..n - 1];
      SizesPrefix(looks, kept, more, n - 1);
    }
  }

  // ---------------------------------------------------------------------------------------
  // What the files say of a name

  predicate Mentions(looks: seq<Look>, name: string, j: nat, i: nat) {
    j < |looks| && i < |looks[j].m.syms| && looks[j].m.syms[i].name == name
  }

  predicate Earlier(a: nat, b: nat, j: nat, i: nat) {
    a < j || (a == j && b < i)
  }

  /** Symbol i of module j, which is loaded, is a definition of the name. */
  predicate Defines(looks: seq<Look>, kept: seq<bool>, name: string, j: nat, i: nat)
    requires |kept| == |looks|
  {
    Mentions(looks, name, j, i) && kept[j] && looks[j].m.syms[i].sym.kind != Undf
  }

  /** Symbol b of module a asks for room for the name. What a member asks for that is ripped out counts if the name
      was known from a module loaded before. */
  ghost predicate Asks(looks: seq<Look>, kept: seq<bool>, name: string, a: nat, b: nat)
    requires |kept| == |looks|
  {
    && Mentions(looks, name, a, b) && looks[a].m.syms[b].sym.kind == Undf && looks[a].m.syms[b].sym.value > 0
    && (kept[a] || exists c: nat, d: nat :: c < a && kept[c] && Mentions(looks, name, c, d))
  }

  ghost predicate Requested(looks: seq<Look>, kept: seq<bool>, name: string, j: nat, i: nat)
    requires |kept| == |looks|
  {
    exists a: nat, b: nat :: Earlier(a, b, j, i) && Asks(looks, kept, name, a, b)
  }

  /** A definition that does not define: a function, where room had been asked for before. */
  ghost predicate PassedOver(looks: seq<Look>, kept: seq<bool>, name: string, j: nat, i: nat)
    requires |kept| == |looks| && Defines(looks, kept, name, j, i)
  {
    looks[j].m.syms[i].sym.kind == Text && Requested(looks, kept, name, j, i)
  }

  /** Where pass 1 puts a symbol, before the bases are added. */
  function Place1(looks: seq<Look>, kept: seq<bool>, j: nat, i: nat): Sym
    requires |kept| == |looks| && j < |looks| && i < |looks[j].m.syms|
  {
    Relocated(looks[j].m.syms[i].sym, looks[j].m, Sizes(looks, kept, j))
  }

  /** s comes from definition i of module j: all before it were passed over, and it was not. */
  ghost predicate Source(looks: seq<Look>, kept: seq<bool>, name: string, s: Sym, j: nat, i: nat)
    requires |kept| == |looks|
  {
    && Defines(looks, kept, name, j, i) && s == Place1(looks, kept, j, i) && !PassedOver(looks, kept, name, j, i)
    && forall c: nat, d: nat :: Earlier(c, d, j, i) && Defines(looks, kept, name, c, d) ==>
         PassedOver(looks, kept, name, c, d)
  }

  /** This is the largest size asked for before symbol i of module n. */
  ghost predicate Sized(looks: seq<Look>, kept: seq<bool>, name: string, size: int, n: nat, i: nat)
    requires |kept| == |looks|
  {
    && (forall a: nat, b: nat :: Earlier(a, b, n, i) && Asks(looks, kept, name, a, b) ==>
          looks[a].m.syms[b].sym.value <= size)
    && (size > 0 ==>
          exists a: nat, b: nat ::
            Earlier(a, b, n, i) && Asks(looks, kept, name, a, b) && looks[a].m.syms[b].sym.value == size)
  }

  /** What the symbols before symbol i of module n make of the name. */
  ghost predicate Traced(looks: seq<Look>, kept: seq<bool>, name: string, s: Option<Sym>, n: nat, i: nat)
    requires |kept| == |looks|
  {
    match s
    case None => forall c: nat, d: nat :: Earlier(c, d, n, i) && Mentions(looks, name, c, d) ==> !kept[c]
    case Some(v) =>
      && (exists c: nat, d: nat :: Earlier(c, d, n, i) && Mentions(looks, name, c, d) && kept[c])
      && (v.kind == Undf ==>
            && v.value >= 0 && (v.value > 0 <==> Requested(looks, kept, name, n, i))
            && Sized(looks, kept, name, v.value, n, i)
            && forall c: nat, d: nat :: Earlier(c, d, n, i) && Defines(looks, kept, name, c, d) ==>
                 PassedOver(looks, kept, name, c, d))
      && (v.kind != Undf ==> exists c: nat, d: nat :: Earlier(c, d, n, i) && Source(looks, kept, name, v, c, d))
  }

  lemma {:induction false} EarlierNext(n: nat, i: nat)
    ensures forall a: nat, b: nat :: Earlier(a, b, n, i + 1) ==> Earlier(a, b, n, i) || (a == n && b == i)
    ensures forall a: nat, b: nat :: Earlier(a, b, n, i) ==> Earlier(a, b, n, i + 1)
    ensures Earlier(n, i, n, i + 1)
  {
  }

  lemma {:induction false} EarlierStill(n: nat, i: nat, n': nat, i': nat)
    requires Earlier(n, i, n', i') || (n == n' && i == i')
    ensures forall a: nat, b: nat :: Earlier(a, b, n, i) ==> Earlier(a, b, n', i')
  {
  }

  /** One symbol more, which may ask for more. */
  lemma {:induction false} SizedNext(looks: seq<Look>, kept: seq<bool>, name: string, size: int, n: nat, i: nat,
                                     more: int)
    requires |kept| == |looks| && size >= 0
    requires if size == 0 then !Requested(looks, kept, name, n, i) else Sized(looks, kept, name, size, n, i)
    requires more == if Asks(looks, kept, name, n, i) && looks[n].m.syms[i].sym.value > size
                     then looks[n].m.syms[i].sym.value else size
    ensures Sized(looks, kept, name, more, n, i + 1)
  {
    hide Asks;
    EarlierNext(n, i);
  }

  /** One symbol more. In a module that is not loaded it must not define anything. */
  lemma {:induction false} TraceOne(looks: seq<Look>, kept: seq<bool>, name: string, s: Option<Sym>, n: nat, i: nat)
    requires |kept| == |looks| && Mentions(looks, name, n, i) && Good(looks[n].m)
    requires Traced(looks, kept, name, s, n, i)
    requires kept[n] || (s.Some? && !Joined(s.value, Place1(looks, kept, n, i)).1)
    ensures var c := Place1(looks, kept, n, i);
      Traced(looks, kept, name, Some(if s.None? then c else Joined(s.value, c).0), n, i + 1)
  {
    var c := Place1(looks, kept, n, i);
    var r := if s.None? then c else Joined(s.value, c).0;
    hide Sized;
    KnownBefore(looks, kept, name, s, n, i);
    EarlierNext(n, i);
    if r.kind == Undf {
      RequestedNext(looks, kept, name, n, i);
      SizedNext(looks, kept, name, if s.None? then 0 else s.value.value, n, i, r.value);
    } else if s.None? || s.value.kind == Undf {
      assert Source(looks, kept, name, r, n, i);
    }
  }

  lemma {:induction false} RequestedNext(looks: seq<Look>, kept: seq<bool>, name: string, n: nat, i: nat)
    requires |kept| == |looks|
    ensures Requested(looks, kept, name, n, i + 1) <==>
            Requested(looks, kept, name, n, i) || Asks(looks, kept, name, n, i)
  {
    if Requested(looks, kept, name, n, i + 1) {
      var a: nat, b: nat :| Earlier(a, b, n, i + 1) && Asks(looks, kept, name, a, b);
      assert Earlier(a, b, n, i) || (a == n && b == i);
    }
    if Requested(looks, kept, name, n, i) {
      var a: nat, b: nat :| Earlier(a, b, n, i) && Asks(looks, kept, name, a, b);
      assert Earlier(a, b, n, i + 1);
    }
    if Asks(looks, kept, name, n, i) {
      assert Earlier(n, i, n, i + 1);
    }
  }

  /** A name nothing was known of has not been asked for, nor passed over. */
  lemma {:induction false} KnownBefore(looks: seq<Look>, kept: seq<bool>, name: string, s: Option<Sym>, n: nat, i: nat)
    requires |kept| == |looks| && Traced(looks, kept, name, s, n, i)
    ensures s.None? ==> !Requested(looks, kept, name, n, i)
    ensures s.None? ==> forall c: nat, d: nat :: Earlier(c, d, n, i) ==> !Defines(looks, kept, name, c, d)
    ensures s.Some? && Mentions(looks, name, n, i) && looks[n].m.syms[i].sym.kind == Undf &&
            looks[n].m.syms[i].sym.value > 0 ==>
              Asks(looks, kept, name, n, i) || exists d: nat :: d < i && Mentions(looks, name, n, d) && kept[n]
  {
  }

  /** Nothing is said of the name from one place to the other. */
  lemma {:induction false} TraceOn(looks: seq<Look>, kept: seq<bool>, name: string, s: Option<Sym>, n: nat, i: nat,
                                   n': nat, i': nat)
    requires |kept| == |looks| && Traced(looks, kept, name, s, n, i) && (Earlier(n, i, n', i') || (n == n' && i == i'))
    requires forall a: nat, b: nat :: Earlier(a, b, n', i') && Mentions(looks, name, a, b) ==>
               Earlier(a, b, n, i) || (s.None? && !kept[a])
    ensures Traced(looks, kept, name, s, n', i')
  {
    EarlierStill(n, i, n', i');
    if s.Some? && Requested(looks, kept, name, n', i') {
      var a: nat, b: nat :| Earlier(a, b, n', i') && Asks(looks, kept, name, a, b);
      assert Earlier(a, b, n, i);
    }
    if s.Some? && Requested(looks, kept, name, n, i) {
      var a: nat, b: nat :| Earlier(a, b, n, i) && Asks(looks, kept, name, a, b);
      assert Earlier(a, b, n', i');
    }
  }

  /** The symbols of a module that is loaded. */
  lemma {:induction false} TraceKept(looks: seq<Look>, kept: seq<bool>, name: string, s: Option<Sym>, n: nat, i: nat)
    requires |kept| == |looks| && n < |looks| && i <= |looks[n].m.syms| && Good(looks[n].m)
    requires kept[n] && Traced(looks, kept, name, s, n, 0)
    ensures var es := Externs(looks[n].m, Sizes(looks, kept, n)); Traced(looks, kept, name, Fold(s, es, i, name), n, i)
  {
    hide Traced;
    if i > 0 {
      TraceKept(looks, kept, name, s, n, i - 1);
      TraceStep(looks, kept, name, s, n, i - 1);
    }
  }

  /** The symbols of a member that is ripped out, when the name was known. */
  lemma {:induction false} TraceRipped(looks: seq<Look>, kept: seq<bool>, name: string, s: Option<Sym>, n: nat, i: nat)
    requires |kept| == |looks| && n < |looks| && i <= |looks[n].m.syms| && Good(looks[n].m)
    requires s.Some? && Traced(looks, kept, name, s, n, 0)
    requires var es := Externs(looks[n].m, Sizes(looks, kept, n));
      forall k: nat :: k < i && es[k].name == name ==>
        var r := Fold(s, es, k, name); r.Some? && !Joined(r.value, es[k].sym).1
    ensures var es := Externs(looks[n].m, Sizes(looks, kept, n));
      Fold(s, es, i, name).Some? && Traced(looks, kept, name, Fold(s, es, i, name), n, i)
  {
    hide Traced;
    if i > 0 {
      TraceRipped(looks, kept, name, s, n, i - 1);
      TraceStep(looks, kept, name, s, n, i - 1);
    }
  }

  lemma {:induction false} TraceStep(looks: seq<Look>, kept: seq<bool>, name: string, s: Option<Sym>, n: nat, i: nat)
    requires |kept| == |looks| && n < |looks| && i < |looks[n].m.syms| && Good(looks[n].m)
    requires var es := Externs(looks[n].m, Sizes(looks, kept, n));
      && Traced(looks, kept, name, Fold(s, es, i, name), n, i)
      && (kept[n] || (es[i].name == name ==>
            var r := Fold(s, es, i, name); r.Some? && !Joined(r.value, es[i].sym).1))
    ensures var es := Externs(looks[n].m, Sizes(looks, kept, n));
      Traced(looks, kept, name, Fold(s, es, i + 1, name), n, i + 1)
  {
    hide Traced;
    var es := Externs(looks[n].m, Sizes(looks, kept, n));
    if es[i].name == name {
      TraceOne(looks, kept, name, Fold(s, es, i, name), n, i);
    } else {
      TraceOn(looks, kept, name, Fold(s, es, i, name), n, i, n, i + 1);
    }
  }

  /** After n modules the table has, of every name, what the files say of it. */
  lemma {:induction false} TraceAll(looks: seq<Look>, kept: seq<bool>, n: nat, name: string)
    requires n <= |looks| == |kept| && Run(looks, n).Going? && Run(looks, n).st.kept == kept[..n]
    requires forall j :: 0 <= j < n ==> Good(looks[j].m)
    ensures Distinct(Run(looks, n).st.l) && Traced(looks, kept, name, Value(Run(looks, n).st.l, name), n, 0)
  {
    hide Traced, Fold, Value, Load, MergeAll;
    if n == 0 {
      NothingYet(looks, kept, name);
    } else {
      RunPrefix(looks, n - 1, n);
      assert kept[..n - 1] == kept[..n][..n - 1];
      TraceAll(looks, kept, n - 1, name);
      TraceLook(looks, kept, n - 1, name);
    }
  }

  lemma {:induction false} NothingYet(looks: seq<Look>, kept: seq<bool>, name: string)
    requires |kept| == |looks|
    ensures Traced(looks, kept, name, Value([], name), 0, 0)
  {
  }

  lemma {:induction false} TraceLook(looks: seq<Look>, kept: seq<bool>, n: nat, name: string)
    requires n < |looks| == |kept| && Run(looks, n).Going? && Run(looks, n + 1).Going?
    requires Run(looks, n).st.kept == kept[..n] && Run(looks, n + 1).st.kept == kept[..n + 1] && Good(looks[n].m)
    requires Distinct(Run(looks, n).st.l) && Traced(looks, kept, name, Value(Run(looks, n).st.l, name), n, 0)
    ensures Distinct(Run(looks, n + 1).st.l) && Traced(looks, kept, name, Value(Run(looks, n + 1).st.l, name), n + 1, 0)
  {
    hide Traced, Fold, Value, MergeAll, Distinct;
    var st, k := Run(looks, n).st, looks[n];
    var s := Value(st.l, name);
    assert Run(looks, n + 1) == Load1(looks, st);
    assert kept[n] == kept[..n + 1][n];
    if !k.m.listed {
      TraceOn(looks, kept, name, s, n, 0, n + 1, 0);
    } else {
      SizesPrefix(looks, st.kept, kept, n);
      var es := Externs(k.m, Sizes(looks, kept, n));
      ValueAll(st.l, es, |es|, name);
      if kept[n] {
        TraceKept(looks, kept, name, s, n, |es|);
        TraceOn(looks, kept, name, Fold(s, es, |es|, name), n, |es|, n + 1, 0);
      } else {
        RippedOut(looks, kept, n, name);
      }
    }
  }

  lemma {:induction false} RippedOut(looks: seq<Look>, kept: seq<bool>, n: nat, name: string)
    requires n < |looks| == |kept| && Run(looks, n).Going? && Run(looks, n + 1).Going? && !kept[n] && looks[n].m.listed
    requires Run(looks, n).st.kept == kept[..n] && Run(looks, n + 1).st.kept == kept[..n + 1] && Good(looks[n].m)
    requires Distinct(Run(looks, n).st.l) && Traced(looks, kept, name, Value(Run(looks, n).st.l, name), n, 0)
    ensures Distinct(Run(looks, n + 1).st.l) && Traced(looks, kept, name, Value(Run(looks, n + 1).st.l, name), n + 1, 0)
  {
    hide Traced, Fold, Value, Distinct;
    var st, st', k := Run(looks, n).st, Run(looks, n + 1).st, looks[n];
    var s := Value(st.l, name);
    assert Run(looks, n + 1) == Load1(looks, st);
    assert kept[n] == kept[..n + 1][n];
    SizesPrefix(looks, st.kept, kept, n);
    var es := Externs(k.m, Sizes(looks, kept, n));
    TakeBack(st.l, es, name);
    assert st'.l == MergeAll(st.l, es, |es|).0[..|st.l|];
    if s.None? {
      TraceOn(looks, kept, name, s, n, 0, n + 1, 0);
    } else {
      forall i: nat | i < |es| && es[i].name == name
        ensures var r := Fold(s, es, i, name); r.Some? ==> !Joined(r.value, es[i].sym).1
      {
        NoneDefines(st.l, es, |es|, i);
      }
      FoldStays(s, es, |es|, name);
      TraceRipped(looks, kept, name, s, n, |es|);
      TraceOn(looks, kept, name, Fold(s, es, |es|, name), n, |es|, n + 1, 0);
    }
  }

  lemma {:induction false} FoldStays(s: Option<Sym>, es: seq<Entry>, n: nat, name: string)
    requires s.Some? && n <= |es|
    ensures forall i: nat :: i <= n ==> Fold(s, es, i, name).Some?
  {
    if n > 0 {
      FoldStays(s, es, n - 1, name);
    }
  }

  /** Symbol i of module n defines a name that a module loaded before asks for, and none has defined. Definitions that
      were passed over, as functions are when room has been asked for, do not count. */
  ghost predicate Answers(looks: seq<Look>, kept: seq<bool>, n: nat, i: nat)
    requires |kept| == |looks| && n < |looks| && i < |looks[n].m.syms|
  {
    var e := looks[n].m.syms[i];
    && e.sym.kind != Undf && !(e.sym.kind == Text && Requested(looks, kept, e.name, n, 0))
    && (exists c: nat, d: nat :: c < n && kept[c] && Mentions(looks, e.name, c, d))
    && forall c: nat, d: nat :: c < n && Defines(looks, kept, e.name, c, d) ==> PassedOver(looks, kept, e.name, c, d)
  }

  /** A module with symbols is loaded exactly if it is no library member, or one of its symbols answers a request. */
  lemma {:induction false} KeptWhen(looks: seq<Look>, n: nat)
    requires n < |looks| && Run(looks, |looks|).Going? && looks[n].m.listed && Distinct(looks[n].m.syms)
    requires forall j :: 0 <= j < |looks| ==> Good(looks[j].m)
    ensures var kept := Run(looks, |looks|).st.kept;
      kept[n] <==> !looks[n].lib || exists i: nat :: i < |looks[n].m.syms| && Answers(looks, kept, n, i)
  {
    hide MergeAll, Value, Traced, Answers, Joined, Sizes;
    var kept := Run(looks, |looks|).st.kept;
    RunPrefix(looks, n, |looks|);
    RunPrefix(looks, n + 1, |looks|);
    var st := Run(looks, n).st;
    assert Run(looks, n + 1) == Load1(looks, st) && kept[n] == kept[..n + 1][n];
    var es := Externs(looks[n].m, Sizes(looks, st.kept, n));
    SomeDefines(st.l, es, |es|);
    forall i: nat | i < |es|
      ensures Answers(looks, kept, n, i) <==>
              Value(st.l, es[i].name).Some? && Joined(Value(st.l, es[i].name).value, es[i].sym).1
    {
      TraceAll(looks, kept, n, es[i].name);
      AnswersWhen(looks, kept, n, i, Value(st.l, es[i].name), es[i].sym);
    }
  }

  /** The table has what decides it. */
  lemma {:induction false} AnswersWhen(looks: seq<Look>, kept: seq<bool>, n: nat, i: nat, s: Option<Sym>, c: Sym)
    requires |kept| == |looks| && n < |looks| && i < |looks[n].m.syms|
    requires Traced(looks, kept, looks[n].m.syms[i].name, s, n, 0)
    requires exists o :: c == Relocated(looks[n].m.syms[i].sym, looks[n].m, o)
    ensures Answers(looks, kept, n, i) <==> s.Some? && Joined(s.value, c).1
  {
    hide Requested, PassedOver, Place1;
    var name := looks[n].m.syms[i].name;
    if s.Some? && s.value.kind != Undf {
      var a: nat, b: nat :| Earlier(a, b, n, 0) && Source(looks, kept, name, s.value, a, b);
    }
    if s.Some? {
      var a: nat, b: nat :| Earlier(a, b, n, 0) && Mentions(looks, name, a, b) && kept[a];
    }
  }

  // ---------------------------------------------------------------------------------------
  // Between the passes

  /** `ldrsym`: a name of the linker's own, if it is asked for and nobody has defined it. */
  function Special(l: seq<Entry>, name: string, s: Sym): (k: seq<Entry>)
    ensures |k| == |l| && forall i :: 0 <= i < |l| ==> k[i].name == l[i].name
    ensures forall i :: 0 <= i < |l| && k[i] != l[i] ==> k[i].sym == s && l[i].sym == Sym(Undf, 0)
  {
    var j := Index(l, name);
    if j < |l| && l[j].sym == Sym(Undf, 0) then l[j := Entry(name, s)] else l
  }

  function Specials(l: seq<Entry>, sizes: Origins): (k: seq<Entry>)
    ensures |k| == |l| && forall i :: 0 <= i < |l| ==> k[i].name == l[i].name
    ensures forall i :: 0 <= i < |l| && k[i] != l[i] ==>
              k[i].sym.kind != Undf && k[i].sym.kind != Comm && l[i].sym == Sym(Undf, 0)
  {
    Special(Special(Special(l, "_etext", Sym(Text, sizes.text)), "_edata", Sym(Data, sizes.data)),
            "_end", Sym(Bss, sizes.bss))
  }

  /** Room of this size begins at a multiple of this. */
  function Alignment(size: int): (r: nat)
    ensures r > 0
  {
    if size >= 8 then 8 else if size >= 4 then 4 else 2
  }

  /** Room for the common symbols among the first n, and how much it takes. */
  function Allot(l: seq<Entry>, n: nat): (r: (seq<Entry>, int))
    requires n <= |l|
    ensures |r.0| == |l| && forall i :: 0 <= i < |l| ==> r.0[i].name == l[i].name
    ensures forall i :: n <= i < |l| ==> r.0[i] == l[i]
  {
    if n == 0 then (l, 0)
    else
      var (k, csize) := Allot(l, n - 1);
      var s := k[n - 1].sym;
      if s.kind == Undf && s.value != 0 then
        var at := RoundUp(csize, Alignment(s.value));
        (k[n - 1 := Entry(k[n - 1].name, Sym(Comm, at))], at + s.value)
      else (k, csize)
  }

  lemma {:induction false} AllotNone(l: seq<Entry>)
    ensures Allot(l, 0) == (l, 0)
  {
  }

  lemma {:induction false} AllotNext(l: seq<Entry>, i: nat)
    requires i < |l|
    ensures var (k, csize) := Allot(l, i);
      Allot(l, i + 1) ==
      if k[i].sym.kind == Undf && k[i].sym.value != 0 then
        var at := RoundUp(csize, Alignment(k[i].sym.value));
        (k[i := Entry(k[i].name, Sym(Comm, at))], at + k[i].sym.value)
      else (k, csize)
  {
  }

  lemma {:induction false} AllotSize(l: seq<Entry>, n: nat)
    requires n <= |l| && forall k :: 0 <= k < |l| && l[k].sym.kind == Undf ==> l[k].sym.value >= 0
    ensures Allot(l, n).1 >= 0
  {
    hide RoundUp, Alignment;
    if n > 0 {
      AllotSize(l, n - 1);
      RoundedUp(Allot(l, n - 1).1, l[n - 1].sym.value);
    }
  }

  /** Common symbols get aligned room, each behind those before it, up to what is taken in all; the others stay. */
  lemma {:induction false} RoomApart(l: seq<Entry>, n: nat, i: nat)
    requires i < n <= |l| && forall k :: 0 <= k < |l| && l[k].sym.kind == Undf ==> l[k].sym.value >= 0
    ensures var (r, csize) := Allot(l, n);
      && Allot(l, i).1 >= 0 && r[i] == Allot(l, i + 1).0[i] && Allot(l, i + 1).1 <= csize
      && if l[i].sym.kind == Undf && l[i].sym.value > 0 then
           && r[i].sym.kind == Comm && r[i].sym.value % Alignment(l[i].sym.value) == 0
           && Allot(l, i).1 <= r[i].sym.value && r[i].sym.value + l[i].sym.value == Allot(l, i + 1).1
         else r[i] == l[i]
    decreases n, n - i
  {
    hide Allot, RoundUp, Alignment;
    AllotNext(l, n - 1);
    if i + 1 < n {
      RoomApart(l, n - 1, i);
      RoomApart(l, n, n - 1);
    } else {
      if i > 0 {
        RoomApart(l, n - 1, i - 1);
      }
      AllotSize(l, i);
      if l[i].sym.kind == Undf && l[i].sym.value > 0 {
        RoundedUp(Allot(l, i).1, l[i].sym.value);
      }
    }
  }

  lemma {:induction false} RoundedUp(x: int, size: int)
    ensures var r := Alignment(size); x <= RoundUp(x, r) < x + r && RoundUp(x, r) % r == 0
  {
    RoundedBy(x, Alignment(size));
  }

  lemma {:induction false} RoundedBy(x: int, r: nat)
    requires r > 0
    ensures x <= RoundUp(x, r) < x + r && RoundUp(x, r) % r == 0
  {
    var q := (x + r - 1) / r;
    assert x + r - 1 == r * q + (x + r - 1) % r;
    assert q * r == r * q;
    Primes.ModUnique(r * q, q, 0, r);
  }

  /** The final value of a symbol; common ones are placed from corigin on. */
  function Finished(s: Sym, base: Origins, corigin: int): Sym {
    if s.kind == Comm then Sym(Bss, s.value + corigin) else Plus(s, base)
  }

  function AllFinished(l: seq<Entry>, base: Origins, corigin: int): (u: seq<Entry>)
    ensures |u| == |l|
  {
    seq(|l|, i requires 0 <= i < |l| => Entry(l[i].name, Finished(l[i].sym, base, corigin)))
  }

  function Allotted(l: seq<Entry>, sizes: Origins, allot: bool): (r: (seq<Entry>, int))
    ensures |r.0| == |l|
  {
    if allot then Allot(Specials(l, sizes), |l|) else (l, 0)
  }

  /** `middle`: where the segments begin, and the table with its final values. Common symbols lie between data and
      bss. */
  function Middle(l: seq<Entry>, sizes: Origins, textbase: int, align: nat, hsize: int, allot: bool): (seq<Entry>,
                  Origins)
    requires align > 0
  {
    var database := RoundUp(sizes.text + textbase, align) + hsize;
    var (k', csize) := Allotted(l, sizes, allot);
    var corigin := database + sizes.data;
    var base := Origins(textbase, database, corigin + Round4(csize));
    (AllFinished(k', base, corigin), base)
  }

  /** Its parts */
  lemma {:induction false} MiddleParts(l: seq<Entry>, sizes: Origins, textbase: int, align: nat, hsize: int,
                                       allot: bool)
    requires align > 0
    ensures var (k, csize) := Allotted(l, sizes, allot);
      var database := RoundUp(sizes.text + textbase, align) + hsize;
      var corigin := database + sizes.data;
      var base := Origins(textbase, database, corigin + Round4(csize));
      |k| == |l| && Middle(l, sizes, textbase, align, hsize, allot) == (AllFinished(k, base, corigin), base)
  {
    hide RoundUp, AllFinished, Specials, Allot;
  }

  /** What is defined has its base added; what has been asked for is common still, or has got room. */
  predicate Final(l: seq<Entry>, u: seq<Entry>, base: Origins) {
    && |u| == |l|
    && forall i :: 0 <= i < |l| ==>
         && u[i].name == l[i].name
         && (l[i].sym.kind != Undf ==> u[i].sym == Plus(l[i].sym, base))
         && (l[i].sym.kind == Undf && l[i].sym.value > 0 ==> u[i].sym.kind == Undf || u[i].sym.kind == Bss)
  }

  lemma {:induction false} MiddleIs(l: seq<Entry>, sizes: Origins, textbase: int, align: nat, hsize: int, allot: bool)
    requires align > 0
    requires forall i :: 0 <= i < |l| ==> l[i].sym.kind != Comm && (l[i].sym.kind == Undf ==> l[i].sym.value >= 0)
    ensures var (u, base) := Middle(l, sizes, textbase, align, hsize, allot); Final(l, u, base)
  {
    hide Specials, Allot, RoundUp;
    var k := if allot then Specials(l, sizes) else l;
    var k' := if allot then Allot(k, |k|).0 else k;
    var (u, base) := Middle(l, sizes, textbase, align, hsize, allot);
    forall i | 0 <= i < |l|
      ensures u[i].name == l[i].name && (l[i].sym.kind != Undf ==> u[i].sym == Plus(l[i].sym, base))
      ensures l[i].sym.kind == Undf && l[i].sym.value > 0 ==> u[i].sym.kind == Undf || u[i].sym.kind == Bss
    {
      if allot {
        RoomApart(k, |k|, i);
      }
      assert k'[i] == k[i] || (k[i].sym.kind == Undf && k[i].sym.value > 0 && k'[i].sym.kind == Comm);
      assert u[i] == Entry(k'[i].name, Finished(k'[i].sym, base, base.data + sizes.data));
    }
  }

  // ---------------------------------------------------------------------------------------
  // Pass 2

  /** Pass 2 loads what was kept, and every file on the command line. */
  predicate Loaded(looks: seq<Look>, kept: seq<bool>, j: nat)
    requires j < |looks| && j < |kept|
  {
    kept[j] || !looks[j].lib
  }

  /** The origins in front of module n. */
  function Origins2(looks: seq<Look>, kept: seq<bool>, base: Origins, n: nat): Origins
    requires n <= |looks| && n <= |kept|
  {
    if n == 0 then base
    else
      var o := Origins2(looks, kept, base, n - 1);
      if Loaded(looks, kept, n - 1) then Advance(o, looks[n - 1].m) else o
  }

  /** The bss of files that pass 1 passed over, in front of module n. */
  function Skipped(looks: seq<Look>, kept: seq<bool>, n: nat): int
    requires n <= |looks| && n <= |kept|
  {
    if n == 0 then 0
    else Skipped(looks, kept, n - 1) + if !kept[n - 1] && !looks[n - 1].lib then Round4(looks[n - 1].m.bss) else 0
  }

  /** Files that pass 1 passes over have neither text nor data. */
  lemma {:induction false} SkippedOnes(looks: seq<Look>, n: nat, j: nat)
    requires j < n <= |looks| && Run(looks, n).Going?
    ensures !Run(looks, n).st.kept[j] && !looks[j].lib ==> !looks[j].m.listed && looks[j].m.text + looks[j].m.data == 0
  {
    hide Load, Sizes;
    if j + 1 < n {
      RunPrefix(looks, n - 1, n);
      SkippedOnes(looks, n - 1, j);
      assert Run(looks, n - 1).st.kept[j] == Run(looks, n).st.kept[..n - 1][j];
    } else {
      var st := Run(looks, j).st;
      if looks[j].m.listed && !looks[j].lib {
        KeptFile(st.l, Mark(st.l), Externs(looks[j].m, Sizes(looks, st.kept, j)));
      }
    }
  }

  lemma {:induction false} KeptFile(l: seq<Entry>, mark: Option<nat>, es: seq<Entry>)
    ensures Load(l, mark, es, false).Kept?
  {
  }

  /** The origins of pass 2 are the sizes of pass 1 with the bases added, and the bss passed over. */
  lemma {:induction false} OriginsAgree(looks: seq<Look>, base: Origins, n: nat, m: nat)
    requires n <= m <= |looks| && Run(looks, m).Going?
    ensures var kept := Run(looks, m).st.kept;
      var o := Sizes(looks, kept, n);
      Origins2(looks, kept, base, n)
      == Origins(base.text + o.text, base.data + o.data, base.bss + o.bss + Skipped(looks, kept, n))
  {
    hide Run;
    if n > 0 {
      OriginsAgree(looks, base, n - 1, m);
      SkippedOnes(looks, m, n - 1);
    }
  }

  function Place2(looks: seq<Look>, kept: seq<bool>, base: Origins, j: nat, i: nat): Sym
    requires |kept| == |looks| && j < |looks| && i < |looks[j].m.syms|
  {
    Relocated(looks[j].m.syms[i].sym, looks[j].m, Origins2(looks, kept, base, j))
  }

  /** What pass 1 and `middle` make of a symbol is what pass 2 makes of it, unless it is in bss and bss was passed over
      before it. */
  lemma {:induction false} PassesAgree(looks: seq<Look>, base: Origins, j: nat, i: nat)
    requires j < |looks| && i < |looks[j].m.syms| && Run(looks, |looks|).Going?
    ensures var kept := Run(looks, |looks|).st.kept;
      Plus(Place1(looks, kept, j, i), base) == Place2(looks, kept, base, j, i)
      <==> looks[j].m.syms[i].sym.kind == Bss ==> Skipped(looks, kept, j) == 0
  {
    OriginsAgree(looks, base, j, |looks|);
  }

  /** Pass 2 finds another type or value in the table than it works out for the definition. */
  predicate Disagrees(u: seq<Entry>, looks: seq<Look>, kept: seq<bool>, base: Origins, j: nat, i: nat)
    requires |kept| == |looks| && j < |looks| && i < |looks[j].m.syms|
  {
    var e := looks[j].m.syms[i];
    e.sym.kind != Undf && Value(u, e.name) != Some(Place2(looks, kept, base, j, i))
  }

  /** All definitions of a name are functions, and room had been asked for before each. */
  ghost predicate LeftCommon(looks: seq<Look>, kept: seq<bool>, name: string)
    requires |kept| == |looks|
  {
    forall j: nat, i: nat :: Defines(looks, kept, name, j, i) ==> PassedOver(looks, kept, name, j, i)
  }

  ghost predicate FirstDefinition(looks: seq<Look>, kept: seq<bool>, name: string, j: nat, i: nat)
    requires |kept| == |looks|
  {
    && Defines(looks, kept, name, j, i)
    && forall c: nat, d: nat :: Earlier(c, d, j, i) ==> !Defines(looks, kept, name, c, d)
  }

  /** What the definitions of a name must be like for pass 2 to have nothing to report on it: it is not left common,
      they all put it in one place, and if that is in bss no bss was passed over before the first. */
  ghost predicate Sane(looks: seq<Look>, kept: seq<bool>, base: Origins, name: string)
    requires |kept| == |looks|
  {
    && !LeftCommon(looks, kept, name)
    && (forall j: nat, i: nat, j': nat, i': nat ::
          Defines(looks, kept, name, j, i) && Defines(looks, kept, name, j', i') ==>
            Place2(looks, kept, base, j, i) == Place2(looks, kept, base, j', i'))
    && (forall j: nat, i: nat :: FirstDefinition(looks, kept, name, j, i) && looks[j].m.syms[i].sym.kind == Bss ==>
          Skipped(looks, kept, j) == 0)
  }

  ghost predicate Coherent(looks: seq<Look>, kept: seq<bool>, base: Origins)
    requires |kept| == |looks|
  {
    forall j: nat, i: nat, name: string :: Defines(looks, kept, name, j, i) ==> Sane(looks, kept, base, name)
  }

  /** After pass 1 a name that is defined in a loaded module is common, if it is left so, or has its value from a
      definition. */
  lemma {:induction false} AfterPass1(looks: seq<Look>, name: string, j: nat, i: nat)
    requires Run(looks, |looks|).Going? && forall k :: 0 <= k < |looks| ==> Good(looks[k].m)
    requires Defines(looks, Run(looks, |looks|).st.kept, name, j, i)
    ensures var st := Run(looks, |looks|).st;
      Value(st.l, name).Some?
    ensures var st := Run(looks, |looks|).st;
      var s := Value(st.l, name).value;
      if LeftCommon(looks, st.kept, name) then s.kind == Undf && s.value > 0
      else s.kind != Undf && exists c: nat, d: nat :: Source(looks, st.kept, name, s, c, d)
  {
    hide Run;
    var st := Run(looks, |looks|).st;
    TraceAll(looks, st.kept, |looks|, name);
    assert Earlier(j, i, |looks|, 0);
    var s := Value(st.l, name).value;
    if s.kind == Undf {
      assert LeftCommon(looks, st.kept, name);
      var a: nat, b: nat :| Earlier(a, b, j, i) && Asks(looks, st.kept, name, a, b);
      assert Earlier(a, b, |looks|, 0);
    }
  }

  /** If all definitions of a name are of one kind, the first is where its value is from. */
  lemma {:induction false} SourceFirst(looks: seq<Look>, kept: seq<bool>, name: string, s: Sym, c: nat, d: nat,
                                       j: nat, i: nat)
    requires |kept| == |looks| && Source(looks, kept, name, s, c, d) && FirstDefinition(looks, kept, name, j, i)
    requires looks[j].m.syms[i].sym.kind == Bss
    ensures c == j && d == i
  {
    assert !Earlier(j, i, c, d);
  }

  lemma {:induction false} AFirst(looks: seq<Look>, kept: seq<bool>, name: string, j: nat, i: nat)
    returns (c: nat, d: nat)
    requires |kept| == |looks| && Defines(looks, kept, name, j, i)
    ensures FirstDefinition(looks, kept, name, c, d)
    decreases j, i
  {
    if FirstDefinition(looks, kept, name, j, i) {
      return j, i;
    }
    c, d :| Earlier(c, d, j, i) && Defines(looks, kept, name, c, d);
    c, d := AFirst(looks, kept, name, c, d);
  }

  /** A name with its final value from a definition agrees with it exactly if no bss was passed over before. */
  lemma {:induction false} SourceAgrees(looks: seq<Look>, u: seq<Entry>, base: Origins, name: string, c: nat, d: nat)
    requires Run(looks, |looks|).Going? && Final(Run(looks, |looks|).st.l, u, base)
    requires var st := Run(looks, |looks|).st;
      Value(st.l, name).Some? && Source(looks, st.kept, name, Value(st.l, name).value, c, d)
    ensures var st := Run(looks, |looks|).st;
      && Value(u, name) == Some(Plus(Value(st.l, name).value, base))
      && (Value(u, name) == Some(Place2(looks, st.kept, base, c, d))
          <==> looks[c].m.syms[d].sym.kind == Bss ==> Skipped(looks, st.kept, c) == 0)
  {
    hide Run;
    var st := Run(looks, |looks|).st;
    IndexIs(u, name, Index(st.l, name));
    PassesAgree(looks, base, c, d);
  }

  /** None of the definitions of a name disagrees with the table exactly when the name is sane. */
  lemma {:induction false} NoOdds(looks: seq<Look>, u: seq<Entry>, base: Origins, name: string, j: nat, i: nat)
    requires Run(looks, |looks|).Going? && forall k :: 0 <= k < |looks| ==> Good(looks[k].m)
    requires Final(Run(looks, |looks|).st.l, u, base) && Defines(looks, Run(looks, |looks|).st.kept, name, j, i)
    ensures var kept := Run(looks, |looks|).st.kept;
      (forall c: nat, d: nat :: Defines(looks, kept, name, c, d) ==> !Disagrees(u, looks, kept, base, c, d))
      <==> Sane(looks, kept, base, name)
  {
    hide Run, Source, PassedOver;
    var st := Run(looks, |looks|).st;
    var kept := st.kept;
    AfterPass1(looks, name, j, i);
    if LeftCommon(looks, kept, name) {
      CommonReported(looks, u, base, name, j, i);
    } else {
      var s := Value(st.l, name).value;
      var c: nat, d: nat :| Source(looks, kept, name, s, c, d);
      SourceAgrees(looks, u, base, name, c, d);
      SourceDefines(looks, kept, name, s, c, d);
      var a, b := AFirst(looks, kept, name, j, i);
      if looks[a].m.syms[b].sym.kind == Bss {
        SourceFirst(looks, kept, name, s, c, d, a, b);
      }
      OneKind(looks, kept, base, c, d, a, b);
    }
  }

  lemma {:induction false} SourceDefines(looks: seq<Look>, kept: seq<bool>, name: string, s: Sym, c: nat, d: nat)
    requires |kept| == |looks| && Source(looks, kept, name, s, c, d)
    ensures Defines(looks, kept, name, c, d)
  {
  }

  lemma {:induction false} OneKind(looks: seq<Look>, kept: seq<bool>, base: Origins, j: nat, i: nat, j': nat, i': nat)
    requires |kept| == |looks| && j < |looks| && i < |looks[j].m.syms| && j' < |looks| && i' < |looks[j'].m.syms|
    ensures Place2(looks, kept, base, j, i) == Place2(looks, kept, base, j', i') ==>
              (looks[j].m.syms[i].sym.kind == Bss <==> looks[j'].m.syms[i'].sym.kind == Bss)
  {
  }

  /** A function whose name is left common is reported. */
  lemma {:induction false} CommonReported(looks: seq<Look>, u: seq<Entry>, base: Origins, name: string, j: nat, i: nat)
    requires Run(looks, |looks|).Going? && forall k :: 0 <= k < |looks| ==> Good(looks[k].m)
    requires Final(Run(looks, |looks|).st.l, u, base) && Defines(looks, Run(looks, |looks|).st.kept, name, j, i)
    requires LeftCommon(looks, Run(looks, |looks|).st.kept, name)
    ensures Disagrees(u, looks, Run(looks, |looks|).st.kept, base, j, i)
  {
    hide Run;
    var st := Run(looks, |looks|).st;
    AfterPass1(looks, name, j, i);
    IndexIs(u, name, Index(st.l, name));
    assert PassedOver(looks, st.kept, name, j, i);
  }

  /** Nothing that pass 2 loads disagrees with the table exactly when all names are sane. */
  lemma {:induction false} Agreement(looks: seq<Look>, u: seq<Entry>, base: Origins)
    requires Run(looks, |looks|).Going? && forall k :: 0 <= k < |looks| ==> Good(looks[k].m)
    requires Final(Run(looks, |looks|).st.l, u, base)
    ensures var kept := Run(looks, |looks|).st.kept;
      (forall j: nat, i: nat :: j < |looks| && Loaded(looks, kept, j) && i < |looks[j].m.syms| ==>
         !Disagrees(u, looks, kept, base, j, i))
      <==> Coherent(looks, kept, base)
  {
    hide Run, Sane;
    var kept := Run(looks, |looks|).st.kept;
    forall j: nat, i: nat, name: string | Defines(looks, kept, name, j, i)
      ensures (forall c: nat, d: nat :: Defines(looks, kept, name, c, d) ==> !Disagrees(u, looks, kept, base, c, d))
              <==> Sane(looks, kept, base, name)
    {
      NoOdds(looks, u, base, name, j, i);
    }
    forall j: nat, i: nat | j < |looks| && Loaded(looks, kept, j) && i < |looks[j].m.syms|
      ensures kept[j] && (Disagrees(u, looks, kept, base, j, i) ==> Defines(looks, kept, looks[j].m.syms[i].name, j, i))
    {
      SkippedOnes(looks, |looks|, j);
    }
  }

  // ---------------------------------------------------------------------------------------
  // Consequences and examples

  /** If every name has one definition, no function is asked for as common storage, and no file without symbols has
      bss, nothing is reported. */
  lemma {:induction false} OnceIsCoherent(looks: seq<Look>, kept: seq<bool>, base: Origins)
    requires |kept| == |looks|
    requires forall name: string, j: nat, i: nat, j': nat, i': nat ::
               Defines(looks, kept, name, j, i) && Defines(looks, kept, name, j', i') ==> j == j' && i == i'
    requires forall name: string, j: nat, i: nat :: Defines(looks, kept, name, j, i) ==>
               !PassedOver(looks, kept, name, j, i)
    requires forall j: nat :: j < |looks| && !kept[j] && !looks[j].lib ==> looks[j].m.bss == 0
    ensures Coherent(looks, kept, base)
  {
    hide PassedOver;
    forall j: nat | j < |looks| ensures Skipped(looks, kept, j) == 0 {
      NothingSkipped(looks, kept, j);
    }
  }

  lemma {:induction false} NothingSkipped(looks: seq<Look>, kept: seq<bool>, n: nat)
    requires |kept| == |looks| && n <= |looks|
    requires forall j: nat :: j < |looks| && !kept[j] && !looks[j].lib ==> looks[j].m.bss == 0
    ensures Skipped(looks, kept, n) == 0
  {
    if n > 0 {
      NothingSkipped(looks, kept, n - 1);
    }
  }

  /** One module asks two bytes for a name and the next has a function of it. It is defined once, and reported. */
  lemma {:induction false} OnceButCommon(base: Origins) returns (looks: seq<Look>)
    ensures |looks| == 2 && !looks[0].lib && !looks[1].lib && Good(looks[0].m) && Good(looks[1].m)
    ensures Run(looks, 2).Going? && Run(looks, 2).st.kept == [true, true]
    ensures Defines(looks, [true, true], "x", 1, 0)
    ensures forall name: string, j: nat, i: nat :: Defines(looks, [true, true], name, j, i) ==> j == 1 && i == 0
    ensures !Coherent(looks, [true, true], base)
  {
    hide Run, Place2, Skipped;
    looks := [Look(Module(0, 0, 0, 0, true, [Entry("x", Sym(Undf, 2))]), false),
              Look(Module(4, 4, 0, 0, true, [Entry("x", Sym(Text, 0))]), false)];
    KeptFiles(looks);
    var kept := [true, true];
    assert Mentions(looks, "x", 0, 0) && Mentions(looks, "x", 1, 0);
    assert Asks(looks, kept, "x", 0, 0) && Earlier(0, 0, 1, 0);
    assert PassedOver(looks, kept, "x", 1, 0);
    assert LeftCommon(looks, kept, "x");
    assert !Sane(looks, kept, base, "x");
  }

  /** Files with symbols are kept. */
  lemma {:induction false} KeptFiles(looks: seq<Look>)
    requires |looks| == 2 && forall j :: 0 <= j < 2 ==> looks[j].m.listed && !looks[j].lib
    ensures Run(looks, 2).Going? && Run(looks, 2).st.kept == [true, true]
  {
    hide Load;
    assert Run(looks, 0) == Going(State([], []));
    KeptFile([], None, Externs(looks[0].m, Sizes(looks, [], 0)));
    var st := Run(looks, 1).st;
    KeptFile(st.l, Mark(st.l), Externs(looks[1].m, Sizes(looks, st.kept, 1)));
  }

  /** A file without symbols has four bytes of bss, which pass 1 passes over and pass 2 counts. The next file's one
      bss symbol is reported, though it is defined once. */
  lemma {:induction false} OnceBehindBss(base: Origins) returns (looks: seq<Look>)
    ensures |looks| == 2 && !looks[0].lib && !looks[1].lib && Good(looks[0].m) && Good(looks[1].m)
    ensures Run(looks, 2).Going? && Run(looks, 2).st.kept == [false, true]
    ensures Defines(looks, [false, true], "b", 1, 0)
    ensures forall name: string, j: nat, i: nat :: Defines(looks, [false, true], name, j, i) ==> j == 1 && i == 0
    ensures !Coherent(looks, [false, true], base)
  {
    hide Run, Place2, Skipped;
    looks := [Look(Module(0, 0, 0, 4, false, []), false),
              Look(Module(4, 4, 0, 4, true, [Entry("b", Sym(Bss, 4))]), false)];
    SkippedFirst(looks);
    var kept := [false, true];
    assert Mentions(looks, "b", 1, 0);
    assert FirstDefinition(looks, kept, "b", 1, 0);
    assert !Sane(looks, kept, base, "b");
  }

  lemma {:induction false} SkippedFirst(looks: seq<Look>)
    requires |looks| == 2 && looks[1].m.listed && !looks[0].lib && !looks[1].lib
    requires !looks[0].m.listed && looks[0].m.text + looks[0].m.data == 0
    ensures Run(looks, 2).Going? && Run(looks, 2).st.kept == [false, true]
    ensures Skipped(looks, [false, true], 1) == Round4(looks[0].m.bss)
  {
    hide Load;
    assert Run(looks, 0) == Going(State([], []));
    assert Run(looks, 1) == Going(State([], [false]));
    KeptFile([], None, Externs(looks[1].m, Sizes(looks, [false], 1)));
    assert Skipped(looks, [false, true], 0) == 0;
  }

  /** The first module is a library member with one symbol that nobody asks for. It is ripped out, and the mark stays
      behind it. When the next member is ripped out as well, its symbol stays in the table, though no module that has
      it is loaded. */
  lemma {:induction false} MarkIsLost(a: Entry, x: Entry)
    ensures var looks := [Look(Module(4, 4, 0, 0, true, [a]), true)]; Run(looks, 1) == Lost
    ensures Load([], None, [a], true) == Dropped([], Some(1))
    ensures Load([], Some(1), [x], true) == Dropped([x], Some(1))
  {
    var looks := [Look(Module(4, 4, 0, 0, true, [a]), true)];
    assert Run(looks, 0) == Going(State([], []));
    var es := Externs(looks[0].m, ZERO);
    assert MergeAll([], es, 0) == ([], 0) && MergeAll([], es, 1).1 == 0;
    LostWhen(looks, State([], []));
    One(a);
    One(x);
  }

  lemma {:induction false} One(e: Entry)
    ensures MergeAll([], [e], 1) == ([e], 0)
  {
    var none: seq<Entry> := [];
    assert MergeAll(none, [e], 0) == (none, 0);
    assert Merge(none, e) == ([e], false) by {
      assert none + [e] == [e];
    }
  }
}
