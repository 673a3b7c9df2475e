/** The two passes of the linker over its files: `load1arg`, `step`, `load1`, `nextlibp`, `middle`, `load2arg`
    and `load2` of ld86.c, on the hashed symbol table. */
module LinkPasses {

  import opened Basics
  import opened Layout
  import opened Placement
  import opened LinkTable
  import opened Symbols
  import Segments

  const NROUT := 250
  const LIMIT := Segments.NSEG * NROUT

  /** A file of the command line: an object, or an archive, with the members pass 1 comes to look at, in that
      order, however it chooses them. */
  datatype File = Object(m: Module) | Archive(members: seq<Module>, tries: seq<nat>)

  ghost predicate GoodFile(f: File) {
    match f
    case Object(m) => Good(m)
    case Archive(members, tries) =>
      && (forall i :: 0 <= i < |members| ==> Good(members[i]))
      && (forall i :: 0 <= i < |tries| ==> tries[i] < |members|)
  }

  /** Fine, or the error that ends the run. MarkLost is where the model ends it: from there on the source works with
      a mark that is in no segment, and with names it has freed. */
  datatype Status = Fine | NoNames | TableError | MarkLost | TooManyMembers

  // ---------------------------------------------------------------------------------------
  // What the passes look at

  function FileLooks(f: File): seq<Look>
    requires f.Archive? ==> forall i :: 0 <= i < |f.tries| ==> f.tries[i] < |f.members|
  {
    match f
    case Object(m) => [Look(m, false)]
    case Archive(members, tries) => Tried(members, tries, |tries|)
  }

  function Tried(members: seq<Module>, tries: seq<nat>, n: nat): (looks: seq<Look>)
    requires n <= |tries| && forall i :: 0 <= i < |tries| ==> tries[i] < |members|
    ensures |looks| == n && forall i :: 0 <= i < n ==> looks[i] == Look(members[tries[i]], true)
  {
    if n == 0 then [] else Tried(members, tries, n - 1) + [Look(members[tries[n - 1]], true)]
  }

  /** How many modules the first n files have pass 1 look at. */
  function Count(files: seq<File>, n: nat): nat
    requires n <= |files|
  {
    if n == 0 then 0 else Count(files, n - 1) + if files[n - 1].Archive? then |files[n - 1].tries| else 1
  }

  ghost predicate GoodFiles(files: seq<File>) {
    forall i :: 0 <= i < |files| ==> GoodFile(files[i])
  }

  ghost function AllLooks(files: seq<File>, n: nat): (looks: seq<Look>)
    requires n <= |files| && GoodFiles(files)
    ensures |looks| == Count(files, n)
  {
    if n == 0 then [] else AllLooks(files, n - 1) + FileLooks(files[n - 1])
  }

  lemma {:induction false} LooksPrefix(files: seq<File>, n: nat, m: nat)
    requires n <= m <= |files| && GoodFiles(files)
    ensures AllLooks(files, n) <= AllLooks(files, m)
    decreases m - n
  {
    hide FileLooks;
    if n < m {
      LooksPrefix(files, n, m - 1);
    }
  }

  // ---------------------------------------------------------------------------------------
  // The record of members

  /** Those of the members tried that were kept. */
  function Picked(tries: seq<nat>, flags: seq<bool>, n: nat): seq<int>
    requires n <= |tries| && n <= |flags|
  {
    if n == 0 then [] else Picked(tries, flags, n - 1) + if flags[n - 1] then [tries[n - 1] as int] else []
  }

  /** What is recorded for one file, with -1 at its end if it is an archive. */
  function FileRecord(f: File, flags: seq<bool>): seq<int>
    requires f.Archive? ==> |flags| == |f.tries|
  {
    if f.Archive? then Picked(f.tries, flags, |flags|) + [-1] else []
  }

  function Recorded(files: seq<File>, kept: seq<bool>, n: nat): seq<int>
    requires n <= |files| && Count(files, n) <= |kept|
  {
    if n == 0 then []
    else Recorded(files, kept, n - 1) + FileRecord(files[n - 1], kept[Count(files, n - 1)..Count(files, n)])
  }

  lemma {:induction false} RecordedMore(files: seq<File>, kept: seq<bool>, more: seq<bool>, n: nat)
    requires n <= |files| && Count(files, n) <= |kept| && kept <= more
    ensures Recorded(files, more, n) == Recorded(files, kept, n)
  {
    hide FileRecord;
    if n > 0 {
      assert more[Count(files, n - 1)..Count(files, n)] == kept[Count(files, n - 1)..Count(files, n)];
      RecordedMore(files, kept, more, n - 1);
    }
  }

  lemma {:induction false} PickedOn(tries: seq<nat>, flags: seq<bool>, keep: bool, n: nat)
    requires n < |tries| && n == |flags|
    ensures Picked(tries, flags + [keep], n + 1) == Picked(tries, flags, n) + if keep then [tries[n]] else []
  {
    PickedMore(tries, flags, flags + [keep], n);
  }

  lemma {:induction false} PickedMore(tries: seq<nat>, flags: seq<bool>, more: seq<bool>, n: nat)
    requires n <= |tries| && n <= |flags| && flags <= more
    ensures Picked(tries, more, n) == Picked(tries, flags, n)
  {
    if n > 0 {
      PickedMore(tries, flags, more, n - 1);
    }
  }

  /** libseg: segments of at most NROUT members, filled and then read back in order. */
  class LibList {
    var segs: seq<seq<int>>
    var cur: nat
    var used2: seq<nat>

    ghost predicate Valid()
      reads this
    {
      && 0 < |segs| <= Segments.NSEG && cur < |segs| == |used2|
      && (forall i :: 0 <= i < |segs| - 1 ==> |segs[i]| == NROUT) && |segs[|segs| - 1]| <= NROUT
      && (forall i :: 0 <= i < |segs| ==> used2[i] <= |segs[i]|)
    }

    /** All that has been recorded. */
    ghost function All(): seq<int>
      reads this
    {
      Join(segs)
    }

    /** Being filled: the last segment is current, and nothing has been read. */
    ghost predicate Filling()
      reads this
    {
      Valid() && cur == |segs| - 1 && forall i :: 0 <= i < |segs| ==> used2[i] == 0
    }

    /** Being read: everything before the current place has been, nothing behind it. */
    ghost predicate ReadTo(pos: nat)
      reads this
    {
      && Valid() && pos == cur * NROUT + used2[cur]
      && forall i :: cur < i < |segs| ==> used2[i] == 0
    }

    constructor ()
      ensures Filling() && All() == []
    {
      segs, cur, used2 := [[]], 0, [0];
    }

    /** `nextlibp`; fails when there are too many. */
    method Add(val: int) returns (ok: bool)
      requires Filling()
      modifies this
      ensures ok == (|old(All())| < LIMIT) && (!ok ==> |All()| == LIMIT)
      ensures Filling() && All() == if ok then old(All()) + [val] else old(All())
    {
      hide Join;
      JoinSize(segs);
      if |segs[cur]| == NROUT {
        if cur + 1 == Segments.NSEG {
          return false;
        }
        cur := cur + 1;
        segs := segs + [[]];
        used2 := used2 + [0];
        JoinEmpty(old(segs));
      }
      JoinLast(segs, val);
      segs := segs[cur := segs[cur] + [val]];
      return true;
    }

    /** `clibseg = libseg` between the passes */
    method Rewind()
      requires Filling()
      modifies this`cur
      ensures ReadTo(0) && All() == old(All())
    {
      cur := 0;
    }

    /** The next recorded member. */
    method Next(ghost pos: nat) returns (loc: int)
      requires ReadTo(pos) && pos < |All()|
      modifies this
      ensures ReadTo(pos + 1) && loc == old(All())[pos] && All() == old(All())
    {
      hide Join;
      JoinSize(segs);
      if used2[cur] == |segs[cur]| {
        cur := cur + 1;
      }
      JoinAt(segs, cur, used2[cur]);
      loc := segs[cur][used2[cur]];
      used2 := used2[cur := used2[cur] + 1];
    }
  }

  /** Pass 1 over these modules has come to this. */
  ghost predicate RunsTo(looks: seq<Look>, kept: seq<bool>, l: seq<Entry>, o: Origins) {
    && (forall j :: 0 <= j < |looks| ==> Good(looks[j].m))
    && Run(looks, |looks|) == Going(State(l, kept)) && o == Sizes(looks, kept, |looks|)
  }

  predicate LastHas(looks: seq<Look>, name: string) {
    looks != [] && exists e :: e in looks[|looks| - 1].m.syms && e.name == name
  }

  lemma {:induction false} LastNamed(looks: seq<Look>, m: Module, o: Origins, lib: bool, syms: SymbolTable)
    requires looks != [] && looks[|looks| - 1] == Look(m, lib)
    requires exists e :: e in Externs(m, o) && Refuses(syms, e.name)
    ensures exists name :: Refuses(syms, name) && LastHas(looks, name)
  {
    hide Refuses;
    var e :| e in Externs(m, o) && Refuses(syms, e.name);
    var i: nat :| i < |m.syms| && Externs(m, o)[i] == e;
    assert m.syms[i] in looks[|looks| - 1].m.syms;
  }

  /** The table has every symbol of what pass 2 loads. */
  predicate AllNamed(u: seq<Entry>, looks: seq<Look>, kept: seq<bool>)
    requires |looks| == |kept|
  {
    forall j: nat, i: nat :: j < |looks| && Loaded(looks, kept, j) && i < |looks[j].m.syms| ==>
      Index(u, looks[j].m.syms[i].name) < |u|
  }

  /** No definition in the first p modules disagrees with the table. */
  predicate Agreed(u: seq<Entry>, looks: seq<Look>, kept: seq<bool>, base: Origins, p: nat)
    requires p <= |looks| == |kept|
  {
    forall j: nat, i: nat :: j < p && Loaded(looks, kept, j) && i < |looks[j].m.syms| ==>
      !Disagrees(u, looks, kept, base, j, i)
  }

  /** From pos on, all reads part. */
  predicate Holds(all: seq<int>, pos: nat, part: seq<int>) {
    pos + |part| <= |all| && forall i :: 0 <= i < |part| ==> all[pos + i] == part[i]
  }

  lemma {:induction false} HoldsAt(all: seq<int>, pos: nat, part: seq<int>, i: nat)
    requires Holds(all, pos, part) && i < |part|
    ensures pos + |part| <= |all| && all[pos + i] == part[i]
  {
  }

  /** The file is the next one to be looked at again from p on, and its record begins at pos. */
  ghost predicate Ahead(f: File, looks: seq<Look>, kept: seq<bool>, p: nat, all: seq<int>, pos: nat)
    requires GoodFile(f)
  {
    var n := |FileLooks(f)|;
    && p + n <= |looks| == |kept| && looks[p..p + n] == FileLooks(f)
    && Holds(all, pos, FileRecord(f, kept[p..p + n]))
  }

  lemma {:induction false} PickedNone(tries: seq<nat>, flags: seq<bool>)
    ensures Picked(tries, flags, 0) == []
  {
  }

  /** The next member kept from q on, if there is one: what was picked next. */
  lemma {:induction false} PickedAt(tries: seq<nat>, flags: seq<bool>, q: nat) returns (next: nat)
    requires q <= |tries| == |flags|
    ensures q <= next <= |tries| && forall j :: q <= j < next ==> !flags[j]
    ensures var (rec, i) := (Picked(tries, flags, |tries|), |Picked(tries, flags, q)|);
      && i <= |rec|
      && if next == |tries| then i == |rec|
         else flags[next] && i < |rec| && rec[i] == tries[next] && |Picked(tries, flags, next + 1)| == i + 1 <= |rec|
    decreases |tries| - q
  {
    if q == |tries| {
      next := q;
    } else if flags[q] {
      next := q;
      PickedPrefix(tries, flags, q + 1, |tries|);
    } else {
      next := PickedAt(tries, flags, q + 1);
    }
  }

  lemma {:induction false} PickedPrefix(tries: seq<nat>, flags: seq<bool>, n: nat, m: nat)
    requires n <= m <= |tries| && m <= |flags|
    ensures Picked(tries, flags, n) <= Picked(tries, flags, m)
    decreases m - n
  {
    if n < m {
      PickedPrefix(tries, flags, n, m - 1);
    }
  }

  class Linker {
    const syms: SymbolTable
    const libs: LibList
    var tsize: int
    var dsize: int
    var bsize: int
    var torigin: int
    var dorigin: int
    var borigin: int
    // names reported as multiply defined
    var reported: seq<string>
    // the modules pass 1 has looked at so far, and which of them it has kept
    ghost var looks: seq<Look>
    ghost var kept: seq<bool>

    /** The objects are different ones. */
    ghost predicate Apart()
      reads this, syms
    {
      this !in syms.Repr && libs !in syms.Repr && syms !in syms.Repr && this as object != syms && this as object != libs
      && syms as object != libs
    }

    /** What pass 1 has made of the modules it has looked at is what the specification makes of them. */
    ghost predicate Tabled()
      reads this, syms, syms.Repr
    {
      && Apart() && syms.Valid() && Marked(syms.Contents(), Segments.Number(syms.nextsym))
      && RunsTo(looks, kept, syms.Contents(), Origins(tsize, dsize, bsize))
    }

    ghost predicate Pass1()
      reads this, libs, syms, syms.Repr
    {
      libs.Filling() && Tabled()
    }

    constructor ()
      ensures Pass1() && looks == [] && libs.All() == [] && reported == []
      ensures fresh(libs) && fresh(syms) && fresh(syms.Repr)
    {
      hide RunsTo, Consistent, Listed, Join, Marked;
      tsize, dsize, bsize, reported, looks, kept := 0, 0, 0, [], [], [];
      syms := new SymbolTable();
      libs := new LibList();
      new;
      RunsNone();
    }

    /** `load1` of a file with symbols */
    method LoadListed(m: Module, libflg: bool) returns (status: Status, keep: bool)
      requires Tabled() && Good(m) && m.listed
      modifies this`tsize, this`dsize, this`bsize, this`looks, this`kept, syms, syms.Repr
      ensures Apart() && fresh(syms.Repr - old(syms.Repr)) && looks == old(looks) + [Look(m, libflg)]
      ensures status == Fine ==> Tabled() && kept == old(kept) + [keep]
      ensures status == MarkLost ==> Run(looks, |looks|) == Lost
      ensures status == TableError ==> TableFails()
      ensures status == Fine || status == MarkLost || status == TableError
    {
      hide Load, RunsTo, Consistent, Listed, Refuses;
      ghost var k, l := Look(m, libflg), syms.Contents();
      var o := Origins(tsize, dsize, bsize);
      var fate := LoadSymbols(Externs(m, o), libflg);
      RunsOn(looks, kept, l, o, k);
      looks := looks + [k];
      match fate
      case Kept =>
        tsize, dsize, bsize := tsize + m.text, dsize + Round4(m.data), bsize + Round4(m.bss);
        kept := kept + [true];
        return Fine, true;
      case Dropped =>
        kept := kept + [false];
        return Fine, false;
      case Failed =>
        LastNamed(looks, m, o, libflg, syms);
        return TableError, false;
      case Botched => return MarkLost, false;
    }

    /** `load1`: passes over a file without symbols, text and data. */
    method Load1(m: Module, libflg: bool) returns (status: Status, keep: bool)
      requires Tabled() && Good(m)
      modifies this`tsize, this`dsize, this`bsize, this`looks, this`kept, syms, syms.Repr
      ensures Apart() && fresh(syms.Repr - old(syms.Repr)) && looks == old(looks) + [Look(m, libflg)]
      ensures status == Fine ==> Tabled() && kept == old(kept) + [keep]
      ensures status == NoNames ==> Run(looks, |looks|) == NoNamelist
      ensures status == MarkLost ==> Run(looks, |looks|) == Lost
      ensures status == TableError ==> TableFails()
      ensures status != TooManyMembers
    {
      hide RunsTo, Consistent, Listed, Refuses;
      if m.listed {
        status, keep := LoadListed(m, libflg);
        return;
      }
      RunsOver(looks, kept, syms.Contents(), Origins(tsize, dsize, bsize), Look(m, libflg));
      looks := looks + [Look(m, libflg)];
      if m.text + m.data != 0 {
        return NoNames, false;
      }
      kept := kept + [false];
      return Fine, false;
    }

    /** The table refuses a name that the module last looked at has a symbol of. */
    ghost predicate TableFails()
      reads this, syms, syms.Repr
    {
      exists name :: Refuses(syms, name) && LastHas(looks, name)
    }

    /** The table refuses a name of the linker's own. */
    ghost predicate OwnFails()
      reads this, syms, syms.Repr
    {
      Refuses(syms, "_etext") || Refuses(syms, "_edata") || Refuses(syms, "_end")
    }

    /** The symbols of `load1`. A mark that is lost is taken for the botch it leads to. */
    method LoadSymbols(es: seq<Entry>, libflg: bool) returns (fate: Fate)
      requires Apart() && syms.Valid() && Marked(syms.Contents(), Segments.Number(syms.nextsym))
      modifies syms, syms.Repr
      ensures Apart() && fresh(syms.Repr - old(syms.Repr)) && syms.Valid()
      ensures var r, c := Load(old(syms.Contents()), Mark(old(syms.Contents())), es, libflg), syms.Contents();
        && (fate == Fate.Kept || fate == Fate.Dropped ==> Marked(c, Segments.Number(syms.nextsym)))
        && (fate == Fate.Kept ==> r == Symbols.Kept(c, Mark(c)))
        && (fate == Fate.Dropped ==> r == Symbols.Dropped(c, Mark(c)))
        && (fate == Botched ==> r.Dropped? && !Marked(r.l, r.mark))
      ensures fate == Failed ==> exists e :: e in es && Refuses(syms, e.name)
    {
      hide Load, Consistent, Listed, Refuses;
      var savnext := syms.nextsym;
      LoadMarked(syms.Contents(), Segments.Number(savnext), es, libflg);
      fate := syms.Load1(es, libflg);
      if fate == Fate.Dropped && savnext.Null? && syms.nextsym.At? {
        fate := Botched;
      }
    }

    /** A member of an archive; if it is kept, its place is recorded. */
    method Load1Member(m: Module, loc: int) returns (status: Status)
      requires Pass1() && Good(m)
      modifies this`tsize, this`dsize, this`bsize, this`looks, this`kept, syms, syms.Repr, libs
      ensures Apart() && fresh(syms.Repr - old(syms.Repr)) && looks == old(looks) + [Look(m, true)]
      ensures status == Fine ==>
                && Pass1() && old(kept) <= kept && |kept| == |old(kept)| + 1
                && libs.All() == old(libs.All()) + if kept[|old(kept)|] then [loc] else []
      ensures status != Fine ==> Stopped(status)
    {
      hide RunsTo, Consistent, Listed, Refuses, Good, Marked, Run, Join, LastHas;
      var keep;
      status, keep := Load1(m, true);
      if status == Fine && keep {
        var ok := libs.Add(loc);
        if !ok {
          status := TooManyMembers;
        }
      }
    }

    /** The members of an archive that pass 1 looks at; those kept are recorded. */
    method Load1Members(members: seq<Module>, tries: seq<nat>) returns (status: Status)
      requires Pass1() && GoodFile(Archive(members, tries))
      modifies this`tsize, this`dsize, this`bsize, this`looks, this`kept, syms, syms.Repr, libs
      ensures Apart() && fresh(syms.Repr - old(syms.Repr))
      ensures status == Fine ==>
                && Pass1() && looks == old(looks) + Tried(members, tries, |tries|)
                && old(kept) <= kept && |kept| == |old(kept)| + |tries|
                && libs.All() == old(libs.All()) + Picked(tries, kept[|old(kept)|..], |tries|)
      ensures status != Fine ==> Stopped(status) && looks <= old(looks) + Tried(members, tries, |tries|)
    {
      hide RunsTo, Consistent, Listed, Refuses, Good, Tried, Picked, Marked, Run, Join, LastHas;
      PickedNone(tries, kept[|kept|..]);
      TriedNone(members, tries);
      ghost var k := |kept|;
      var i := 0;
      while i < |tries|
        invariant i <= |tries| && Pass1() && fresh(syms.Repr - old(syms.Repr))
        invariant looks == old(looks) + Tried(members, tries, i)
        invariant old(kept) <= kept && |kept| == k + i
        invariant libs.All() == old(libs.All()) + Picked(tries, kept[k..], i)
      {
        TriedMore(members, tries, i);
        ghost var flags := kept[k..];
        status := Load1Member(members[tries[i]], tries[i]);
        Further(old(looks), Tried(members, tries, i), [Look(members[tries[i]], true)], Tried(members, tries, |tries|));
        if status != Fine {
          return;
        }
        FlagsOn(kept, flags, k);
        PickedOn(tries, flags, kept[k + i], i);
        Further(old(libs.All()), Picked(tries, flags, i), if kept[k + i] then [tries[i]] else [], []);
        i := i + 1;
      }
      status := Fine;
    }

    /** `load1arg` */
    method Load1Arg(f: File) returns (status: Status)
      requires Pass1() && GoodFile(f)
      modifies this`tsize, this`dsize, this`bsize, this`looks, this`kept, syms, syms.Repr, libs
      ensures Apart() && fresh(syms.Repr - old(syms.Repr))
      ensures status == Fine ==>
                && Pass1() && looks == old(looks) + FileLooks(f)
                && old(kept) <= kept && |kept| == |old(kept)| + |FileLooks(f)|
                && libs.All() == old(libs.All()) + FileRecord(f, kept[|old(kept)|..])
      ensures status != Fine ==> Stopped(status) && looks <= old(looks) + FileLooks(f)
    {
      hide RunsTo, Consistent, Listed, Refuses, Good, Picked, Tried, Run, Join;
      match f
      case Object(m) =>
        var keep;
        status, keep := Load1(m, false);
      case Archive(members, tries) => status := Load1Archive(members, tries);
    }

    /** A whole archive, with the end of its record. */
    method Load1Archive(members: seq<Module>, tries: seq<nat>) returns (status: Status)
      requires Pass1() && GoodFile(Archive(members, tries))
      modifies this`tsize, this`dsize, this`bsize, this`looks, this`kept, syms, syms.Repr, libs
      ensures Apart() && fresh(syms.Repr - old(syms.Repr))
      ensures status == Fine ==>
                && Pass1() && looks == old(looks) + Tried(members, tries, |tries|)
                && old(kept) <= kept && |kept| == |old(kept)| + |tries|
                && libs.All() == old(libs.All()) + (Picked(tries, kept[|old(kept)|..], |tries|) + [-1])
      ensures status != Fine ==> Stopped(status) && looks <= old(looks) + Tried(members, tries, |tries|)
    {
      hide RunsTo, Consistent, Listed, Refuses, Good, Picked, Tried, Run, Join;
      status := Load1Members(members, tries);
      if status == Fine {
        var ok := libs.Add(-1);
        if !ok {
          status := TooManyMembers;
        }
      }
    }

    /** The first pass over the command line. */
    method LoadAll(files: seq<File>) returns (status: Status)
      requires Pass1() && looks == [] && libs.All() == [] && GoodFiles(files)
      modifies this`tsize, this`dsize, this`bsize, this`looks, this`kept, syms, syms.Repr, libs
      ensures Apart() && fresh(syms.Repr - old(syms.Repr))
      ensures status == Fine ==>
                && Pass1() && looks == AllLooks(files, |files|) && |kept| == |looks|
                && libs.All() == Recorded(files, kept, |files|)
      ensures status != Fine ==> Stopped(status) && looks <= AllLooks(files, |files|)
    {
      hide RunsTo, Consistent, Listed, Refuses, Good, FileRecord, FileLooks, Recorded;
      RunsSize(looks, kept, syms.Contents(), Origins(tsize, dsize, bsize));
      NoneRecorded(files, kept);
      var n := 0;
      while n < |files|
        invariant n <= |files| && Pass1() && fresh(syms.Repr - old(syms.Repr))
        invariant looks == AllLooks(files, n) && |kept| == |looks| && libs.All() == Recorded(files, kept, n)
      {
        ghost var was := kept;
        LooksPrefix(files, n + 1, |files|);
        status := Load1Arg(files[n]);
        if status != Fine {
          return;
        }
        RecordedNext(files, was, kept, n);
        n := n + 1;
      }
      status := Fine;
    }

    /** `ldrsym`, for a symbol looked up before */
    method LoaderSymbol(p: Option<nat>, name: string, s: Sym)
      requires syms.Valid() && NumberOf(syms.Contents(), name, p)
      modifies set g | 0 <= g < |syms.segs| :: syms.segs[g].first
      ensures syms.Valid() && syms.Contents() == Special(old(syms.Contents()), name, s)
    {
      hide Index, Consistent, Listed;
      if p.None? {
        return;
      }
      var e := syms.Get(p.value);
      if e.sym.kind != Undf || e.sym.value != 0 {
        return;
      }
      syms.Set(p.value, s.kind, s.value);
    }

    /** Names of the linker's own. */
    method LoaderSymbols(petext: Option<nat>, pedata: Option<nat>, pend: Option<nat>)
      requires syms.Valid()
      requires NumberOf(syms.Contents(), "_etext", petext) && NumberOf(syms.Contents(), "_edata", pedata)
      requires NumberOf(syms.Contents(), "_end", pend)
      modifies set g | 0 <= g < |syms.segs| :: syms.segs[g].first
      ensures syms.Valid() && syms.Contents() == Specials(old(syms.Contents()), Origins(tsize, dsize, bsize))
    {
      hide Index, Special, Consistent, Listed;
      ghost var l := syms.Contents();
      LoaderSymbol(petext, "_etext", Sym(Text, tsize));
      NumberStays(l, syms.Contents(), "_edata", pedata);
      NumberStays(l, syms.Contents(), "_end", pend);
      LoaderSymbol(pedata, "_edata", Sym(Data, dsize));
      NumberStays(l, syms.Contents(), "_end", pend);
      LoaderSymbol(pend, "_end", Sym(Bss, bsize));
    }

    /** Room for the common symbols. */
    method Commons(n: nat) returns (csize: int)
      requires syms.Valid() && n == |syms.Contents()|
      modifies set g | 0 <= g < |syms.segs| :: syms.segs[g].first
      ensures syms.Valid() && (syms.Contents(), csize) == Allot(old(syms.Contents()), n)
    {
      hide Consistent, Listed, RoundUp, Allot;
      ghost var l := syms.Contents();
      AllotNone(l);
      csize := 0;
      var i := 0;
      while i < n
        invariant i <= n && syms.Valid() && (syms.Contents(), csize) == Allot(l, i)
      {
        AllotNext(l, i);
        var e := syms.Get(i);
        if e.sym.kind == Undf && e.sym.value != 0 {
          csize := RoundUp(csize, Alignment(e.sym.value));
          syms.Set(i, Comm, csize);
          csize := csize + e.sym.value;
        }
        i := i + 1;
      }
    }

    /** Final values. */
    method Finish(n: nat, base: Origins, corigin: int)
      requires syms.Valid() && n == |syms.Contents()|
      modifies set g | 0 <= g < |syms.segs| :: syms.segs[g].first
      ensures syms.Valid() && syms.Contents() == AllFinished(old(syms.Contents()), base, corigin)
    {
      hide Consistent, Listed;
      ghost var l := syms.Contents();
      var i := 0;
      while i < n
        invariant i <= n && syms.Valid() && |syms.Contents()| == n
        invariant forall j :: 0 <= j < i ==> syms.Contents()[j] == AllFinished(l, base, corigin)[j]
        invariant forall j :: i <= j < n ==> syms.Contents()[j] == l[j]
      {
        var e := syms.Get(i);
        var s := Finished(e.sym, base, corigin);
        syms.Set(i, s.kind, s.value);
        i := i + 1;
      }
    }

    /** What `middle` does with the names of the linker's own and the common symbols. */
    method Allots(allot: bool, petext: Option<nat>, pedata: Option<nat>, pend: Option<nat>, n: nat)
      returns (csize: int)
      requires syms.Valid() && n == |syms.Contents()|
      requires NumberOf(syms.Contents(), "_etext", petext) && NumberOf(syms.Contents(), "_edata", pedata)
      requires NumberOf(syms.Contents(), "_end", pend)
      modifies set g | 0 <= g < |syms.segs| :: syms.segs[g].first
      ensures syms.Valid()
      ensures (syms.Contents(), csize) == Allotted(old(syms.Contents()), Origins(tsize, dsize, bsize), allot)
    {
      hide Index, Specials, Allot, Consistent, Listed;
      csize := 0;
      if allot {
        LoaderSymbols(petext, pedata, pend);
        csize := Commons(n);
      }
    }

    /** The three `slookup`s of `middle` */
    method FindLoaderSymbols() returns (ok: bool, petext: Option<nat>, pedata: Option<nat>, pend: Option<nat>)
      requires Apart() && syms.Valid()
      modifies syms
      ensures Apart() && syms.Valid() && fresh(syms.Repr - old(syms.Repr))
      ensures syms.Contents() == old(syms.Contents()) && syms.nextsym == old(syms.nextsym)
      ensures ok ==> NumberOf(syms.Contents(), "_etext", petext) && NumberOf(syms.Contents(), "_edata", pedata)
      ensures ok ==> NumberOf(syms.Contents(), "_end", pend)
      ensures !ok ==> OwnFails()
    {
      hide Index, Consistent, Listed, Refuses;
      petext, pedata, pend := None, None, None;
      ok, petext := syms.Find("_etext");
      if ok {
        ok, pedata := syms.Find("_edata");
        if ok {
          ok, pend := syms.Find("_end");
        }
      }
    }

    /** `middle`, when its symbols have been looked up. */
    method Place(textbase: int, align: nat, hsize: int, allot: bool, n: nat, petext: Option<nat>, pedata: Option<nat>,
                 pend: Option<nat>)
      returns (base: Origins)
      requires Apart() && syms.Valid() && align > 0 && n == |syms.Contents()|
      requires NumberOf(syms.Contents(), "_etext", petext) && NumberOf(syms.Contents(), "_edata", pedata)
      requires NumberOf(syms.Contents(), "_end", pend)
      modifies this`torigin, this`dorigin, this`borigin, syms.Repr
      ensures Apart() && syms.Valid() && syms.Repr == old(syms.Repr)
      ensures (syms.Contents(), base)
        == Layout.Middle(old(syms.Contents()), Origins(tsize, dsize, bsize), textbase, align, hsize, allot)
      ensures base == Origins(torigin, dorigin, borigin)
    {
      hide Index, RunsTo, Allotted, RoundUp, AllFinished, Layout.Middle;
      hide Consistent, Listed, Refuses;
      ghost var l := syms.Contents();
      var database := RoundUp(tsize + textbase, align) + hsize;
      Footprint(syms);
      var csize := Allots(allot, petext, pedata, pend, n);
      torigin, dorigin := textbase, database;
      var corigin := dorigin + dsize;
      borigin := corigin + Round4(csize);
      base := Origins(torigin, dorigin, borigin);
      Footprint(syms);
      MiddleParts(l, Origins(tsize, dsize, bsize), textbase, align, hsize, allot);
      Finish(n, base, corigin);
    }

    /** `middle`. The text starts at textbase; the data behind it, aligned, hsize further. */
    method Middle(textbase: int, align: nat, hsize: int, allot: bool) returns (status: Status, base: Origins)
      requires Tabled() && align > 0
      modifies this`torigin, this`dorigin, this`borigin, syms, syms.Repr
      ensures Apart() && syms.Valid() && fresh(syms.Repr - old(syms.Repr))
      ensures status == Fine ==>
                && (syms.Contents(), base)
                   == Layout.Middle(old(syms.Contents()), Origins(tsize, dsize, bsize), textbase, align, hsize, allot)
                && base == Origins(torigin, dorigin, borigin)
      ensures status != Fine ==> status == TableError && OwnFails()
    {
      hide Index, RunsTo, Layout.Middle, Consistent, Listed, Refuses;
      base := ZERO;
      var ok, petext, pedata, pend := FindLoaderSymbols();
      if !ok {
        return TableError, ZERO;
      }
      var n := syms.Count();
      base := Place(textbase, align, hsize, allot, n, petext, pedata, pend);
      status := Fine;
    }

    /** What pass 2 has to go by: the final table, with all symbols of what it loads, and the origins in front of
        module p. */
    ghost predicate Pass2(u: seq<Entry>, base: Origins, p: nat)
      reads this, syms, syms.Repr
    {
      && Apart() && syms.Valid() && syms.Contents() == u && p <= |looks| == |kept|
      && Origins(torigin, dorigin, borigin) == Origins2(looks, kept, base, p) && AllNamed(u, looks, kept)
    }

    /** The symbols of `load2`: definitions are looked up, and compared with what they come to here. */
    method CheckAll(m: Module, o: Origins, ghost u: seq<Entry>, ghost base: Origins, ghost p: nat)
      requires Pass2(u, base, p) && p < |looks| && looks[p].m == m && Loaded(looks, kept, p)
      requires o == Origins(torigin, dorigin, borigin)
      modifies this`reported, syms
      ensures Pass2(u, base, p) && fresh(syms.Repr - old(syms.Repr)) && |old(reported)| <= |reported|
      ensures |reported| == |old(reported)| <==>
              forall i: nat :: i < |m.syms| ==> !Disagrees(u, looks, kept, base, p, i)
    {
      hide Index, Origins2, Consistent, Listed, Refuses;
      var i := 0;
      ghost var was, at := |reported|, 0;
      while i < |m.syms|
        invariant i <= |m.syms| && was <= |reported| && Pass2(u, base, p) && fresh(syms.Repr - old(syms.Repr))
        invariant |reported| == was ==> forall j: nat :: j < i ==> !Disagrees(u, looks, kept, base, p, j)
        invariant |reported| > was ==> at < i && Disagrees(u, looks, kept, base, p, at)
      {
        var e := m.syms[i];
        var ok, r := syms.Find(e.name);
        if e.sym.kind != Undf {
          var s := syms.Get(r.value);
          if s.sym != Relocated(e.sym, m, o) {
            reported, at := reported + [e.name], i;
          }
        }
        i := i + 1;
      }
    }

    /** `load2` */
    method Load2(m: Module, ghost u: seq<Entry>, ghost base: Origins, ghost p: nat)
      requires Pass2(u, base, p) && p < |looks| && looks[p].m == m && Loaded(looks, kept, p)
      requires reported == [] <==> Agreed(u, looks, kept, base, p)
      modifies this`reported, this`torigin, this`dorigin, this`borigin, syms
      ensures Pass2(u, base, p + 1) && fresh(syms.Repr - old(syms.Repr))
      ensures reported == [] <==> Agreed(u, looks, kept, base, p + 1)
    {
      hide Consistent, Listed, Refuses, AllNamed, Disagrees;
      CheckAll(m, Origins(torigin, dorigin, borigin), u, base, p);
      torigin, dorigin, borigin := torigin + m.text, dorigin + Round4(m.data), borigin + Round4(m.bss);
    }

    /** Members that were not kept make no difference on pass 2. */
    lemma {:induction false} PassOver(u: seq<Entry>, base: Origins, p: nat, q: nat)
      requires Pass2(u, base, p) && p <= q <= |looks| && forall j :: p <= j < q ==> !Loaded(looks, kept, j)
      ensures Pass2(u, base, q) && (Agreed(u, looks, kept, base, q) <==> Agreed(u, looks, kept, base, p))
      decreases q
    {
      hide Consistent, Listed, Disagrees, AllNamed;
      if p < q {
        PassOver(u, base, p, q - 1);
      }
    }

    /** On to the next member of an archive that was kept. */
    lemma {:induction false} PassToNext(members: seq<Module>, tries: seq<nat>, u: seq<Entry>, base: Origins, p: nat,
                                        q: nat)
      returns (next: nat)
      requires Pass2(u, base, p + q) && q <= |tries| && p + |tries| <= |looks|
      requires forall i :: 0 <= i < |tries| ==> tries[i] < |members| && looks[p + i] == Look(members[tries[i]], true)
      ensures q <= next <= |tries| && Pass2(u, base, p + next)
      ensures Agreed(u, looks, kept, base, p + next) <==> Agreed(u, looks, kept, base, p + q)
      ensures var (rec, i) := (Picked(tries, kept[p..p + |tries|], |tries|), |Picked(tries, kept[p..p + |tries|], q)|);
        && i <= |rec|
        && if next == |tries| then i == |rec|
           else
             && kept[p + next] && i < |rec| && rec[i] == tries[next]
             && |Picked(tries, kept[p..p + |tries|], next + 1)| == i + 1 <= |rec|
    {
      hide Consistent, Listed, Disagrees, AllNamed, Agreed, Origins2, Picked;
      var flags := kept[p..p + |tries|];
      next := PickedAt(tries, flags, q);
      forall j: nat | p + q <= j < p + next ensures !Loaded(looks, kept, j) {
        var i := j - p;
        assert kept[j] == flags[i] && looks[p + i] == Look(members[tries[i]], true);
      }
      PassOver(u, base, p + q, p + next);
    }

    /** The members of an archive that pass 1 recorded, up to the -1 behind them. */
    method Load2Members(members: seq<Module>, ghost tries: seq<nat>, ghost u: seq<Entry>, ghost base: Origins,
                        ghost p: nat, ghost pos: nat)
      requires Pass2(u, base, p) && p + |tries| <= |looks| && (reported == [] <==> Agreed(u, looks, kept, base, p))
      requires forall i :: 0 <= i < |tries| ==> tries[i] < |members| && looks[p + i] == Look(members[tries[i]], true)
      requires libs.ReadTo(pos) && Holds(libs.All(), pos, Picked(tries, kept[p..p + |tries|], |tries|) + [-1])
      modifies this`reported, this`torigin, this`dorigin, this`borigin, syms, libs
      ensures Pass2(u, base, p + |tries|) && fresh(syms.Repr - old(syms.Repr))
      ensures reported == [] <==> Agreed(u, looks, kept, base, p + |tries|)
      ensures libs.All() == old(libs.All())
      ensures libs.ReadTo(pos + |Picked(tries, kept[p..p + |tries|], |tries|)| + 1)
    {
      hide Consistent, Listed, Refuses, AllNamed, Disagrees, Agreed, Origins2, Picked, Join, Holds;
      ghost var flags := kept[p..p + |tries|];
      ghost var rec := Picked(tries, flags, |tries|);
      ghost var i: nat, q: nat := 0, 0;
      PickedNone(tries, flags);
      while true
        invariant q <= |tries| && i == |Picked(tries, flags, q)| <= |rec|
        invariant Pass2(u, base, p + q) && fresh(syms.Repr - old(syms.Repr))
        invariant reported == [] <==> Agreed(u, looks, kept, base, p + q)
        invariant libs.ReadTo(pos + i) && libs.All() == old(libs.All())
        decreases |tries| - q
      {
        HoldsAt(libs.All(), pos, rec + [-1], i);
        var loc := libs.Next(pos + i);
        ghost var next := PassToNext(members, tries, u, base, p, q);
        if loc == -1 {
          q := next;
          break;
        }
        Load2(members[loc], u, base, p + next);
        i, q := i + 1, next + 1;
      }
    }

    /** `load2arg` */
    method Load2Arg(f: File, ghost u: seq<Entry>, ghost base: Origins, ghost p: nat, ghost pos: nat)
      requires Pass2(u, base, p) && GoodFile(f) && (reported == [] <==> Agreed(u, looks, kept, base, p))
      requires libs.ReadTo(pos) && Ahead(f, looks, kept, p, libs.All(), pos)
      modifies this`reported, this`torigin, this`dorigin, this`borigin, syms, libs
      ensures var n := |FileLooks(f)|;
        && Pass2(u, base, p + n) && fresh(syms.Repr - old(syms.Repr))
        && (reported == [] <==> Agreed(u, looks, kept, base, p + n))
        && libs.All() == old(libs.All()) && libs.ReadTo(pos + |FileRecord(f, kept[p..p + n])|)
    {
      hide Consistent, Listed, Refuses, AllNamed, Disagrees, Agreed, Origins2, Picked, Join, Good, Holds;
      ghost var part := looks[p..p + |FileLooks(f)|];
      match f
      case Object(m) =>
        assert looks[p] == part[0];
        Load2(m, u, base, p);
      case Archive(members, tries) =>
        forall i | 0 <= i < |tries| ensures looks[p + i] == Look(members[tries[i]], true) {
          assert looks[p + i] == part[i];
        }
        Load2Members(members, tries, u, base, p, pos);
    }

    /** The second pass over the command line. */
    method LoadAgain(files: seq<File>, ghost u: seq<Entry>, ghost base: Origins)
      requires Pass2(u, base, 0) && reported == [] && libs.ReadTo(0) && GoodFiles(files)
      requires looks == AllLooks(files, |files|) && libs.All() == Recorded(files, kept, |files|)
      modifies this`reported, this`torigin, this`dorigin, this`borigin, syms, libs
      ensures syms.Valid() && syms.Contents() == u && (reported == [] <==> Agreed(u, looks, kept, base, |looks|))
    {
      hide Consistent, Listed, Refuses, AllNamed, Disagrees, Origins2, FileRecord, FileLooks, Recorded, Good, Holds;
      NoneRecorded(files, kept);
      var n := 0;
      while n < |files|
        invariant n <= |files| && libs.All() == Recorded(files, kept, |files|) && Count(files, n) <= |looks|
        invariant Pass2(u, base, Count(files, n)) && fresh(syms.Repr - old(syms.Repr))
        invariant libs.ReadTo(|Recorded(files, kept, n)|)
        invariant reported == [] <==> Agreed(u, looks, kept, base, Count(files, n))
      {
        LookSlice(files, n);
        RecordSlice(files, kept, n);
        Load2Arg(files[n], u, base, Count(files, n), |Recorded(files, kept, n)|);
        n := n + 1;
      }
    }

    /** Both passes. If no error ends the run, the segments lie where they should, and in the final table every name
        has the place that follows from the files. Nothing is reported as multiply defined exactly when every name that
        is defined is sane. */
    method Link(files: seq<File>, textbase: int, align: nat, hsize: int, allot: bool)
      returns (status: Status, base: Origins)
      requires Pass1() && looks == [] && libs.All() == [] && reported == [] && align > 0 && GoodFiles(files)
      modifies this, libs, syms, syms.Repr
      ensures status == Fine ==>
                && looks == AllLooks(files, |files|) && Run(looks, |looks|).Going? &&
                  kept == Run(looks, |looks|).st.kept
                && base == Layout.Middle(Run(looks, |looks|).st.l, Sizes(looks, kept, |looks|),
                                         textbase, align, hsize, allot).1
                && Segmented(looks, kept, base, textbase, align, hsize, allot)
                && syms.Valid() && Placed(syms.Contents(), looks, kept, base, allot)
                && (reported == [] <==> Coherent(looks, kept, base))
      ensures status != Fine ==>
                || (Stopped(status) && looks <= AllLooks(files, |files|))
                || (status == TableError && OwnFails() && looks == AllLooks(files, |files|))
    {
      hide RunsTo, Consistent, Listed, Refuses, Good, Disagrees, Layout.Middle, Coherent, Agreed, Recorded, AllLooks;
      hide Segmented, Placed;
      base := ZERO;
      status := LoadAll(files);
      if status != Fine {
        return;
      }
      ghost var l, sizes := syms.Contents(), Origins(tsize, dsize, bsize);
      status, base := Middle(textbase, align, hsize, allot);
      if status != Fine {
        return;
      }
      libs.Rewind();
      FinalTable(looks, kept, l, sizes, textbase, align, hsize, allot);
      Decided(looks, kept, l, sizes, syms.Contents(), base);
      LoadAgain(files, syms.Contents(), base);
    }

    /** Why the first pass has ended. */
    ghost predicate Stopped(status: Status)
      reads this, libs, syms, syms.Repr
    {
      match status
      case Fine => false
      case NoNames => Run(looks, |looks|) == NoNamelist
      case MarkLost => Run(looks, |looks|) == Lost
      case TableError => TableFails()
      case TooManyMembers => |libs.All()| == LIMIT
    }
  }

  lemma {:induction false} Further<T>(a: seq<T>, b: seq<T>, c: seq<T>, all: seq<T>)
    ensures a + b + c == a + (b + c) && (b + c <= all ==> a + (b + c) <= a + all)
  {
  }

  lemma {:induction false} FlagsOn(kept: seq<bool>, flags: seq<bool>, k: nat)
    requires k + |flags| + 1 == |kept| && kept[k..k + |flags|] == flags
    ensures kept[k..] == flags + [kept[k + |flags|]]
  {
  }

  lemma {:induction false} TriedNone(members: seq<Module>, tries: seq<nat>)
    requires forall i :: 0 <= i < |tries| ==> tries[i] < |members|
    ensures Tried(members, tries, 0) == []
  {
  }

  lemma {:induction false} TriedMore(members: seq<Module>, tries: seq<nat>, n: nat)
    requires n < |tries| && forall i :: 0 <= i < |tries| ==> tries[i] < |members|
    ensures Tried(members, tries, n + 1) == Tried(members, tries, n) + [Look(members[tries[n]], true)]
    ensures Tried(members, tries, n + 1) <= Tried(members, tries, |tries|)
  {
  }

  /** The number of a name, if the list has it. */
  predicate NumberOf(l: seq<Entry>, name: string, p: Option<nat>) {
    p == if Index(l, name) < |l| then Some(Index(l, name)) else None
  }

  lemma {:induction false} NumberStays(l: seq<Entry>, k: seq<Entry>, name: string, p: Option<nat>)
    requires NumberOf(l, name, p) && |k| == |l| && forall i :: 0 <= i < |l| ==> k[i].name == l[i].name
    ensures NumberOf(k, name, p)
  {
    IndexIs(k, name, Index(l, name));
  }

  /** The looks of one file, as a part of the whole. */
  lemma {:induction false} LookSlice(files: seq<File>, n: nat)
    requires n < |files| && GoodFiles(files)
    ensures var looks, p, q := AllLooks(files, |files|), Count(files, n), Count(files, n + 1);
      && p <= q <= |looks| && |FileLooks(files[n])| == q - p && looks[p..q] == FileLooks(files[n])
  {
    hide FileLooks, GoodFile;
    var looks, q := AllLooks(files, |files|), Count(files, n + 1);
    LooksPrefix(files, n + 1, |files|);
    LooksNext(files, n);
    assert looks[Count(files, n)..q] == looks[..q][Count(files, n)..];
  }

  lemma {:induction false} LooksNext(files: seq<File>, n: nat)
    requires n < |files| && GoodFiles(files)
    ensures AllLooks(files, n + 1) == AllLooks(files, n) + FileLooks(files[n])
    ensures Count(files, n + 1) == Count(files, n) + |FileLooks(files[n])|
  {
  }

  /** The record of one file, as a part of the whole. */
  lemma {:induction false} RecordSlice(files: seq<File>, kept: seq<bool>, n: nat)
    requires n < |files| && |kept| == Count(files, |files|)
    ensures Count(files, n) <= Count(files, n + 1) <= |kept|
    ensures var p, q, pos := Count(files, n), Count(files, n + 1), |Recorded(files, kept, n)|;
      && Holds(Recorded(files, kept, |files|), pos, FileRecord(files[n], kept[p..q]))
      && |Recorded(files, kept, n + 1)| == pos + |FileRecord(files[n], kept[p..q])|
  {
    hide FileRecord;
    RecordPrefix(files, kept, n + 1, |files|);
  }

  lemma {:induction false} RecordPrefix(files: seq<File>, kept: seq<bool>, n: nat, m: nat)
    requires n <= m <= |files| && Count(files, m) <= |kept|
    ensures Count(files, n) <= Count(files, m) && Recorded(files, kept, n) <= Recorded(files, kept, m)
    decreases m - n
  {
    hide FileRecord;
    if n < m {
      RecordPrefix(files, kept, n, m - 1);
    }
  }

  /** Between the passes the table gets its final values; it has every symbol of what pass 2 will load. */
  lemma {:induction false} FinalTable(looks: seq<Look>, kept: seq<bool>, l: seq<Entry>, sizes: Origins,
                                      textbase: int, align: nat, hsize: int, allot: bool)
    requires RunsTo(looks, kept, l, sizes) && align > 0
    ensures |kept| == |looks| && Run(looks, |looks|) == Going(State(l, kept)) && sizes == Sizes(looks, kept, |looks|)
    ensures var (u, base) := Layout.Middle(l, sizes, textbase, align, hsize, allot);
      && Final(l, u, base) && AllNamed(u, looks, kept) && Origins2(looks, kept, base, 0) == base
      && Segmented(looks, kept, base, textbase, align, hsize, allot) && Placed(u, looks, kept, base, allot)
  {
    hide Run, Layout.Middle, Traced, Source, Segmented, Placed;
    var (u, base) := Layout.Middle(l, sizes, textbase, align, hsize, allot);
    forall i | 0 <= i < |l| ensures l[i].sym.kind != Comm && (l[i].sym.kind == Undf ==> l[i].sym.value >= 0) {
      TraceAll(looks, kept, |looks|, l[i].name);
      IndexIs(l, l[i].name, i);
      TracedKind(looks, kept, l[i].name, l[i].sym, |looks|, 0);
    }
    MiddleIs(l, sizes, textbase, align, hsize, allot);
    AllPlaced(looks, kept, l, textbase, align, hsize, allot);
    forall j: nat, i: nat | j < |looks| && Loaded(looks, kept, j) && i < |looks[j].m.syms|
      ensures Index(u, looks[j].m.syms[i].name) < |u|
    {
      var name := looks[j].m.syms[i].name;
      SkippedOnes(looks, |looks|, j);
      TraceAll(looks, kept, |looks|, name);
      TracedSome(looks, kept, name, Value(l, name), j, i);
      IndexIs(u, name, Index(l, name));
    }
  }

  lemma {:induction false} TracedKind(looks: seq<Look>, kept: seq<bool>, name: string, s: Sym, n: nat, i: nat)
    requires |kept| == |looks| && Traced(looks, kept, name, Some(s), n, i)
    ensures s.kind != Comm && (s.kind == Undf ==> s.value >= 0)
  {
  }

  lemma {:induction false} TracedSome(looks: seq<Look>, kept: seq<bool>, name: string, s: Option<Sym>, j: nat, i: nat)
    requires |kept| == |looks| && Traced(looks, kept, name, s, |looks|, 0) && Mentions(looks, name, j, i) && kept[j]
    ensures s.Some?
  {
  }

  /** What decides whether anything will be reported. */
  lemma {:induction false} Decided(looks: seq<Look>, kept: seq<bool>, l: seq<Entry>, sizes: Origins, u: seq<Entry>,
                                   base: Origins)
    requires RunsTo(looks, kept, l, sizes) && Final(l, u, base) && |kept| == |looks|
    ensures Agreed(u, looks, kept, base, |looks|) <==> Coherent(looks, kept, base)
    ensures Agreed(u, looks, kept, base, 0)
  {
    hide Run, Disagrees, Coherent;
    Agreement(looks, u, base);
  }

  lemma {:induction false} RunsNone()
    ensures RunsTo([], [], [], ZERO) && Marked([], None)
  {
  }

  lemma {:induction false} RunsSize(looks: seq<Look>, kept: seq<bool>, l: seq<Entry>, o: Origins)
    requires RunsTo(looks, kept, l, o)
    ensures |kept| == |looks|
  {
  }

  lemma {:induction false} NoneRecorded(files: seq<File>, kept: seq<bool>)
    ensures Recorded(files, kept, 0) == []
  {
  }

  lemma {:induction false} RecordedNext(files: seq<File>, kept: seq<bool>, more: seq<bool>, n: nat)
    requires n < |files| && |kept| == Count(files, n) && kept <= more && |more| == Count(files, n + 1)
    ensures Recorded(files, more, n + 1) == Recorded(files, kept, n) + FileRecord(files[n], more[|kept|..])
  {
    RecordedMore(files, kept, more, n);
    assert more[|kept|..|more|] == more[|kept|..];
  }

  /** A file without symbols more on pass 1. */
  lemma {:induction false} RunsOver(looks: seq<Look>, kept: seq<bool>, l: seq<Entry>, o: Origins, k: Look)
    requires RunsTo(looks, kept, l, o) && !k.m.listed && Good(k.m)
    ensures if k.m.text + k.m.data == 0 then RunsTo(looks + [k], kept + [false], l, o)
            else Run(looks + [k], |looks| + 1) == NoNamelist
  {
    RunMore(looks, kept, l, k, false);
  }

  /** A file with symbols more on pass 1. */
  lemma {:induction false} RunsOn(looks: seq<Look>, kept: seq<bool>, l: seq<Entry>, o: Origins, k: Look)
    requires RunsTo(looks, kept, l, o) && k.m.listed && Good(k.m)
    ensures match Load(l, Mark(l), Externs(k.m, o), k.lib)
            case Kept(c, mark) => RunsTo(looks + [k], kept + [true], c, Advance(o, k.m))
            case Dropped(c, mark) =>
              if Marked(c, mark) then RunsTo(looks + [k], kept + [false], c, o)
              else Run(looks + [k], |looks| + 1) == Lost
            case Botch => Run(looks + [k], |looks| + 1) == Lost
  {
    hide Load;
    RunMore(looks, kept, l, k, true);
    RunMore(looks, kept, l, k, false);
  }

  lemma {:induction false} RunMore(looks: seq<Look>, kept: seq<bool>, l: seq<Entry>, k: Look, b: bool)
    requires Run(looks, |looks|) == Going(State(l, kept))
    ensures |kept| == |looks| && Run(looks + [k], |looks| + 1) == Load1(looks + [k], State(l, kept))
    ensures Sizes(looks + [k], kept, |looks|) == Sizes(looks, kept, |looks|)
    ensures Sizes(looks + [k], kept + [b], |looks| + 1)
         == if b then Advance(Sizes(looks, kept, |looks|), k.m) else Sizes(looks, kept, |looks|)
  {
    hide Load;
    RunSame(looks, looks + [k], |looks|);
    SizesSame(looks, looks + [k], kept, |looks|);
    SizesPrefix(looks + [k], kept, kept + [b], |looks|);
  }

  lemma {:induction false} RunSame(looks: seq<Look>, more: seq<Look>, n: nat)
    requires n <= |looks| && looks <= more
    ensures Run(more, n) == Run(looks, n)
  {
    hide Load;
    if n > 0 {
      RunSame(looks, more, n - 1);
      if Run(looks, n - 1).Going? {
        SizesSame(looks, more, Run(looks, n - 1).st.kept, n - 1);
      }
    }
  }

  lemma {:induction false} SizesSame(looks: seq<Look>, more: seq<Look>, kept: seq<bool>, n: nat)
    requires n <= |looks| && n <= |kept| && looks <= more
    ensures Sizes(more, kept, n) == Sizes(looks, kept, n)
  {
    if n > 0 {
      SizesSame(looks, more, kept, n - 1);
    }
  }

  function Join(segs: seq<seq<int>>): seq<int> {
    if segs == [] then [] else Join(segs[..|segs| - 1]) + segs[|segs| - 1]
  }

  lemma {:induction false} JoinSize(segs: seq<seq<int>>)
    requires |segs| > 0 && forall i :: 0 <= i < |segs| - 1 ==> |segs[i]| == NROUT
    ensures |Join(segs)| == (|segs| - 1) * NROUT + |segs[|segs| - 1]|
  {
    if |segs| > 1 {
      JoinSize(segs[..|segs| - 1]);
    }
  }

  lemma {:induction false} JoinEmpty(segs: seq<seq<int>>)
    ensures Join(segs + [[]]) == Join(segs)
  {
    assert (segs + [[]])[..|segs|] == segs;
  }

  lemma {:induction false} JoinLast(segs: seq<seq<int>>, val: int)
    requires |segs| > 0
    ensures var n := |segs| - 1; Join(segs[n := segs[n] + [val]]) == Join(segs) + [val]
  {
    var n := |segs| - 1;
    assert segs[n := segs[n] + [val]][..n] == segs[..n];
  }

  lemma {:induction false} JoinAt(segs: seq<seq<int>>, i: nat, j: nat)
    requires i < |segs| && j < |segs[i]| && forall k :: 0 <= k < |segs| - 1 ==> |segs[k]| == NROUT
    ensures i * NROUT + j < |Join(segs)| && Join(segs)[i * NROUT + j] == segs[i][j]
  {
    var n := |segs| - 1;
    JoinSize(segs);
    if i < n {
      JoinAt(segs[..n], i, j);
    } else if n > 0 {
      JoinSize(segs[..n]);
    }
  }
}
