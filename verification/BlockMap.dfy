/** Reading a file block by block through the addresses of its inode, and finding a name in a directory
    (boot.c). */
module BlockMap {
  import opened Basics

  const BSIZE := 512
  const NINDIR := 128
  const NADDR := 13
  const DIRSIZ := 14

  /** An inode names ten blocks, then NINDIR through one block of addresses, then NINDIR * NINDIR through a block
      of addresses of such blocks. */
  const SINGLE := NADDR - 3
  const DOUBLE := SINGLE + NINDIR
  const LIMIT := DOUBLE + NINDIR * NINDIR

  type Block = b: seq<byte> | |b| == BSIZE witness seq(BSIZE, _ => 0)

  type Disk = int -> Block

  // ---------------------------------------------------------------------------------------
  // Which block holds what

  /** The i-th address in a block of addresses: four bytes, lowest first. */
  function Word(block: Block, i: nat): int
    requires i < NINDIR
  {
    var a, b, c, d: int := block[4 * i], block[4 * i + 1], block[4 * i + 2], block[4 * i + 3];
    a + 0x100 * b + 0x1_0000 * c + 0x100_0000 * d
  }

  /** A number of 32 bits is read exactly where its lowest byte comes first, and its highest last. */
  lemma {:induction false} WordBytes(block: Block, i: nat, v: nat)
    requires i < NINDIR && v < 0x1_0000_0000
    ensures Word(block, i) == v
            <==> && block[4 * i] as int == v % 0x100 && block[4 * i + 1] as int == v / 0x100 % 0x100
                 && block[4 * i + 2] as int == v / 0x1_0000 % 0x100 && block[4 * i + 3] as int == v / 0x100_0000
  {
    var a, b, c, d: int := block[4 * i], block[4 * i + 1], block[4 * i + 2], block[4 * i + 3];
    if Word(block, i) == v {
      assert v / 0x100 == b + 0x100 * c + 0x1_0000 * d;
      assert v / 0x1_0000 == c + 0x100 * d;
    }
  }

  /** The disk block that holds block k of the file. */
  ghost function Address(disk: Disk, addr: seq<int>, k: nat): int
    requires |addr| == NADDR && k < LIMIT
  {
    if k < SINGLE then addr[k]
    else if k < DOUBLE then Word(disk(addr[SINGLE]), k - SINGLE)
    else Word(disk(Word(disk(addr[SINGLE + 1]), (k - DOUBLE) / NINDIR)), (k - DOUBLE) % NINDIR)
  }

  /** How much of block k belongs to a file of this size. */
  function Part(size: nat, k: nat): (n: nat)
    ensures n <= BSIZE
  {
    if size <= k * BSIZE then 0 else if size - k * BSIZE < BSIZE then size - k * BSIZE else BSIZE
  }

  /** The file, block after block up to k. */
  ghost function Contents(disk: Disk, addr: seq<int>, size: nat, k: nat): (s: seq<byte>)
    requires |addr| == NADDR && k <= LIMIT
    ensures |s| == if size < k * BSIZE then size else k * BSIZE
  {
    if k == 0 then []
    else Contents(disk, addr, size, k - 1) + disk(Address(disk, addr, k - 1))[..Part(size, k - 1)]
  }

  // ---------------------------------------------------------------------------------------
  // The cursor

  /** Where the cursor of a file stands after k blocks. */
  ghost predicate Cursor(disk: Disk, addr: seq<int>, k: nat, i0: nat, i1: nat, i2: nat,
                         ind1: Block, ind2: Block)
    requires |addr| == NADDR
  {
    && k <= LIMIT && i0 == (if k < SINGLE then k else SINGLE)
    && (k <= SINGLE ==> i1 == 0 && i2 == 0)
    && (SINGLE < k <= DOUBLE ==> i1 == k - SINGLE && i2 == 0 && ind1 == disk(addr[SINGLE]))
    && (DOUBLE < k ==>
          && i1 == (k - DOUBLE - 1) % NINDIR + 1 && i2 == (k - DOUBLE - 1) / NINDIR + 1
          && ind2 == disk(addr[SINGLE + 1]) && ind1 == disk(Word(ind2, i2 - 1)))
  }

  lemma {:induction false} AtStart(disk: Disk, addr: seq<int>, ind1: Block, ind2: Block)
    requires |addr| == NADDR
    ensures Cursor(disk, addr, 0, 0, 0, 0, ind1, ind2)
  {
  }

  /** Counting blocks past the first two regions in NINDIRs, from one. */
  lemma {:induction false} Counted(j: nat)
    ensures j > 0 && (j - 1) % NINDIR + 1 < NINDIR ==>
              j / NINDIR == (j - 1) / NINDIR && j % NINDIR == (j - 1) % NINDIR + 1
    ensures j > 0 && (j - 1) % NINDIR + 1 == NINDIR ==> j / NINDIR == (j - 1) / NINDIR + 1 && j % NINDIR == 0
  {
  }

  // ---------------------------------------------------------------------------------------
  // Directories

  const ENTRY := 2 + DIRSIZ

  datatype Entry = Entry(ino: int, name: seq<byte>)

  /** The entry in the d-th sixteen bytes: an inode number, low byte first, and a name. */
  function EntryAt(s: seq<byte>, d: nat): Entry
    requires ENTRY * d + ENTRY <= |s|
  {
    var low, high: int := s[ENTRY * d], s[ENTRY * d + 1];
    Entry(low + 0x100 * high, s[ENTRY * d + 2..ENTRY * d + ENTRY])
  }

  function Names(s: seq<byte>): (entries: seq<Entry>)
    ensures |entries| == |s| / ENTRY
  {
    seq(|s| / ENTRY, d requires 0 <= d < |s| / ENTRY => EntryAt(s, d))
  }

  /** The first entry with this name. */
  function First(entries: seq<Entry>, name: seq<byte>): (r: Option<nat>)
    ensures r.Some? ==>
              && r.value < |entries| && entries[r.value].name == name
              && forall j :: 0 <= j < r.value ==> entries[j].name != name
    ensures r.None? ==> forall j :: 0 <= j < |entries| ==> entries[j].name != name
  {
    if |entries| == 0 then None
    else if entries[0].name == name then Some(0)
    else match First(entries[1..], name)
      case None => None
      case Some(j) => Some(j + 1)
  }

  /** What a search of the entries within reach finds: 0 stands for nothing. */
  function Found(entries: seq<Entry>, name: seq<byte>, reached: bool): Option<int> {
    match First(entries, name)
    case Some(j) => Some(entries[j].ino)
    case None => if reached then Some(0) else None
  }

  /** The first entry with this name that is in use, one whose inode number is not 0. */
  function Live(entries: seq<Entry>, name: seq<byte>): (r: int)
    ensures r != 0 ==> Entry(r, name) in entries
    ensures r == 0 ==> forall e :: e in entries && e.name == name ==> e.ino == 0
  {
    if |entries| == 0 then 0
    else if entries[0].name == name && entries[0].ino != 0 then entries[0].ino
    else Live(entries[1..], name)
  }

  /** The search also stops at an entry that is not in use. It finds the file under that name exactly when no such
      entry comes first. */
  lemma {:induction false} FindsLive(entries: seq<Entry>, name: seq<byte>)
    ensures Found(entries, name, true) == Some(Live(entries, name))
       <==> (First(entries, name).Some? && entries[First(entries, name).value].ino == 0 ==>
               forall e :: e in entries && e.name == name ==> e.ino == 0)
  {
    if |entries| > 0 {
      FindsLive(entries[1..], name);
    }
  }

  /** A name entered twice, first in an entry that is not in use. */
  lemma {:induction false} UnusedFirst(name: seq<byte>)
    ensures var entries := [Entry(0, name), Entry(5, name)];
      Found(entries, name, true) == Some(0) && Live(entries, name) == 5
  {
    var entries := [Entry(0, name), Entry(5, name)];
    assert Live(entries[1..], name) == 5;
  }

  lemma {:induction false} PartLength(size: nat, k: nat)
    ensures Part(size, k) > 0 <==> k * BSIZE < size
    ensures Part(size, k) < BSIZE ==> size <= (k + 1) * BSIZE
    ensures Part(size, k) > 0 && Part(size, k) < ENTRY ==> size <= (k + 1) * BSIZE
  {
  }

  /** Later blocks only add to the end. */
  lemma {:induction false} Extends(disk: Disk, addr: seq<int>, size: nat, k: nat, m: nat)
    requires |addr| == NADDR && k <= m <= LIMIT
    ensures Contents(disk, addr, size, k) <= Contents(disk, addr, size, m)
  {
    if k < m {
      Extends(disk, addr, size, k, m - 1);
    }
  }

  /** The d-th entry of block k is entry number k * BSIZE / ENTRY + d of the file. */
  lemma {:induction false} EntryIn(disk: Disk, addr: seq<int>, size: nat, k: nat, d: nat)
    requires |addr| == NADDR && k < LIMIT && ENTRY * d + ENTRY <= Part(size, k)
    ensures var entries := Names(Contents(disk, addr, size, k + 1));
            var at := k * (BSIZE / ENTRY) + d;
            && |Names(Contents(disk, addr, size, k))| == k * (BSIZE / ENTRY)
            && at < |entries| && entries[at] == EntryAt(disk(Address(disk, addr, k)), d)
  {
    hide Address, EntryAt;
    var before, block := Contents(disk, addr, size, k), disk(Address(disk, addr, k));
    var part := block[..Part(size, k)];
    assert before + part == Contents(disk, addr, size, k + 1) && |before| == k * BSIZE;
    EntryBehind(before, part, k * (BSIZE / ENTRY), d);
    EntryBefore(part, block, d);
  }

  lemma {:induction false} EntryBehind(before: seq<byte>, part: seq<byte>, e: nat, d: nat)
    requires |before| == ENTRY * e && ENTRY * d + ENTRY <= |part|
    ensures EntryAt(before + part, e + d) == EntryAt(part, d)
  {
    var at := ENTRY * (e + d);
    assert (before + part)[at + 2..at + ENTRY] == part[ENTRY * d + 2..ENTRY * d + ENTRY];
  }

  lemma {:induction false} EntryBefore(part: seq<byte>, whole: seq<byte>, d: nat)
    requires part <= whole && ENTRY * d + ENTRY <= |part|
    ensures EntryAt(whole, d) == EntryAt(part, d)
  {
    assert whole[ENTRY * d + 2..ENTRY * d + ENTRY] == part[ENTRY * d + 2..ENTRY * d + ENTRY];
  }

  lemma {:induction false} NamesExtend(s: seq<byte>, t: seq<byte>)
    requires s <= t
    ensures Names(s) <= Names(t)
  {
    forall d | 0 <= d < |Names(s)| ensures Names(s)[d] == Names(t)[d] {
      EntryBefore(s, t, d);
    }
  }

  lemma {:induction false} NoneYet(disk: Disk, addr: seq<int>, size: nat, name: seq<byte>)
    requires |addr| == NADDR
    ensures First(Names(Contents(disk, addr, size, 0)), name).None?
  {
  }

  /** An entry behind the first k blocks lies in block k. */
  lemma {:induction false} InPart(size: nat, k: nat, at: nat)
    requires k * BSIZE < size && k * BSIZE / ENTRY <= at
    requires at < (if size < (k + 1) * BSIZE then size else (k + 1) * BSIZE) / ENTRY
    ensures k * BSIZE / ENTRY == k * (BSIZE / ENTRY)
    ensures var d := at - k * (BSIZE / ENTRY); ENTRY * d + ENTRY <= Part(size, k) && d < Part(size, k) / ENTRY
  {
    var d := at - k * (BSIZE / ENTRY);
    assert ENTRY * at == k * BSIZE + ENTRY * d;
    assert ENTRY * at + ENTRY <= if size < (k + 1) * BSIZE then size else (k + 1) * BSIZE;
  }

  /** A block without the name. */
  lemma {:induction false} OneMore(disk: Disk, addr: seq<int>, size: nat, k: nat, name: seq<byte>)
    requires |addr| == NADDR && k < LIMIT && k * BSIZE < size
    requires First(Names(Contents(disk, addr, size, k)), name).None?
    requires forall j :: 0 <= j < Part(size, k) / ENTRY ==> EntryAt(disk(Address(disk, addr, k)), j).name != name
    ensures First(Names(Contents(disk, addr, size, k + 1)), name).None?
  {
    hide Address, Contents, EntryAt, Names, First, Part;
    var before, entries := Names(Contents(disk, addr, size, k)), Names(Contents(disk, addr, size, k + 1));
    Extends(disk, addr, size, k, k + 1);
    NamesExtend(Contents(disk, addr, size, k), Contents(disk, addr, size, k + 1));
    if First(entries, name).Some? {
      var at := First(entries, name).value;
      if at >= |before| {
        InPart(size, k, at);
        EntryIn(disk, addr, size, k, at - k * (BSIZE / ENTRY));
      }
      assert false;
    }
  }

  lemma {:induction false} FirstIs(entries: seq<Entry>, name: seq<byte>, at: nat)
    requires at < |entries| && entries[at].name == name
    requires forall j :: 0 <= j < at ==> entries[j].name != name
    ensures First(entries, name) == Some(at)
  {
  }

  lemma {:induction false} Hit(disk: Disk, addr: seq<int>, size: nat, k: nat, d: nat, name: seq<byte>)
    requires |addr| == NADDR && k < LIMIT && ENTRY * d + ENTRY <= Part(size, k)
    requires First(Names(Contents(disk, addr, size, k)), name).None?
    requires forall j :: 0 <= j < d ==> EntryAt(disk(Address(disk, addr, k)), j).name != name
    requires EntryAt(disk(Address(disk, addr, k)), d).name == name
    ensures forall reached ::
              Found(Names(Contents(disk, addr, size, LIMIT)), name, reached)
              == Some(EntryAt(disk(Address(disk, addr, k)), d).ino)
  {
    hide Address, Contents, EntryAt, Names, First;
    var before, upto, entries := Names(Contents(disk, addr, size, k)), Names(Contents(disk, addr, size, k + 1)),
                                 Names(Contents(disk, addr, size, LIMIT));
    Extends(disk, addr, size, k, k + 1);
    NamesExtend(Contents(disk, addr, size, k), Contents(disk, addr, size, k + 1));
    Extends(disk, addr, size, k + 1, LIMIT);
    NamesExtend(Contents(disk, addr, size, k + 1), Contents(disk, addr, size, LIMIT));
    EntryIn(disk, addr, size, k, d);
    var at := k * (BSIZE / ENTRY) + d;
    forall j | 0 <= j < at ensures entries[j].name != name {
      if j < |before| {
        assert entries[j] == before[j];
      } else {
        EntryIn(disk, addr, size, k, j - |before|);
        assert entries[j] == upto[j];
      }
    }
    assert entries[at] == upto[at];
    FirstIs(entries, name, at);
  }

  /** The search has gone through all that can be reached. */
  lemma {:induction false} NotFound(disk: Disk, addr: seq<int>, size: nat, k: nat, name: seq<byte>)
    requires |addr| == NADDR && k <= LIMIT && (k == LIMIT || size <= k * BSIZE)
    requires First(Names(Contents(disk, addr, size, k)), name).None?
    ensures Found(Names(Contents(disk, addr, size, LIMIT)), name, size <= LIMIT * BSIZE)
         == if size <= LIMIT * BSIZE then Some(0) else None
  {
    hide Address, EntryAt, Names, First;
    Extends(disk, addr, size, k, LIMIT);
    assert Contents(disk, addr, size, k) == Contents(disk, addr, size, LIMIT);
  }

  /** What is left of a file behind one more block. */
  lemma {:induction false} Taken(size: nat, sz: int, k: nat)
    requires sz != 0 && sz == if size < k * BSIZE then 0 else size - k * BSIZE
    ensures var n := if sz < BSIZE then sz else BSIZE;
      n == Part(size, k) > 0 && sz - n == if size < (k + 1) * BSIZE then 0 else size - (k + 1) * BSIZE
  {
  }

  datatype Fetch =
    | Done                            // nothing was left; the buffer is as it was
    | Got(n: int, block: Block)   // n bytes of the block belong to the file
    | TooBig                          // panic("File too big"), which does not return

  class Reader {
    const disk: Disk
    var sz: int
    var i0: nat
    var i1: nat
    var i2: nat
    var ind1: Block
    var ind2: Block
    ghost var addr: seq<int>   // the file being read,
    ghost var size: int        // its size,
    ghost var k: nat           // the blocks fetched so far
    ghost var sum: int         // and the lengths returned for them

    ghost predicate Valid()
      reads this
    {
      && |addr| == NADDR && k <= LIMIT
      && Cursor(disk, addr, k, i0, i1, i2, ind1, ind2)
      && sum + sz == size
      && (size >= 0 ==> sz == if size < k * BSIZE then 0 else size - k * BSIZE)
    }

    constructor (disk: Disk)
      ensures Valid() && this.disk == disk
    {
      this.disk := disk;
      sz, i0, i1, i2, ind1, ind2 := 0, 0, 0, 0, disk(0), disk(0);
      addr, size, k, sum := [0, 0, 0, 0, 0, 0, 0, 0, 0, 0, 0, 0, 0], 0, 0, 0;
    }

    /** Finds the next block's number, reading blocks of addresses as they are needed. */
    method NextBlock(ii: seq<int>) returns (bn: Option<int>)
      requires |ii| == NADDR && Cursor(disk, ii, k, i0, i1, i2, ind1, ind2)
      modifies `i0, `i1, `i2, `ind1, `ind2
      ensures bn.None? <==> k == LIMIT
      ensures bn.Some? ==>
                bn.value == Address(disk, ii, k) && Cursor(disk, ii, k + 1, i0, i1, i2, ind1, ind2)
      ensures bn.None? ==> Cursor(disk, ii, k, i0, i1, i2, ind1, ind2)
    {
      hide Word;
      if i0 < NADDR - 3 {
        bn := Some(ii[i0]);
        i0 := i0 + 1;
      } else {
        if k >= DOUBLE {
          Counted(k - DOUBLE);
        }
        if i1 < 1 || i1 > NINDIR - 1 {
          var ok := NextIndirect(ii);
          if !ok {
            return None;
          }
        }
        bn := Some(Word(ind1, i1));
        i1 := i1 + 1;
      }
    }

    /** The next block of addresses. */
    method NextIndirect(ii: seq<int>) returns (ok: bool)
      requires |ii| == NADDR && Cursor(disk, ii, k, i0, i1, i2, ind1, ind2) && k >= SINGLE && (i1 == 0 || i1 == NINDIR)
      modifies `i1, `i2, `ind1, `ind2
      ensures ok <==> k < LIMIT
      ensures !ok ==> Cursor(disk, ii, k, i0, i1, i2, ind1, ind2)
      ensures ok && k == SINGLE ==> i1 == 0 && i2 == 0 && ind1 == disk(ii[SINGLE])
      ensures ok && k != SINGLE ==>
                && k >= DOUBLE && (k - DOUBLE) % NINDIR == 0 && i1 == 0 && i2 == (k - DOUBLE) / NINDIR + 1
                && ind2 == disk(ii[SINGLE + 1]) && ind1 == disk(Word(ind2, i2 - 1))
    {
      hide Word;
      if k >= DOUBLE {
        Counted(k - DOUBLE);
      }
      var single: int;
      if i1 == 0 {
        single := ii[NADDR - 3];
      } else {
        if i2 < 1 || i2 > NINDIR - 1 {
          if i2 == 0 {
            ind2 := disk(ii[NADDR - 2]);
          } else {
            return false;
          }
        }
        single := Word(ind2, i2);
        i2 := i2 + 1;
        i1 := 0;
      }
      ind1 := disk(single);
      ok := true;
    }

    method Start(ii: seq<int>, length: int)
      requires |ii| == NADDR
      modifies this
      ensures Valid() && addr == ii && size == length && k == 0 && sum == 0 && sz == length
    {
      hide Cursor;
      AtStart(disk, ii, ind1, ind2);
      sz, i2, i1, i0 := length, 0, 0, 0;
      addr, size, k, sum := ii, length, 0, 0;
    }

    /** Fetches the next block of the file, or its first. Panics exactly when there is more than the addresses
        can reach. */
    method FsRead(ii: seq<int>, length: int, first: bool) returns (r: Fetch)
      requires Valid() && |ii| == NADDR
      requires !first ==> ii == addr && length == size
      modifies this
      ensures Valid() && addr == ii && size == length
      ensures var from := if first then 0 else old(k);
              && (r.Done? <==> (if first then length else old(sz)) == 0)
              && (r.TooBig? <==> (if first then length else old(sz)) != 0 && from == LIMIT)
              && k == (if r.Got? then from + 1 else from)
              && (r.Got? ==> r.block == disk(Address(disk, ii, from)))
              && (r.Got? && length >= 0 ==> r.n == Part(length, from) > 0)
              && sum == (if first then 0 else old(sum)) + (if r.Got? then r.n else 0)
    {
      hide Address, Word, Cursor, Part;
      if first {
        Start(ii, length);
      }
      r := Done;
      if sz != 0 {
        var found := NextBlock(ii);
        if found.None? {
          return TooBig;
        }
        var bn := found.value;
        var n := if sz < BSIZE then sz else BSIZE;
        if size >= 0 {
          Taken(size, sz, k);
        }
        r := Got(n, disk(bn));
        k, sum := k + 1, sum + n;
        sz := sz - n;
      }
    }

    /** The number of the inode that the directory ii gives to name: None is the panic. */
    method FsFind(ii: seq<int>, length: nat, name: seq<byte>) returns (r: Option<int>)
      requires Valid() && |ii| == NADDR
      modifies this
      ensures Valid()
      ensures r == Found(Names(Contents(disk, ii, length, LIMIT)), name, length <= LIMIT * BSIZE)
    {
      hide Address, Part, Contents, Names, EntryAt, First;
      hide Cursor, Found;
      var ent: nat := 0;
      NoneYet(disk, ii, length, name);
      while true
        invariant Valid() && (ent > 0 ==> addr == ii && size == length)
        invariant ent > 0 ==> First(Names(Contents(disk, ii, length, k)), name).None?
        decreases LIMIT - (if ent == 0 then -1 else k)
      {
        ghost var from := if ent == 0 then 0 else k;
        var got := FsRead(ii, length, ent == 0);
        if got.TooBig? {
          NotFound(disk, ii, length, from, name);
          return None;
        }
        if got.Done? || got.n <= 0 {
          NotFound(disk, ii, length, from, name);
          return Some(0);
        }
        assert got.n == Part(length, from) > 0 && got.block == disk(Address(disk, ii, from));
        var n := got.n / ENTRY;
        PartLength(length, from);
        if n == 0 {
          OneMore(disk, ii, length, from, name);
          NotFound(disk, ii, length, from + 1, name);
          return Some(0);
        }
        var d := 0;
        while d < n
          invariant d <= n
          invariant forall j :: 0 <= j < d ==> EntryAt(got.block, j).name != name
        {
          if EntryAt(got.block, d).name == name {
            Hit(disk, ii, length, from, d, name);
            return Some(EntryAt(got.block, d).ino);
          }
          d := d + 1;
        }
        OneMore(disk, ii, length, from, name);
        ent := ent + n;
      }
    }
  }
}
