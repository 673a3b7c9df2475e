/** Reading and writing bytes of a file on a device that only moves whole records (syscalls.c). */
module RecordFile {
  import opened Basics

  const RECSIZE := 128

  // ---------------------------------------------------------------------------------------
  // Bytes

  /** s with b written over it, and over its end, from at on. */
  function Splice(s: seq<byte>, at: nat, b: seq<byte>): (r: seq<byte>)
    requires at <= |s|
  {
    if at + |b| <= |s| then s[..at] + b + s[at + |b|..] else s[..at] + b
  }

  /** The bytes of a write are exactly where it put them, and no others change. */
  lemma {:induction false} SpliceAt(s: seq<byte>, at: nat, b: seq<byte>, i: nat)
    requires at <= |s|
    ensures |Splice(s, at, b)| == if at + |b| <= |s| then |s| else at + |b|
    ensures i < |Splice(s, at, b)| ==>
              Splice(s, at, b)[i] == if at <= i < at + |b| then b[i - at] else s[i]
  {
  }

  /** One write after another is one write. */
  lemma {:induction false} SpliceOn(s: seq<byte>, at: nat, a: seq<byte>, b: seq<byte>)
    requires at <= |s|
    ensures at + |a| <= |Splice(s, at, a)|
    ensures Splice(Splice(s, at, a), at + |a|, b) == Splice(s, at, a + b)
  {
    hide Splice;
    SpliceAt(s, at, a, 0);
    var one, both := Splice(Splice(s, at, a), at + |a|, b), Splice(s, at, a + b);
    SpliceAt(Splice(s, at, a), at + |a|, b, 0);
    SpliceAt(s, at, a + b, 0);
    assert |one| == |both|;
    forall i: nat | i < |one| ensures one[i] == both[i] {
      SpliceAt(s, at, a, i);
      SpliceAt(Splice(s, at, a), at + |a|, b, i);
      SpliceAt(s, at, a + b, i);
    }
  }

  lemma {:induction false} Joined(s: seq<byte>, i: nat, j: nat, k: nat)
    requires i <= j <= k <= |s|
    ensures s[i..k] == s[i..j] + s[j..k]
  {
  }

  lemma {:induction false} Slices(s: seq<byte>, a: nat, b: nat, i: nat, j: nat)
    requires a <= b <= |s| && i <= j <= b - a
    ensures s[a..b][i..j] == s[a + i..a + j]
  {
    var x, y := s[a..b][i..j], s[a + i..a + j];
    assert |x| == |y| && forall k :: 0 <= k < |x| ==> x[k] == s[a + i + k] == y[k];
  }

  function Zeros(n: nat): (s: seq<byte>)
    ensures |s| == n && forall i :: 0 <= i < n ==> s[i] == 0
  {
    seq(n, _ => 0)
  }

  /** A device written up to n at least. What it then holds where nothing has been written, nobody knows. */
  function Grown(s: seq<byte>, n: nat, blank: nat -> byte): (r: seq<byte>)
    ensures s <= r && |r| == if n <= |s| then |s| else n
    ensures forall i :: |s| <= i < |r| ==> r[i] == blank(i)
  {
    if n <= |s| then s else s + seq(n - |s|, i requires 0 <= i => blank(|s| + i))
  }

  /** The device as far as at, when a write begins there: the part of a record in front of it that is not there is
      taken for zeros. */
  function Padded(s: seq<byte>, at: nat, blank: nat -> byte): (r: seq<byte>)
    requires |s| % RECSIZE == 0
    ensures s <= r && |r| == if at <= |s| then |s| else at
  {
    if at <= |s| then s else Grown(s, at - at % RECSIZE, blank) + Zeros(at % RECSIZE)
  }

  /** s is t up to at, then b, and from there on t again where t goes on. */
  predicate Written(s: seq<byte>, t: seq<byte>, at: nat, b: seq<byte>) {
    && at <= |t| <= |s| && at + |b| <= |s| && s[..at] == t[..at] && s[at..at + |b|] == b
    && forall i :: at + |b| <= i < |t| ==> s[i] == t[i]
  }

  /** Writing a piece of a record by way of the record it lies in. */
  lemma {:induction false} WrittenWithin(t: seq<byte>, start: nat, record: seq<byte>, from: nat, b: seq<byte>)
    requires start <= |t| && from + |b| <= |record| && start + from <= |t|
    requires forall i :: 0 <= i < |record| && start + i < |t| ==> record[i] == t[start + i]
    ensures Written(Splice(t, start, Splice(record, from, b)), t, start + from, b)
  {
    hide Short;
    var s := Splice(t, start, Splice(record, from, b));
    assert forall i :: 0 <= i < |b| ==> s[start + from + i] == b[i];
  }

  lemma {:induction false} SpliceWritten(t: seq<byte>, at: nat, b: seq<byte>)
    requires at <= |t|
    ensures Written(Splice(t, at, b), t, at, b)
  {
  }

  lemma {:induction false} WrittenOn(s: seq<byte>, t: seq<byte>, u: seq<byte>, at: nat, a: seq<byte>, b: seq<byte>)
    requires Written(t, u, at, a) && Written(s, t, at + |a|, b)
    ensures Written(s, u, at, a + b)
  {
    assert s[at..at + |a|] == t[..at + |a|][at..];
    assert t[..at + |a|][at..] == a;
    assert s[at..at + |a + b|] == s[at..at + |a|] + s[at + |a|..at + |a + b|];
    assert s[..at] == s[..at + |a|][..at];
  }

  lemma {:induction false} WrittenNext(s: seq<byte>, t: seq<byte>, u: seq<byte>, at: nat, data: seq<byte>, e: nat,
                                       piece: seq<byte>)
    requires e + |piece| <= |data| && piece == data[e..e + |piece|]
    requires Written(t, u, at, data[..e]) && Written(s, t, at + e, piece)
    ensures Written(s, u, at, data[..e + |piece|])
  {
    WrittenOn(s, t, u, at, data[..e], piece);
    assert data[..e + |piece|] == data[..e] + piece;
  }

  /** What has been written in the image has been written in the file. */
  lemma {:induction false} WrittenContents(s: seq<byte>, t: seq<byte>, size: nat, at: nat, b: seq<byte>)
    requires at <= size <= |t| && Written(s, t, at, b)
    ensures s[..if at + |b| > size then at + |b| else size] == Splice(t[..size], at, b)
  {
    var now, then_ := s[..if at + |b| > size then at + |b| else size], Splice(t[..size], at, b);
    assert |now| == |then_|;
    forall i: nat | i < |now| ensures now[i] == then_[i] {
      SpliceAt(t[..size], at, b, i);
      if i < at {
        assert s[..at][i] == t[..at][i];
      } else if i < at + |b| {
        assert s[at..at + |b|][i - at] == b[i - at];
      }
    }
  }

  // ---------------------------------------------------------------------------------------
  // Lengthening

  /** A long stored in a short. */
  function Short(x: int): (r: int)
    ensures -0x8000 <= r < 0x8000 && (x - r) % 0x1_0000 == 0
  {
    (x + 0x8000) % 0x1_0000 - 0x8000
  }

  /** _rwlen goes on to write records of zeros. */
  predicate Lengthens(size: nat, pointer: nat) {
    Short(pointer / RECSIZE) > Short(size / RECSIZE + 1)
  }

  /** With the pointer within the file there is nothing to lengthen, and `_rwlen` sees that up to 32767 records. Then
      the one short has wrapped around and the other has not, up to 65535 records: it starts writing if the pointer
      is before record 32768. After that both have wrapped around. */
  lemma {:induction false} LengthensWhen(size: nat, pointer: nat)
    requires pointer <= size
    ensures size / RECSIZE < 0xffff ==>
              (Lengthens(size, pointer) <==> size / RECSIZE >= 0x7fff && pointer / RECSIZE < 0x8000)
    ensures Lengthens(size, pointer) <==>
              (pointer / RECSIZE + 0x8000) % 0x1_0000 > (size / RECSIZE + 0x8001) % 0x1_0000
  {
    assert pointer / RECSIZE <= size / RECSIZE;
  }

  /** The sizes at which `_rwlen` leaves the file alone wherever the pointer is. */
  lemma {:induction false} LeavesAlone(size: nat)
    ensures (forall pointer: nat :: pointer <= size ==> !Lengthens(size, pointer))
       <==> size / RECSIZE < 0x7fff || (size / RECSIZE + 1) % 0x1_0000 == 0x7fff
  {
    var b := size / RECSIZE;
    if b >= 0x7fff && (b + 1) % 0x1_0000 != 0x7fff {
      var next := (b + 0x8001) % 0x1_0000;
      var record := if next < 0x8000 then 0 else next - 0x7fff;
      assert record <= b;
      assert Lengthens(size, record * RECSIZE) by {
        LengthensWhen(size, record * RECSIZE);
      }
    } else {
      forall pointer: nat | pointer <= size ensures !Lengthens(size, pointer) {
        LengthensWhen(size, pointer);
      }
    }
  }

  /** The numbers of the records it then writes are negative, or those of records before the pointer. */
  lemma {:induction false} ZerosWithin(size: nat, pointer: nat, recno: int)
    requires pointer <= size && Short(size / RECSIZE + 1) <= recno < Short(pointer / RECSIZE)
    ensures Lengthens(size, pointer) && (recno < 0 || (recno + 1) * RECSIZE <= pointer)
  {
    assert Short(pointer / RECSIZE) <= pointer / RECSIZE;
  }

  /** At 32767 records and the pointer at 0 it begins with record -32768, at 65535 and the pointer behind the first
      record with record 0. */
  lemma {:induction false} ZerosWritten()
    ensures Lengthens(32767 * RECSIZE, 0) && Short(32767 * RECSIZE / RECSIZE + 1) == -0x8000
    ensures Lengthens(65535 * RECSIZE, RECSIZE) && Short(65535 * RECSIZE / RECSIZE + 1) == 0
  {
    assert Short(0x8000) == -0x8000 && Short(0x1_0000) == 0 && Short(0) == 0 && Short(1) == 1;
  }

  // ---------------------------------------------------------------------------------------
  // Writing past the end

  /** The device with records of zeros from one record up to another. */
  function Lengthened(s: seq<byte>, from: nat, k: nat, blank: nat -> byte): (r: seq<byte>)
    requires |s| % RECSIZE == 0
    ensures |r| % RECSIZE == 0 && |r| == if k <= from || k * RECSIZE <= |s| then |s| else k * RECSIZE
  {
    if k <= from then s
    else Splice(Grown(Lengthened(s, from, k - 1, blank), (k - 1) * RECSIZE, blank), (k - 1) * RECSIZE, Zeros(RECSIZE))
  }

  /** What the size is taken to be after that. */
  function Longer(size: nat, k: nat): nat {
    if k <= size / RECSIZE then size else size + (k - size / RECSIZE - 1) * RECSIZE
  }

  /** Lengthening goes up to the pointer's record. */
  function Upto(size: nat, pointer: nat): nat {
    if pointer / RECSIZE > size / RECSIZE + 1 then pointer / RECSIZE else size / RECSIZE + 1
  }

  /** k is where lengthening stops: there, or before it if a transfer may fail. */
  predicate Reaches(size: nat, pointer: nat, k: nat, faulty: bool) {
    size / RECSIZE + 1 <= k <= Upto(size, pointer) && (!faulty ==> k == Upto(size, pointer))
  }

  /** The device over which the bytes of a write at the pointer go. */
  function Below(s: seq<byte>, size: nat, pointer: nat, k: nat, blank: nat -> byte): seq<byte>
    requires |s| % RECSIZE == 0
  {
    Padded(Lengthened(s, size / RECSIZE + 1, k, blank), pointer, blank)
  }

  /** The file as it is then, up to the pointer at least. */
  function Before(s: seq<byte>, size: nat, pointer: nat, k: nat, blank: nat -> byte): (r: seq<byte>)
    requires |s| % RECSIZE == 0 && size <= |s|
    ensures |r| == if pointer > size then pointer else size
  {
    BelowSize(s, size, pointer, k, blank);
    Below(s, size, pointer, k, blank)[..if pointer > size then pointer else size]
  }

  lemma {:induction false} BelowSize(s: seq<byte>, size: nat, pointer: nat, k: nat, blank: nat -> byte)
    requires |s| % RECSIZE == 0 && size <= |s|
    ensures |Below(s, size, pointer, k, blank)| >= pointer && |Below(s, size, pointer, k, blank)| >= size
  {
    hide Lengthened;
  }

  lemma {:induction false} LongerNext(size: nat, k: nat)
    requires k > size / RECSIZE
    ensures Longer(size, k + 1) == Longer(size, k) + RECSIZE && Longer(size, k) < k * RECSIZE
    ensures k == size / RECSIZE + 1 ==> Longer(size, k) == size
  {
  }

  lemma {:induction false} NotLengthened(s: seq<byte>, from: nat, blank: nat -> byte)
    requires |s| % RECSIZE == 0
    ensures Lengthened(s, from, from, blank) == s
  {
  }

  lemma {:induction false} LengthenedNext(s: seq<byte>, from: nat, k: nat, blank: nat -> byte)
    requires |s| % RECSIZE == 0 && from <= k
    ensures Lengthened(s, from, k + 1, blank)
         == Splice(Grown(Lengthened(s, from, k, blank), k * RECSIZE, blank), k * RECSIZE, Zeros(RECSIZE))
  {
  }

  /** With the pointer in the file there is nothing to it. */
  lemma {:induction false} BeforeInside(s: seq<byte>, size: nat, pointer: nat, k: nat, faulty: bool,
                                        blank: nat -> byte)
    requires |s| % RECSIZE == 0 && pointer <= size <= |s| && Reaches(size, pointer, k, faulty)
    ensures Below(s, size, pointer, k, blank) == s && Before(s, size, pointer, k, blank) == s[..size]
    ensures Longer(size, k) == size
  {
    assert pointer / RECSIZE <= size / RECSIZE;
  }

  /** What lengthening leaves: the device as it was, what is not known of the rest of the record the file ends in if
      that was not there, and zeros. */
  lemma {:induction false} LengthenedAt(s: seq<byte>, from: nat, k: nat, blank: nat -> byte, i: nat)
    requires |s| % RECSIZE == 0 && |s| <= from * RECSIZE && i < |Lengthened(s, from, k, blank)|
    ensures Lengthened(s, from, k, blank)[i] == if i < |s| then s[i] else if i < from * RECSIZE then blank(i) else 0
  {
    if k > from {
      var was := Lengthened(s, from, k - 1, blank);
      if i < |was| {
        LengthenedAt(s, from, k - 1, blank, i);
      }
      SpliceAt(Grown(was, (k - 1) * RECSIZE, blank), (k - 1) * RECSIZE, Zeros(RECSIZE), i);
    }
  }

  /** What is between the end of the file and a pointer past it, if the device has nothing behind the record the file
      ends in. Should that record not be there, it is left out. */
  lemma {:induction false} BeforeAt(s: seq<byte>, size: nat, pointer: nat, blank: nat -> byte, i: nat)
    requires |s| % RECSIZE == 0 && size <= |s| <= (size / RECSIZE + 1) * RECSIZE && size < pointer && i < pointer
    ensures Before(s, size, pointer, Upto(size, pointer), blank)[i]
         == if i < |s| then s[i]
            else if i / RECSIZE == size / RECSIZE && pointer / RECSIZE > size / RECSIZE then blank(i)
            else 0
  {
    hide Lengthened;
    var from, k := size / RECSIZE + 1, Upto(size, pointer);
    if i < |Lengthened(s, from, k, blank)| {
      LengthenedAt(s, from, k, blank, i);
    }
  }

  predicate ZeroGap(s: seq<byte>, size: nat, pointer: nat, blank: nat -> byte)
    requires |s| % RECSIZE == 0 && size <= |s| && size < pointer
  {
    forall i: nat :: size <= i < pointer ==> Before(s, size, pointer, Upto(size, pointer), blank)[i] == 0
  }

  /** The gap is zeros, whatever a device holds where nothing has been written, exactly if what is left of the file's
      last record is, and if that record is there, or it is the pointer's as well. */
  lemma {:induction false} ZeroGapWhen(s: seq<byte>, size: nat, pointer: nat)
    requires |s| % RECSIZE == 0 && size <= |s| <= (size / RECSIZE + 1) * RECSIZE && size < pointer
    ensures (forall blank: nat -> byte :: ZeroGap(s, size, pointer, blank))
       <==> (forall i :: size <= i < |s| && i < pointer ==> s[i] == 0) &&
            (|s| == size ==> pointer < size + RECSIZE)
  {
    hide Before;
    var ones: nat -> byte := _ => 1;
    if ZeroGap(s, size, pointer, ones) {
      forall i | size <= i < |s| && i < pointer ensures s[i] == 0 {
        BeforeAt(s, size, pointer, ones, i);
      }
      if |s| == size {
        BeforeAt(s, size, pointer, ones, size);
      }
    }
    forall blank: nat -> byte, i: nat | size <= i < pointer
        && (forall i :: size <= i < |s| && i < pointer ==> s[i] == 0) && (|s| == size ==> pointer < size + RECSIZE)
      ensures Before(s, size, pointer, Upto(size, pointer), blank)[i] == 0
    {
      BeforeAt(s, size, pointer, blank, i);
    }
  }

  lemma {:induction false} PaddedOver(s: seq<byte>, at: nat, blank: nat -> byte)
    requires |s| % RECSIZE == 0 && at <= |s|
    ensures Padded(s, at, blank) == s
  {
  }

  lemma {:induction false} PaddedWhole(s: seq<byte>, at: nat, blank: nat -> byte)
    requires |s| % RECSIZE == 0 && at % RECSIZE == 0
    ensures Padded(s, at, blank) == Grown(s, at, blank)
  {
  }

  lemma {:induction false} WrittenNone(s: seq<byte>, at: nat)
    requires at <= |s|
    ensures Written(s, s, at, [])
  {
  }

  lemma {:induction false} WrittenSize(s: seq<byte>, t: seq<byte>, at: nat, b: seq<byte>)
    requires Written(s, t, at, b)
    ensures at + |b| <= |s|
  {
  }

  /** Part of a record put back where the record may not have been there. */
  lemma {:induction false} WrittenPart(s: seq<byte>, start: nat, record: seq<byte>, from: nat, b: seq<byte>,
                                       blank: nat -> byte)
    requires |s| % RECSIZE == 0 && start % RECSIZE == 0 && |record| == RECSIZE && 0 < |b| && from + |b| <= RECSIZE
    requires record == if start < |s| then s[start..start + RECSIZE] else Zeros(RECSIZE)
    ensures Written(Splice(Grown(s, start, blank), start, Splice(record, from, b)), Padded(s, start + from, blank),
                    start + from, b)
  {
    hide Splice, Written, Padded, Grown;
    var t := Padded(s, start + from, blank);
    PartUnder(s, start, record, from, blank);
    WrittenWithin(t, start, record, from, b);
    SpliceAt(record, from, b, 0);
    PartSame(s, start, from, Splice(record, from, b), blank);
  }

  /** The record is what the write goes over. */
  lemma {:induction false} PartUnder(s: seq<byte>, start: nat, record: seq<byte>, from: nat, blank: nat -> byte)
    requires |s| % RECSIZE == 0 && start % RECSIZE == 0 && |record| == RECSIZE && from < RECSIZE
    requires record == if start < |s| then s[start..start + RECSIZE] else Zeros(RECSIZE)
    ensures var t := Padded(s, start + from, blank);
      start + from <= |t| && forall i :: 0 <= i < RECSIZE && start + i < |t| ==> record[i] == t[start + i]
  {
    hide Padded, Grown;
    if start < |s| {
      WholeRecord(start, |s|);
      PaddedOver(s, start + from, blank);
    } else {
      PaddedPart(s, start, from, blank);
    }
  }

  lemma {:induction false} WholeRecord(start: nat, n: nat)
    requires start % RECSIZE == 0 && n % RECSIZE == 0 && start < n
    ensures start + RECSIZE <= n
  {
  }

  lemma {:induction false} PaddedPart(s: seq<byte>, start: nat, from: nat, blank: nat -> byte)
    requires |s| % RECSIZE == 0 && start % RECSIZE == 0 && from < RECSIZE && |s| <= start
    ensures Padded(s, start + from, blank) == Grown(s, start, blank) + Zeros(from)
    ensures |Grown(s, start, blank)| == start
  {
    hide Grown;
    assert (start + from) % RECSIZE == from;
    if from == 0 {
      PaddedWhole(s, start, blank);
      assert Grown(s, start, blank) + Zeros(0) == Grown(s, start, blank);
    }
  }

  lemma {:induction false} PartSame(s: seq<byte>, start: nat, from: nat, record: seq<byte>, blank: nat -> byte)
    requires |s| % RECSIZE == 0 && start % RECSIZE == 0 && |record| == RECSIZE && from < RECSIZE
    ensures |Padded(s, start + from, blank)| >= start
    ensures Splice(Grown(s, start, blank), start, record) == Splice(Padded(s, start + from, blank), start, record)
  {
    hide Padded, Grown, Splice;
    if start < |s| {
      WholeRecord(start, |s|);
      PaddedOver(s, start + from, blank);
      GrownOver(s, start, blank);
    } else {
      PaddedPart(s, start, from, blank);
      SpliceOver(Grown(s, start, blank), Zeros(from), record);
    }
  }

  lemma {:induction false} GrownOver(s: seq<byte>, n: nat, blank: nat -> byte)
    requires n <= |s|
    ensures Grown(s, n, blank) == s
  {
  }

  /** What is written over makes no difference. */
  lemma {:induction false} SpliceOver(s: seq<byte>, z: seq<byte>, b: seq<byte>)
    requires |z| <= |b|
    ensures Splice(s, |s|, b) == Splice(s + z, |s|, b)
  {
    assert (s + z)[..|s|] == s;
  }

  /** Another piece written, and nothing left to pad. */
  lemma {:induction false} WroteMore(s: seq<byte>, s': seq<byte>, was: seq<byte>, prev: nat, data: seq<byte>, e: nat,
                                     piece: seq<byte>, blank: nat -> byte)
    requires |s| % RECSIZE == 0 && |s'| % RECSIZE == 0
    requires e + |piece| <= |data| && piece == data[e..e + |piece|]
    requires Written(Padded(s, prev + e, blank), was, prev, data[..e])
    requires Written(s', Padded(s, prev + e, blank), prev + e, piece)
    ensures prev + e + |piece| <= |s'|
    ensures Written(Padded(s', prev + e + |piece|, blank), was, prev, data[..e + |piece|])
  {
    hide Written, Padded;
    var t := Padded(s, prev + e, blank);
    WrittenSize(s', t, prev + e, piece);
    WrittenNext(s', t, was, prev, data, e, piece);
    PaddedOver(s', prev + e + |piece|, blank);
  }

  // ---------------------------------------------------------------------------------------
  // An open file

  class File {
    var image: seq<byte>   // the file's records on the device
    var ranrec: nat
    var pointer: nat       // RWPointer
    var size: nat          // RWSize
    const rwbuf: array<byte>
    const faulty: bool     // transfers may fail
    const blank: nat -> byte
    var rwcount: nat
    var rwnb: nat
    var rwextb: nat        // where the caller's buffer goes on
    var rwptr: nat         // into rwbuf, or into the caller's buffer when a whole record moves

    ghost predicate Valid()
      reads this
    {
      rwbuf.Length == RECSIZE && |image| % RECSIZE == 0 && size <= |image|
    }

    ghost function Contents(): seq<byte>
      reads this
      requires Valid()
    {
      image[..size]
    }

    constructor (image: seq<byte>, size: nat, faulty: bool, blank: nat -> byte)
      requires |image| % RECSIZE == 0 && size <= |image|
      ensures Valid() && Contents() == image[..size] && pointer == 0 && fresh(rwbuf) && this.faulty == faulty
    {
      this.image, this.size, this.faulty, this.blank := image, size, faulty, blank;
      ranrec, pointer, rwcount, rwnb, rwextb, rwptr := 0, 0, 0, 0, 0, 0;
      rwbuf := new byte[RECSIZE](_ => 0);
    }

    /** dos(0x21): a record from the device, left as it was where there is none. It may fail, with 2. */
    method Get(into: array<byte>, at: nat) returns (status: int)
      requires Valid() && at + RECSIZE <= into.Length
      modifies into
      ensures status == 2 ==> faulty
      ensures status == 2 ==> into[..] == old(into[..])
      ensures into[..at] == old(into[..at]) && into[at + RECSIZE..] == old(into[at + RECSIZE..])
      ensures status != 2 ==>
                into[at..at + RECSIZE]
                == if ranrec * RECSIZE < |image| then image[ranrec * RECSIZE..ranrec * RECSIZE + RECSIZE]
                   else old(into[at..at + RECSIZE])
    {
      var fails: bool := *;
      if fails && faulty {
        return 2;
      }
      if ranrec * RECSIZE >= |image| {
        return 1;
      }
      var start := ranrec * RECSIZE;
      forall i | 0 <= i < RECSIZE {
        into[at + i] := image[start + i];
      }
      status := 0;
    }

    /** dos(0x22): a record to the device, which may end before it. It may fail. */
    method Put(from: array<byte>, at: nat) returns (status: int)
      requires Valid() && at + RECSIZE <= from.Length
      modifies `image
      ensures Valid()
      ensures status != 0 ==> faulty
      ensures image == if status == 0 then
                         Splice(Grown(old(image), ranrec * RECSIZE, blank), ranrec * RECSIZE, from[at..at + RECSIZE])
                       else old(image)
    {
      var fails: bool := *;
      if fails && faulty {
        return 1;
      }
      image := Splice(Grown(image, ranrec * RECSIZE, blank), ranrec * RECSIZE, from[at..at + RECSIZE]);
      status := 0;
    }

    /** _rwsetup: what to move next. -1: nothing; 0: a whole record between the device and the caller's buffer;
        1: rwcount bytes at rwptr of the record that is to be read into rwbuf. */
    method Setup() returns (kind: int)
      requires Valid()
      modifies this`ranrec, this`pointer, this`rwcount, this`rwnb, this`rwextb, this`rwptr, rwbuf
      ensures kind == -1 <==> old(rwnb) == 0
      ensures kind == -1 ==> pointer == old(pointer) && rwnb == 0 && rwextb == old(rwextb)
      ensures kind == 0 <==> old(pointer) % RECSIZE == 0 && old(rwnb) >= RECSIZE
      ensures kind == -1 || kind == 0 || kind == 1
      ensures kind >= 0 ==>
                && ranrec == old(pointer) / RECSIZE && 0 < rwcount <= RECSIZE
                && pointer == old(pointer) + rwcount && rwnb == old(rwnb) - rwcount
      ensures kind == 0 ==> rwptr == old(rwextb) && rwextb == old(rwextb) + RECSIZE && rwcount == RECSIZE
      ensures kind == 1 ==>
                && rwptr == old(pointer) % RECSIZE && rwextb == old(rwextb)
                && rwcount == Min(old(rwnb), RECSIZE - rwptr)
                && forall i :: 0 <= i < RECSIZE ==> rwbuf[i] == 0
    {
      var ptr := pointer;
      var i, recno := RECSIZE, ptr;
      while i > 1
        invariant || (i == 128 && recno == ptr) || (i == 64 && recno == ptr / 2) || (i == 32 && recno == ptr / 4)
                  || (i == 16 && recno == ptr / 8) || (i == 8 && recno == ptr / 16) || (i == 4 && recno == ptr / 32)
                  || (i == 2 && recno == ptr / 64) || (i == 1 && recno == ptr / 128)
      {
        i := i / 2;
        recno := recno / 2;
      }
      ranrec := recno;
      if ptr % RECSIZE == 0 && rwnb >= RECSIZE {
        pointer := pointer + RECSIZE;
        rwcount := RECSIZE;
        rwnb := rwnb - rwcount;
        rwptr := rwextb;
        rwextb := rwextb + RECSIZE;
        return 0;
      } else if rwnb == 0 {
        return -1;
      }
      var start := ptr - ptr % RECSIZE;
      rwptr := ptr - start;
      var left := start + RECSIZE - ptr;
      rwcount := if left > rwnb then rwnb else left;
      rwnb := rwnb - rwcount;
      pointer := pointer + rwcount;
      forall j | 0 <= j < RECSIZE {
        rwbuf[j] := 0;
      }
      kind := 1;
    }

    /** Moves rwcount bytes from rwbuf to the caller's buffer. */
    method CopyOut(buffer: array<byte>)
      requires Valid() && buffer != rwbuf && rwptr + rwcount <= RECSIZE && rwextb + rwcount <= buffer.Length
      modifies this`rwextb, this`rwptr, this`rwcount, buffer
      ensures rwextb == old(rwextb + rwcount)
      ensures buffer[..old(rwextb)] == old(buffer[..rwextb]) && buffer[rwextb..] == old(buffer[rwextb + rwcount..])
      ensures buffer[old(rwextb)..rwextb] == old(rwbuf[rwptr..rwptr + rwcount])
    {
      while rwcount > 0
        invariant rwextb + rwcount == old(rwextb + rwcount) && rwptr + rwcount == old(rwptr + rwcount)
        invariant rwcount <= old(rwcount)
        invariant buffer[..old(rwextb)] == old(buffer[..rwextb])
        invariant buffer[rwextb..] == old(buffer[..])[rwextb..]
        invariant buffer[old(rwextb)..rwextb] == old(rwbuf[rwptr..])[..rwextb - old(rwextb)]
      {
        buffer[rwextb] := rwbuf[rwptr];
        rwextb, rwptr, rwcount := rwextb + 1, rwptr + 1, rwcount - 1;
      }
    }

    /** Of n bytes from prev on, those before end are in the buffer. */
    ghost predicate Has(buffer: array<byte>, prev: nat, n: nat, was: seq<byte>, end: nat)
      reads this, buffer
    {
      && Valid() && buffer != rwbuf && n <= buffer.Length == |was| && prev + n <= size
      && prev <= end <= prev + n && buffer[..end - prev] == image[prev..end] && buffer[n..] == was[n..]
    }

    /** A whole record, straight into the buffer. */
    method TakeWhole(buffer: array<byte>, ghost prev: nat, ghost n: nat, ghost was: seq<byte>, ghost end: nat)
      returns (failed: bool)
      requires Has(buffer, prev, n, was, end) && ranrec * RECSIZE == end == prev + rwptr && end + RECSIZE <= prev + n
      modifies buffer
      ensures failed ==> faulty
      ensures Has(buffer, prev, n, was, if failed then prev else end + RECSIZE)
    {
      var status := Get(buffer, rwptr);
      failed := status == 2;
      assert buffer[n..] == buffer[rwptr + RECSIZE..][n - (rwptr + RECSIZE)..];
      assert was[n..] == old(buffer[rwptr + RECSIZE..])[n - (rwptr + RECSIZE)..];
      if !failed {
        Joined(buffer[..], 0, rwptr, rwptr + RECSIZE);
        Joined(image, prev, end, end + RECSIZE);
      }
    }

    /** Part of a record, by way of rwbuf. */
    method Fetch(buffer: array<byte>) returns (failed: bool)
      requires Valid() && buffer != rwbuf && rwextb + rwcount <= buffer.Length
      requires rwptr + rwcount <= RECSIZE && 0 < rwcount && ranrec * RECSIZE + rwptr + rwcount <= |image|
      modifies this`rwcount, this`rwextb, this`rwptr, rwbuf, buffer
      ensures failed ==> faulty && buffer[..] == old(buffer[..])
      ensures !failed ==>
                && rwextb == old(rwextb + rwcount)
                && buffer[..old(rwextb)] == old(buffer[..rwextb]) && buffer[rwextb..] == old(buffer[rwextb + rwcount..])
                && buffer[old(rwextb)..rwextb]
                   == image[ranrec * RECSIZE + old(rwptr)..ranrec * RECSIZE + old(rwptr + rwcount)]
    {
      hide Splice;
      var status := Get(rwbuf, 0);
      failed := status == 2;
      if !failed {
        ghost var start := ranrec * RECSIZE;
        Slices(rwbuf[..], 0, RECSIZE, rwptr, rwptr + rwcount);
        Slices(image, start, start + RECSIZE, rwptr, rwptr + rwcount);
        CopyOut(buffer);
      }
    }

    method TakePart(buffer: array<byte>, ghost prev: nat, ghost n: nat, ghost was: seq<byte>, ghost end: nat)
      returns (failed: bool)
      requires Has(buffer, prev, n, was, end) && end == prev + rwextb && end + rwcount <= prev + n
      requires rwptr + rwcount <= RECSIZE && ranrec * RECSIZE + rwptr == end && rwcount > 0
      modifies this`rwcount, this`rwextb, this`rwptr, rwbuf, buffer
      ensures failed ==> faulty
      ensures Has(buffer, prev, n, was, if failed then prev else old(end + rwcount))
      ensures !failed ==> rwextb == old(rwextb + rwcount)
    {
      ghost var count := rwcount;
      failed := Fetch(buffer);
      if !failed {
        Joined(buffer[..], 0, end - prev, rwextb);
        Joined(image, prev, end, end + count);
        assert buffer[n..] == buffer[rwextb..][n - rwextb..];
        assert was[n..] == old(buffer[rwextb + rwcount..])[n - old(rwextb + rwcount)..];
      }
    }

    /** One round of the loop in _read. */
    method ReadMore(buffer: array<byte>, ghost prev: nat, ghost n: nat, ghost was: seq<byte>)
      returns (kind: int, failed: bool)
      requires Has(buffer, prev, n, was, pointer) && pointer - prev + rwnb == n && rwextb == pointer - prev
      modifies this`ranrec, this`pointer, this`rwcount, this`rwnb, this`rwextb, this`rwptr, rwbuf, buffer
      ensures failed ==> faulty
      ensures prev <= pointer <= prev + n && Has(buffer, prev, n, was, if failed then prev else pointer)
      ensures !failed ==> pointer - prev + rwnb == n && rwextb == pointer - prev
      ensures if kind < 0 then !failed && rwnb == 0 else rwnb < old(rwnb)
    {
      ghost var end := pointer;
      kind := Setup();
      failed := false;
      if kind == 0 {
        failed := TakeWhole(buffer, prev, n, was, end);
      } else if kind == 1 {
        failed := TakePart(buffer, prev, n, was, end);
      }
    }

    /** _read: the bytes at the pointer, up to the end of the file. A transfer that fails ends it with -1. */
    method Read(buffer: array<byte>, nbytes: nat) returns (count: int)
      requires Valid() && pointer <= size && buffer.Length >= nbytes && buffer != rwbuf
      modifies this`ranrec, this`pointer, this`rwcount, this`rwnb, this`rwextb, this`rwptr, rwbuf, buffer
      ensures Valid() && pointer <= size
      ensures if count == -1 then faulty else count == Min(nbytes, size - old(pointer))
      ensures count >= 0 ==>
                && pointer == old(pointer) + count
                && buffer[..count] == Contents()[old(pointer)..old(pointer) + count]
      ensures var n := Min(nbytes, size - old(pointer)); buffer[n..] == old(buffer[n..])
    {
      var prev := pointer;
      var n := if nbytes > size - prev then size - prev else nbytes;
      rwnb := n;
      rwextb := 0;
      ghost var was := buffer[..];
      while true
        invariant Has(buffer, prev, n, was, pointer) && pointer - prev + rwnb == n && rwextb == pointer - prev
        decreases rwnb
      {
        var kind, failed := ReadMore(buffer, prev, n, was);
        if failed {
          return -1;
        }
        if kind < 0 {
          break;
        }
      }
      count := pointer - prev;
      Slices(image, 0, size, prev, pointer);
    }

    // -------------------------------------------------------------------------------------
    // Writing

    /** Of n bytes to be written at prev, those before end are in the image, over what was there. */
    ghost predicate Wrote(data: seq<byte>, prev: nat, was: seq<byte>, end: nat)
      reads this
    {
      Valid() && prev <= end <= prev + |data| && Written(Padded(image, end, blank), was, prev, data[..end - prev])
    }

    /** A whole record, straight from the buffer. */
    method PutWhole(buffer: array<byte>, ghost n: nat, ghost prev: nat, ghost was: seq<byte>, ghost end: nat)
      returns (failed: bool)
      requires n <= buffer.Length && Wrote(buffer[..n], prev, was, end)
      requires ranrec * RECSIZE == end == prev + rwptr && end + RECSIZE <= prev + n
      modifies `image
      ensures failed ==> faulty
      ensures n <= buffer.Length && Wrote(buffer[..n], prev, was, if failed then end else end + RECSIZE)
      ensures !failed ==> end + RECSIZE <= |image|
    {
      hide Splice, Written, Padded, Grown;
      ghost var s := image;
      PaddedWhole(image, end, blank);
      var status := Put(buffer, rwptr);
      failed := status != 0;
      if !failed {
        ghost var record := buffer[rwptr..rwptr + RECSIZE];
        SpliceWritten(Padded(s, end, blank), end, record);
        WroteMore(s, image, was, prev, buffer[..n], end - prev, record, blank);
      }
    }

    /** Moves rwcount bytes from the caller's buffer to rwbuf. */
    method CopyIn(buffer: array<byte>)
      requires Valid() && buffer != rwbuf && rwptr + rwcount <= RECSIZE && rwextb + rwcount <= buffer.Length
      modifies this`rwextb, this`rwptr, this`rwcount, rwbuf
      ensures rwextb == old(rwextb + rwcount)
      ensures rwbuf[..] == Splice(old(rwbuf[..]), old(rwptr), old(buffer[rwextb..rwextb + rwcount]))
    {
      while rwcount > 0
        invariant rwextb + rwcount == old(rwextb + rwcount) && rwptr + rwcount == old(rwptr + rwcount)
        invariant rwcount <= old(rwcount)
        invariant rwbuf[..old(rwptr)] == old(rwbuf[..rwptr]) && rwbuf[rwptr..] == old(rwbuf[..])[rwptr..]
        invariant rwbuf[old(rwptr)..rwptr] == buffer[old(rwextb)..rwextb]
      {
        rwbuf[rwptr] := buffer[rwextb];
        rwextb, rwptr, rwcount := rwextb + 1, rwptr + 1, rwcount - 1;
      }
      assert rwbuf[..] == rwbuf[..old(rwptr)] + rwbuf[old(rwptr)..rwptr] + rwbuf[rwptr..];
    }

    /** Part of a record: read it, change it, and write it back. A record that is not there reads as zeros. */
    method Rewrite(buffer: array<byte>) returns (failed: bool)
      requires Valid() && buffer != rwbuf && rwextb + rwcount <= buffer.Length
      requires rwptr + rwcount <= RECSIZE && 0 < rwcount && forall i :: 0 <= i < RECSIZE ==> rwbuf[i] == 0
      modifies this`image, this`rwcount, this`rwextb, this`rwptr, rwbuf
      ensures failed ==> faulty
      ensures Valid()
      ensures var at := ranrec * RECSIZE + old(rwptr);
        if failed then image == old(image)
        else Written(image, Padded(old(image), at, blank), at, buffer[old(rwextb)..old(rwextb + rwcount)])
      ensures !failed ==> rwextb == old(rwextb + rwcount)
    {
      hide Splice, Written;
      var status := Get(rwbuf, 0);
      if status == 2 {
        return true;
      }
      ghost var record, from, piece := rwbuf[..], rwptr, buffer[rwextb..rwextb + rwcount];
      ghost var start := ranrec * RECSIZE;
      assert record == rwbuf[0..RECSIZE];
      CopyIn(buffer);
      status := Put(rwbuf, 0);
      failed := status != 0;
      if !failed {
        assert rwbuf[0..RECSIZE] == rwbuf[..];
        WrittenPart(old(image), start, record, from, piece, blank);
      }
    }

    method PutPart(buffer: array<byte>, ghost n: nat, ghost prev: nat, ghost was: seq<byte>, ghost end: nat)
      returns (failed: bool)
      requires n <= buffer.Length && buffer != rwbuf && Wrote(buffer[..n], prev, was, end)
      requires end == prev + rwextb && rwextb + rwcount <= n
      requires rwptr + rwcount <= RECSIZE && ranrec * RECSIZE + rwptr == end && rwcount > 0
      modifies this`image, this`rwcount, this`rwextb, this`rwptr, rwbuf
      ensures failed ==> faulty
      requires forall i :: 0 <= i < RECSIZE ==> rwbuf[i] == 0
      ensures n <= buffer.Length && Wrote(buffer[..n], prev, was, if failed then end else old(end + rwcount))
      ensures !failed ==> rwextb == old(rwextb + rwcount) && old(end + rwcount) <= |image|
    {
      hide Written, Padded;
      ghost var data, piece := buffer[..n], buffer[rwextb..rwextb + rwcount];
      assert piece == data[end - prev..end - prev + |piece|];
      failed := Rewrite(buffer);
      if !failed {
        assert buffer[..n] == data;
        WroteMore(old(image), image, was, prev, data, end - prev, piece, blank);
      }
    }

    /** One round of the loop in _write. */
    method WriteMore(buffer: array<byte>, ghost n: nat, ghost prev: nat, ghost was: seq<byte>)
      returns (kind: int, failed: bool)
      requires n <= buffer.Length && buffer != rwbuf && Wrote(buffer[..n], prev, was, pointer)
      requires pointer - prev + rwnb == n && rwextb == pointer - prev
      modifies this`image, this`ranrec, this`pointer, this`rwcount, this`rwnb, this`rwextb, this`rwptr, rwbuf
      ensures failed ==> faulty
      ensures n <= buffer.Length && prev <= pointer <= prev + n
      ensures Wrote(buffer[..n], prev, was, if failed then old(pointer) else pointer)
      ensures !failed && kind >= 0 ==> pointer <= |image|
      ensures kind < 0 ==> pointer == old(pointer) && image == old(image)
      ensures !failed ==> pointer - prev + rwnb == n && rwextb == pointer - prev
      ensures if kind < 0 then !failed && rwnb == 0 else rwnb < old(rwnb)
    {
      hide Written, Padded;
      ghost var end := pointer;
      kind := Setup();
      failed := false;
      if kind == 0 {
        failed := PutWhole(buffer, n, prev, was, end);
      } else if kind == 1 {
        failed := PutPart(buffer, n, prev, was, end);
      }
    }

    /** Where the file is lengthened, record numbers fit a short. */
    ghost predicate Numbered()
      reads this
    {
      if pointer <= size then !Lengthens(size, pointer)
      else size / RECSIZE < 0x7fff && pointer / RECSIZE < 0x8000
    }

    /** _rwlen: records of zeros, from the one behind the record the file ends in to the one before the pointer's. k is
        where it stops, before its time only if a transfer fails. */
    method Lengthen() returns (ghost k: nat)
      requires Valid() && Numbered()
      modifies this`image, this`size, this`ranrec, rwbuf
      ensures Valid() && Reaches(old(size), pointer, k, faulty)
      ensures image == Lengthened(old(image), old(size) / RECSIZE + 1, k, blank)
      ensures size == Longer(old(size), k)
    {
      hide Lengthened, Longer;
      var recno, lrec := Short(size / RECSIZE + 1), Short(pointer / RECSIZE);
      k := size / RECSIZE + 1;
      NotLengthened(image, k, blank);
      LongerNext(size, k);
      if lrec <= recno {
        return;
      }
      forall i | 0 <= i < RECSIZE {
        rwbuf[i] := 0;
      }
      k := PutZeros(recno, lrec);
    }

    /** Records of zeros, up to record last. */
    method PutZeros(first: nat, last: nat) returns (ghost k: nat)
      requires Valid() && first == size / RECSIZE + 1 <= last && forall i :: 0 <= i < RECSIZE ==> rwbuf[i] == 0
      modifies this`image, this`size, this`ranrec
      ensures Valid() && first <= k <= last && (!faulty ==> k == last)
      ensures image == Lengthened(old(image), first, k, blank) && size == Longer(old(size), k)
    {
      hide Lengthened, Longer, Splice, Grown;
      NotLengthened(image, first, blank);
      LongerNext(size, first);
      var recno := first;
      k := recno;
      while recno < last
        invariant first <= recno <= last && k == recno && Valid()
        invariant image == Lengthened(old(image), first, recno, blank) && size == Longer(old(size), recno)
      {
        ranrec := recno;
        var status := Put(rwbuf, 0);
        if status != 0 {
          return;
        }
        assert rwbuf[0..RECSIZE] == Zeros(RECSIZE);
        LengthenedNext(old(image), first, recno, blank);
        LongerNext(old(size), recno);
        size := size + RECSIZE;
        recno := recno + 1;
        k := recno;
      }
    }

    /** _write: the bytes go over those at the pointer and past the end of the file, which is lengthened first. A
        transfer that fails ends it with -1, with the first of the bytes written. k is where lengthening stopped. */
    method Write(buffer: array<byte>, nbytes: nat) returns (count: int, ghost k: nat)
      requires Valid() && Numbered() && buffer.Length >= nbytes && buffer != rwbuf
      modifies this, rwbuf
      ensures Valid() && Reaches(old(size), old(pointer), k, faulty)
      ensures if count == -1 then faulty else count == nbytes
      ensures count == 0 ==>
                && pointer == old(pointer) && size == Longer(old(size), k)
                && image == Lengthened(old(image), old(size) / RECSIZE + 1, k, blank)
      ensures count > 0 ==>
                && pointer == old(pointer) + count
                && Contents() == Splice(Before(old(image), old(size), old(pointer), k, blank), old(pointer),
                                        buffer[..nbytes])
                && (old(pointer <= size) ==> Contents() == Splice(old(Contents()), old(pointer), buffer[..nbytes]))
      ensures count == -1 ==>
                && size == Longer(old(size), k)
                && exists m: nat :: m <= nbytes && Written(Padded(image, old(pointer) + m, blank),
                     Below(old(image), old(size), old(pointer), k, blank), old(pointer), buffer[..m])
    {
      hide Lengthened, Written, Splice, Padded;
      var prev := pointer;
      k := Lengthen();
      if nbytes == 0 {
        return 0, k;
      }
      ghost var was := Padded(image, prev, blank);
      BelowSize(old(image), old(size), prev, k, blank);
      var ok := WriteAll(buffer, nbytes, was);
      if !ok {
        return -1, k;
      }
      WrittenContents(image, was, if prev > size then prev else size, prev, buffer[..nbytes]);
      Check();
      count := pointer - prev;
      if prev <= old(size) {
        BeforeInside(old(image), old(size), prev, k, faulty, blank);
      }
    }

    /** The loop of _write. */
    method WriteAll(buffer: array<byte>, nbytes: nat, ghost was: seq<byte>) returns (ok: bool)
      requires Valid() && 0 < nbytes <= buffer.Length && buffer != rwbuf && was == Padded(image, pointer, blank)
      modifies this`image, this`ranrec, this`pointer, this`rwcount, this`rwnb, this`rwextb, this`rwptr, rwbuf
      ensures Valid()
      ensures ok ==>
                && pointer == old(pointer) + nbytes <= |image|
                && Written(image, was, old(pointer), buffer[..nbytes])
      ensures !ok ==>
                && faulty
                && exists m: nat :: m <= nbytes &&
                     Written(Padded(image, old(pointer) + m, blank), was, old(pointer), buffer[..m])
    {
      hide Written, Padded;
      ghost var prev := pointer;
      WrittenNone(was, prev);
      rwnb := nbytes;
      rwextb := 0;
      assert buffer[..nbytes][..0] == [];
      while true
        invariant Wrote(buffer[..nbytes], prev, was, pointer)
        invariant pointer - prev + rwnb == nbytes && rwextb == pointer - prev
        invariant pointer > prev ==> pointer <= |image|
        decreases rwnb
      {
        ghost var end := pointer;
        var kind, failed := WriteMore(buffer, nbytes, prev, was);
        if failed {
          assert buffer[..nbytes][..end - prev] == buffer[..end - prev];
          return false;
        }
        if kind < 0 {
          break;
        }
      }
      assert buffer[..nbytes][..pointer - prev] == buffer[..nbytes];
      PaddedOver(image, pointer, blank);
      ok := true;
    }

    /** _rwcheck */
    method Check()
      requires rwbuf.Length == RECSIZE && |image| % RECSIZE == 0 && size <= |image| && pointer <= |image|
      modifies `size
      ensures Valid() && size == if pointer > old(size) then pointer else old(size)
    {
      if pointer > size {
        size := pointer;
      }
    }
  }
}
