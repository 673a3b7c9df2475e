/** `compress`, `output`, `cl_block` and `cl_hash` of compress.c, working on the hash table, the
    code buffer and standard output. */
module Compress {

  import opened Basics
  import opened BitStream
  import opened Lzw
  import opened CodeStream
  import opened CodeTable
  import opened Longest
  import opened Mirror
  import Primes

  const CHECK_GAP: nat := 10000

  class Compressor {
    const bits: nat
    const maxBits: nat
    const blockCompress: bool
    var nBits: nat
    var maxCode: nat
    var freeEnt: nat
    var clearFlag: bool
    const htab: array<int>
    const codetab: array<nat>
    const buf: array<byte>
    var offset: nat
    var inCount: nat
    var bytesOut: nat
    var ratio: int
    var checkpoint: nat
    // standard output, and where in it the codes begin
    var out: seq<byte>
    ghost var start: nat
    // the codes handed to output so far, and the string table they have built up
    ghost var codes: seq<nat>
    ghost var tab: seq<Entry>

    constructor (bits: nat, maxBits: nat, blockCompress: bool)
      requires 12 <= bits <= 16 && INIT_BITS <= maxBits <= bits
      ensures Valid() && Cfg() == Config(bits, maxBits, blockCompress) && out == []
      ensures fresh(htab) && fresh(codetab) && fresh(buf)
    {
      this.bits, this.maxBits, this.blockCompress := bits, maxBits, blockCompress;
      nBits, maxCode, freeEnt, clearFlag, offset := INIT_BITS, 511, 0, false, 0;
      htab := new int[HSize(bits)];
      codetab := new nat[HSize(bits)];
      buf := new byte[bits];
      inCount, bytesOut, ratio, checkpoint := 1, 0, 0, CHECK_GAP;
      out, start, codes, tab := [], 0, [], [];
    }

    function Cfg(): Config {
      Config(bits, maxBits, blockCompress)
    }

    ghost predicate Valid() {
      && 12 <= bits <= 16 && INIT_BITS <= maxBits <= bits
      && htab.Length == codetab.Length == HSize(bits)
      && buf.Length == bits
    }

    /** The bytes written after the header, followed by the buffer. */
    ghost function Stream(): seq<byte>
      reads this, buf
      requires start <= |out|
    {
      out[start..] + buf[..]
    }

    ghost function Next(): Slot
      reads this
      requires Valid() && After(Cfg(), codes).Some?
    {
      After(Cfg(), codes).value
    }

    /** The codes sent so far lie packed in the stream, and the next goes where the fields say. */
    ghost predicate Streaming()
      reads this, buf
    {
      && Valid() && start <= |out|
      && After(Cfg(), codes).Some?
      && Next().w == Width(nBits, maxCode)
      && Next().base == |out| - start
      && Next().used == offset
      && Fits(Next())
      && Packed(Cfg(), codes, Stream())
    }

    /** The insertion of a code into the buffer. */
    method Insert(code: nat)
      requires Streaming() && NextSlot(Cfg(), Next(), code).Some?
      modifies buf
      ensures Packed(Cfg(), codes, Stream()) && InSlot(Next(), code, Stream())
    {
      hide Field, Bit, SameBits, NextSlot, DecoderOk, Changes, InitSlot;
      ghost var cfg, s, str, was := Cfg(), Next(), Stream(), buf[..];
      SlotBounds(Cfg(), s);
      CodeFits(cfg, s, code);
      hide SlotOk, WidthOk, Pow2, HSize;
      Store(buf, offset, nBits, code);
      StoreInStream(out[start..], was, buf[..], s, code);
      PackedKept(cfg, codes, str, Stream());
    }

    /** Steps over the inserted code and writes the buffer out when it is full. */
    method Advance(ghost code: nat)
      requires Valid() && start <= |out| && After(Cfg(), codes).Some?
      requires Next().w.nbits == nBits && Next().base == |out| - start && Next().used == offset
      requires Packed(Cfg(), codes, Stream()) && InSlot(Next(), code, Stream())
      modifies this`offset, this`out, this`bytesOut
      ensures start <= |out| && old(out) <= out
      ensures if Next().j == 7 then offset == 0 && |out| == |old(out)| + nBits
        else offset == old(offset) + nBits && out == old(out)
      ensures bytesOut >= old(bytesOut)
      ensures Packed(Cfg(), codes, Stream()) && InSlot(Next(), code, Stream())
    {
      hide InSlot, Packed, DecoderOk, WidthOk, After, Pow2, HSize;
      SlotBounds(Cfg(), Next());
      offset := offset + nBits;
      if offset == 8 * nBits {
        ghost var str := Stream();
        bytesOut := bytesOut + nBits;
        out := out + buf[..nBits];
        offset := 0;
        FlushKeeps(Cfg(), codes, Next(), code, str, Stream());
      }
    }

    /** Insertion and stepping, as one extension of the packed sequence. */
    method Append(code: nat)
      requires Streaming() && NextSlot(Cfg(), Next(), code).Some?
      modifies buf, this`offset, this`out, this`bytesOut, this`codes
      ensures start <= |out| && old(out) <= out && codes == old(codes) + [code]
      ensures After(Cfg(), codes).Some? && Some(Next()) == NextSlot(Cfg(), old(Next()), code)
      ensures Packed(Cfg(), codes, Stream())
      ensures Next().base == |out| - start + (if offset > 0 && Next().j == 0 then nBits else 0)
      ensures Next().j > 0 ==> Next().used == offset
      ensures old(Next()).j == 7 ==> offset == 0
      ensures bytesOut >= old(bytesOut)
    {
      hide Packed, InSlot, Step, DecoderOk, WidthOk, NextWidth, After, Pow2;
      ghost var s := Next();
      SlotBounds(Cfg(), s);
      Insert(code);
      Advance(code);
      PackedExtends(Cfg(), codes, code, Stream());
      codes := codes + [code];
    }

    /** Writes a part-filled buffer whole: the reader will not learn of the new width before it has
        read it. */
    method FlushWhole()
      requires Valid() && start <= |out| && After(Cfg(), codes).Some? && nBits <= bits
      requires Next().base == |out| - start + (if offset > 0 then nBits else 0) && Next().j == 0
      requires Packed(Cfg(), codes, Stream())
      modifies this`offset, this`out, this`bytesOut
      ensures start <= |out| && old(out) <= out && Next().base == |out| - start && offset == 0
      ensures bytesOut >= old(bytesOut)
      ensures Packed(Cfg(), codes, Stream())
    {
      hide Packed, DecoderOk, WidthOk, After;
      SlotBounds(Cfg(), Next());
      if offset > 0 {
        ghost var str := Stream();
        out := out + buf[..nBits];
        bytesOut := bytesOut + nBits;
        assert str[0..Next().base] == Stream()[0..Next().base];
        SameBytes(str, Stream(), 0, Next().base);
        PackedKept(Cfg(), codes, str, Stream());
      }
      offset := 0;
    }

    /** The width change, which shows in the slot the next code will take. */
    method Widen()
      requires Valid() && start <= |out| && After(Cfg(), codes).Some?
      requires Next().base == |out| - start && offset == 0 && Next().j == 0
      requires Packed(Cfg(), codes, Stream()) && Fits(Next())
      requires Next().w == if clearFlag then InitWidth else Grow(Cfg(), Width(nBits, maxCode))
      modifies this`nBits, this`maxCode, this`clearFlag
      ensures Streaming() && !clearFlag
    {
      SlotBounds(Cfg(), Next());
      if clearFlag {
        nBits, maxCode := INIT_BITS, 511;
        clearFlag := false;
      } else {
        nBits := nBits + 1;
        maxCode := if nBits == maxBits then Pow2(maxBits) else Pow2(nBits) - 1;
      }
    }

    /** `output` of a code: free_ent and clear_flg tell the width of the next one. */
    method Output(code: nat)
      requires Streaming() && NextSlot(Cfg(), Next(), code).Some?
      requires var d := NextSlot(Cfg(), Next(), code).value.d;
        clearFlag == d.mode.AfterClear? && (clearFlag || freeEnt == |d.tab|)
      modifies buf, this`offset, this`out, this`bytesOut, this`nBits, this`maxCode, this`clearFlag, this`codes
      ensures Streaming() && !clearFlag && codes == old(codes) + [code] && old(out) <= out
      ensures bytesOut >= old(bytesOut)
      ensures Some(Next()) == NextSlot(Cfg(), old(Next()), code)
    {
      hide After;
      FitsNext(Cfg(), Next(), code);
      NextSlotWidth(Cfg(), Next(), code);
      hide NextSlot, Packed, DecoderOk, WidthOk, Step, Fits, After, Pow2, HSize, Grow;
      Append(code);
      if freeEnt > maxCode || clearFlag {
        FlushWhole();
        Widen();
      } else {
        SlotBounds(Cfg(), Next());
      }
    }

    /** `output` at end of file: the rest of the buffer, down to the last byte in use. */
    method FlushEnd()
      requires Streaming()
      modifies this`offset, this`out, this`bytesOut
      ensures start <= |out| && old(out) <= out
      ensures Packed(Cfg(), codes, out[start..]) && EndsAt(Next(), out[start..])
    {
      hide Packed, DecoderOk, WidthOk, Pow2, InitSlot;
      ghost var s, str := Next(), Stream();
      SlotBounds(Cfg(), s);
      var m := (offset + 7) / 8;
      if offset > 0 {
        out := out + buf[..m];
      }
      bytesOut := bytesOut + m;
      offset := 0;
      assert str[0..s.base + m] == out[start..][0..s.base + m];
      SameBytes(str, out[start..], 0, s.base + m);
      PackedKept(Cfg(), codes, str, out[start..]);
    }

    // -------------------------------------------------------------------------------------
    // The hash table

    /** The hash table is sound and complete for the string table, and not all of it is in use. */
    ghost predicate Hashing()
      reads this`freeEnt, this`tab, htab, codetab
    {
      && Valid()
      && freeEnt == |tab| && 256 <= freeEnt <= Pow2(maxBits)
      && Sound(Cfg(), tab, htab[..], codetab[..]) && Complete(Cfg(), tab, htab[..])
      && Positive(htab[..]) <= freeEnt - 256
    }

    /** cl_hash: every slot to -1. */
    method ClearHash()
      requires Valid()
      modifies htab
      ensures forall i: nat :: i < htab.Length ==> htab[i] == -1
    {
      for i := 0 to htab.Length
        invariant forall k: nat :: k < i ==> htab[k] == -1
      {
        htab[i] := -1;
      }
    }

    /** The shift of the first probe: doubles the table size until it passes 2^16. */
    method HashShift() returns (hshift: nat)
      requires Valid()
      ensures hshift == bits - 8
    {
      var k := 0;
      var f: int := HSize(bits);
      while f < 65536
        invariant 0 <= k <= 16 - bits && f == Shl(HSize(bits), k)
        decreases 65536 - f
      {
        Doublings(bits, k);
        f := 2 * f;
        k := k + 1;
      }
      Doublings(bits, k);
      hshift := 8 - k;
    }

    /** Looks for the pair (ent, c): found with its slot, or not found with a slot to enter it in, the k-th one of the
        probe. */
    method Find(c: byte, ent: nat, hshift: nat) returns (found: bool, i: nat, ghost k: nat)
      requires Hashing() && hshift == bits - 8 && ent < Pow2(maxBits)
      ensures found <==> i < htab.Length && htab[i] == Key(maxBits, c, ent)
      ensures Searched(Entry(ent, c), i, k) && (!found ==> Stops(htab[i], k))
    {
      hide Key, Xor, Shl, Sound, Complete, Positive, HSize, Pow2, Passed, Probe;
      var fcode, h := Key(maxBits, c, ent), HSize(bits);
      FirstProbe(bits, maxBits, c, ent);
      i, k := Xor(Shl(c, hshift), ent), 0;
      ghost var i0 := i;
      NothingPassed(htab[..], i0, fcode);
      if htab[i] == fcode {
        return true, i, 0;
      } else if htab[i] < 0 {
        return false, i, 0;
      }
      ghost var last := RoomToProbe(i);
      var disp := if i == 0 then 1 else h - i;
      while true
        invariant i0 < h && i == Probe(i0, k, h) && Passed(htab[..], i0, k, fcode)
        invariant htab[i] != fcode && (if k == 0 then htab[i] >= 0 else htab[i] > 0) && k < last
        decreases last - k
      {
        PassedNext(htab[..], i0, k, fcode);
        i := if i < disp then i + h - disp else i - disp;
        k := k + 1;
        if htab[i] == fcode {
          return true, i, k;
        }
        if htab[i] <= 0 {
          return false, i, k;
        }
      }
    }

    /** Slot i is the k-th one that a search for the entry comes to. */
    ghost predicate Searched(e: Entry, i: nat, k: nat)
      requires Valid()
      reads this, htab
    {
      && Passed(htab[..], Start(bits, e), k, Key(maxBits, e.suffix, e.prefix))
      && i == Probe(Start(bits, e), k, htab.Length)
    }

    /** How many more probes reach a slot that stops the loop. */
    lemma {:induction false} RoomToProbe(i0: nat) returns (k: nat)
      requires Hashing() && i0 < htab.Length
      ensures 0 < k <= htab.Length && htab[Probe(i0, k, htab.Length)] <= 0
    {
      Sizes(bits);
      Pow2Mono(maxBits, bits);
      HSizeIsPrime(bits);
      var t := FreeSlot(htab[..]);
      k := ProbeReaches(i0, t, htab.Length);
    }

    // -------------------------------------------------------------------------------------
    // The main loop

    /** `read` has been read from standard input; all of it but the pending string, whose code is
        ent, has been sent. */
    ghost predicate Coding(ent: nat, read: seq<byte>)
      reads this, buf, htab, codetab
    {
      && Streaming() && Hashing() && !clearFlag && bytesOut > 0
      && Mirrors(Cfg(), Next().d, tab, ent)
      && Next().d.out + Str(Cfg(), tab, ent) == read && Greedy(Cfg(), codes, read)
    }

    /** The test of cl_block. Nothing is promised about the answer, so what is proved holds for any
        policy of clearing the table. */
    method RatioFell() returns (fell: bool)
      requires bytesOut > 0
      modifies this`checkpoint, this`ratio
    {
      checkpoint := inCount + CHECK_GAP;
      var rat;
      if inCount > 0x7fffff {
        rat := bytesOut / 256;
        rat := if rat == 0 then 0x7fffffff else inCount / rat;
      } else {
        rat := inCount * 256 / bytesOut;
      }
      if rat > ratio {
        ratio := rat;
        fell := false;
      } else {
        ratio := 0;
        fell := true;
      }
    }

    /** Everything read but the pending character c has been sent, and the decompressor has caught
        up with the table. */
    ghost predicate Sent(read: seq<byte>)
      reads this, buf, htab, codetab
    {
      && Streaming() && Hashing() && !clearFlag && bytesOut > 0
      && Next().d.mode.Running? && Next().d.out == read && Greedy(Cfg(), codes, read)
      && tab == Next().d.tab && Cfg().FirstFree() <= |tab|
    }

    /** The emptied table of cl_block. */
    method EmptyTable()
      requires Valid() && blockCompress
      modifies htab, this`freeEnt, this`tab
      ensures Hashing() && freeEnt == FIRST
      ensures forall t: seq<Entry> :: |t| == FIRST ==>
                Sound(Cfg(), t, htab[..], codetab[..]) && Complete(Cfg(), t, htab[..])
    {
      ClearHash();
      freeEnt := FIRST;
      tab := seq(FIRST, _ => Entry(0, 0));
      NonePositive(htab[..]);
      Lzw.Pow2Table();
      Pow2Mono(9, maxBits);
    }

    /** cl_block: if compression has got worse, start over with an empty table. */
    method ClearBlock(c: byte, ghost read: seq<byte>)
      requires Sent(read) && blockCompress && freeEnt >= Pow2(maxBits) && Mirrors(Cfg(), Next().d, tab, c)
      requires Greedy(Cfg(), codes, read + [c])
      modifies buf, htab, this`offset, this`out, this`bytesOut, this`nBits, this`maxCode, this`clearFlag
      modifies this`codes, this`tab, this`freeEnt, this`checkpoint, this`ratio
      ensures Coding(c, read + [c]) && old(out) <= out
    {
      hide Packed, NextSlot, Fits, DecoderOk, Sound, Complete, After, Greedy;
      LiteralString(Cfg(), tab, c);
      var fell := RatioFell();
      if fell {
        ClearMirrors(Cfg(), Next().d, c);
        StepTakesSlot(Cfg(), Next(), CLEAR);
        GreedyNext(Cfg(), codes, CLEAR, read + [c]);
        EmptyTable();
        clearFlag := true;
        Output(CLEAR);
        tab := Next().d.tab + [Entry(0, 0)];
        LiteralString(Cfg(), tab, c);
      }
    }

    /** Sends the pending string. */
    method Send(ent: nat, ghost read: seq<byte>)
      requires Coding(ent, read)
      modifies buf, this`offset, this`out, this`bytesOut, this`nBits, this`maxCode, this`clearFlag
      modifies this`codes, this`tab
      ensures Sent(read) && Next().d.oldcode == ent && old(out) <= out && codes == old(codes) + [ent]
    {
      hide Packed, NextSlot, Fits, Step, Greedy, Complete, DecoderOk, Sound, Mirrors, Str, After, Positive, HSize;
      SendsOn(ent, read);
      Output(ent);
      tab := Next().d.tab;
    }

    /** What the code of the pending string does. */
    lemma {:induction false} SendsOn(ent: nat, read: seq<byte>)
      requires Coding(ent, read)
      ensures var r := NextSlot(Cfg(), Next(), ent);
        && r.Some? && r.value.d.mode.Running? && r.value.d.oldcode == ent && r.value.d.out == read
        && |r.value.d.tab| == |tab| && Cfg().FirstFree() <= |tab|
        && Sound(Cfg(), r.value.d.tab, htab[..], codetab[..]) && Complete(Cfg(), r.value.d.tab, htab[..])
      ensures After(Cfg(), codes + [ent]) == NextSlot(Cfg(), Next(), ent) && Greedy(Cfg(), codes + [ent], read)
    {
      hide Packed, NextSlot, Fits, Step, Greedy, Complete, Sound, Positive, HSize, Str;
      SendMirrors(Cfg(), Next().d, tab, ent);
      StepTakesSlot(Cfg(), Next(), ent);
      hide DecoderOk;
      SoundCarries(Cfg(), tab, Step(Cfg(), Next().d, ent).value.tab, htab[..], codetab[..]);
      GreedyNext(Cfg(), codes, ent, read);
    }

    /** Enters a pair in the slot where the search for it ended. */
    method Enter(ent: nat, c: byte, i: nat, ghost k: nat)
      requires Hashing() && freeEnt < Pow2(maxBits) && Cfg().FirstFree() <= freeEnt && ent < Pow2(maxBits)
      requires TableOk(Cfg(), tab) && Searched(Entry(ent, c), i, k) && Stops(htab[i], k)
      modifies htab, codetab, this`tab, this`freeEnt
      ensures Hashing() && tab == old(tab) + [Entry(ent, c)]
    {
      hide Sound, Complete, Positive, Passed, Stops, Probe, Key, Start, TableOk, HSize, Pow2;
      EntersTable(Cfg(), tab, htab[..], codetab[..], Entry(ent, c), k);
      codetab[i] := freeEnt;
      freeEnt := freeEnt + 1;
      htab[i] := Key(maxBits, c, ent);
      tab := tab + [Entry(ent, c)];
    }

    /** Starts over with the pending character c: the sent code followed by c gets an entry, or, the
        table being full, it may be cleared. */
    method Extend(ent: nat, c: byte, i: nat, ghost k: nat, ghost read: seq<byte>)
      requires Sent(read) && Next().d.oldcode == ent && codes != [] && codes[|codes| - 1] == ent
      requires Searched(Entry(ent, c), i, k) && Stops(htab[i], k)
      modifies buf, htab, codetab, this`offset, this`out, this`bytesOut, this`nBits, this`maxCode, this`clearFlag
      modifies this`codes, this`tab, this`freeEnt, this`checkpoint, this`ratio
      ensures Coding(c, read + [c]) && old(out) <= out
    {
      hide Greedy, Complete, Passed, Stops, Probe, Key, Start, Packed, NextSlot, Fits, DecoderOk, Sound, Positive;
      hide Mirrors, After, HSize, Str, TableOk, SlotOk, InitDecoder;
      NextRead(ent, c, i, k, read);
      if freeEnt < Pow2(maxBits) {
        Enter(ent, c, i, k);
      } else if inCount >= checkpoint && blockCompress {
        ClearBlock(c, read);
      }
    }

    /** The search for the code just sent and the next character has ended. */
    lemma {:induction false} NextRead(ent: nat, c: byte, i: nat, k: nat, read: seq<byte>)
      requires Sent(read) && Next().d.oldcode == ent && codes != [] && codes[|codes| - 1] == ent
      requires Searched(Entry(ent, c), i, k) && Stops(htab[i], k)
      ensures Greedy(Cfg(), codes, read + [c]) && Mirrors(Cfg(), Next().d, Entered(Cfg(), tab, ent, c), c)
      ensures Str(Cfg(), Entered(Cfg(), tab, ent, c), c) == [c] && ent < |tab| && TableOk(Cfg(), tab)
    {
      hide Packed, Fits, Sound, Complete, Positive, After, HSize, Greedy, Passed, Stops, Key, NoLonger, Str, Mirrors;
      EndsHere(Cfg(), Next().d, tab, htab[..], c, k);
      EnterMirrors(Cfg(), Next().d, c);
      LiteralString(Cfg(), Entered(Cfg(), tab, ent, c), c);
      GreedyOn(Cfg(), codes, read, c);
    }

    /** Header, and the starting state of `output`. */
    method BeginStream()
      requires Valid()
      modifies this
      ensures Streaming() && codes == [] && !clearFlag && bytesOut > 0
      ensures start == |old(out)| + 3 && out == old(out) + Header(Cfg())
    {
      hide Header, HSize, SlotOk, After, Packed, Fits;
      out := out + Header(Cfg());
      start := |out|;
      offset, bytesOut, clearFlag, ratio, inCount, checkpoint := 0, 3, false, 0, 1, CHECK_GAP;
      nBits, maxCode := INIT_BITS, 511;
      codes := [];
      NoneSent(Cfg(), Stream());
    }

    /** The first character, and the empty tables. */
    method Begin(c: byte)
      requires Valid()
      modifies this, buf, htab, codetab
      ensures Coding(c, [c]) && start == |old(out)| + 3 && out == old(out) + Header(Cfg())
    {
      hide Header, HSize, WidthOk, Usable, Str, Positive, Packed, Fits;
      BeginStream();
      freeEnt := if blockCompress then FIRST else 256;
      tab := InitDecoder(Cfg()).tab;
      ClearHash();
      NonePositive(htab[..]);
      NoneListed(Cfg(), tab, htab[..]);
      GreedyNone(Cfg(), [c]);
      StartMirrors(Cfg(), c);
      LiteralString(Cfg(), tab, c);
    }

    /** One round of the main loop. */
    method Take(c: byte, ent0: nat, hshift: nat, ghost read: seq<byte>) returns (ent: nat)
      requires Coding(ent0, read) && hshift == bits - 8
      modifies buf, htab, codetab, this`offset, this`out, this`bytesOut, this`nBits, this`maxCode, this`clearFlag
      modifies this`codes, this`tab, this`freeEnt, this`checkpoint, this`ratio, this`inCount
      ensures Coding(ent, read + [c]) && old(out) <= out
    {
      hide Packed, NextSlot, Fits, DecoderOk, Sound, Complete, Positive, After, Extended, Greedy;
      inCount := inCount + 1;
      var found, i, k := Find(c, ent0, hshift);
      if found {
        ent := codetab[i];
        FollowMirrors(Cfg(), Next().d, tab, htab[..], codetab[..], i, c, ent0);
        GreedyLonger(Cfg(), codes, read, read + [c]);
      } else {
        Send(ent0, read);
        Extend(ent0, c, i, k, read);
        ent := c;
      }
    }

    /** The final code, and the end of the file. */
    method Finish(ent: nat, ghost input: seq<byte>)
      requires Coding(ent, input)
      modifies buf, this`offset, this`out, this`bytesOut, this`nBits, this`maxCode, this`clearFlag
      modifies this`codes, this`tab
      ensures old(out) <= out && After(Cfg(), codes).Some? && Next().d.out == input && Greedy(Cfg(), codes, input)
      ensures Packed(Cfg(), codes, out[start..]) && EndsAt(Next(), out[start..])
    {
      hide Packed, NextSlot, Fits, DecoderOk, Sound, Complete, Positive, After, Greedy;
      Send(ent, input);
      FlushEnd();
    }

    /** The main loop, behind the first character. */
    method CompressRest(input: seq<byte>)
      requires input != [] && Coding(input[0], [input[0]])
      modifies buf, htab, codetab, this`offset, this`out, this`bytesOut, this`nBits, this`maxCode, this`clearFlag
      modifies this`codes, this`tab, this`freeEnt, this`checkpoint, this`ratio, this`inCount
      ensures old(out) <= out && After(Cfg(), codes).Some? && Next().d.out == input && Greedy(Cfg(), codes, input)
      ensures Packed(Cfg(), codes, out[start..]) && EndsAt(Next(), out[start..])
    {
      hide Packed, NextSlot, DecoderOk, Sound, Complete, Positive, Mirrors, EndsAt, After, Greedy;
      var ent: nat := input[0];
      var hshift := HashShift();
      var p := 1;
      assert input[..1] == [input[0]];
      while p < |input|
        invariant 1 <= p <= |input| && Coding(ent, input[..p]) && old(out) <= out
      {
        assert input[..p + 1] == input[..p] + [input[p]];
        ent := Take(input[p], ent, hshift, input[..p]);
        p := p + 1;
      }
      assert input[..p] == input;
      Finish(ent, input);
    }

    /** `compress` of one file to standard output: 0x1f, 0x9d, a byte with the largest width and, for block mode, the
        high bit set, and codes for the text, each for as much of it as the table allows. It uncompresses to the same
        text, whatever state an earlier file has left the reader in. */
    method Compress(input: seq<byte>)
      requires Valid()
      modifies this, buf, htab, codetab
      ensures start == |old(out)| + 3 <= |out| && old(out) <= out
      ensures out[start - 3] == 0x1f && out[start - 2] == 0x9d
      ensures out[start - 1] == maxBits + if blockCompress then 128 else 0
      ensures After(Cfg(), codes).Some? && Packed(Cfg(), codes, out[start..]) && EndsAt(Next(), out[start..])
      ensures Next().d.out == input && Greedy(Cfg(), codes, input)
      ensures Decompresses(bits, out[start - 3..], input)
    {
      hide Packed, NextSlot, DecoderOk, Sound, Complete, Positive, Mirrors, EndsAt, Decompresses, After, Header;
      hide Uncompress, Greedy, Fits, InitDecoder, HSize, Str;
      if input == [] {
        BeginStream();
        GreedyNone(Cfg(), []);
        NothingSent(Cfg(), out[start..]);
      } else {
        Begin(input[0]);
        CompressRest(input);
      }
      FileDecodes(Cfg(), codes, out[start..], input);
      PrefixSplits(old(out), Header(Cfg()), out);
      HeaderBytes(Cfg());
    }
  }

  /** A file without codes */
  lemma {:induction false} NothingSent(cfg: Config, bytes: seq<byte>)
    requires cfg.Valid() && bytes == []
    ensures After(cfg, []).Some? && After(cfg, []).value.d.out == [] && EndsAt(After(cfg, []).value, bytes)
    ensures Packed(cfg, [], bytes)
  {
  }

  lemma {:induction false} HeaderBytes(cfg: Config)
    requires cfg.maxbits < 32
    ensures Header(cfg) == [0x1f, 0x9d, cfg.maxbits + if cfg.block then 128 else 0]
  {
  }

  lemma {:induction false} NoneSent(cfg: Config, bytes: seq<byte>)
    requires cfg.Valid()
    ensures After(cfg, []).Some? && Packed(cfg, [], bytes)
    ensures var s := After(cfg, []).value; s.w == Width(INIT_BITS, 511) && s.base == 0 && s.used == 0 && Fits(s)
  {
  }

  /** The three bytes in front of the codes. */
  function Header(cfg: Config): (h: seq<byte>)
    requires cfg.maxbits < 32
    ensures |h| == 3
  {
    MAGIC + [cfg.maxbits + if cfg.block then 128 else 0]
  }

  lemma {:induction false} PrefixSplits(a: seq<byte>, b: seq<byte>, c: seq<byte>)
    requires a + b <= c
    ensures a <= c && c[|a|..] == b + c[|a| + |b|..]
  {
  }

  /** The file uncompresses to the text, whatever an earlier file has left in the reader. */
  ghost predicate Decompresses(bits: nat, file: seq<byte>, text: seq<byte>)
    requires 12 <= bits <= 16
  {
    forall b: seq<byte>, o: nat, s: int :: |b| == bits + 1 && o >= s ==> Uncompress(bits, file, b, o, s) == Ok(text)
  }

  /** A header followed by a packed sequence is a file that uncompresses to the sequence's text. */
  lemma {:induction false} FileDecodes(cfg: Config, codes: seq<nat>, body: seq<byte>, text: seq<byte>)
    requires cfg.Valid() && After(cfg, codes).Some? && Packed(cfg, codes, body)
    requires EndsAt(After(cfg, codes).value, body) && After(cfg, codes).value.d.out == text
    ensures Decompresses(cfg.bits, Header(cfg) + body, text)
  {
    hide Packed, NextCode, InitDecoder, Field, Step, After, EndsAt;
    var file := Header(cfg) + body;
    assert file[..2] == MAGIC && file[3..] == body && HeaderConfig(cfg.bits, file[2]) == cfg;
    assert codes[..|codes|] == codes;
    forall b: seq<byte>, o: nat, s: int | |b| == cfg.bits + 1 && o >= s
      ensures Uncompress(cfg.bits, file, b, o, s) == Ok(text)
    {
      StreamDecodes(cfg, codes, body, Reader(InitWidth, b, o, s, body));
    }
  }

  /** Following a pair that is in the table takes the pending string one character on. */
  lemma {:induction false} FollowMirrors(cfg: Config, d: Decoder, tab: seq<Entry>, htab: seq<int>, codetab: seq<nat>,
                      i: nat, c: byte, ent: nat)
    requires Mirrors(cfg, d, tab, ent) && Sound(cfg, tab, htab, codetab)
    requires i < |htab| && htab[i] == Key(cfg.maxbits, c, ent)
    ensures Mirrors(cfg, d, tab, codetab[i])
    ensures Str(cfg, tab, codetab[i]) == Str(cfg, tab, ent) + [c]
  {
    FoundCode(cfg, tab, htab, codetab, i, c, ent);
  }

  /** What entering a pair keeps of the hash table. */
  lemma {:induction false} EntersTable(cfg: Config, tab: seq<Entry>, htab: seq<int>, codetab: seq<nat>, e: Entry,
                                       k: nat)
    requires cfg.Valid() && TableOk(cfg, tab) && cfg.FirstFree() <= |tab| <= Pow2(cfg.maxbits)
    requires Sound(cfg, tab, htab, codetab) && Complete(cfg, tab, htab) && e.prefix < Pow2(cfg.maxbits)
    requires Passed(htab, Start(cfg.bits, e), k, Key(cfg.maxbits, e.suffix, e.prefix))
    requires Stops(htab[Probe(Start(cfg.bits, e), k, |htab|)], k)
    ensures var i, key := Probe(Start(cfg.bits, e), k, |htab|), Key(cfg.maxbits, e.suffix, e.prefix);
      && i < |htab| && Sound(cfg, tab + [e], htab[i := key], codetab[i := |tab|])
      && Complete(cfg, tab + [e], htab[i := key]) && Positive(htab[i := key]) <= Positive(htab) + 1
  {
    var i, key := Probe(Start(cfg.bits, e), k, |htab|), Key(cfg.maxbits, e.suffix, e.prefix);
    hide Sound, Complete, Positive, Passed, Stops, Probe, Key, Start, Pow2;
    EnterKeeps(cfg, tab, htab, codetab, i, e);
    EnterCompletes(cfg, tab, htab, e, k);
    PositiveGrows(htab, i, key);
  }

  /** An empty table */
  lemma {:induction false} NoneListed(cfg: Config, tab: seq<Entry>, htab: seq<int>)
    requires cfg.bits >= 8 && |tab| == cfg.FirstFree()
    ensures Complete(cfg, tab, htab)
  {
  }

  /** A search that has ended: the last code does not go on with this character. */
  lemma {:induction false} EndsHere(cfg: Config, d: Decoder, tab: seq<Entry>, htab: seq<int>, c: byte, k: nat)
    requires cfg.bits >= 8 && Complete(cfg, tab, htab)
    requires var e := Entry(d.oldcode, c);
      && Passed(htab, Start(cfg.bits, e), k, Key(cfg.maxbits, c, d.oldcode))
      && Stops(htab[Probe(Start(cfg.bits, e), k, |htab|)], k)
    ensures NoLonger(cfg, tab, d.oldcode, c)
  {
    hide Complete, Passed, Stops;
    KeyZero(cfg.maxbits, c, d.oldcode);
    if d.oldcode != 0 || c != 0 {
      KeyNat(cfg.maxbits, Entry(d.oldcode, c));
      Absent(cfg, tab, htab, Entry(d.oldcode, c), k);
    }
  }

  /** A step of the decoder is a slot for the compressor. */
  lemma {:induction false} StepTakesSlot(cfg: Config, s: Slot, code: nat)
    requires cfg.Valid() && SlotOk(cfg, s) && Step(cfg, s.d, code).Some?
    ensures NextSlot(cfg, s, code).Some? && NextSlot(cfg, s, code).value.d == Step(cfg, s.d, code).value
  {
  }

  lemma {:induction false} LiteralString(cfg: Config, tab: seq<Entry>, c: byte)
    requires TableOk(cfg, tab)
    ensures Usable(cfg, tab, c) && Str(cfg, tab, c) == [c]
  {
  }

  lemma {:induction false} SoundCarries(cfg: Config, tab: seq<Entry>, tab': seq<Entry>, htab: seq<int>,
                                        codetab: seq<nat>)
    requires Sound(cfg, tab, htab, codetab) && |tab'| == |tab|
    requires forall c: nat :: 256 <= c < |tab| && Usable(cfg, tab, c) ==> tab'[c] == tab[c]
    ensures Sound(cfg, tab', htab, codetab) && (Complete(cfg, tab, htab) ==> Complete(cfg, tab', htab))
  {
    hide Listed;
  }

  lemma {:induction false} HSizeIsPrime(bits: nat)
    ensures Primes.IsPrime(HSize(bits))
  {
    Primes.HashSizesArePrime();
  }

  lemma {:induction false} Doublings(bits: nat, k: nat)
    requires 12 <= bits <= 16 && k <= 16 - bits
    ensures 0 < Shl(HSize(bits), k)
    ensures k < 16 - bits <==> Shl(HSize(bits), k) < 65536
  {
    var h := HSize(bits);
    assert Shl(h, 0) == h;
    assert Shl(h, 1) == 2 * h;
    assert Shl(h, 2) == 4 * h;
    assert Shl(h, 3) == 8 * h;
    assert Shl(h, 4) == 16 * h;
    if k == 0 {} else if k == 1 {} else if k == 2 {} else if k == 3 {} else {}
  }

  /** A code stored in the buffer is in its slot of the stream. */
  lemma {:induction false} StoreInStream(front: seq<byte>, was: seq<byte>, buf: seq<byte>, s: Slot, code: nat)
    requires |was| == |buf| && s.base == |front| && s.used + s.w.nbits <= 8 * |buf|
    requires SameBits(buf, was, 0, s.used)
    requires Field(buf, s.used, s.used + s.w.nbits) == code
    ensures SameBits(front + was, front + buf, 0, s.Lo())
    ensures InSlot(s, code, front + buf)
  {
    hide Field;
    var str, u := front + buf, s.used;
    assert str[s.base..s.base + |buf|] == buf[..|buf|];
    FieldInBuffer(str, buf, s.base, |buf|, u, u + s.w.nbits);
    SameInStream(front, was, buf, u);
  }

  lemma {:induction false} SameInStream(front: seq<byte>, was: seq<byte>, buf: seq<byte>, u: nat)
    requires |was| == |buf| && u <= 8 * |buf| && SameBits(buf, was, 0, u)
    ensures SameBits(front + was, front + buf, 0, 8 * |front| + u)
  {
    forall k: nat | k < 8 * |front| + u
      ensures Bit(front + was, k) == Bit(front + buf, k)
    {
      if k >= 8 * |front| {
        BitShift(front + was, was, |front|, k - 8 * |front|);
        BitShift(front + buf, buf, |front|, k - 8 * |front|);
      }
    }
  }

  /** Writing the buffer out moves no code. */
  lemma {:induction false} FlushKeeps(cfg: Config, codes: seq<nat>, s: Slot, code: nat, str: seq<byte>, str': seq<byte>)
    requires cfg.Valid() && After(cfg, codes) == Some(s) && Packed(cfg, codes, str) && InSlot(s, code, str)
    requires s.base + s.w.nbits <= |str| && s.base + s.w.nbits <= |str'|
    requires str[..s.base + s.w.nbits] == str'[..s.base + s.w.nbits]
    ensures Packed(cfg, codes, str') && InSlot(s, code, str')
  {
    hide SlotOk;
    var m := s.base + s.w.nbits;
    SlotBounds(cfg, s);
    assert str[0..m] == str'[0..m];
    SameBytes(str, str', 0, m);
    PackedKept(cfg, codes, str, str');
    FieldAgrees(str, str', s.Lo(), s.Hi());
  }
}
