/** `decompress` and `getcode` of compress.c, working on the tables and buffer they share. */
module Decompress {

  import opened Basics
  import opened BitStream
  import opened Lzw

  function Reversed(s: seq<byte>): seq<byte> {
    if s == [] then [] else [s[|s| - 1]] + Reversed(s[..|s| - 1])
  }

  class Decompressor {
    const bits: nat
    var maxBits: nat
    var blockCompress: bool
    var nBits: nat
    var maxCode: nat
    var freeEnt: nat
    var clearFlag: bool
    // getcode's own buffer, with its scan position and size in bits
    const buf: array<byte>
    var offset: nat
    var size: int
    // codetab, and htab cut into a suffix table and an output stack
    const tabPrefix: array<nat>
    const tabSuffix: array<byte>
    const stack: array<byte>
    // standard input not yet read, and standard output
    var input: seq<byte>
    var output: seq<byte>

    ghost predicate Valid()
      reads this
    {
      && 12 <= bits <= 16 && maxBits <= bits
      && buf.Length == bits + 1
      && tabPrefix.Length == HSize(bits)
      && tabSuffix.Length == Pow2(bits)
      && stack.Length == 4 * HSize(bits) - Pow2(bits)
      && buf != tabSuffix && buf != stack && tabSuffix != stack
    }

    function Cfg(): Config
      reads this
    {
      Config(bits, maxBits, blockCompress)
    }

    ghost function Scan(): Reader
      reads this, buf
    {
      Reader(Width(nBits, maxCode), buf[..], offset, size, input)
    }

    /** The tables hold the strings of the decoder state d. */
    ghost predicate Holds(d: Decoder)
      reads this, tabPrefix, tabSuffix
    {
      && DecoderOk(Cfg(), d)
      && freeEnt == |d.tab| <= tabPrefix.Length && freeEnt <= tabSuffix.Length
      && (forall c: nat :: c < 256 ==> tabSuffix[c] == c)
      && (forall c: nat :: 256 <= c < freeEnt && Usable(Cfg(), d.tab, c) ==>
            tabPrefix[c] == d.tab[c].prefix && tabSuffix[c] == d.tab[c].suffix)
    }

    constructor (bits: nat)
      requires 12 <= bits <= 16
      ensures Valid() && this.bits == bits && fresh(buf) && fresh(tabPrefix) && fresh(tabSuffix) && fresh(stack)
      ensures offset >= size && !clearFlag && output == []
    {
      Sizes(bits);
      this.bits := bits;
      maxBits, blockCompress := bits, true;
      nBits, maxCode, freeEnt, clearFlag := INIT_BITS, 511, 0, false;
      buf := new byte[bits + 1];
      offset, size := 0, 0;
      tabPrefix := new nat[HSize(bits)];
      tabSuffix := new byte[Pow2(bits)];
      stack := new byte[4 * HSize(bits) - Pow2(bits)];
      input, output := [], [];
    }

    /** fread of up to n bytes into the buffer. */
    method Fread(n: nat) returns (m: nat)
      requires n <= buf.Length
      modifies this`input, buf
      ensures m == Min(n, |old(input)|)
      ensures buf[..] == old(input)[..m] + old(buf[..])[m..]
      ensures input == old(input)[m..]
    {
      m := Min(n, |input|);
      forall i | 0 <= i < m {
        buf[i] := input[i];
      }
      input := input[m..];
    }

    /** The part of getcode that changes width and reads the next buffer full; false at end of file. */
    method FillBuffer(ghost d: Decoder) returns (ok: bool)
      requires Valid() && ReaderOk(Cfg(), Scan()) && DecoderOk(Cfg(), d)
      requires freeEnt == |d.tab| && clearFlag == d.mode.AfterClear?
      modifies this`nBits, this`maxCode, this`clearFlag, this`offset, this`size, this`input, buf
      ensures var r := Refill(old(Cfg()), old(Scan()), d);
        if r == None then !ok && offset >= size else ok && Scan() == r.value
      ensures !clearFlag
    {
      hide Pow2, TableOk;
      ghost var r := Scan();
      NextWidthKeeps(Cfg(), r.w, d);
      hide DecoderOk, ReaderOk, WidthOk;
      if freeEnt > maxCode {
        nBits := nBits + 1;
        maxCode := if nBits == maxBits then Pow2(maxBits) else Pow2(nBits) - 1;
      }
      if clearFlag {
        nBits, maxCode := INIT_BITS, 511;
        clearFlag := false;
      }
      assert Width(nBits, maxCode) == NextWidth(Cfg(), r.w, d);
      size := Fread(nBits);
      if size <= 0 {
        return false;
      }
      offset := 0;
      size := 8 * size - (nBits - 1);
      ok := true;
    }

    /** One code from standard input, or -1 at end of file. */
    method GetCode(ghost d: Decoder) returns (code: int)
      requires Valid() && ReaderOk(Cfg(), Scan()) && DecoderOk(Cfg(), d)
      requires freeEnt == |d.tab| && clearFlag == d.mode.AfterClear?
      modifies this`nBits, this`maxCode, this`clearFlag, this`offset, this`size, this`input, buf
      ensures var c := NextCode(old(Cfg()), old(Scan()), d);
        if c == None then code == -1 && offset >= size
        else code == c.value.0 && Scan() == c.value.1 && ReaderOk(Cfg(), Scan())
      ensures !clearFlag
    {
      hide Field, DecoderOk, Refill, WidthOk;
      if clearFlag || offset >= size || freeEnt > maxCode {
        var ok := FillBuffer(d);
        if !ok {
          return -1;
        }
      }
      code := Extract(buf, offset, nBits);
      offset := offset + nBits;
    }

    /** Pushes a code's string on the output stack, last byte first, following the prefix links. */
    method PushString(code0: nat, sp0: nat, ghost d: Decoder) returns (sp: nat, fin: byte)
      requires Valid() && Holds(d) && Usable(Cfg(), d.tab, code0)
      requires sp0 + |Str(Cfg(), d.tab, code0)| <= stack.Length
      modifies stack
      ensures sp <= stack.Length
      ensures Reversed(stack[..sp]) == Str(Cfg(), d.tab, code0) + Reversed(old(stack[..sp0]))
      ensures fin == Str(Cfg(), d.tab, code0)[0]
    {
      hide Pow2;
      ghost var cfg, below := Cfg(), Reversed(stack[..sp0]);
      ghost var whole := Str(cfg, d.tab, code0);
      ghost var done: seq<byte> := [];
      var code := code0;
      sp := sp0;
      while code >= 256
        invariant Usable(cfg, d.tab, code)
        invariant whole == Str(cfg, d.tab, code) + done
        invariant sp == sp0 + |done| <= stack.Length && Reversed(stack[..sp]) == done + below
        decreases code
      {
        done := Push(sp, tabSuffix[code], done, below);
        assert whole == Str(cfg, d.tab, d.tab[code].prefix) + done;
        sp := sp + 1;
        code := tabPrefix[code];
      }
      fin := tabSuffix[code];
      done := Push(sp, fin, done, below);
      assert whole == done;
      sp := sp + 1;
    }

    method Push(sp: nat, x: byte, ghost done: seq<byte>, ghost below: seq<byte>) returns (ghost more: seq<byte>)
      requires sp < stack.Length && Reversed(stack[..sp]) == done + below
      modifies stack
      ensures more == [x] + done && Reversed(stack[..sp + 1]) == more + below
    {
      stack[sp] := x;
      assert stack[..sp + 1] == old(stack[..sp]) + [x];
      ReversedPush(old(stack[..sp]), x);
      more := [x] + done;
    }

    /** Puts the stacked bytes out in forward order. */
    method PopAll(sp0: nat)
      requires sp0 <= stack.Length
      modifies this`output
      ensures output == old(output) + Reversed(stack[..sp0])
    {
      var sp := sp0;
      ghost var put: seq<byte> := [];
      while sp > 0
        invariant 0 <= sp <= stack.Length && output == old(output) + put
        invariant Reversed(stack[..sp0]) == put + Reversed(stack[..sp])
      {
        sp := sp - 1;
        assert stack[..sp + 1] == stack[..sp] + [stack[sp]];
        ReversedPush(stack[..sp], stack[sp]);
        output := output + [stack[sp]];
        put := put + [stack[sp]];
      }
    }

    /** Writes a code's string, and behind it finchar in the KwKwK case. */
    method WriteString(code: nat, kw: bool, finchar: byte, ghost d: Decoder) returns (fin: byte)
      requires Valid() && Holds(d) && Usable(Cfg(), d.tab, code)
      modifies stack, this`output
      ensures fin == Str(Cfg(), d.tab, code)[0]
      ensures output == old(output) + (Str(Cfg(), d.tab, code) + if kw then [finchar] else [])
    {
      StackSuffices(Cfg(), d, code);
      var sp := 0;
      if kw {
        stack[0] := finchar;
        sp := 1;
      }
      assert Reversed(stack[..sp]) == if kw then [finchar] else [];
      sp, fin := PushString(code, sp, d);
      PopAll(sp);
    }

    /** What the main loop does with a code that is not CLEAR: write its string, make the new entry. */
    method TakeCode(code: nat, oldcode: nat, finchar: byte, ghost d: Decoder) returns (fin: byte)
      requires Valid() && Holds(d) && !d.mode.AtStart? && Step(Cfg(), d, code).Some?
      requires !(d.mode.Running? && blockCompress && code == CLEAR)
      requires oldcode == d.oldcode && (d.mode.Running? ==> finchar == d.finchar)
      modifies stack, tabPrefix, tabSuffix, this`output, this`freeEnt
      ensures var d' := Step(old(Cfg()), d, code).value;
        && Holds(d') && fin == d'.finchar
        && d'.out == d.out + d'.out[|d.out|..] && output == old(output) + d'.out[|d.out|..]
    {
      ghost var d' := Step(Cfg(), d, code).value;
      StepKeeps(Cfg(), d, code);
      if code >= freeEnt {
        fin := WriteString(oldcode, true, finchar, d);
      } else {
        fin := WriteString(code, false, finchar, d);
      }
      assert fin == d'.finchar && output == old(output) + d'.out[|d.out|..];
      EnterCode(oldcode, fin, d, d');
    }

    /** The new entry, while there is room. */
    method EnterCode(oldcode: nat, fin: byte, ghost d: Decoder, ghost d': Decoder)
      requires Valid() && Holds(d) && !d.mode.AtStart? && oldcode == d.oldcode
      requires DecoderOk(Cfg(), d') && d'.tab == Extended(Cfg(), d, fin)
      modifies tabPrefix, tabSuffix, this`freeEnt
      ensures Holds(d')
    {
      EntryRoom(Cfg(), d);
      if freeEnt < Pow2(maxBits) {
        tabPrefix[freeEnt] := oldcode;
        tabSuffix[freeEnt] := fin;
        freeEnt := freeEnt + 1;
      }
    }

    /** Widths and tables as they are at the start of a file. */
    method Reset()
      requires Valid()
      modifies this`nBits, this`maxCode, this`freeEnt, tabPrefix, tabSuffix
      ensures nBits == InitWidth.nbits && maxCode == InitWidth.maxcode
      ensures Holds(InitDecoder(Cfg()))
    {
      nBits, maxCode := INIT_BITS, 511;
      Sizes(bits);
      for c := 0 to 256
        invariant nBits == INIT_BITS && maxCode == 511
        invariant forall i: nat :: i < c ==> tabSuffix[i] == i
      {
        tabPrefix[c], tabSuffix[c] := 0, c;
      }
      freeEnt := if blockCompress then FIRST else 256;
    }

    /** CLEAR: the literals' prefixes are wiped again and free_ent falls below FIRST. */
    method Clear(ghost d: Decoder)
      requires Valid() && Holds(d) && d.mode.Running? && blockCompress
      modifies this`clearFlag, this`freeEnt, tabPrefix
      ensures clearFlag && Holds(Step(Cfg(), d, CLEAR).value)
    {
      StepKeeps(Cfg(), d, CLEAR);
      for c := 0 to 256
        invariant forall i: nat :: 256 <= i < tabPrefix.Length ==> tabPrefix[i] == old(tabPrefix[i])
      {
        tabPrefix[c] := 0;
      }
      clearFlag := true;
      freeEnt := FIRST - 1;
    }

    /** GetCode, seen as one step of the specified run. */
    method Fetch(ghost d: Decoder, ghost text: seq<byte>) returns (code: int)
      requires Valid() && ReaderOk(Cfg(), Scan()) && Holds(d) && clearFlag == d.mode.AfterClear?
      requires Run(Cfg(), Scan(), d) == Some(text)
      modifies this`nBits, this`maxCode, this`clearFlag, this`offset, this`size, this`input, buf
      ensures code >= -1 && !clearFlag
      ensures code == -1 ==> text == d.out && offset >= size
      ensures code >= 0 ==> Leads(old(Cfg()), old(Scan()), d, code, text, Scan())
    {
      hide Run, NextCode, Step, Field, DecoderOk, ReaderOk;
      RunSteps(Cfg(), Scan(), d, text);
      code := GetCode(d);
      if code >= 0 {
        StepParts(Cfg(), d, code);
      }
    }

    /** Between two rounds of the main loop: the rest of the run will write the rest of text. */
    ghost predicate Ready(d: Decoder, text: seq<byte>)
      reads this, buf, tabPrefix, tabSuffix
    {
      && Valid() && Holds(d) && clearFlag == d.mode.AfterClear?
      && ReaderOk(Cfg(), Scan()) && Run(Cfg(), Scan(), d) == Some(text)
    }

    /** One round of the main loop; `more` is false when the file has ended. */
    method Round(oldcode0: nat, finchar0: byte, ghost d0: Decoder, ghost text: seq<byte>)
      returns (more: bool, oldcode: nat, finchar: byte, ghost d: Decoder)
      requires Ready(d0, text) && d0.mode.Running? && oldcode0 == d0.oldcode && finchar0 == d0.finchar
      modifies this`nBits, this`maxCode, this`clearFlag, this`offset, this`size, this`input, buf
      modifies stack, tabPrefix, tabSuffix, this`output, this`freeEnt
      ensures Valid() && !clearFlag
      ensures d0.out <= d.out && output == old(output) + d.out[|d0.out|..]
      ensures !more ==> d.out == text && offset >= size
      ensures more ==> Ready(d, text) && d.mode.Running? && oldcode == d.oldcode && finchar == d.finchar
      ensures more ==> Before(Scan(), old(Scan()))
    {
      hide Run, NextCode, Step, Field, DecoderOk, ReaderOk;
      more, oldcode, finchar, d := true, oldcode0, finchar0, d0;
      var code := Fetch(d, text);
      if code == CLEAR && blockCompress {
        Clear(d);
        d := Step(Cfg(), d, code).value;
        code := Fetch(d, text);
      }
      if code == -1 {
        more := false;
        return;
      }
      finchar := TakeCode(code, oldcode, finchar, d);
      oldcode := code;
      d := Step(Cfg(), d, code).value;
    }

    /** The first code, which must be a byte. `more` is false for an empty file. */
    method Start() returns (more: bool, oldcode: nat, finchar: byte, ghost d: Decoder)
      requires Valid() && offset >= size && !clearFlag
      requires Run(Cfg(), Scan().(w := InitWidth), InitDecoder(Cfg())).Some?
      modifies this`nBits, this`maxCode, this`clearFlag, this`offset, this`size, this`input, buf
      modifies tabPrefix, tabSuffix, this`output, this`freeEnt
      ensures !clearFlag && output == old(output) + d.out
      ensures var text := Run(old(Cfg()), old(Scan()).(w := InitWidth), InitDecoder(old(Cfg()))).value;
        if more then Ready(d, text) && d.mode.Running? && oldcode == d.oldcode && finchar == d.finchar
        else d.out == text && offset >= size
    {
      hide Run, NextCode, Step, Field, Pow2;
      d := InitDecoder(Cfg());
      more, oldcode, finchar := false, 0, 0;
      Reset();
      ghost var text := Run(Cfg(), Scan(), d).value;
      assert Ready(d, text);
      hide DecoderOk, ReaderOk, InitDecoder, Pow2, HSize;
      var code := Fetch(d, text);
      if code == -1 {
        return;
      }
      more, oldcode, finchar := true, code, code;
      output := output + [finchar];
      d := Step(Cfg(), d, code).value;
    }

    /** Standard input from where it stands to standard output. The caller has set maxBits and
        blockCompress from the header; the stream must not run into a code without a string.
        Afterwards everything is ready for another file. */
    method Decompress()
      requires Valid() && offset >= size && !clearFlag
      requires Run(Cfg(), Scan().(w := InitWidth), InitDecoder(Cfg())).Some?
      modifies this`nBits, this`maxCode, this`clearFlag, this`offset, this`size, this`input, buf
      modifies stack, tabPrefix, tabSuffix, this`output, this`freeEnt
      ensures output == old(output) + Run(old(Cfg()), old(Scan()).(w := InitWidth), InitDecoder(old(Cfg()))).value
      ensures offset >= size && !clearFlag
    {
      ghost var text := Run(Cfg(), Scan().(w := InitWidth), InitDecoder(Cfg())).value;
      hide Run, NextCode, Step, Field, DecoderOk, ReaderOk, InitDecoder, Usable, Pow2, HSize;
      var more, oldcode, finchar, d := Start();
      while more
        invariant !clearFlag && output == old(output) + d.out
        invariant if more then Ready(d, text) && d.mode.Running? && oldcode == d.oldcode && finchar == d.finchar
                  else d.out == text && offset >= size
        decreases more, |input|, if offset < size then size - offset else 0
      {
        ghost var d0 := d;
        more, oldcode, finchar, d := Round(oldcode, finchar, d0, text);
        AppendRest(old(output), d0.out, d.out);
      }
    }

    /** `uncompress` of one file: the header is checked, then the rest is decompressed to standard output. The file
        must begin with 0x1f and 0x9d. Of the byte behind them the low five bits are the largest width, which must be
        one the program can handle, and the high bit is set for block mode; a missing byte reads as end of file, whose
        low five bits are all set. */
    method UncompressFile(file: seq<byte>) returns (r: Outcome)
      requires Valid() && offset >= size && !clearFlag
      requires Uncompress(bits, file, buf[..], offset, size) != Corrupt
      modifies this`maxBits, this`blockCompress
      modifies this`nBits, this`maxCode, this`clearFlag, this`offset, this`size, this`input, buf
      modifies stack, tabPrefix, tabSuffix, this`output, this`freeEnt
      ensures r == Uncompress(bits, file, old(buf[..]), old(offset), old(size)) != Corrupt
      ensures r.NotCompressed? <==> !(|file| >= 2 && file[0] == 0x1f && file[1] == 0x9d)
      ensures r.TooManyBits? <==> !r.NotCompressed? && (|file| == 2 || file[2] % 32 > bits)
      ensures r.Ok? ==>
                var cfg := Config(bits, file[2] % 32, file[2] >= 128);
                var from := Reader(Width(9, 511), old(buf[..]), old(offset), old(size), file[3..]);
                Run(cfg, from, InitDecoder(cfg)) == Some(r.text)
      ensures output == if r.Ok? then old(output) + r.text else old(output)
      ensures Valid() && offset >= size && !clearFlag
    {
      hide Run;
      if |file| < 2 || file[..2] != MAGIC {
        return NotCompressed;
      }
      if |file| == 2 || file[2] % 32 > bits {
        return TooManyBits;
      }
      maxBits := file[2] % 32;
      blockCompress := file[2] >= 128;
      input := file[3..];
      var start := |output|;
      Decompress();
      r := Ok(output[start..]);
    }
  }

  /** Reading a code takes the specified run from (r, d) to (r', Step(d, code)). */
  ghost predicate Leads(cfg: Config, r: Reader, d: Decoder, code: nat, text: seq<byte>, r': Reader)
    requires cfg.Valid() && DecoderOk(cfg, d)
  {
    && Step(cfg, d, code).Some? && DecoderOk(cfg, Step(cfg, d, code).value) && ReaderOk(cfg, r')
    && Run(cfg, r', Step(cfg, d, code).value) == Some(text)
    && Before(r', r)
    && var d' := Step(cfg, d, code).value;
       && (if d.mode.Running? && cfg.block && code == CLEAR then
             d'.mode.AfterClear? && d'.oldcode == d.oldcode && d'.finchar == d.finchar && d'.out == d.out
           else
             d'.mode.Running? && d'.oldcode == code)
       && (d.mode.AtStart? ==> code < 256 && d' == Decoder(Running, d.tab, code, code, d.out + [code]))
  }

  /** Unrolls the specification of a run by one code. */
  lemma {:induction false} RunSteps(cfg: Config, r: Reader, d: Decoder, text: seq<byte>)
    requires cfg.Valid() && ReaderOk(cfg, r) && DecoderOk(cfg, d) && Run(cfg, r, d) == Some(text)
    ensures NextCode(cfg, r, d) == None ==> text == d.out
    ensures NextCode(cfg, r, d).Some? ==>
      var (code, r') := NextCode(cfg, r, d).value;
      && Step(cfg, d, code).Some? && DecoderOk(cfg, Step(cfg, d, code).value)
      && Run(cfg, r', Step(cfg, d, code).value) == Some(text)
      && Before(r', r)
  {
    if NextCode(cfg, r, d).Some? {
      StepKeeps(cfg, d, NextCode(cfg, r, d).value.0);
    }
  }

  lemma {:induction false} StepParts(cfg: Config, d: Decoder, code: nat)
    requires DecoderOk(cfg, d) && Step(cfg, d, code).Some?
    ensures var d' := Step(cfg, d, code).value;
      if d.mode.Running? && cfg.block && code == CLEAR then
        d'.mode.AfterClear? && d'.oldcode == d.oldcode && d'.finchar == d.finchar && d'.out == d.out
      else
        d'.mode.Running? && d'.oldcode == code
    ensures d.mode.AtStart? ==>
      code < 256 && Step(cfg, d, code).value == Decoder(Running, d.tab, code, code, d.out + [code])
  {
  }

  /** A new entry fits the tables. */
  lemma {:induction false} EntryRoom(cfg: Config, d: Decoder)
    requires cfg.Valid() && DecoderOk(cfg, d)
    ensures |d.tab| < cfg.MaxMaxCode() ==> |d.tab| < Pow2(cfg.bits) <= HSize(cfg.bits)
  {
    Sizes(cfg.bits);
    Pow2Mono(cfg.maxbits, cfg.bits);
  }

  lemma {:induction false} AppendRest(o: seq<byte>, a: seq<byte>, b: seq<byte>)
    requires a <= b
    ensures o + a + b[|a|..] == o + b
  {
  }

  lemma {:induction false} ReversedPush(s: seq<byte>, x: byte)
    ensures Reversed(s + [x]) == [x] + Reversed(s)
  {
    assert (s + [x])[..|s|] == s;
  }

  /** There is room on the stack for any string of the table. */
  lemma {:induction false} StackSuffices(cfg: Config, d: Decoder, code: nat)
    requires cfg.Valid() && DecoderOk(cfg, d) && Usable(cfg, d.tab, code)
    ensures |Str(cfg, d.tab, code)| + 1 <= 4 * HSize(cfg.bits) - Pow2(cfg.bits)
  {
    Sizes(cfg.bits);
    StrLength(cfg, d.tab, code);
    Pow2Mono(cfg.maxbits, cfg.bits);
  }
}
