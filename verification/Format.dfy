/** The format of a compressed file in numbers: what the third byte of the header does to the codes behind it
    (compress.c). */
module Format {

  import opened Basics
  import opened BitStream
  import opened Lzw
  import opened CodeStream
  import opened CodeTable
  import opened Compress

  /** The codes of nine bits that begin r bits behind the start of byte p. */
  lemma {:induction false} NineBits(s: seq<byte>, p: nat, r: nat)
    requires r <= 2 && p + 1 < |s|
    ensures var x: nat, y: nat := s[p], s[p + 1];
      Field(s, 8 * p + r, 8 * p + r + 9)
        == if r == 0 then x + 256 * (y % 2) else if r == 1 then x / 2 + 128 * (y % 4) else x / 4 + 64 * (y % 8)
  {
    hide Field, Low, Shl, Shr;
    FieldInTwoBytes(s, p, r, 9);
    LowOne(s[p + 1]);
    LowTwo(s[p + 1]);
    LowThree(s[p + 1]);
    var x: nat, y := s[p], Low(s[p + 1], r + 1);
    Shifts(x, y);
  }

  lemma {:induction false} Shifts(x: nat, y: nat)
    ensures Shr(x, 0) == x && Shr(x, 1) == x / 2 && Shr(x, 2) == x / 4
    ensures Shl(y, 6) == 64 * y && Shl(y, 7) == 128 * y && Shl(y, 8) == 256 * y
  {
    SixteenFold(y);
    ShlShl(y, 4, 2);
    assert Shl(16 * y, 1) == 32 * y;
    assert Shl(y, 7) == 2 * Shl(y, 6);
    assert Shr(x / 2, 1) == x / 2 / 2;
  }

  lemma {:induction false} LowOne(x: nat)
    ensures Low(x, 1) == x % 2
  {
  }

  lemma {:induction false} LowTwo(x: nat)
    ensures Low(x, 2) == x % 4
  {
    LowOne(x / 2);
    assert Low(x, 2) == x % 2 + 2 * Low(x / 2, 1);
    hide Low;
    TwoBits(x);
  }

  lemma {:induction false} LowThree(x: nat)
    ensures Low(x, 3) == x % 8
  {
    LowTwo(x / 2);
    assert Low(x, 3) == x % 2 + 2 * Low(x / 2, 2);
    hide Low;
    ThreeBits(x);
  }

  lemma {:induction false} TwoBits(x: nat)
    ensures x % 4 == x % 2 + 2 * (x / 2 % 2)
  {
    var q, r := x / 4, x % 4;
    assert x == 4 * q + r;
    assert x / 2 == 2 * q + r / 2;
  }

  lemma {:induction false} ThreeBits(x: nat)
    ensures x % 8 == x % 2 + 2 * (x / 2 % 4)
  {
    var q, r := x / 8, x % 8;
    assert x == 8 * q + r;
    assert x / 2 == 4 * q + r / 2;
  }

  /** In block mode the first code that is entered is 257, otherwise 256. It stands for the first two codes. */
  lemma {:induction false} FirstEntered(cfg: Config, a: byte, b: byte)
    requires cfg.Valid() && cfg.maxbits >= INIT_BITS
    ensures After(cfg, [a, b]).Some?
    ensures var d, n := After(cfg, [a, b]).value.d, if cfg.block then 257 else 256;
      && d.mode.Running? && d.out == [a, b] && |d.tab| == n + 1 && d.tab[n] == Entry(a, b)
      && Usable(cfg, d.tab, n) && Str(cfg, d.tab, n) == [a, b]
  {
    Pow2Table();
    Pow2Mono(9, cfg.maxbits);
    OneCode(cfg, a);
    assert [a, b][..1] == [a];
    var d := After(cfg, [a, b]).value.d;
    assert d == Decoder(Running, InitDecoder(cfg).tab + [Entry(a, b)], b, b, [a] + [b]);
    assert Str(cfg, d.tab, a) == [a];
  }

  lemma {:induction false} OneCode(cfg: Config, a: byte)
    requires cfg.Valid()
    ensures After(cfg, [a]) == Some(Slot(Decoder(Running, InitDecoder(cfg).tab, a, a, [a]), InitWidth, 0, 1, 9))
  {
    var codes: seq<nat> := [a];
    assert codes[..0] == [];
    var s := InitSlot(cfg);
    assert After(cfg, codes) == NextSlot(cfg, s, a);
    assert s.d.out + [a] == [a];
    assert Step(cfg, s.d, a) == Some(Decoder(Running, s.d.tab, a, a, [a]));
  }

  /** Code 256 clears the table in block mode. No other code does, nor any code otherwise. */
  lemma {:induction false} Clears(cfg: Config, d: Decoder, code: nat)
    requires DecoderOk(cfg, d) && d.mode.Running? && Step(cfg, d, code).Some?
    ensures var d' := Step(cfg, d, code).value;
      if cfg.block && code == 256 then d'.mode.AfterClear? && d'.out == d.out && d'.tab == d.tab[..256]
      else d'.mode.Running? && d.tab <= d'.tab && d.out < d'.out
  {
    StepKeeps(cfg, d, code);
  }

  /** The first few codes of a file: nine bits each, and what the decompressor makes of them. */
  ghost predicate Early(cfg: Config, codes: seq<nat>, bytes: seq<byte>, text: seq<byte>) {
    && cfg.Valid() && cfg.maxbits >= INIT_BITS && |codes| <= 3 && After(cfg, codes).Some? && Packed(cfg, codes, bytes)
    && var s := After(cfg, codes).value;
       && s.w == InitWidth && s.base == 0 && s.j == |codes| && s.used == 9 * |codes|
       && s.d.out == text && |s.d.tab| == cfg.FirstFree() + (if |codes| < 2 then 0 else |codes| - 1)
       && if codes == [] then s.d.mode.AtStart? else s.d.mode.Running? && s.d.oldcode == codes[|codes| - 1]
  }

  lemma {:induction false} EarlyNone(cfg: Config, bytes: seq<byte>)
    requires cfg.Valid() && cfg.maxbits >= INIT_BITS
    ensures Early(cfg, [], bytes, [])
  {
    NoneSent(cfg, bytes);
  }

  /** The next one is a character. */
  lemma {:induction false} EarlyLetter(cfg: Config, codes: seq<nat>, bytes: seq<byte>, text: seq<byte>, b: byte)
    requires Early(cfg, codes, bytes, text) && |codes| < 3 && 9 * |codes| + 9 <= 8 * |bytes|
    requires Field(bytes, 9 * |codes|, 9 * |codes| + 9) == b
    ensures Early(cfg, codes + [b], bytes, text + [b])
  {
    hide After, Packed, Field, Pow2;
    var s := After(cfg, codes).value;
    Pow2Table();
    Pow2Mono(9, cfg.maxbits);
    Usual(cfg, s, b);
    hide NextSlot;
    PackedExtends(cfg, codes, b, bytes);
  }

  lemma {:induction false} Usual(cfg: Config, s: Slot, b: byte)
    requires cfg.Valid() && SlotOk(cfg, s) && s.w == InitWidth && s.j < 7 && |s.d.tab| < 511
    requires !s.d.mode.AfterClear?
    ensures var r := NextSlot(cfg, s, b);
      && r.Some? && r.value.w == InitWidth && r.value.base == s.base && r.value.used == s.used + 9
      && r.value.j == s.j + 1 && r.value.d.mode.Running? && r.value.d.oldcode == b && r.value.d.out == s.d.out + [b]
      && |r.value.d.tab| == |s.d.tab| + (if !s.d.mode.AtStart? && |s.d.tab| < cfg.MaxMaxCode() then 1 else 0)
  {
  }

  /** The second one is the code that is just being entered: it stands for the first character twice. */
  lemma {:induction false} EarlyNew(cfg: Config, a: byte, n: nat, bytes: seq<byte>)
    requires Early(cfg, [a], bytes, [a]) && |bytes| >= 3 && n == if cfg.block then 257 else 256
    requires Field(bytes, 9, 18) == n
    ensures Early(cfg, [a, n], bytes, [a, a, a])
  {
    hide After, Packed, Field, Pow2;
    var s := After(cfg, [a]).value;
    Pow2Table();
    Pow2Mono(9, cfg.maxbits);
    Newest(cfg, s);
    hide NextSlot;
    PackedExtends(cfg, [a], n, bytes);
    assert [a] + [n] == [a, n];
    assert [a] + [a, a] == [a, a, a];
  }

  lemma {:induction false} Newest(cfg: Config, s: Slot)
    requires cfg.Valid() && SlotOk(cfg, s) && s.w == InitWidth && s.j < 7
    requires s.d.mode.Running? && s.d.oldcode < 256 < |s.d.tab| + 1 < 512 && |s.d.tab| < cfg.MaxMaxCode()
    requires cfg.block ==> |s.d.tab| != CLEAR
    ensures var r, a := NextSlot(cfg, s, |s.d.tab|), s.d.oldcode;
      && r.Some? && r.value.w == InitWidth && r.value.base == s.base && r.value.used == s.used + 9
      && r.value.j == s.j + 1 && r.value.d.mode.Running? && r.value.d.oldcode == |s.d.tab|
      && |r.value.d.tab| == |s.d.tab| + 1 && r.value.d.out == s.d.out + [a, a]
  {
    assert Str(cfg, s.d.tab, s.d.oldcode) == [s.d.oldcode];
  }

  lemma {:induction false} BodyFields(a: byte, n: nat, body: seq<byte>)
    requires 256 <= n < 384 && body == [a, n % 128 * 2, 2 + 4 * (a % 64), a / 64]
    ensures Field(body, 0, 9) == a && Field(body, 9, 18) == n && Field(body, 18, 27) == a
  {
    hide Field, Bit, Low, Shl, Shr, Pow2;
    BodyNumbers(a, n);
    NineBits(body, 0, 0);
    NineBits(body, 1, 1);
    NineBits(body, 2, 2);
  }

  lemma {:induction false} BodyNumbers(a: byte, n: nat)
    requires 256 <= n < 384
    ensures var x: nat, y: nat, z: nat := n % 128 * 2, 2 + 4 * (a % 64), a / 64;
      x % 2 == 0 && x / 2 + 128 * (y % 4) == n && y / 4 + 64 * (z % 8) == a
  {
    var q: nat := a % 64;
    assert (2 + 4 * q) / 4 == q && (2 + 4 * q) % 4 == 2;
  }

  /** A character, the code that is entered for it twice, and the character again. */
  lemma {:induction false} TwiceBody(cfg: Config, a: byte, n: nat, body: seq<byte>)
    requires cfg.Valid() && cfg.maxbits >= INIT_BITS && n == if cfg.block then 257 else 256
    requires body == [a, n % 128 * 2, 2 + 4 * (a % 64), a / 64]
    ensures Early(cfg, [a, n, a], body, [a, a, a, a])
  {
    hide Field, Early;
    BodyFields(a, n, body);
    EarlyNone(cfg, body);
    EarlyLetter(cfg, [], body, [], a);
    assert [] + [a] == [a];
    EarlyNew(cfg, a, n, body);
    EarlyLetter(cfg, [a, n], body, [a, a, a], a);
    assert [a, n] + [a] == [a, n, a] && [a, a, a] + [a] == [a, a, a, a];
  }

  /** The same text in the old format and in block mode. */
  lemma {:induction false} FourTimes(cfg: Config, a: byte)
    requires cfg.Valid() && cfg.maxbits >= INIT_BITS
    ensures Decompresses(cfg.bits, [0x1f, 0x9d, cfg.maxbits + if cfg.block then 128 else 0, a,
                                    if cfg.block then 2 else 0, 2 + 4 * (a % 64), a / 64], [a, a, a, a])
  {
    hide Decompresses, Early;
    var n: nat, x: byte := if cfg.block then 257 else 256, if cfg.block then 2 else 0;
    var body: seq<byte> := [a, x, 2 + 4 * (a % 64), a / 64];
    TwiceBody(cfg, a, n, body);
    EarlyFile(cfg, [a, n, a], body, [a, a, a, a]);
    assert [0x1f, 0x9d, cfg.maxbits + if cfg.block then 128 else 0] + body
        == [0x1f, 0x9d, cfg.maxbits + if cfg.block then 128 else 0, a, x, body[2], a / 64];
  }

  lemma {:induction false} EarlyFile(cfg: Config, codes: seq<nat>, body: seq<byte>, text: seq<byte>)
    requires Early(cfg, codes, body, text) && |body| == (9 * |codes| + 7) / 8
    ensures Decompresses(cfg.bits, [0x1f, 0x9d, cfg.maxbits + if cfg.block then 128 else 0] + body, text)
  {
    hide After, Decompresses, Header, Packed;
    FileDecodes(cfg, codes, body, text);
    HeaderBytes(cfg);
  }

  /** In block mode, code 256: what follows begins behind the nine bytes, with an empty table. */
  lemma {:induction false} Cleared(cfg: Config, a: byte, bytes: seq<byte>)
    requires Early(cfg, [a], bytes, [a]) && |bytes| >= 3 && Field(bytes, 9, 18) == 256 && cfg.block
    ensures After(cfg, [a, CLEAR]).Some? && Packed(cfg, [a, CLEAR], bytes)
    ensures After(cfg, [a, CLEAR]).value.w == InitWidth && After(cfg, [a, CLEAR]).value.base == 9
    ensures After(cfg, [a, CLEAR]).value.j == 0 && After(cfg, [a, CLEAR]).value.used == 0
    ensures After(cfg, [a, CLEAR]).value.d.mode.AfterClear? && After(cfg, [a, CLEAR]).value.d.out == [a]
  {
    hide After, Packed, Field, Pow2;
    PackedExtends(cfg, [a], CLEAR, bytes);
    assert [a] + [CLEAR] == [a, CLEAR];
  }

  lemma {:induction false} ClearedFront(cfg: Config, a: byte, body: seq<byte>)
    requires cfg.Valid() && cfg.maxbits >= INIT_BITS && cfg.block && |body| == 11
    requires body[0] == a && body[1] == 0 && body[2] == 2
    ensures Early(cfg, [a], body, [a]) && Field(body, 9, 18) == 256
  {
    hide After, Field, Packed, Early, Low, Shl, Shr, Bit, InitDecoder;
    NineBits(body, 0, 0);
    NineBits(body, 1, 1);
    EarlyNone(cfg, body);
    EarlyLetter(cfg, [], body, [], a);
    assert [] + [a] == [a];
  }

  /** Whatever bytes fill the rest of the nine. */
  lemma {:induction false} ClearedText(cfg: Config, a: byte, b: byte, rest: seq<byte>)
    requires cfg.Valid() && cfg.maxbits >= INIT_BITS && cfg.block && |rest| == 6
    ensures Decompresses(cfg.bits, [0x1f, 0x9d, cfg.maxbits + 128, a, 0, 2] + rest + [b, 0], [a, b])
  {
    hide After, Decompresses, Header, Field, Packed, Early, Low, Shl, Shr, Bit, InitDecoder;
    var body: seq<byte> := [a, 0, 2] + rest + [b, 0];
    ClearedFront(cfg, a, body);
    Cleared(cfg, a, body);
    NineBits(body, 9, 0);
    FirstOfBlock(cfg, After(cfg, [a, CLEAR]).value, b);
    hide NextSlot;
    PackedExtends(cfg, [a, CLEAR], b, body);
    assert [a] + [b] == [a, b];
    FileDecodes(cfg, [a, CLEAR] + [b], body, [a, b]);
    HeaderBytes(cfg);
    assert Header(cfg) + body == [0x1f, 0x9d, cfg.maxbits + 128, a, 0, 2] + rest + [b, 0];
  }

  lemma {:induction false} FirstOfBlock(cfg: Config, s: Slot, b: byte)
    requires cfg.Valid() && SlotOk(cfg, s) && s.w == InitWidth && s.j == 0 && s.d.mode.AfterClear?
    ensures var r := NextSlot(cfg, s, b);
      r.Some? && r.value.base == s.base && r.value.used == 9 && r.value.d.out == s.d.out + [b]
  {
  }
}
