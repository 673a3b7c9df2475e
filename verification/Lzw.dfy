/** The decoder's side of the code stream, as a state machine (`decompress` and `getcode` of
    compress.c). It is the specification both the compressor and the decompressor are proved
    against. */
module Lzw {

  import opened Basics
  import opened BitStream

  const CLEAR: nat := 256
  const FIRST: nat := 257
  const INIT_BITS: nat := 9

  /** `bits` is the BITS the program was built with, `maxbits` and `block` come from the header. */
  datatype Config = Config(bits: nat, maxbits: nat, block: bool) {
    predicate Valid() {
      12 <= bits <= 16 && maxbits <= bits
    }

    function MaxMaxCode(): nat {
      Pow2(maxbits)
    }

    /** free_ent at the start of a file */
    function FirstFree(): nat {
      if block then FIRST else 256
    }
  }

  /** HSIZE, the length of htab and codetab, for each value of BITS. */
  function HSize(bits: nat): nat {
    if bits == 16 then 69001 else if bits == 15 then 35023 else if bits == 14 then 18013
    else if bits == 13 then 9001 else 5003
  }

  lemma {:induction false} Sizes(bits: nat)
    requires 12 <= bits <= 16
    ensures 4096 <= Pow2(bits) <= HSize(bits) && 2 * Pow2(bits) <= 4 * HSize(bits) - Pow2(bits)
  {
    Pow2Table();
  }

  // ---------------------------------------------------------------------------------------
  // The string table

  /** tab_prefixof and tab_suffixof of one code. */
  datatype Entry = Entry(prefix: nat, suffix: byte)

  /** Codes that stand for strings: all below free_ent but the one reserved for CLEAR. */
  predicate Usable(cfg: Config, tab: seq<Entry>, code: nat) {
    code < |tab| && !(cfg.block && code == CLEAR)
  }

  predicate TableOk(cfg: Config, tab: seq<Entry>) {
    256 <= |tab| &&
    forall c: nat :: 256 <= c < |tab| && Usable(cfg, tab, c) ==>
      tab[c].prefix < c && Usable(cfg, tab, tab[c].prefix)
  }

  /** The string a code stands for. */
  function Str(cfg: Config, tab: seq<Entry>, code: nat): (s: seq<byte>)
    requires TableOk(cfg, tab) && Usable(cfg, tab, code)
    ensures s != []
    decreases code
  {
    if code < 256 then [code] else Str(cfg, tab, tab[code].prefix) + [tab[code].suffix]
  }

  lemma {:induction false} StrExtends(cfg: Config, tab: seq<Entry>, more: seq<Entry>, code: nat)
    requires TableOk(cfg, tab) && Usable(cfg, tab, code)
    requires tab <= more && TableOk(cfg, more)
    ensures Str(cfg, more, code) == Str(cfg, tab, code)
    decreases code
  {
    if code >= 256 {
      assert more[code] == tab[code];
      StrExtends(cfg, tab, more, tab[code].prefix);
    }
  }

  /** A code's string is no longer than its distance from the literals. */
  lemma {:induction false} StrLength(cfg: Config, tab: seq<Entry>, code: nat)
    requires TableOk(cfg, tab) && Usable(cfg, tab, code)
    ensures |Str(cfg, tab, code)| <= if code < 256 then 1 else code - 254
    decreases code
  {
    if code >= 256 { StrLength(cfg, tab, tab[code].prefix); }
  }

  // ---------------------------------------------------------------------------------------
  // One code at a time

  /** Which getcode call the decoder is about to make: the first of the file, an ordinary one, or
      the one right after CLEAR (clear_flg set, free_ent below FIRST). */
  datatype Mode = AtStart | Running | AfterClear

  datatype Decoder = Decoder(mode: Mode, tab: seq<Entry>, oldcode: nat, finchar: byte, out: seq<byte>)

  function InitDecoder(cfg: Config): (d: Decoder)
    ensures DecoderOk(cfg, d)
  {
    Decoder(AtStart, seq(cfg.FirstFree(), i => Entry(0, i % 256)), 0, 0, [])
  }

  predicate DecoderOk(cfg: Config, d: Decoder) {
    && TableOk(cfg, d.tab)
    && (|d.tab| <= FIRST || |d.tab| <= cfg.MaxMaxCode())
    && (d.mode.AtStart? ==> |d.tab| == cfg.FirstFree())
    && (d.mode.AfterClear? ==> cfg.block && |d.tab| == 256)
    && (d.mode.Running? && cfg.block && |d.tab| == 256 ==> cfg.MaxMaxCode() <= 256)
    && (d.mode.Running? ==>
          Usable(cfg, d.tab, d.oldcode) && d.finchar == Str(cfg, d.tab, d.oldcode)[0])
  }

  /** The string a received code stands for, with the KwKwK case; None where the code is one the
      decoder has no string for. */
  function Decoded(cfg: Config, d: Decoder, code: nat): Option<seq<byte>>
    requires DecoderOk(cfg, d)
    requires d.mode.Running? && cfg.block ==> code != CLEAR
  {
    if d.mode.AtStart? then
      if code < 256 then Some([code]) else None
    else if code < |d.tab| then
      Some(Str(cfg, d.tab, code))
    else if d.mode.Running? && code == |d.tab| < cfg.MaxMaxCode() then
      Some(Str(cfg, d.tab, d.oldcode) + [d.finchar])
    else
      None
  }

  /** The new entry made after a code, if there is room. */
  function Extended(cfg: Config, d: Decoder, fin: byte): seq<Entry> {
    if !d.mode.AtStart? && |d.tab| < cfg.MaxMaxCode() then d.tab + [Entry(d.oldcode, fin)] else d.tab
  }

  /** What one code does to the decoder; None for a code no compressor sends here. */
  function Step(cfg: Config, d: Decoder, code: nat): (r: Option<Decoder>)
    requires DecoderOk(cfg, d)
  {
    if d.mode.Running? && cfg.block && code == CLEAR then
      Some(d.(mode := AfterClear, tab := d.tab[..256]))
    else
      match Decoded(cfg, d, code)
      case None => None
      case Some(s) =>
        assert s != [];
        Some(Decoder(Running, Extended(cfg, d, s[0]), code, s[0], d.out + s))
  }

  /** The decoder's tables stay sound, and the new code stands for the string just written. */
  lemma {:induction false} StepKeeps(cfg: Config, d: Decoder, code: nat)
    requires DecoderOk(cfg, d) && Step(cfg, d, code).Some?
    ensures DecoderOk(cfg, Step(cfg, d, code).value)
    ensures var d' := Step(cfg, d, code).value;
      d'.mode.Running? ==> d'.out == d.out + Str(cfg, d'.tab, code)
  {
    var d' := Step(cfg, d, code).value;
    if d'.mode.Running? {
      assert forall c: nat :: Usable(cfg, d.tab, c) ==> Usable(cfg, d'.tab, c);
      assert TableOk(cfg, d'.tab);
      if code < |d.tab| {
        StrExtends(cfg, d.tab, d'.tab, code);
      } else {
        StrExtends(cfg, d.tab, d'.tab, d.oldcode);
      }
    } else {
      assert forall c: nat :: c < 256 ==> Usable(cfg, d'.tab, c);
    }
  }

  // ---------------------------------------------------------------------------------------
  // Code width

  datatype Width = Width(nbits: nat, maxcode: nat)

  const InitWidth := Width(INIT_BITS, 511)

  /** MAXCODE for the next width; at maxbits the bound that is never exceeded. */
  function Grow(cfg: Config, w: Width): Width {
    Width(w.nbits + 1, if w.nbits + 1 == cfg.maxbits then cfg.MaxMaxCode() else Pow2(w.nbits + 1) - 1)
  }

  /** Must the width change before the decoder in state d reads on? */
  predicate Changes(w: Width, d: Decoder) {
    d.mode.AfterClear? || |d.tab| > w.maxcode
  }

  function NextWidth(cfg: Config, w: Width, d: Decoder): Width {
    if d.mode.AfterClear? then InitWidth
    else if |d.tab| > w.maxcode then Grow(cfg, w)
    else w
  }

  predicate WidthOk(cfg: Config, w: Width) {
    || w == InitWidth
    || (10 <= w.nbits && (w.nbits <= cfg.maxbits || w.nbits == 10)
        && w.maxcode == if w.nbits == cfg.maxbits then cfg.MaxMaxCode() else Pow2(w.nbits) - 1)
  }

  /** Widths stay between 9 and BITS bits. */
  lemma {:induction false} NextWidthKeeps(cfg: Config, w: Width, d: Decoder)
    requires cfg.Valid() && WidthOk(cfg, w) && DecoderOk(cfg, d)
    ensures WidthOk(cfg, NextWidth(cfg, w, d))
    ensures 9 <= NextWidth(cfg, w, d).nbits <= cfg.bits
  {
    Pow2Table();
    if cfg.maxbits < 9 { Pow2Mono(cfg.maxbits, 8); }
    if cfg.maxbits < w.nbits { Pow2Mono(cfg.maxbits, 9); }
  }

  lemma {:induction false} Pow2Table()
    ensures Pow2(8) == 256 && Pow2(9) == 512 && Pow2(10) == 1024
    ensures Pow2(12) == 4096 && Pow2(13) == 8192 && Pow2(14) == 16384 && Pow2(15) == 32768 && Pow2(16) == 65536
  {
  }

  // ---------------------------------------------------------------------------------------
  // getcode: codes out of bytes

  /** The buffer of getcode with its scan position, and the input not yet read. */
  datatype Reader = Reader(w: Width, buf: seq<byte>, offset: nat, size: int, rest: seq<byte>)

  predicate ReaderOk(cfg: Config, r: Reader) {
    && WidthOk(cfg, r.w)
    && 9 <= r.w.nbits <= cfg.bits
    && |r.buf| == cfg.bits + 1
    && (r.offset < r.size ==> r.size + r.w.nbits <= 8 * r.w.nbits + 1)
  }

  /** `fread` of one buffer full in the width now in force; None at end of file. The size is
      rounded down to a whole number of codes. */
  function Refill(cfg: Config, r: Reader, d: Decoder): (r': Option<Reader>)
    requires cfg.Valid() && ReaderOk(cfg, r) && DecoderOk(cfg, d)
    ensures r'.Some? ==> ReaderOk(cfg, r'.value) && r'.value.offset == 0 && |r'.value.rest| < |r.rest|
  {
    NextWidthKeeps(cfg, r.w, d);
    var w := NextWidth(cfg, r.w, d);
    var m := Min(w.nbits, |r.rest|);
    if m == 0 then None
    else Some(Reader(w, r.rest[..m] + r.buf[m..], 0, 8 * m - (w.nbits - 1), r.rest[m..]))
  }

  /** getcode: the next code and the reader after it; None at end of file. */
  function NextCode(cfg: Config, r: Reader, d: Decoder): (c: Option<(nat, Reader)>)
    requires cfg.Valid() && ReaderOk(cfg, r) && DecoderOk(cfg, d)
    ensures c.Some? ==> ReaderOk(cfg, c.value.1) && Before(c.value.1, r)
  {
    var r1 := if Changes(r.w, d) || r.offset >= r.size then Refill(cfg, r, d) else Some(r);
    match r1
    case None => None
    case Some(q) =>
      Some((Field(q.buf, q.offset, q.offset + q.w.nbits), q.(offset := q.offset + q.w.nbits)))
  }

  predicate Before(r: Reader, q: Reader) {
    |r.rest| < |q.rest| || (r.rest == q.rest && r.size - r.offset < q.size - q.offset && q.offset < q.size)
  }

  // ---------------------------------------------------------------------------------------
  // Whole files

  /** The decompressor's run from a reader and decoder state: the text it has written at end of
      file, or None if it meets a code it has no string for. */
  function Run(cfg: Config, r: Reader, d: Decoder): Option<seq<byte>>
    requires cfg.Valid() && ReaderOk(cfg, r) && DecoderOk(cfg, d)
    decreases |r.rest|, if r.offset < r.size then r.size - r.offset else 0
  {
    match NextCode(cfg, r, d)
    case None => Some(d.out)
    case Some((code, r')) =>
      match Step(cfg, d, code)
      case None => None
      case Some(d') =>
        StepKeeps(cfg, d, code);
        Run(cfg, r', d')
  }

  /** A reader with nothing buffered, whatever an earlier file left in its buffer. */
  predicate AtFileStart(cfg: Config, r: Reader) {
    r.w == InitWidth && |r.buf| == cfg.bits + 1 && r.offset >= r.size
  }

  datatype Outcome = Ok(text: seq<byte>) | NotCompressed | TooManyBits | Corrupt

  const MAGIC: seq<byte> := [0x1f, 0x9d]

  function HeaderConfig(bits: nat, b: byte): Config {
    Config(bits, b % 32, b >= 128)
  }

  /** `main` and `decompress` on one file, for a program built with the given BITS. A missing third
      byte reads as EOF, whose low five bits are all set. */
  function Uncompress(bits: nat, file: seq<byte>, buf: seq<byte>, offset: nat, size: int): Outcome
    requires 12 <= bits <= 16 && |buf| == bits + 1 && offset >= size
  {
    if |file| < 2 || file[..2] != MAGIC then NotCompressed
    else if |file| == 2 || file[2] % 32 > bits then TooManyBits
    else
      var cfg := HeaderConfig(bits, file[2]);
      match Run(cfg, Reader(InitWidth, buf, offset, size, file[3..]), InitDecoder(cfg))
      case None => Corrupt
      case Some(text) => Ok(text)
  }
}
