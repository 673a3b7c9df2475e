/** How a sequence of codes lies in the bytes of a compressed file, and why `getcode` gives back
    exactly the codes handed to `output`. */
module CodeStream {

  import opened Basics
  import opened BitStream
  import opened Lzw

  /** Where the next code goes: the decoder state it will meet, the width it is written in, the
      byte where its buffer full starts, its number in that buffer full, and the bits of the
      buffer taken before it. */
  datatype Slot = Slot(d: Decoder, w: Width, base: nat, j: nat, used: nat) {
    function Lo(): nat {
      8 * base + used
    }

    function Hi(): nat {
      Lo() + w.nbits
    }
  }

  /** j * n by repeated addition */
  function Times(j: nat, n: nat): nat {
    if j == 0 then 0 else Times(j - 1, n) + n
  }

  predicate SlotOk(cfg: Config, s: Slot) {
    && DecoderOk(cfg, s.d)
    && WidthOk(cfg, s.w) && 9 <= s.w.nbits <= cfg.bits
    && s.j < 8 && s.used == Times(s.j, s.w.nbits)
  }

  function InitSlot(cfg: Config): Slot {
    Slot(InitDecoder(cfg), InitWidth, 0, 0, 0)
  }

  /** A buffer full ends after eight codes or where the width changes. */
  function NextSlot(cfg: Config, s: Slot, code: nat): (r: Option<Slot>)
    requires cfg.Valid() && SlotOk(cfg, s)
    ensures r.Some? ==> SlotOk(cfg, r.value) && Step(cfg, s.d, code) == Some(r.value.d)
  {
    match Step(cfg, s.d, code)
    case None => None
    case Some(d) =>
      StepKeeps(cfg, s.d, code);
      NextWidthKeeps(cfg, s.w, d);
      if Changes(s.w, d) || s.j == 7 then
        Some(Slot(d, NextWidth(cfg, s.w, d), s.base + s.w.nbits, 0, 0))
      else
        Some(s.(d := d, j := s.j + 1, used := s.used + s.w.nbits))
  }

  /** The slot after a sequence of codes; None if the decoder has no string for one of them. */
  function After(cfg: Config, codes: seq<nat>): (r: Option<Slot>)
    requires cfg.Valid()
    ensures r.Some? ==> SlotOk(cfg, r.value)
  {
    if codes == [] then Some(InitSlot(cfg))
    else
      match After(cfg, codes[..|codes| - 1])
      case None => None
      case Some(s) => NextSlot(cfg, s, codes[|codes| - 1])
  }

  lemma {:induction false} AfterPrefix(cfg: Config, codes: seq<nat>, k: nat)
    requires cfg.Valid() && k <= |codes| && After(cfg, codes).Some?
    ensures After(cfg, codes[..k]).Some?
    decreases |codes|
  {
    if k == |codes| {
      assert codes[..k] == codes;
    } else {
      var front := codes[..|codes| - 1];
      AfterPrefix(cfg, front, k);
      assert front[..k] == codes[..k];
    }
  }

  lemma {:induction false} AfterNext(cfg: Config, codes: seq<nat>, k: nat)
    requires cfg.Valid() && k < |codes| && After(cfg, codes).Some?
    ensures After(cfg, codes[..k]).Some? && After(cfg, codes[..k + 1]).Some?
    ensures NextSlot(cfg, After(cfg, codes[..k]).value, codes[k]) == After(cfg, codes[..k + 1])
  {
    AfterPrefix(cfg, codes, k);
    AfterPrefix(cfg, codes, k + 1);
    var c := codes[..k + 1];
    assert c[..k] == codes[..k];
  }

  /** Slot k of a decodable sequence. */
  function SlotAt(cfg: Config, codes: seq<nat>, k: nat): (s: Slot)
    requires cfg.Valid() && k <= |codes| && After(cfg, codes).Some?
    ensures SlotOk(cfg, s)
  {
    AfterPrefix(cfg, codes, k);
    After(cfg, codes[..k]).value
  }

  /** Each code lies in its own slot of the bytes. */
  ghost predicate Packed(cfg: Config, codes: seq<nat>, bytes: seq<byte>)
    requires cfg.Valid() && After(cfg, codes).Some?
  {
    forall k: nat :: k < |codes| ==> InSlot(SlotAt(cfg, codes, k), codes[k], bytes)
  }

  predicate InSlot(s: Slot, code: nat, bytes: seq<byte>) {
    s.Hi() <= 8 * |bytes| && Field(bytes, s.Lo(), s.Hi()) == code
  }

  /** The bytes end with the buffer full, or with the last byte of a code. */
  predicate EndsAt(s: Slot, bytes: seq<byte>) {
    |bytes| == s.base + (s.used + 7) / 8
  }

  lemma {:induction false} SlotBounds(cfg: Config, s: Slot)
    requires SlotOk(cfg, s)
    ensures s.used + s.w.nbits <= 8 * s.w.nbits
    ensures s.j == 7 <==> s.used + s.w.nbits == 8 * s.w.nbits
    ensures s.j == 0 <==> s.used == 0
  {
    var n := s.w.nbits;
    if s.j == 0 {} else if s.j == 1 {} else if s.j == 2 {} else if s.j == 3 {}
    else if s.j == 4 {} else if s.j == 5 {} else if s.j == 6 {} else {}
    TimesUpTo7(n);
  }

  lemma {:induction false} TimesUpTo7(n: nat)
    ensures Times(1, n) == n && Times(2, n) == 2 * n && Times(3, n) == 3 * n && Times(4, n) == 4 * n
    ensures Times(5, n) == 5 * n && Times(6, n) == 6 * n && Times(7, n) == 7 * n
  {
    assert Times(1, n) == n;
    assert Times(2, n) == 2 * n;
    assert Times(3, n) == 3 * n;
    assert Times(4, n) == 4 * n;
    assert Times(5, n) == 5 * n;
    assert Times(6, n) == 6 * n;
  }

  /** The reader has just taken the code of slot s. */
  ghost predicate TakenAt(cfg: Config, s: Slot, bytes: seq<byte>, r: Reader) {
    ReaderOk(cfg, r) && Buffered(bytes, s.base, s.w, s.used + s.w.nbits, r)
  }

  /** A field of the file is the same field of a buffer holding the file from some byte on. */
  lemma {:induction false} FieldInBuffer(bytes: seq<byte>, buf: seq<byte>, base: nat, m: nat, lo: nat, hi: nat)
    requires base + m <= |bytes| && m <= |buf| && lo <= hi <= 8 * m
    requires buf[..m] == bytes[base..base + m]
    ensures Field(buf, lo, hi) == Field(bytes, 8 * base + lo, 8 * base + hi)
  {
    forall i: nat | lo <= i < hi
      ensures bytes[base + i / 8] == buf[i / 8]
    {
      assert buf[i / 8] == buf[..m][i / 8];
    }
    FieldShift(bytes, buf, base, lo, hi);
  }

  lemma {:induction false} FirstField(bytes: seq<byte>, stale: seq<byte>, base: nat, m: nat, n: nat)
    requires base + m <= |bytes| && m <= |stale| && n <= 8 * m
    ensures var buf := bytes[base..base + m] + stale[m..];
      Field(buf, 0, n) == Field(bytes, 8 * base, 8 * base + n) && buf[..m] == bytes[base..base + m]
  {
    var buf := bytes[base..base + m] + stale[m..];
    assert buf[..m] == bytes[base..base + m];
    FieldInBuffer(bytes, buf, base, m, 0, n);
  }

  /** What getcode leaves after taking the code that ends at bit `end` of the buffer full of width
      w at byte base. */
  ghost predicate Buffered(bytes: seq<byte>, base: nat, w: Width, end: nat, r: Reader) {
    && r.w == w && r.offset == end && base <= |bytes|
    && var m := Min(w.nbits, |bytes| - base);
       && m <= |r.buf|
       && r.size == 8 * m - (w.nbits - 1)
       && r.rest == bytes[base + m..]
       && r.buf[..m] == bytes[base..base + m]
  }

  lemma {:induction false} RefillFresh(cfg: Config, d: Decoder, r: Reader, bytes: seq<byte>, base: nat)
    requires cfg.Valid() && DecoderOk(cfg, d) && ReaderOk(cfg, r)
    requires base <= |bytes| && r.rest == bytes[base..]
    requires 8 * base + NextWidth(cfg, r.w, d).nbits <= 8 * |bytes|
    ensures var w := NextWidth(cfg, r.w, d);
      var m := Min(w.nbits, |bytes| - base);
      && w.nbits <= 8 * m && m <= |r.buf| && m <= |bytes| - base
      && Refill(cfg, r, d)
         == Some(Reader(w, bytes[base..base + m] + r.buf[m..], 0, 8 * m - (w.nbits - 1), bytes[base + m..]))
  {
    hide DecoderOk;
    NextWidthKeeps(cfg, r.w, d);
    var m := Min(NextWidth(cfg, r.w, d).nbits, |bytes| - base);
    assert r.rest[m..] == bytes[base + m..];
    assert r.rest[..m] == bytes[base..base + m];
  }

  /** From a new buffer full, getcode reads its first code. */
  lemma {:induction false} ReadFresh(cfg: Config, d: Decoder, r: Reader, bytes: seq<byte>, base: nat)
    requires cfg.Valid() && DecoderOk(cfg, d) && ReaderOk(cfg, r)
    requires Changes(r.w, d) || r.offset >= r.size
    requires base <= |bytes| && r.rest == bytes[base..]
    requires 8 * base + NextWidth(cfg, r.w, d).nbits <= 8 * |bytes|
    ensures var c, w := NextCode(cfg, r, d), NextWidth(cfg, r.w, d);
      c.Some? && c.value.0 == Field(bytes, 8 * base, 8 * base + w.nbits)
      && Buffered(bytes, base, w, w.nbits, c.value.1)
  {
    hide Field, Refill, NextWidth, DecoderOk, WidthOk, Min;
    var w := NextWidth(cfg, r.w, d);
    RefillFresh(cfg, d, r, bytes, base);
    FirstField(bytes, r.buf, base, Min(w.nbits, |bytes| - base), w.nbits);
  }

  /** Inside a buffer full, getcode reads the next code without touching the input. */
  lemma {:induction false} ReadOn(cfg: Config, d: Decoder, r: Reader, bytes: seq<byte>, base: nat, end: nat)
    requires cfg.Valid() && DecoderOk(cfg, d) && ReaderOk(cfg, r)
    requires Buffered(bytes, base, r.w, end, r) && !Changes(r.w, d)
    requires end + r.w.nbits <= 8 * r.w.nbits && 8 * base + end + r.w.nbits <= 8 * |bytes|
    ensures var c := NextCode(cfg, r, d);
      c.Some? && c.value.0 == Field(bytes, 8 * base + end, 8 * base + end + r.w.nbits)
      && Buffered(bytes, base, r.w, end + r.w.nbits, c.value.1)
  {
    hide Field;
    var m := Min(r.w.nbits, |bytes| - base);
    FieldInBuffer(bytes, r.buf, base, m, end, end + r.w.nbits);
  }

  /** Whatever slot s led to, the next getcode returns the code packed in the following slot. */
  lemma {:induction false} ReadNext(cfg: Config, s: Slot, prev: nat, t: Slot, code: nat, bytes: seq<byte>, r: Reader)
    requires cfg.Valid() && SlotOk(cfg, s) && NextSlot(cfg, s, prev) == Some(t)
    requires TakenAt(cfg, s, bytes, r) && InSlot(s, prev, bytes) && InSlot(t, code, bytes)
    ensures var c := NextCode(cfg, r, t.d);
      c.Some? && c.value.0 == code && TakenAt(cfg, t, bytes, c.value.1)
  {
    hide Field, Step, DecoderOk, Times, Pow2, Refill;
    SlotBounds(cfg, s);
    SlotBounds(cfg, t);
    if t.j == 0 {
      ReadFresh(cfg, t.d, r, bytes, t.base);
    } else {
      ReadOn(cfg, t.d, r, bytes, t.base, t.used);
    }
  }

  /** Behind the last slot getcode finds the end of the file: padding is never taken for a code. */
  lemma {:induction false} ReadEnd(cfg: Config, s: Slot, prev: nat, t: Slot, bytes: seq<byte>, r: Reader)
    requires cfg.Valid() && SlotOk(cfg, s) && NextSlot(cfg, s, prev) == Some(t)
    requires TakenAt(cfg, s, bytes, r) && InSlot(s, prev, bytes) && EndsAt(t, bytes)
    ensures NextCode(cfg, r, t.d) == None
  {
    SlotBounds(cfg, s);
    SlotBounds(cfg, t);
  }

  /** The decompressor, having taken slot k - 1, runs to the end and has then seen all codes. */
  lemma {:induction false} RunFrom(cfg: Config, codes: seq<nat>, bytes: seq<byte>, k: nat, r: Reader)
    requires cfg.Valid() && After(cfg, codes).Some? && Packed(cfg, codes, bytes)
    requires EndsAt(SlotAt(cfg, codes, |codes|), bytes)
    requires 0 < k <= |codes| && TakenAt(cfg, SlotAt(cfg, codes, k - 1), bytes, r)
    ensures Run(cfg, r, SlotAt(cfg, codes, k).d) == Some(SlotAt(cfg, codes, |codes|).d.out)
    decreases |codes| - k
  {
    hide DecoderOk;
    AfterNext(cfg, codes, k - 1);
    var s, t := SlotAt(cfg, codes, k - 1), SlotAt(cfg, codes, k);
    assert InSlot(s, codes[k - 1], bytes);
    if k == |codes| {
      ReadEnd(cfg, s, codes[k - 1], t, bytes, r);
    } else {
      AfterNext(cfg, codes, k);
      assert InSlot(t, codes[k], bytes);
      ReadNext(cfg, s, codes[k - 1], t, codes[k], bytes, r);
      var r' := NextCode(cfg, r, t.d).value.1;
      RunFrom(cfg, codes, bytes, k + 1, r');
    }
  }

  /** Any bytes that hold a decodable sequence of codes decompress to that sequence's text. */
  lemma {:induction false} StreamDecodes(cfg: Config, codes: seq<nat>, bytes: seq<byte>, r: Reader)
    requires cfg.Valid() && After(cfg, codes).Some? && Packed(cfg, codes, bytes)
    requires EndsAt(SlotAt(cfg, codes, |codes|), bytes)
    requires AtFileStart(cfg, r) && r.rest == bytes
    ensures Run(cfg, r, InitDecoder(cfg)) == Some(SlotAt(cfg, codes, |codes|).d.out)
  {
    hide Field, Step, DecoderOk, SlotOk, Min;
    if codes == [] {
      assert NextCode(cfg, r, InitDecoder(cfg)) == None;
    } else {
      AfterNext(cfg, codes, 0);
      var t := SlotAt(cfg, codes, 0);
      assert InSlot(t, codes[0], bytes);
      assert !Changes(InitWidth, t.d);
      ReadFresh(cfg, t.d, r, bytes, 0);
      RunFrom(cfg, codes, bytes, 1, NextCode(cfg, r, t.d).value.1);
    }
  }

  // ---------------------------------------------------------------------------------------
  // Writing: how the compressor extends a packed sequence

  /** free_ent never passes maxcode once the width has been adjusted. */
  predicate Fits(s: Slot) {
    |s.d.tab| <= s.w.maxcode
  }

  lemma {:induction false} FitsNext(cfg: Config, s: Slot, code: nat)
    requires cfg.Valid() && SlotOk(cfg, s) && Fits(s) && NextSlot(cfg, s, code).Some?
    ensures Fits(NextSlot(cfg, s, code).value)
  {
    Lzw.Pow2Table();
    if cfg.maxbits < 9 { Pow2Mono(cfg.maxbits, 8); }
  }

  /** The writer's view of NextSlot: the width changes where the writer's own test says so. */
  lemma {:induction false} NextSlotWidth(cfg: Config, s: Slot, code: nat)
    requires cfg.Valid() && SlotOk(cfg, s) && NextSlot(cfg, s, code).Some?
    ensures var t := NextSlot(cfg, s, code).value;
      if t.d.mode.AfterClear? then t.w == InitWidth && t.j == 0
      else if |t.d.tab| > s.w.maxcode then t.w == Grow(cfg, s.w) && t.j == 0
      else t.w == s.w && (t.j == 0 ==> s.j == 7)
  {
  }

  /** The width is the least in which the number of the next entry can be written. The largest width is kept when the
      table is full. */
  ghost predicate LeastWidth(cfg: Config, s: Slot) {
    var n, next := s.w.nbits, |s.d.tab|;
    9 <= n && (n > 9 ==> Pow2(n - 1) <= next) && (next < Pow2(n) || (next == Pow2(n) && n == cfg.maxbits))
  }

  lemma {:induction false} WidthStep(cfg: Config, s: Slot, code: nat)
    requires cfg.Valid() && SlotOk(cfg, s) && Fits(s) && LeastWidth(cfg, s) && NextSlot(cfg, s, code).Some?
    ensures LeastWidth(cfg, NextSlot(cfg, s, code).value)
  {
    var t := NextSlot(cfg, s, code).value;
    FitsNext(cfg, s, code);
    NextSlotWidth(cfg, s, code);
    TableGrows(cfg, s.d, code);
    hide NextSlot, Step, Pow2, Extended;
    Lzw.Pow2Table();
    if cfg.maxbits < 9 { Pow2Mono(cfg.maxbits, 8); }
  }

  lemma {:induction false} TableGrows(cfg: Config, d: Decoder, code: nat)
    requires DecoderOk(cfg, d) && Step(cfg, d, code).Some?
    ensures var d' := Step(cfg, d, code).value;
      if d'.mode.AfterClear? then |d'.tab| == 256 else |d'.tab| <= |d.tab| + 1 && |d.tab| <= |d'.tab|
  {
  }

  lemma {:induction false} WidthIs(cfg: Config, codes: seq<nat>)
    requires cfg.Valid() && After(cfg, codes).Some?
    ensures Fits(After(cfg, codes).value) && LeastWidth(cfg, After(cfg, codes).value)
  {
    hide NextSlot, Step, Fits, LeastWidth;
    if codes == [] {
      FirstWidth(cfg);
    } else {
      var front := codes[..|codes| - 1];
      AfterPrefix(cfg, codes, |front|);
      WidthIs(cfg, front);
      WidthStep(cfg, After(cfg, front).value, codes[|front|]);
      FitsNext(cfg, After(cfg, front).value, codes[|front|]);
    }
  }

  lemma {:induction false} FirstWidth(cfg: Config)
    ensures Fits(InitSlot(cfg)) && LeastWidth(cfg, InitSlot(cfg))
  {
    Lzw.Pow2Table();
  }

  /** A code the decoder accepts fits the width of its slot. */
  lemma {:induction false} CodeFits(cfg: Config, s: Slot, code: nat)
    requires cfg.Valid() && SlotOk(cfg, s) && Fits(s) && NextSlot(cfg, s, code).Some?
    ensures code < Pow2(s.w.nbits)
  {
    Lzw.Pow2Table();
    if s.w.nbits > 9 { Pow2Mono(9, s.w.nbits); }
    if cfg.maxbits < s.w.nbits { Pow2Mono(cfg.maxbits, s.w.nbits); }
  }

  /** Slots follow one another without overlap. */
  lemma {:induction false} SlotsOrdered(cfg: Config, codes: seq<nat>, k: nat)
    requires cfg.Valid() && After(cfg, codes).Some? && k < |codes|
    ensures SlotAt(cfg, codes, k).Hi() <= After(cfg, codes).value.Lo()
    decreases |codes|
  {
    hide After;
    var n := |codes| - 1;
    assert codes[..|codes|] == codes;
    AfterNext(cfg, codes, n);
    var s := SlotAt(cfg, codes, n);
    SlotBounds(cfg, s);
    SlotBounds(cfg, After(cfg, codes).value);
    if k < n {
      SlotsOrdered(cfg, codes[..n], k);
      assert codes[..n][..k] == codes[..k];
    }
  }

  /** Bytes that agree up to the next slot hold the same codes. */
  lemma {:induction false} PackedKept(cfg: Config, codes: seq<nat>, s: seq<byte>, t: seq<byte>)
    requires cfg.Valid() && After(cfg, codes).Some? && Packed(cfg, codes, s)
    requires After(cfg, codes).value.Lo() <= 8 * |s| && After(cfg, codes).value.Lo() <= 8 * |t|
    requires SameBits(s, t, 0, After(cfg, codes).value.Lo())
    ensures Packed(cfg, codes, t)
  {
    forall k: nat | k < |codes|
      ensures InSlot(SlotAt(cfg, codes, k), codes[k], t)
    {
      SlotsOrdered(cfg, codes, k);
      var p := SlotAt(cfg, codes, k);
      assert InSlot(p, codes[k], s);
      FieldAgrees(s, t, p.Lo(), p.Hi());
    }
  }

  /** A code put in the next slot extends the packed sequence. */
  lemma {:induction false} PackedExtends(cfg: Config, codes: seq<nat>, code: nat, bytes: seq<byte>)
    requires cfg.Valid() && After(cfg, codes).Some? && Packed(cfg, codes, bytes)
    requires NextSlot(cfg, After(cfg, codes).value, code).Some?
    requires InSlot(After(cfg, codes).value, code, bytes)
    ensures After(cfg, codes + [code]) == NextSlot(cfg, After(cfg, codes).value, code)
    ensures Packed(cfg, codes + [code], bytes)
  {
    var more := codes + [code];
    assert more[..|codes|] == codes;
    forall k: nat | k < |more|
      ensures InSlot(SlotAt(cfg, more, k), more[k], bytes)
    {
      assert more[..k] == codes[..k];
      if k < |codes| {
        assert InSlot(SlotAt(cfg, codes, k), codes[k], bytes);
      } else {
        assert codes[..k] == codes;
      }
    }
  }
}
