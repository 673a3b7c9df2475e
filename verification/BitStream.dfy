/** Codes packed into bytes, least significant bit first (`output` and `getcode` of compress.c).

    The C bit operations act on non-negative numbers and are written out one bit at a time:
    `x << k` is Shl(x, k), `x >> k` is Shr(x, k), `x & rmask[k]` is Low(x, k), and `|` of numbers
    that share no bit is `+`. */
module BitStream {

  import opened Basics

  function Pow2(k: nat): (p: nat)
    ensures p >= 1
  {
    if k == 0 then 1 else 2 * Pow2(k - 1)
  }

  function Shl(x: nat, k: nat): nat {
    if k == 0 then x else 2 * Shl(x, k - 1)
  }

  function Shr(x: nat, k: nat): nat {
    if k == 0 then x else Shr(x / 2, k - 1)
  }

  function Low(x: nat, k: nat): (y: nat)
    ensures y < Pow2(k)
  {
    if k == 0 then 0 else x % 2 + 2 * Low(x / 2, k - 1)
  }

  /** Bit k of a byte string. */
  function Bit(s: seq<byte>, k: nat): (b: nat)
    requires k < 8 * |s|
    ensures b < 2
  {
    Shr(s[k / 8], k % 8) % 2
  }

  /** The number held in bits lo to hi of s. */
  function Field(s: seq<byte>, lo: nat, hi: nat): (v: nat)
    requires lo <= hi <= 8 * |s|
    ensures v < Pow2(hi - lo)
    decreases hi - lo
  {
    if lo == hi then 0 else Bit(s, lo) + 2 * Field(s, lo + 1, hi)
  }

  ghost predicate SameBits(s: seq<byte>, t: seq<byte>, lo: nat, hi: nat)
    requires hi <= 8 * |s| && hi <= 8 * |t|
  {
    forall k: nat :: lo <= k < hi ==> Bit(s, k) == Bit(t, k)
  }

  lemma {:induction false} FieldAgrees(s: seq<byte>, t: seq<byte>, lo: nat, hi: nat)
    requires lo <= hi <= 8 * |s| && hi <= 8 * |t| && SameBits(s, t, lo, hi)
    ensures Field(s, lo, hi) == Field(t, lo, hi)
    decreases hi - lo
  {
    if lo < hi { FieldAgrees(s, t, lo + 1, hi); }
  }

  lemma {:induction false} FieldSplits(s: seq<byte>, lo: nat, mid: nat, hi: nat)
    requires lo <= mid <= hi <= 8 * |s|
    ensures Field(s, lo, hi) == Field(s, lo, mid) + Shl(Field(s, mid, hi), mid - lo)
    decreases mid - lo
  {
    hide Bit;
    if lo < mid { FieldSplits(s, lo + 1, mid, hi); }
  }

  /** Whole equal bytes have equal bits. */
  lemma {:induction false} SameBytes(s: seq<byte>, t: seq<byte>, lo: nat, hi: nat)
    requires lo <= hi && hi <= |s| && hi <= |t| && s[lo..hi] == t[lo..hi]
    ensures SameBits(s, t, 8 * lo, 8 * hi)
  {
    forall k: nat | 8 * lo <= k < 8 * hi
      ensures Bit(s, k) == Bit(t, k)
    {
      assert s[k / 8] == s[lo..hi][k / 8 - lo];
      assert t[k / 8] == t[lo..hi][k / 8 - lo];
    }
  }

  lemma {:induction false} BitShift(s: seq<byte>, t: seq<byte>, lo: nat, k: nat)
    requires k < 8 * |t| && 8 * lo + k < 8 * |s| && s[lo + k / 8] == t[k / 8]
    ensures Bit(s, 8 * lo + k) == Bit(t, k)
  {
    assert (8 * lo + k) / 8 == lo + k / 8 && (8 * lo + k) % 8 == k % 8;
  }

  /** Dropping whole bytes in front shifts bit positions by eight per byte. */
  lemma {:induction false} FieldShift(s: seq<byte>, t: seq<byte>, k: nat, lo: nat, hi: nat)
    requires lo <= hi <= 8 * |t| && 8 * k + hi <= 8 * |s|
    requires forall i: nat :: lo <= i < hi ==> s[k + i / 8] == t[i / 8]
    ensures Field(s, 8 * k + lo, 8 * k + hi) == Field(t, lo, hi)
    decreases hi - lo
  {
    hide Bit;
    if lo < hi {
      BitShift(s, t, k, lo);
      FieldShift(s, t, k, lo + 1, hi);
    }
  }

  lemma {:induction false} ShrStep(x: nat, r: nat)
    ensures Shr(x, r + 1) == Shr(x, r) / 2
  {
    if r > 0 { ShrStep(x / 2, r - 1); }
  }

  lemma {:induction false} BitAt(s: seq<byte>, p: nat, r: nat)
    requires p < |s| && r < 8
    ensures Bit(s, 8 * p + r) == Shr(s[p], r) % 2
  {
    assert (8 * p + r) / 8 == p && (8 * p + r) % 8 == r;
  }

  /** A field that stays inside one byte is a shift and a mask. */
  lemma {:induction false} FieldInByte(s: seq<byte>, p: nat, r: nat, e: nat)
    requires p < |s| && r <= e <= 8
    ensures Field(s, 8 * p + r, 8 * p + e) == Low(Shr(s[p], r), e - r)
    decreases e - r
  {
    hide Bit;
    if r < e {
      BitAt(s, p, r);
      ShrStep(s[p], r);
      FieldInByte(s, p, r + 1, e);
    }
  }

  lemma {:induction false} LowAll(x: nat, m: nat)
    requires x < Pow2(m)
    ensures Low(x, m) == x
  {
    if m > 0 { LowAll(x / 2, m - 1); }
  }

  lemma {:induction false} ShrBound(x: nat, r: nat, m: nat)
    requires x < Pow2(r + m)
    ensures Shr(x, r) < Pow2(m)
  {
    if r > 0 { ShrBound(x / 2, r - 1, m); }
  }

  lemma {:induction false} ShlAdd(x: nat, y: nat, k: nat)
    ensures Shl(x + y, k) == Shl(x, k) + Shl(y, k)
  {
    if k > 0 { ShlAdd(x, y, k - 1); }
  }

  lemma {:induction false} ShlShl(x: nat, a: nat, b: nat)
    ensures Shl(Shl(x, a), b) == Shl(x, a + b)
  {
    if b > 0 { ShlShl(x, a, b - 1); }
  }

  lemma {:induction false} SplitCode(c: nat, a: nat, b: nat)
    ensures Low(c, a + b) == Low(c, a) + Shl(Low(Shr(c, a), b), a)
  {
    if a > 0 { SplitCode(c / 2, a - 1, b); }
  }

  lemma {:induction false} ShrShr(c: nat, a: nat, b: nat)
    ensures Shr(Shr(c, a), b) == Shr(c, a + b)
  {
    if a > 0 { ShrShr(c / 2, a - 1, b); }
  }

  /** A field that runs past the end of byte p: the rest of that byte, then the bytes after it. */
  lemma {:induction false} FieldAcross(s: seq<byte>, p: nat, r: nat, hi: nat)
    requires r < 8 && 8 * (p + 1) <= hi <= 8 * |s|
    ensures Field(s, 8 * p + r, hi) == Shr(s[p], r) + Shl(Field(s, 8 * (p + 1), hi), 8 - r)
  {
    hide Field, Bit, Shl, Shr, Low;
    FieldSplits(s, 8 * p + r, 8 * (p + 1), hi);
    FieldInByte(s, p, r, 8);
    assert Pow2(8) == 256;
    ShrBound(s[p], r, 8 - r);
    LowAll(Shr(s[p], r), 8 - r);
  }

  /** A code of 9 to 16 bits spans two or three bytes. */
  lemma {:induction false} FieldInTwoBytes(s: seq<byte>, p: nat, r: nat, n: nat)
    requires r < 8 && 9 <= n < 16 - r && p + 1 < |s|
    ensures Field(s, 8 * p + r, 8 * p + r + n) == Shr(s[p], r) + Shl(Low(s[p + 1], n + r - 8), 8 - r)
  {
    FieldAcross(s, p, r, 8 * p + r + n);
    FieldInByte(s, p + 1, 0, n + r - 8);
  }

  lemma {:induction false} FieldInThreeBytes(s: seq<byte>, p: nat, r: nat, n: nat)
    requires r < 8 && 16 - r <= n <= 16 && p + 1 < |s| && (n + r > 16 ==> p + 2 < |s|)
    ensures Field(s, 8 * p + r, 8 * p + r + n) == Shr(s[p], r) + Shl(s[p + 1], 8 - r)
          + if n + r > 16 then Shl(Low(s[p + 2], n + r - 16), 16 - r) else 0
  {
    hide Field, Bit, Shl, Shr, Low, Pow2;
    var hi := 8 * p + r + n;
    var last := if n + r > 16 then Low(s[p + 2], n + r - 16) else 0;
    FieldAcross(s, p, r, hi);
    WholeByteThen(s, p + 1, n + r - 16);
    SumOfShifts(s[p + 1], last, r);
    ShlZero(16 - r);
  }

  lemma {:induction false} WholeByteThen(s: seq<byte>, p: nat, m: nat)
    requires p < |s| && m <= 8 && (m > 0 ==> p + 1 < |s|)
    ensures Field(s, 8 * p, 8 * (p + 1) + m) == s[p] + Shl(if m > 0 then Low(s[p + 1], m) else 0, 8)
  {
    hide Bit, Low;
    FieldAcross(s, p, 0, 8 * (p + 1) + m);
    if m > 0 { FieldInByte(s, p + 1, 0, m); }
  }

  lemma {:induction false} ShlZero(k: nat)
    ensures Shl(0, k) == 0
  {
    if k > 0 { ShlZero(k - 1); }
  }

  lemma {:induction false} SumOfShifts(x: nat, y: nat, r: nat)
    requires r < 8
    ensures Shl(x + Shl(y, 8), 8 - r) == Shl(x, 8 - r) + Shl(y, 16 - r)
  {
    ShlAdd(x, Shl(y, 8), 8 - r);
    ShlShl(y, 8, 8 - r);
  }

  lemma {:induction false} OneBitMore(bit: nat, b: nat, r: nat, m: nat)
    requires bit < 2 && r > 0
    ensures Low(bit + 2 * b, r) == bit + 2 * Low(b, r - 1) && Shr(bit + 2 * b, r) == Shr(b, r - 1)
    ensures b < Pow2(r - 1 + m) ==> bit + 2 * b < Pow2(r + m)
  {
    assert (bit + 2 * b) / 2 == b && (bit + 2 * b) % 2 == bit;
  }

  lemma {:induction false} LowShl(c: nat, r: nat, m: nat)
    ensures Low(Shl(c, r), r + m) == Shl(Low(c, m), r)
  {
    if r > 0 { LowShl(c, r - 1, m); }
  }

  /** Low bits and shifted ones come apart again. */
  lemma {:induction false} Apart(y: nat, c: nat, r: nat, m: nat)
    requires y < Pow2(r) && c < Pow2(m)
    ensures var b := y + Shl(c, r); b < Pow2(r + m) && Low(b, r) == y && Shr(b, r) == c
  {
    if r > 0 {
      Apart(y / 2, c, r - 1, m);
      assert y + Shl(c, r) == y % 2 + 2 * (y / 2 + Shl(c, r - 1));
      OneBitMore(y % 2, y / 2 + Shl(c, r - 1), r, m);
    }
  }

  /** The byte `output` merges its first chunk into: low bits kept, high bits from the code. */
  lemma {:induction false} MergedByte(x: nat, code: nat, r: nat, m: nat)
    ensures var b := Low(x, r) + Low(Shl(code, r), r + m);
      b < Pow2(r + m) && Low(b, r) == Low(x, r) && Shr(b, r) == Low(code, m)
  {
    hide Low, Shl, Shr, Pow2;
    LowShl(code, r, m);
    Apart(Low(x, r), Low(code, m), r, m);
  }

  lemma {:induction false} LowBitsAgree(x: nat, y: nat, r: nat, j: nat)
    requires j < r && Low(x, r) == Low(y, r)
    ensures Shr(x, j) % 2 == Shr(y, j) % 2
  {
    if j > 0 { LowBitsAgree(x / 2, y / 2, r - 1, j - 1); }
  }

  /** The three bytes `output` writes for a code, given the three that were there. */
  lemma {:induction false} StoredField(s: seq<byte>, t: seq<byte>, p: nat, r: nat, n: nat, code: nat)
    requires r < 8 && 9 <= n <= 16 && code < Pow2(n)
    requires |s| == |t| && p + 1 < |t| && (n + r > 16 ==> p + 2 < |t|) && t[..p] == s[..p]
    requires t[p] == Low(s[p], r) + Low(Shl(code, r), 8)
    requires n + r < 16 ==> t[p + 1] == Shr(code, 8 - r)
    requires n + r >= 16 ==> t[p + 1] == Low(Shr(code, 8 - r), 8)
    requires n + r > 16 ==> t[p + 2] == Shr(code, 16 - r)
    ensures Field(t, 8 * p + r, 8 * p + r + n) == code
  {
    hide Pow2;
    MergedByte(s[p], code, r, 8 - r);
    CodeParts(code, r, n);
    if n + r < 16 {
      FieldInTwoBytes(t, p, r, n);
    } else {
      FieldInThreeBytes(t, p, r, n);
      if n + r == 16 { ShlZero(16 - r); }
    }
  }

  lemma {:induction false} CodeParts(code: nat, r: nat, n: nat)
    requires r < 8 && 9 <= n <= 16 && code < Pow2(n)
    ensures n + r < 16 ==> code == Low(code, 8 - r) + Shl(Low(Shr(code, 8 - r), n + r - 8), 8 - r)
    ensures n + r < 16 ==> Low(Shr(code, 8 - r), n + r - 8) == Shr(code, 8 - r) < 256
    ensures n + r >= 16 ==> code == Low(code, 8 - r) + Shl(Low(Shr(code, 8 - r), 8), 8 - r)
                                  + Shl(Low(Shr(code, 16 - r), n + r - 16), 16 - r)
    ensures n + r >= 16 ==> Low(Shr(code, 16 - r), n + r - 16) == Shr(code, 16 - r) < 256
  {
    hide Low, Shl, Shr, Pow2;
    var c := Shr(code, 8 - r);
    TopPart(code, 8 - r, n + r - 8);
    if n + r < 16 {
      ByteSized(n + r - 8);
    } else {
      TopPart(c, 8, n + r - 16);
      ShrShr(code, 8 - r, 8);
      ByteSized(n + r - 16);
      SumOfShifts(Low(c, 8), Low(Shr(c, 8), n + r - 16), r);
    }
  }

  lemma {:induction false} ByteSized(k: nat)
    requires k <= 8
    ensures Pow2(k) <= 256
  {
    Pow2Mono(k, 8);
    assert Pow2(8) == 256;
  }

  /** A number of a + b bits is its low a bits and its high b bits. */
  lemma {:induction false} TopPart(c: nat, a: nat, b: nat)
    requires c < Pow2(a + b)
    ensures c == Low(c, a) + Shl(Low(Shr(c, a), b), a)
    ensures Low(Shr(c, a), b) == Shr(c, a) < Pow2(b)
  {
    LowAll(c, a + b);
    SplitCode(c, a, b);
    ShrBound(c, a, b);
    LowAll(Shr(c, a), b);
  }

  lemma {:induction false} Pow2Mono(a: nat, b: nat)
    requires a <= b
    ensures Pow2(a) <= Pow2(b)
  {
    if a < b { Pow2Mono(a, b - 1); }
  }

  /** Bits in front of the stored field are those that were there. */
  lemma {:induction false} StoredKeeps(s: seq<byte>, t: seq<byte>, p: nat, r: nat)
    requires r < 8 && |s| == |t| && p < |t| && t[..p] == s[..p]
    requires Low(t[p], r) == Low(s[p], r)
    ensures SameBits(s, t, 0, 8 * p + r)
  {
    forall k: nat | k < 8 * p + r
      ensures Bit(s, k) == Bit(t, k)
    {
      if k / 8 == p {
        LowBitsAgree(s[p], t[p], r, k % 8);
      } else {
        assert s[k / 8] == s[..p][k / 8];
        assert t[k / 8] == t[..p][k / 8];
      }
    }
  }

  lemma {:induction false} StoreBytes(x: byte, code: nat, r: nat, n: nat)
    requires r < 8 && 9 <= n <= 16 && code < Pow2(n)
    ensures Low(x, r) + Low(Shl(code, r), 8) < 256
    ensures Low(Low(x, r) + Low(Shl(code, r), 8), r) == Low(x, r)
    ensures n + r < 16 ==> Shr(code, 8 - r) < 256
    ensures Low(Shr(code, 8 - r), 8) < 256
    ensures n + r >= 16 ==> Shr(Shr(code, 8 - r), 8) == Shr(code, 16 - r) < 256
  {
    assert Pow2(8) == 256;
    MergedByte(x, code, r, 8 - r);
    CodeParts(code, r, n);
    if n + r >= 16 { ShrShr(code, 8 - r, 8); }
  }

  /** Insertion of a code by `output`: one masked byte, at most one whole byte, and the last bits. */
  method Store(buf: array<byte>, offset: nat, n: nat, code: nat)
    requires 9 <= n <= 16 && offset + n <= 8 * buf.Length && code < Pow2(n)
    modifies buf
    ensures Field(buf[..], offset, offset + n) == code
    ensures SameBits(buf[..], old(buf[..]), 0, offset)
  {
    hide Field, Bit, Low, Shl, Shr, Pow2;
    ghost var s := buf[..];
    ghost var p, r := offset / 8, offset % 8;
    StoreBytes(buf[p], code, r, n);
    var bp, r_off, bits, c := offset / 8, offset % 8, n, code;
    buf[bp] := Low(buf[bp], r_off) + Low(Shl(c, r_off), 8);
    bp := bp + 1;
    bits := bits - (8 - r_off);
    c := Shr(c, 8 - r_off);
    if bits >= 8 {
      buf[bp] := Low(c, 8);
      bp := bp + 1;
      c := Shr(c, 8);
      bits := bits - 8;
    }
    if bits > 0 {
      buf[bp] := c;
    }
    StoredField(s, buf[..], p, r, n, code);
    StoredKeeps(s, buf[..], p, r);
  }

  lemma {:induction false} LowZero(x: nat)
    ensures Low(x, 0) == 0
  {
  }

  /** Extraction of a code by `getcode`. The last byte is read, masked to nothing, even when no
      bits are left, which is why a spare byte is needed. */
  method Extract(buf: array<byte>, offset: nat, n: nat) returns (code: nat)
    requires 9 <= n <= 16 && offset + n <= 8 * (buf.Length - 1)
    ensures code == Field(buf[..], offset, offset + n)
  {
    hide Field, Bit, Shl, Shr, Low, Pow2;
    var bp, r_off, bits := offset / 8, offset % 8, n;
    code := Shr(buf[bp], r_off);
    bp := bp + 1;
    bits := bits - (8 - r_off);
    r_off := 8 - r_off;
    if bits >= 8 {
      FieldInThreeBytes(buf[..], offset / 8, offset % 8, n);
      ShlZero(16 - offset % 8);
      LowZero(buf[offset / 8 + 2]);
      code := code + Shl(buf[bp], r_off);
      bp := bp + 1;
      r_off := r_off + 8;
      bits := bits - 8;
    } else {
      FieldInTwoBytes(buf[..], offset / 8, offset % 8, n);
    }
    code := code + Shl(Low(buf[bp], bits), r_off);
  }
}
