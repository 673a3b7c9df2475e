/** Words of n bits in two's complement: wrap-around, and the bitwise operations as sums over bits. */
module Bitwise {

  import opened Primes
  import opened BitStream

  datatype BitOp = And | Or | Er

  function Bit1(op: BitOp, a: int, b: int): int {
    match op
    case And => if a == 1 && b == 1 then 1 else 0
    case Or => if a == 1 || b == 1 then 1 else 0
    case Er => if a != b then 1 else 0
  }

  /** The lowest n bits of x op y, for x and y of any size and sign. */
  function Bits(op: BitOp, x: int, y: int, n: nat): int
    decreases n, x
  {
    if n == 0 then 0 else Bit1(op, x % 2, y % 2) + 2 * Bits(op, x / 2, y / 2, n - 1)
  }

  lemma {:induction false} BitsRange(op: BitOp, x: int, y: int, n: nat)
    ensures 0 <= Bits(op, x, y, n) < Pow2(n)
    decreases n
  {
    if n > 0 {
      BitsRange(op, x / 2, y / 2, n - 1);
    }
  }

  lemma {:induction false} BitsSwap(op: BitOp, x: int, y: int, n: nat)
    ensures Bits(op, x, y, n) == Bits(op, y, x, n)
    decreases n
  {
    if n > 0 {
      BitsSwap(op, x / 2, y / 2, n - 1);
    }
  }

  lemma {:induction false} BitsAssoc(op: BitOp, x: int, y: int, z: int, n: nat)
    ensures Bits(op, Bits(op, x, y, n), z, n) == Bits(op, x, Bits(op, y, z, n), n)
    decreases n
  {
    if n > 0 {
      BitsAssoc(op, x / 2, y / 2, z / 2, n - 1);
    }
  }

  /** Only the lowest n bits of an operand matter. */
  lemma {:induction false} BitsMod(op: BitOp, x: int, y: int, n: nat)
    ensures Bits(op, x % Pow2(n), y, n) == Bits(op, x, y, n)
    decreases n
  {
    if n > 0 {
      HalfMod(x, Pow2(n - 1));
      BitsMod(op, x / 2, y / 2, n - 1);
    }
  }

  lemma {:induction false} HalfMod(x: int, m: nat)
    requires m > 0
    ensures x % (2 * m) / 2 == x / 2 % m && x % (2 * m) % 2 == x % 2
  {
    var q, r := x / 2 / m, x / 2 % m;
    assert x == (2 * m) * q + (2 * r + x % 2) by {
      assert x / 2 == m * q + r;
      assert 2 * (m * q) == (2 * m) * q;
    }
    ModUnique(x, q, 2 * r + x % 2, 2 * m);
  }

  /** The lowest n bits of an operation on m bits. */
  lemma {:induction false} BitsLow(op: BitOp, x: int, y: int, m: nat, n: nat)
    requires n <= m
    ensures Bits(op, x, y, m) % Pow2(n) == Bits(op, x, y, n)
    decreases m
  {
    if n > 0 {
      BitsLow(op, x / 2, y / 2, m - 1, n - 1);
      LowPart(Bit1(op, x % 2, y % 2), Bits(op, x / 2, y / 2, m - 1), Pow2(n - 1));
    }
  }

  lemma {:induction false} LowPart(a: int, b: int, m: nat)
    requires 0 <= a < 2 && m > 0
    ensures (a + 2 * b) % (2 * m) == a + 2 * (b % m)
  {
    HalfMod(a + 2 * b, m);
    assert (a + 2 * b) / 2 == b && (a + 2 * b) % 2 == a;
  }

  // ---------------------------------------------------------------------------------------
  // Long constants

  const LONG: int := 0x1_0000_0000

  /** 32 bits, signed */
  type long = x: int | -0x8000_0000 <= x < 0x8000_0000

  function Wrap(x: int): long {
    var r := x % LONG;
    if r < 0x8000_0000 then r else r - LONG
  }

  predicate Width(n: nat) {
    n == 16 || n == 32
  }

  lemma {:induction false} WidthPow(n: nat)
    requires Width(n)
    ensures Pow2(n) == if n == 16 then 65536 else LONG
  {
    assert Pow2(8) == 256;
    PowAdd(8, 8);
    PowAdd(16, 16);
  }

  lemma {:induction false} PowAdd(a: nat, b: nat)
    ensures Pow2(a + b) == Pow2(a) * Pow2(b)
  {
    if a > 0 {
      PowAdd(a - 1, b);
      Twice(Pow2(a - 1), Pow2(b));
    }
  }

  lemma {:induction false} Twice(x: int, y: int)
    ensures 2 * (x * y) == (2 * x) * y
  {
  }

  /** Wrapping a long does not show in the value of a word. */
  lemma {:induction false} WrapMod(x: int, n: nat)
    requires Width(n)
    ensures Wrap(x) % Pow2(n) == x % Pow2(n)
  {
    WidthPow(n);
    var k := (Wrap(x) - x) / LONG;
    assert Wrap(x) == x + LONG * k;
    if n == 16 {
      AddMultiple(x, 65536 * k, 65536);
    } else {
      AddMultiple(x, k, LONG);
    }
  }

  ghost predicate PowerOfTwo(c: int, n: nat) {
    exists i: nat :: i < n && c == Pow2(i)
  }

  lemma {:induction false} OddPower(c: nat, n: nat)
    requires c % 2 == 1 && n > 0
    ensures PowerOfTwo(c, n) <==> c == 1
  {
    assert Pow2(0) == 1;
    forall i: nat | i < n && c == Pow2(i) ensures i == 0 {
      assert i > 0 ==> Pow2(i) == 2 * Pow2(i - 1);
    }
  }

  lemma {:induction false} HalfPower(d: nat, n: nat)
    requires d > 0 && n > 0
    ensures PowerOfTwo(2 * d, n) <==> PowerOfTwo(d, n - 1)
  {
    if PowerOfTwo(2 * d, n) {
      var i: nat :| i < n && 2 * d == Pow2(i);
      assert i > 0 && d == Pow2(i - 1);
    }
    if PowerOfTwo(d, n - 1) {
      var i: nat :| i < n - 1 && d == Pow2(i);
      assert 2 * d == Pow2(i + 1);
    }
  }

  /** A positive number with no bit in common with its predecessor is a power of two. */
  lemma {:induction false} PowerBits(c: nat, n: nat)
    requires 0 < c < Pow2(n)
    ensures Bits(And, c, c - 1, n) == 0 <==> PowerOfTwo(c, n)
    decreases n
  {
    if c % 2 == 1 {
      OddBits(c, n);
      OddPower(c, n);
    } else {
      var d := c / 2;
      assert (c - 1) / 2 == d - 1 && (c - 1) % 2 == 1 && c == 2 * d;
      PowerBits(d, n - 1);
      HalfPower(d, n);
    }
  }

  lemma {:induction false} OddBits(c: nat, n: nat)
    requires c % 2 == 1 && c < Pow2(n)
    ensures Bits(And, c, c - 1, n) == c - 1
  {
    AndSelf(c / 2, n - 1);
    assert (c - 1) / 2 == c / 2;
  }

  lemma {:induction false} AndSelf(c: nat, n: nat)
    requires c < Pow2(n)
    ensures Bits(And, c, c, n) == c
    decreases n
  {
    if n > 0 {
      AndSelf(c / 2, n - 1);
    }
  }
}
