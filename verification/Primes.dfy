/** Arithmetic modulo a prime, shared by the two open-addressed hash tables of the
    repository: the compressor's code table and the linker's symbol segments. */
module Primes {

  predicate Divides(d: nat, n: nat)
    requires d > 0
  {
    n % d == 0
  }

  ghost predicate IsPrime(h: nat) {
    h >= 2 && forall d: nat :: 1 < d < h ==> !Divides(d, h)
  }

  lemma {:induction false} MulSign(h: int, d: int)
    requires h > 0
    ensures d >= 1 ==> h * d >= h
    ensures d <= -1 ==> h * d <= -h
  {
  }

  lemma {:induction false} ModUnique(x: int, q: int, r: int, h: nat)
    requires 0 <= r < h && x == h * q + r
    ensures x % h == r && x / h == q
  {
    var d := q - x / h;
    MulSign(h, d);
    assert h * d == x % h - r by {
      assert x == h * (x / h) + x % h;
      assert h * d == h * q - h * (x / h);
    }
  }

  lemma {:induction false} AddMultiple(x: int, q: int, h: nat)
    requires h > 0
    ensures (x + h * q) % h == x % h
  {
    assert x + h * q == h * (x / h + q) + x % h;
    ModUnique(x + h * q, x / h + q, x % h, h);
  }

  lemma {:induction false} MulMod(a: int, b: int, h: nat)
    requires h > 0
    ensures (a % h * b) % h == (a * b) % h
  {
    var q := a / h * b;
    assert a * b == a % h * b + h * q by {
      assert a == h * (a / h) + a % h;
      assert (h * (a / h)) * b == h * q;
    }
    AddMultiple(a % h * b, q, h);
  }

  lemma {:induction false} AddMod(a: int, b: int, h: nat)
    requires h > 0
    ensures (a % h + b) % h == (a + b) % h
  {
    AddMultiple(a % h + b, a / h, h);
    assert a % h + b + h * (a / h) == a + b;
  }

  lemma {:induction false} InverseStep(a: int, q: int, r: int, c: int, h: int)
    requires h == a * q + r
    ensures (0 - q * c) * a == c * r + h * (0 - c)
  {
    assert h * c == q * c * a + c * r;
  }

  /** Below a prime every non-zero residue has a multiplicative inverse. */
  lemma {:induction false} Inverse(a: nat, h: nat) returns (b: nat)
    requires IsPrime(h) && 0 < a < h
    ensures 0 < b < h && (b * a) % h == 1
    decreases a
  {
    if a == 1 {
      b := 1;
    } else {
      var q, r := h / a, h % a;
      assert !Divides(a, h);
      var c := Inverse(r, h);
      // r is -q*a modulo h, so -q*c inverts a
      InverseStep(a, q, r, c, h);
      b := Reduce(0 - q * c, a, c * r, 0 - c, h);
    }
  }

  lemma {:induction false} Reduce(e: int, a: int, u: int, k: int, h: nat) returns (b: nat)
    requires h > 1 && e * a == u + h * k && u % h == 1
    ensures 0 < b < h && (b * a) % h == 1
  {
    b := e % h;
    AddMultiple(u, k, h);
    MulMod(e, a, h);
    if b == 0 {
      ZeroMul(a, h);
    }
  }

  lemma {:induction false} ZeroMul(a: int, h: nat)
    requires h > 0
    ensures (0 * a) % h == 0
  {
  }

  /** Hence the multiples of a non-zero residue reach every residue. */
  lemma {:induction false} MultiplesReach(a: nat, t: nat, h: nat) returns (m: nat)
    requires IsPrime(h) && 0 < a < h && t < h
    ensures 0 < m <= h && (m * a) % h == t
  {
    if t == 0 {
      m := h;
      AddMultiple(0, a, h);
    } else {
      var b := Inverse(a, h);
      m := ScaleInverse(a, b, t, h);
    }
  }

  lemma {:induction false} ScaleInverse(a: nat, b: nat, t: nat, h: nat) returns (m: nat)
    requires 0 < t < h && (b * a) % h == 1
    ensures 0 < m < h && (m * a) % h == t
  {
    assert (b * t) * a == (b * a) * t;
    m := ScaleUnit(b * t, a, b * a, t, h);
  }

  lemma {:induction false} UnitMul(y: int, t: nat, h: nat)
    requires t < h && y % h == 1
    ensures (y * t) % h == t
  {
    MulMod(y, t, h);
    ModUnique(t, 0, t, h);
  }

  lemma {:induction false} ScaleUnit(x: int, a: nat, y: int, t: nat, h: nat) returns (m: nat)
    requires 0 < t < h && x * a == y * t && y % h == 1
    ensures 0 < m < h && (m * a) % h == t
  {
    UnitMul(y, t, h);
    MulMod(x, a, h);
    m := x % h;
    if m == 0 {
      ZeroMul(a, h);
    }
  }

  /** Euclid's lemma. */
  lemma {:induction false} PrimeFactor(a: int, b: nat, h: nat)
    requires IsPrime(h) && 0 < b < h && (a * b) % h == 0
    ensures a % h == 0
  {
    var c := Inverse(b, h);
    CancelInverse(a, b, c, h);
  }

  lemma {:induction false} CancelInverse(a: int, b: int, c: int, h: nat)
    requires h > 1 && (a * b) % h == 0 && (c * b) % h == 1
    ensures a % h == 0
  {
    MulMod(a * b, c, h);
    ZeroMul(c, h);
    MulMod(c * b, a, h);
    assert c * b * a == a * b * c;
  }

  /** Trial division up to the square root decides primality. */
  lemma {:induction false} TrialDivision(h: nat, n: nat)
    requires h >= 2 && n * n > h
    requires forall d: nat :: 2 <= d < n ==> h % d != 0
    ensures IsPrime(h)
  {
    forall d: nat | 1 < d < h && Divides(d, h)
      ensures false
    {
      var e := h / d;
      assert h == d * e;
      SmallCofactor(d, e, n);
      ModUnique(h, d, 0, e);
    }
  }

  lemma {:induction false} SmallCofactor(d: nat, e: nat, n: nat)
    requires n <= d < d * e < n * n
    ensures 2 <= e < n
  {
    if e >= n {
      MulMono(d, e, n);
    }
  }

  lemma {:induction false} MulMono(d: nat, e: nat, m: nat)
    requires d >= m && e >= m
    ensures d * e >= m * m
  {
    assert d * e >= m * e;
    assert m * e >= m * m;
  }

  /** NSYM of the linker. */
  lemma {:induction false} Prime1103()
    ensures IsPrime(1103)
  {
    assert forall d: nat :: 2 <= d < 34 ==> 1103 % d != 0;
    TrialDivision(1103, 34);
  }

  /** The five values HSIZE can take in the compressor. */
  lemma {:induction false} HashSizesArePrime()
    ensures IsPrime(5003) && IsPrime(9001) && IsPrime(18013) && IsPrime(35023) && IsPrime(69001)
  {
    Prime5003();
    Prime9001();
    Prime18013();
    Prime35023();
    Prime69001();
  }

  lemma {:induction false} Prime5003()
    ensures IsPrime(5003)
  {
    assert forall d: nat :: 2 <= d < 72 ==> 5003 % d != 0;
    TrialDivision(5003, 72);
  }

  lemma {:induction false} Prime9001()
    ensures IsPrime(9001)
  {
    assert forall d: nat :: 2 <= d < 96 ==> 9001 % d != 0;
    TrialDivision(9001, 96);
  }

  lemma {:induction false} Prime18013()
    ensures IsPrime(18013)
  {
    assert forall d: nat :: 2 <= d < 136 ==> 18013 % d != 0;
    TrialDivision(18013, 136);
  }

  lemma {:induction false} Prime35023()
    ensures IsPrime(35023)
  {
    assert forall d: nat :: 2 <= d < 188 ==> 35023 % d != 0;
    TrialDivision(35023, 188);
  }

  lemma {:induction false} Prime69001()
    ensures IsPrime(69001)
  {
    assert forall d: nat :: 2 <= d < 264 ==> 69001 % d != 0;
    TrialDivision(69001, 264);
  }
}
