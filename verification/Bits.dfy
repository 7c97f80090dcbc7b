/**
  Shifts, masks and bitwise operators of unsigned machine words, on naturals.
*/
module Bits {

  function Pow2(k: nat): (p: nat)
    ensures p > 0
  {
    if k == 0 then 1 else 2 * Pow2(k - 1)
  }

  function BitAnd(a: nat, b: nat): nat
    decreases a
  {
    if a == 0 || b == 0 then 0
    else (if a % 2 == 1 && b % 2 == 1 then 1 else 0) + 2 * BitAnd(a / 2, b / 2)
  }

  function BitOr(a: nat, b: nat): nat
    decreases a + b
  {
    if a == 0 && b == 0 then 0
    else (if a % 2 == 1 || b % 2 == 1 then 1 else 0) + 2 * BitOr(a / 2, b / 2)
  }

  /** Left shift of a `width`-bit word. */
  function Shl(a: nat, k: nat, width: nat): nat {
    var m := Pow2(width);
    (a * Pow2(k)) % m
  }

  function Shr(a: nat, k: nat): nat {
    DivNonNegative(a, Pow2(k));
    a / Pow2(k)
  }

  lemma DivNonNegative(a: nat, p: nat)
    requires p > 0
    ensures a / p >= 0
  {
  }

  lemma DivModUnique(x: nat, m: nat, q: nat, r: nat)
    requires x == m * q + r && r < m
    ensures x / m == q && x % m == r
  {
    var q', r' := x / m, x % m;
    assert x == m * q' + r';
    if q' > q {
      MulGe(m, q' - q);
    } else if q' < q {
      MulGe(m, q - q');
    }
  }

  lemma MulGe(m: nat, k: nat)
    requires k >= 1
    ensures m * k >= m
  {
  }

  lemma {:induction false} Pow2Add(a: nat, b: nat)
    ensures Pow2(a + b) == Pow2(a) * Pow2(b)
  {
    if a > 0 {
      Pow2Add(a - 1, b);
      assert Pow2(a + b) == 2 * Pow2(a - 1 + b);
    }
  }

  /** Peeling the lowest bit off a remainder. */
  lemma ModDouble(x: nat, p: nat)
    requires p > 0
    ensures x % (2 * p) == x % 2 + 2 * ((x / 2) % p)
  {
    var q, r := (x / 2) / p, (x / 2) % p;
    assert x / 2 == p * q + r;
    assert x == 2 * (p * q + r) + x % 2;
    assert 2 * (p * q) == (2 * p) * q;
    DivModUnique(x, 2 * p, q, 2 * r + x % 2);
  }

  /** Scaling commutes with the remainder. */
  lemma ScaleMod(x: nat, p: nat, q: nat)
    requires p > 0 && q > 0
    ensures p * q > 0 && (x * p) % (p * q) == (x % q) * p
  {
    var d, w := x / q, x % q;
    assert x == q * d + w;
    MulGe(p, q - w);
    ScaleSplit(x, p, q, d, w);
    DivModUnique(x * p, p * q, d, w * p);
  }

  lemma ScaleSplit(x: nat, p: nat, q: nat, d: nat, w: nat)
    requires x == q * d + w && w <= q
    ensures p * q == w * p + p * (q - w)
    ensures x * p == (p * q) * d + w * p
  {
    assert (q * d + w) * p == q * d * p + w * p;
    assert q * d * p == (p * q) * d;
  }

  lemma BitAndOdd(x: nat, m: nat)
    ensures BitAnd(x, 2 * m + 1) == x % 2 + 2 * BitAnd(x / 2, m)
  {
  }

  /** Masking with k ones is the remainder modulo 2^k. */
  lemma {:induction false} AndMask(x: nat, k: nat)
    ensures BitAnd(x, Pow2(k) - 1) == x % Pow2(k)
  {
    if k > 0 {
      AndMask(x / 2, k - 1);
      var p := Pow2(k - 1);
      AndMaskStep(x, p, p - 1);
      assert Pow2(k) - 1 == 2 * (p - 1) + 1;
    }
  }

  lemma AndMaskStep(x: nat, p: nat, m: nat)
    requires p > 0 && BitAnd(x / 2, m) == (x / 2) % p
    ensures BitAnd(x, 2 * m + 1) == x % (2 * p)
  {
    ModDouble(x, p);
    BitAndOdd(x, m);
  }

  /** Or-ing a small word below a shifted one is adding it. */
  lemma {:induction false} OrBelow(x: nat, h: nat, k: nat)
    requires h < Pow2(k)
    ensures BitOr(x * Pow2(k), h) == x * Pow2(k) + h
  {
    if k == 0 {
      OrZero(x);
      assert x * Pow2(0) == x;
    } else {
      var p := Pow2(k - 1);
      assert Pow2(k) == 2 * p;
      assert x * (2 * p) == 2 * (x * p);
      OrBelow(x, h / 2, k - 1);
      if !(x * p == 0 && h == 0) {
        assert BitOr(2 * (x * p), h) == h % 2 + 2 * BitOr(x * p, h / 2);
      }
    }
  }

  lemma {:induction false} OrZero(x: nat)
    ensures BitOr(x, 0) == x
  {
    if x > 0 {
      OrZero(x / 2);
    }
  }

  /** `bitmask<R>(n)` for a `width`-bit R: all ones, and all ones shifted down, and-ed. */
  function Bitmask(n: nat, width: nat): nat
    requires 1 <= n <= width
  {
    BitAnd(Pow2(width) - 1, Shr(Pow2(width) - 1, width - n))
  }

  lemma OnesOfProduct(a: nat, b: nat)
    requires a > 0 && b > 0
    ensures a * b >= 1 && (a * b - 1) / b == a - 1 && (a * b - 1) % a == a - 1
  {
    assert a * b - 1 == b * (a - 1) + (b - 1);
    DivModUnique(a * b - 1, b, a - 1, b - 1);
    assert a * b - 1 == a * (b - 1) + (a - 1);
    DivModUnique(a * b - 1, a, b - 1, a - 1);
  }

  lemma BitmaskIsOnes(n: nat, width: nat)
    requires 1 <= n <= width
    ensures Bitmask(n, width) == Pow2(n) - 1
  {
    Pow2Add(n, width - n);
    OnesOfProduct(Pow2(n), Pow2(width - n));
    AndMask(Pow2(width) - 1, n);
  }

  lemma Pow2Values()
    ensures Pow2(16) == 0x1_0000
    ensures Pow2(48) == 0x1_0000_0000_0000
    ensures Pow2(64) == 0x1_0000_0000_0000_0000
  {
    assert Pow2(4) == 16;
    Pow2Add(4, 4);
    Pow2Add(8, 8);
    Pow2Add(16, 16);
    Pow2Add(32, 16);
    Pow2Add(32, 32);
  }
}
