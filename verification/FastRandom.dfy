/**
  The linear congruential generator that picks addresses in the benchmarks:
  48 bits of state, full period.
*/
module FastRandoms {
  import opened Bits

  const A: nat := 0x5DEECE66D
  const C: nat := 0xB
  const MODULUS: nat := 0x1_0000_0000_0000

  /** The update as written: 64-bit arithmetic, then a 48-bit mask. */
  function Update(seed: nat): nat {
    BitAnd((seed * 0x5DEECE66D + 0xB) % 0x1_0000_0000_0000_0000, 0xFFFF_FFFF_FFFF)
  }

  function Step(x: nat): (y: nat)
    ensures y < MODULUS
  {
    (x * 0x5DEECE66D + 0xB) % 0x1_0000_0000_0000
  }

  lemma MaskIsMod48(x: nat)
    ensures BitAnd(x, 0xFFFF_FFFF_FFFF) == x % 0x1_0000_0000_0000
  {
    assert Pow2(48) == 0x1_0000_0000_0000 by { Pow2Values(); }
    AndMask(x, 48);
  }

  lemma ModMod48(x: nat)
    ensures (x % 0x1_0000_0000_0000_0000) % 0x1_0000_0000_0000 == x % 0x1_0000_0000_0000
  {
  }

  /** Overflow of the word and the mask together are reduction modulo 2^48. */
  lemma UpdateIsStep(seed: nat)
    ensures Update(seed) == Step(seed)
  {
    var x := seed * 0x5DEECE66D + 0xB;
    MaskIsMod48(x % 0x1_0000_0000_0000_0000);
    ModMod48(x);
  }

  class FastRandom {
    var seed: nat

    constructor (seed: nat)
      requires seed < 0x1_0000_0000_0000_0000
      ensures this.seed == seed
    {
      this.seed := seed;
    }

    /** `next(bits)`: one step, of which the top `bits` bits are returned. */
    method NextBits(bits: nat) returns (r: nat)
      requires 1 <= bits <= 48
      modifies this
      ensures seed == Step(old(seed)) == (old(seed) * 25214903917 + 11) % 281474976710656
      ensures r == seed / Pow2(48 - bits)
    {
      UpdateIsStep(seed);
      seed := Update(seed);
      return Shr(seed, 48 - bits);
    }
  }

  function Iter(n: nat, x: nat): nat
  {
    if n == 0 then x else Step(Iter(n - 1, x))
  }

  /** 1 + a + ... + a^(n-1) */
  function Geo(a: nat, n: nat): nat {
    if n == 0 then 0 else 1 + a * Geo(a, n - 1)
  }

  /** A multiplier and an increment for which every power of two is a full period. */
  predicate GoodParameters(a: nat, c: nat) {
    a % 4 == 1 && c % 2 == 1
  }

  /** The state after `n` steps before any reduction. */
  function Lin(a: nat, c: nat, n: nat, x: nat): nat
    requires a > 0
  {
    x + Geo(a, n) * Slope(a, c, x)
  }

  function Slope(a: nat, c: nat, x: nat): nat
    requires a > 0
  {
    (a - 1) * x + c
  }

  lemma LinStepAlgebra(b: nat, c: nat, g: nat, x: nat)
    ensures x + (1 + (1 + b) * g) * (b * x + c) == (1 + b) * (x + g * (b * x + c)) + c
  {
    var t := b * x + c;
    assert (1 + (1 + b) * g) * t == t + (1 + b) * (g * t);
    assert (1 + b) * (x + g * t) == (1 + b) * x + (1 + b) * (g * t);
  }

  lemma LinStep(a: nat, c: nat, n: nat, x: nat)
    requires a > 0
    ensures Lin(a, c, n + 1, x) == a * Lin(a, c, n, x) + c
  {
    LinStepAlgebra(a - 1, c, Geo(a, n), x);
  }

  lemma ModMulAdd(y: nat, m: nat, a: nat, c: nat)
    requires m > 0
    ensures ((y % m) * a + c) % m == (y * a + c) % m
  {
    var z := (y % m) * a + c;
    Recombine(m, y, y / m, y % m, a, c, z / m, z % m);
    DivModUnique(y * a + c, m, (y / m) * a + z / m, z % m);
  }

  lemma Recombine(m: nat, y: nat, q: nat, r: nat, a: nat, c: nat, q2: nat, r2: nat)
    requires y == m * q + r && r * a + c == m * q2 + r2
    ensures y * a + c == m * (q * a + q2) + r2
  {
  }

  lemma {:induction false} IterIsLin(n: nat, x: nat)
    requires x < MODULUS
    ensures Iter(n, x) == Lin(A, C, n, x) % MODULUS
  {
    if n > 0 {
      IterIsLin(n - 1, x);
      LinStep(A, C, n - 1, x);
      StepReduced(Lin(A, C, n - 1, x));
    }
  }

  lemma StepReduced(y: nat)
    ensures Step(y % MODULUS) == (A * y + C) % MODULUS
  {
    ModMulAdd(y, MODULUS, A, C);
  }

  // ---------------------------------------------------- powers of two in Geo

  lemma OddTimes(a: nat, g: nat)
    requires a % 2 == 1
    ensures (a * g) % 2 == g % 2
  {
    var h := a / 2;
    assert a == 2 * h + 1;
    OddTimesSplit(h, g);
    ParityShift(h * g, g);
  }

  lemma OddTimesSplit(h: nat, g: nat)
    ensures (2 * h + 1) * g == 2 * (h * g) + g
  {
  }

  lemma ParityShift(p: nat, g: nat)
    ensures (2 * p + g) % 2 == g % 2
  {
  }

  lemma {:induction false} GeoParity(a: nat, n: nat)
    requires a % 2 == 1
    ensures Geo(a, n) % 2 == n % 2
  {
    if n > 0 {
      GeoParity(a, n - 1);
      OddTimes(a, Geo(a, n - 1));
      NextParity(a * Geo(a, n - 1), n - 1);
    }
  }

  lemma NextParity(p: nat, n: nat)
    requires p % 2 == n % 2
    ensures (1 + p) % 2 == (n + 1) % 2
  {
  }

  /** The algebra of one step of GeoAdd, with a = 1 + b. */
  lemma GeoAddStep(b: nat, g: nat, h: nat)
    ensures 1 + (1 + b) * (g + h * (1 + b * g)) == (1 + (1 + b) * g) + h * (1 + b * (1 + (1 + b) * g))
  {
    assert 1 + b * (1 + (1 + b) * g) == (1 + b) * (1 + b * g);
    assert h * ((1 + b) * (1 + b * g)) == (1 + b) * (h * (1 + b * g));
  }

  lemma {:induction false} GeoAdd(a: nat, m: nat, n: nat)
    requires a > 0
    ensures Geo(a, m + n) == Geo(a, m) + Geo(a, n) * (1 + (a - 1) * Geo(a, m))
  {
    if m > 0 {
      GeoAdd(a, m - 1, n);
      assert Geo(a, m + n) == 1 + a * Geo(a, m - 1 + n);
      GeoAddStep(a - 1, Geo(a, m - 1), Geo(a, n));
    }
  }

  lemma DoubleAlgebra(e: nat, g: nat)
    ensures g + g * (1 + (2 * e) * g) == 2 * (g * (1 + e * g))
  {
    assert g * (1 + (2 * e) * g) == g + 2 * (g * (e * g));
    assert g * (1 + e * g) == g + g * (e * g);
  }

  /** Doubling the number of steps doubles the sum up to an odd factor, because a is 1 modulo 4. */
  lemma GeoDouble(a: nat, m: nat) returns (u: nat)
    requires a % 4 == 1
    ensures Geo(a, 2 * m) == 2 * (Geo(a, m) * u) && u % 2 == 1
  {
    GeoAdd(a, m, m);
    OneModFour(a);
    u := OddCofactor((a - 1) / 2, Geo(a, m));
  }

  lemma OneModFour(a: nat)
    requires a % 4 == 1
    ensures a % 2 == 1 && (a - 1) % 2 == 0 && a - 1 == 2 * ((a - 1) / 2) && ((a - 1) / 2) % 2 == 0
  {
    var q := a / 4;
    assert a == 4 * q + 1;
    DivModUnique(a, 2, 2 * q, 1);
    DivModUnique(a - 1, 2, 2 * q, 0);
    DivModUnique(2 * q, 2, q, 0);
  }

  lemma OddCofactor(e: nat, g: nat) returns (u: nat)
    requires e % 2 == 0
    ensures g + g * (1 + (2 * e) * g) == 2 * (g * u) && u % 2 == 1
  {
    DoubleAlgebra(e, g);
    EvenTimes(e, g);
    EvenPlusOdd(e * g, 1);
    u := 1 + e * g;
  }

  lemma EvenTimes(e: nat, g: nat)
    requires e % 2 == 0
    ensures (e * g) % 2 == 0
  {
    assert e * g == 2 * ((e / 2) * g);
  }

  lemma EvenProduct(x: nat, u: nat)
    requires u % 2 == 1 && (x * u) % 2 == 0
    ensures x % 2 == 0
  {
    var b := u / 2;
    assert x * u == x * (2 * b) + x == 2 * (x * b) + x;
  }

  lemma HalveDivides(y: nat, p: nat)
    requires p > 0
    ensures (2 * y) % (2 * p) == 0 <==> y % p == 0
  {
    ScaleMod(y, 2, p);
    assert y * 2 == 2 * y && 2 * p == 2 * p;
  }

  /** An odd factor does not help a power of two to divide. */
  lemma {:induction false} OddFactor(k: nat, x: nat, u: nat)
    requires u % 2 == 1
    ensures (x * u) % Pow2(k) == 0 <==> x % Pow2(k) == 0
  {
    if k > 0 {
      var p := Pow2(k - 1);
      if x % 2 == 0 {
        var y := x / 2;
        assert x * u == 2 * (y * u);
        OddFactor(k - 1, y, u);
        HalveDivides(y * u, p);
        HalveDivides(y, p);
      } else {
        OddNotDivisible(x, p);
        if (x * u) % 2 == 0 {
          EvenProduct(x, u);
        }
        OddNotDivisible(x * u, p);
      }
    }
  }

  lemma OddNotDivisible(x: nat, p: nat)
    requires x % 2 == 1 && p > 0
    ensures x % (2 * p) != 0
  {
    ModDouble(x, p);
  }

  /** The sum of n powers is divisible by 2^k exactly when n is. */
  lemma {:induction false} GeoDivisible(a: nat, k: nat, n: nat)
    requires a % 4 == 1
    ensures Geo(a, n) % Pow2(k) == 0 <==> n % Pow2(k) == 0
  {
    if k > 0 {
      var p := Pow2(k - 1);
      GeoParity(a, n);
      if n % 2 == 1 {
        OddNotDivisible(n, p);
        OddNotDivisible(Geo(a, n), p);
      } else {
        var m := n / 2;
        GeoDivisible(a, k - 1, m);
        GeoDivisibleEven(a, k - 1, m, p);
        assert n == 2 * m;
      }
    }
  }

  lemma GeoDivisibleEven(a: nat, k: nat, m: nat, p: nat)
    requires a % 4 == 1 && p == Pow2(k) && (Geo(a, m) % p == 0 <==> m % p == 0)
    ensures Geo(a, 2 * m) % (2 * p) == 0 <==> (2 * m) % (2 * p) == 0
  {
    var u := GeoDouble(a, m);
    var g := Geo(a, m);
    OddFactor(k, g, u);
    HalveDivides(g * u, p);
    HalveDivides(m, p);
  }

  lemma SlopeOdd(a: nat, c: nat, x: nat)
    requires GoodParameters(a, c)
    ensures Slope(a, c, x) % 2 == 1
  {
    OneModFour(a);
    EvenTimes(a - 1, x);
    EvenPlusOdd((a - 1) * x, c);
  }

  lemma EvenPlusOdd(p: nat, c: nat)
    requires p % 2 == 0 && c % 2 == 1
    ensures (p + c) % 2 == 1
  {
  }

  lemma AddMultiple(x: nat, d: nat, m: nat)
    requires x < m
    ensures (x + d) % m == x <==> d % m == 0
  {
    var q, r := d / m, d % m;
    assert d == m * q + r;
    AddResidue(x, d, m, q, r);
  }

  lemma AddResidue(x: nat, d: nat, m: nat, q: nat, r: nat)
    requires x < m && r < m && d == m * q + r
    ensures (x + d) % m == if x + r < m then x + r else x + r - m
  {
    if x + r < m {
      DivModUnique(x + d, m, q, x + r);
    } else {
      assert m * (q + 1) == m * q + m;
      DivModUnique(x + d, m, q + 1, x + r - m);
    }
  }

  // ------------------------------------------------------------ main results

  lemma ModulusIsPow2()
    ensures MODULUS == Pow2(48)
  {
    Pow2Values();
  }

  /**
    The multiplier and the increment have full period modulo every power of two:
    the linear form returns to its residue exactly at the multiples of it.
  */
  lemma LinReturns(a: nat, c: nat, k: nat, n: nat, x: nat)
    requires GoodParameters(a, c) && x < Pow2(k)
    ensures Lin(a, c, n, x) % Pow2(k) == x <==> n % Pow2(k) == 0
  {
    var g, t := Geo(a, n), Slope(a, c, x);
    SlopeOdd(a, c, x);
    AddMultiple(x, g * t, Pow2(k));
    OddFactor(k, g, t);
    GeoDivisible(a, k, n);
  }

  /** Full period: a state comes back after n steps if and only if n is a multiple of 2^48. */
  lemma FullPeriod(n: nat, x: nat)
    requires x < MODULUS
    ensures Iter(n, x) == x <==> n % MODULUS == 0
  {
    IterIsLin(n, x);
    ModulusIsPow2();
    var k := 48;
    LinReturns(A, C, k, n, x);
  }

  lemma {:induction false} IterAdd(i: nat, j: nat, x: nat)
    ensures Iter(i + j, x) == Iter(j, Iter(i, x))
  {
    if j > 0 {
      IterAdd(i, j - 1, x);
    }
  }

  lemma IterBelow(n: nat, x: nat)
    requires x < MODULUS
    ensures Iter(n, x) < MODULUS
  {
  }

  /** No state repeats within 2^48 steps. */
  lemma NoEarlyRepeat(i: nat, j: nat, x: nat)
    requires x < MODULUS && i < j < i + MODULUS
    ensures Iter(i, x) != Iter(j, x)
  {
    var d, y := j - i, Iter(i, x);
    IterAdd(i, d, x);
    IterBelow(i, x);
    FullPeriod(d, y);
    DivModUnique(d, MODULUS, 0, d);
  }

  /** The step is a permutation of the states: two states with one successor are the same. */
  lemma StepInjective(x: nat, y: nat)
    requires x < MODULUS && y < MODULUS && Step(x) == Step(y)
    ensures x == y
  {
    StepThenRest(x);
    StepThenRest(y);
  }

  lemma StepThenRest(x: nat)
    requires x < MODULUS
    ensures Iter(MODULUS - 1, Step(x)) == x
  {
    FullPeriod(MODULUS, x);
    IterAdd(1, MODULUS - 1, x);
    assert Iter(1, x) == Step(Iter(0, x)) == Step(x);
  }

  /** Every state has a predecessor. */
  lemma StepSurjective(y: nat) returns (x: nat)
    requires y < MODULUS
    ensures x < MODULUS && Step(x) == y
  {
    x := Iter(MODULUS - 1, y);
    IterBelow(MODULUS - 1, y);
    FullPeriod(MODULUS, y);
    assert Iter(MODULUS, y) == Step(Iter(MODULUS - 1, y));
  }

  lemma ExactQuotient(g: nat, p: nat) returns (v: nat)
    requires p > 0 && g % p == 0
    ensures g == p * v
  {
    v := g / p;
  }

  /** The sum of 2^k powers is an odd multiple of 2^k. */
  lemma GeoOfPow2(a: nat, k: nat, p: nat) returns (v: nat)
    requires a % 4 == 1 && p == Pow2(k)
    ensures Geo(a, p) == p * v && v % 2 == 1
  {
    PowSelf(p);
    GeoDivisible(a, k, p);
    v := ExactQuotient(Geo(a, p), p);
    GeoDivisible(a, k + 1, p);
    OddQuotient(Geo(a, p), p, v);
  }

  /** 2^k steps move the state by an odd multiple of 2^k. */
  lemma HalfPeriodShift(a: nat, c: nat, k: nat, p: nat, n: nat, x: nat) returns (w: nat)
    requires GoodParameters(a, c) && p == Pow2(k)
    ensures Lin(a, c, n + p, x) == Lin(a, c, n, x) + p * w && w % 2 == 1
  {
    var v := GeoOfPow2(a, k, p);
    GeoAdd(a, n, p);
    var g, t := Geo(a, n), Slope(a, c, x);
    var f := 1 + (a - 1) * g;
    SlopeOdd(a, c, x);
    OneModFour(a);
    EvenTimes(a - 1, g);
    EvenPlusOdd((a - 1) * g, 1);
    w := OddShift(g, p, v, f, t);
  }

  lemma OddShift(g: nat, p: nat, v: nat, f: nat, t: nat) returns (w: nat)
    requires v % 2 == 1 && f % 2 == 1 && t % 2 == 1
    ensures (g + (p * v) * f) * t == g * t + p * w && w % 2 == 1
  {
    OddTimesOdd(v, f);
    OddTimesOdd(v * f, t);
    w := v * f * t;
    ShiftAlgebra(g, p, v, f, t);
  }

  lemma ShiftAlgebra(g: nat, p: nat, v: nat, f: nat, t: nat)
    ensures (g + (p * v) * f) * t == g * t + p * (v * f * t)
  {
  }

  lemma OddQuotient(g: nat, p: nat, v: nat)
    requires p > 0 && g == p * v && g % (2 * p) != 0
    ensures v % 2 == 1
  {
    if v % 2 == 0 {
      var h := v / 2;
      assert p * (2 * h) == (2 * p) * h;
      DivModUnique(g, 2 * p, h, 0);
    }
  }

  lemma PowSelf(p: nat)
    requires p > 0
    ensures p % p == 0 && p % (2 * p) == p
  {
  }

  lemma OddTimesOdd(a: nat, b: nat)
    requires a % 2 == 1 && b % 2 == 1
    ensures (a * b) % 2 == 1
  {
    if (a * b) % 2 == 0 {
      EvenProduct(a, b);
    }
  }

  /** Modulo 2^k every residue is met within 2^k steps. */
  lemma {:induction false} ReachesModulo(a: nat, c: nat, k: nat, x: nat, y: nat) returns (n: nat)
    requires GoodParameters(a, c)
    ensures n < Pow2(k) && Lin(a, c, n, x) % Pow2(k) == y % Pow2(k)
  {
    n := 0;
    if k > 0 {
      var p := Pow2(k - 1);
      n := ReachesModulo(a, c, k - 1, x, y);
      if Lin(a, c, n, x) % (2 * p) != y % (2 * p) {
        var w := HalfPeriodShift(a, c, k - 1, p, n, x);
        ShiftByHalf(Lin(a, c, n, x), y, p, w);
        n := n + p;
      }
    }
  }

  /** Numbers equal modulo p and not modulo 2p become equal modulo 2p when an odd multiple of p is added to one. */
  lemma ShiftByHalf(a: nat, y: nat, p: nat, w: nat)
    requires p > 0 && a % p == y % p && a % (2 * p) != y % (2 * p) && w % 2 == 1
    ensures (a + p * w) % (2 * p) == y % (2 * p)
  {
    var q, r, high := SplitHalf(a, p);
    var _, r', high' := SplitHalf(y, p);
    assert r == r' && high != high';
    var v := w / 2;
    assert w == 2 * v + 1;
    ShiftResidue(a, p, q, r, v, high);
  }

  lemma ShiftResidue(a: nat, p: nat, q: nat, r: nat, v: nat, high: bool)
    requires r < p && a == (2 * p) * q + r + (if high then p else 0)
    ensures (a + p * (2 * v + 1)) % (2 * p) == if high then r else r + p
  {
    HalfShifted(a, p, q, r, v, high);
    if high {
      DivModUnique(a + p * (2 * v + 1), 2 * p, q + v + 1, r);
    } else {
      DivModUnique(a + p * (2 * v + 1), 2 * p, q + v, r + p);
    }
  }

  lemma HalfShifted(a: nat, p: nat, q: nat, r: nat, v: nat, high: bool)
    requires a == (2 * p) * q + r + (if high then p else 0)
    ensures a + p * (2 * v + 1) == if high then (2 * p) * (q + v + 1) + r else (2 * p) * (q + v) + (r + p)
  {
  }

  /** A number modulo 2p, from its residue modulo p and the half it lies in. */
  lemma SplitHalf(a: nat, p: nat) returns (q: nat, r: nat, high: bool)
    requires p > 0
    ensures r < p && a == (2 * p) * q + r + (if high then p else 0)
    ensures a % p == r && a % (2 * p) == r + (if high then p else 0)
  {
    q := a / (2 * p);
    var s := a % (2 * p);
    assert a == (2 * p) * q + s;
    high := s >= p;
    r := if high then s - p else s;
    if high {
      assert a == p * (2 * q + 1) + r;
      DivModUnique(a, p, 2 * q + 1, r);
    } else {
      assert a == p * (2 * q) + r;
      DivModUnique(a, p, 2 * q, r);
    }
  }

  /** From any state every state is reached within one period. */
  lemma EveryStateReached(x: nat, y: nat) returns (n: nat)
    requires x < MODULUS && y < MODULUS
    ensures n < MODULUS && Iter(n, x) == y
  {
    ModulusIsPow2();
    var k := 48;
    n := ReachesModulo(A, C, k, x, y);
    IterIsLin(n, x);
  }
}
