/**
 * Exact real arithmetic used by the tick generator: integral powers of ten,
 * the integer parts of log10, and floor/ceiling of quotients. The program
 * computes these with float64 `math.Pow10`, `math.Log10`, `math.Floor` and
 * `math.Ceil`; here they are exact.
 */
module RealMath {

  /** True when `x` has no fractional part (`x == math.Trunc(x)`). */
  predicate IsInteger(x: real) {
    x.Floor as real == x
  }

  /** `math.Ceil`: the least integer not below `x`. */
  function Ceil(x: real): (c: int)
    ensures c as real - 1.0 < x <= c as real
  {
    -((-x).Floor)
  }

  /** 10 raised to any integral exponent (`math.Pow10`). */
  function Pow10(e: int): real
    decreases if e < 0 then -e else e
  {
    if e == 0 then 1.0
    else if e > 0 then 10.0 * Pow10(e - 1)
    else Pow10(e + 1) / 10.0
  }

  lemma {:induction false} Pow10Positive(e: int)
    ensures Pow10(e) > 0.0
    decreases if e < 0 then -e else e
  {
    if e > 0 {
      Pow10Positive(e - 1);
    } else if e < 0 {
      Pow10Positive(e + 1);
    }
  }

  lemma {:induction false} Pow10Succ(e: int)
    ensures Pow10(e + 1) == 10.0 * Pow10(e)
  {
    if e < 0 {
      assert Pow10(e) == Pow10(e + 1) / 10.0;
    }
  }

  /** One factor of ten moved from one side of a product to the other. */
  lemma {:induction false} TenTimes(p: real, q: real, r: real, q': real, r': real)
    requires p * q == r && q' == 10.0 * q && r' == 10.0 * r
    ensures p * q' == r'
  {
  }

  lemma {:induction false} Pow10AddNat(a: int, b: nat)
    ensures Pow10(a) * Pow10(b) == Pow10(a + b)
  {
    if b > 0 {
      Pow10AddNat(a, b - 1);
      Pow10Succ(b - 1);
      Pow10Succ(a + b - 1);
      TenTimes(Pow10(a), Pow10(b - 1), Pow10(a + b - 1), Pow10(b), Pow10(a + b));
    }
  }

  /** Powers of ten multiply by adding exponents. */
  lemma {:induction false} Pow10Add(a: int, b: int)
    ensures Pow10(a) * Pow10(b) == Pow10(a + b)
  {
    if b >= 0 {
      Pow10AddNat(a, b);
    } else {
      Pow10AddNat(a + b, -b);
      Pow10AddNat(b, -b);
      var p, q, r, s := Pow10(a), Pow10(b), Pow10(a + b), Pow10(-b);
      assert r * s == p;
      assert q * s == 1.0;
      assert p * q == r * s * q;
    }
  }

  /** Powers of ten strictly increase with the exponent. */
  lemma {:induction false} Pow10Increasing(a: int, b: int)
    requires a < b
    ensures Pow10(a) < Pow10(b)
    decreases b - a
  {
    Pow10Succ(b - 1);
    Pow10Positive(b - 1);
    if a < b - 1 {
      Pow10Increasing(a, b - 1);
    }
  }

  /** 10^e as a natural number, for e >= 0. */
  function Pow10Nat(e: nat): nat {
    if e == 0 then 1 else 10 * Pow10Nat(e - 1)
  }

  /** A power of ten with a non-negative exponent is a whole number. */
  lemma {:induction false} Pow10Integral(e: nat)
    ensures Pow10(e) == Pow10Nat(e) as real
  {
    if e > 0 {
      Pow10Integral(e - 1);
    }
  }

  /** Products of whole numbers agree in the integers and in the reals. */
  lemma {:induction false} ProductOfIntegers(a: int, b: int)
    ensures a as real * b as real == (a * b) as real
  {
  }

  /** The integer part of log10 for x >= 1. */
  function FloorLog10Up(x: real): int
    requires x >= 1.0
    decreases x.Floor
  {
    if x < 10.0 then 0
    else
      assert (x / 10.0).Floor < x.Floor;
      FloorLog10Up(x / 10.0) + 1
  }

  lemma {:induction false} FloorLog10UpBrackets(x: real)
    requires x >= 1.0
    ensures var e := FloorLog10Up(x); e >= 0 && Pow10(e) <= x < Pow10(e + 1)
    decreases x.Floor
  {
    if x >= 10.0 {
      assert (x / 10.0).Floor < x.Floor;
      var e := FloorLog10Up(x / 10.0);
      FloorLog10UpBrackets(x / 10.0);
      Pow10Succ(e);
      Pow10Succ(e + 1);
    }
  }

  /** The integer part of log10 for 0 < x < 1. */
  function FloorLog10Down(x: real): int
    requires 0.0 < x < 1.0
    decreases (1.0 / x).Floor
  {
    if x * 10.0 >= 1.0 then -1
    else
      assert 1.0 / (x * 10.0) == (1.0 / x) / 10.0;
      assert (1.0 / (x * 10.0)).Floor < (1.0 / x).Floor;
      FloorLog10Down(x * 10.0) - 1
  }

  lemma {:induction false} FloorLog10DownBrackets(x: real)
    requires 0.0 < x < 1.0
    ensures var e := FloorLog10Down(x); e < 0 && Pow10(e) <= x < Pow10(e + 1)
    decreases (1.0 / x).Floor
  {
    if x * 10.0 >= 1.0 {
      Pow10Succ(-1);
    } else {
      assert 1.0 / (x * 10.0) == (1.0 / x) / 10.0;
      assert (1.0 / (x * 10.0)).Floor < (1.0 / x).Floor;
      var e := FloorLog10Down(x * 10.0);
      FloorLog10DownBrackets(x * 10.0);
      Pow10Succ(e - 1);
    }
  }

  /** `math.Floor(math.Log10(x))`. */
  function FloorLog10(x: real): int
    requires x > 0.0
  {
    if x >= 1.0 then FloorLog10Up(x) else FloorLog10Down(x)
  }

  /** FloorLog10 selects the power of ten at or just below x. */
  lemma {:induction false} FloorLog10Brackets(x: real)
    requires x > 0.0
    ensures Pow10(FloorLog10(x)) <= x < Pow10(FloorLog10(x) + 1)
  {
    if x >= 1.0 {
      FloorLog10UpBrackets(x);
    } else {
      FloorLog10DownBrackets(x);
    }
  }

  /** The bracketing power of ten is unique. */
  lemma {:induction false} FloorLog10Unique(x: real, a: int)
    requires Pow10(a) <= x < Pow10(a + 1)
    ensures x > 0.0 && FloorLog10(x) == a
  {
    Pow10Positive(a);
    FloorLog10Brackets(x);
    var e := FloorLog10(x);
    if e < a {
      if e + 1 < a { Pow10Increasing(e + 1, a); }
    } else if e > a {
      if a + 1 < e { Pow10Increasing(a + 1, e); }
    }
  }

  /** `math.Ceil(math.Log10(x))`. */
  function CeilLog10(x: real): int
    requires x > 0.0
  {
    var f := FloorLog10(x);
    if Pow10(f) == x then f else f + 1
  }

  /** CeilLog10 selects the least power of ten not below x. */
  lemma {:induction false} CeilLog10Brackets(x: real)
    requires x > 0.0
    ensures Pow10(CeilLog10(x) - 1) < x <= Pow10(CeilLog10(x))
  {
    FloorLog10Brackets(x);
  }

  /** Multiplying by a positive factor keeps the order of reals. */
  lemma {:induction false} ScaleReal(a: real, b: real, d: real)
    requires d > 0.0
    ensures a <= b <==> a * d <= b * d
    ensures a < b <==> a * d < b * d
  {
    assert b * d - a * d == (b - a) * d;
  }

  lemma {:induction false} PositiveProduct(a: real, b: real)
    requires a > 0.0 && b > 0.0
    ensures a * b > 0.0
  {
  }

  /** A factor n with n * p == x is below k when x is below k * p. */
  lemma {:induction false} FactorBelow(n: real, p: real, x: real, k: real)
    requires p > 0.0 && n * p == x && x < k * p
    ensures n < k
  {
    ScaleReal(n, k, p);
  }

  /** `math.Floor(x / d)`. */
  function FloorDiv(x: real, d: real): int
    requires d > 0.0
  {
    (x / d).Floor
  }

  /** FloorDiv(x, d) * d is the multiple of d at or just below x. */
  lemma {:induction false} FloorDivBounds(x: real, d: real)
    requires d > 0.0
    ensures FloorDiv(x, d) as real * d <= x < (FloorDiv(x, d) + 1) as real * d
  {
    var q := x / d;
    var f := q.Floor;
    assert f == FloorDiv(x, d);
    assert q * d == x;
    assert f as real <= q < (f + 1) as real;
    ScaleReal(f as real, q, d);
    var g := (f + 1) as real;
    ScaleReal(q, g, d);
    assert q * d < g * d;
    assert x < g * d;
    assert g == (FloorDiv(x, d) + 1) as real;
  }

  /** The least integer k with k * d >= x. */
  function CeilDiv(x: real, d: real): int
    requires d > 0.0
  {
    -FloorDiv(-x, d)
  }

  /** CeilDiv(x, d) * d is the multiple of d at or just above x. */
  lemma {:induction false} CeilDivBounds(x: real, d: real)
    requires d > 0.0
    ensures (CeilDiv(x, d) - 1) as real * d < x <= CeilDiv(x, d) as real * d
  {
    var y := -x;
    FloorDivBounds(y, d);
    var f := FloorDiv(y, d);
    var lo, hi := f as real * d, (f + 1) as real * d;
    assert lo <= y < hi;
    var c := CeilDiv(x, d);
    assert c == -f;
    assert c as real * d == -lo;
    assert (c - 1) as real * d == -hi;
  }

  /** The next multiple of d is d further on. */
  lemma {:induction false} NextMultiple(k: int, d: real)
    ensures (k + 1) as real * d == k as real * d + d
  {
  }

  /** Scaling by a positive factor keeps the order of integers. */
  lemma {:induction false} ScaleMonotone(a: int, b: int, d: real)
    requires d > 0.0
    ensures a <= b <==> a as real * d <= b as real * d
    ensures a < b <==> a as real * d < b as real * d
  {
    ScaleReal(a as real, b as real, d);
  }

  /** FloorDiv(x, d) is the greatest k with k * d <= x. */
  lemma {:induction false} FloorDivGreatest(k: int, x: real, d: real)
    requires d > 0.0
    ensures k as real * d <= x <==> k <= FloorDiv(x, d)
  {
    var f := FloorDiv(x, d);
    FloorDivBounds(x, d);
    if k <= f {
      ScaleMonotone(k, f, d);
      assert k as real * d <= f as real * d <= x;
    } else {
      ScaleMonotone(f + 1, k, d);
      assert x < (f + 1) as real * d <= k as real * d;
    }
  }

  /** CeilDiv(x, d) is the least k with k * d >= x. */
  lemma {:induction false} CeilDivLeast(k: int, x: real, d: real)
    requires d > 0.0
    ensures x <= k as real * d <==> CeilDiv(x, d) <= k
  {
    FloorDivGreatest(-k, -x, d);
    assert (-k) as real * d == -(k as real * d);
  }
}
