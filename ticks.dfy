/**
 * The adaptive axis tick generator `PreciseTicks.Ticks` (ticks.go) and its
 * rounding helper `round`, over exact reals.
 *
 * The specification functions (TickSpec and the pieces it is built from)
 * describe the output; the method `Ticks` computes it step by step, with the
 * source's loops, and is proved equal to TickSpec. The lemmas at the end state
 * what the output looks like.
 */
module PreciseTicks {
  import opened RealMath

  /** A tick label. `FormatG(v)` stands for `strconv.FormatFloat(v, 'g', -1, 64)`;
      minor ticks carry no label. */
  datatype Label = NoLabel | FormatG(shown: real)

  datatype Tick = Tick(value: real, caption: Label)

  /** The panic "illegal range". */
  datatype TickError = IllegalRange

  datatype Result<T> = Ok(value: T) | Err(error: TickError)

  /** Tick count used when `NSuggestedTicks` is zero. */
  const DefaultTickCount: int := 4

  function EffectiveTickCount(suggested: int): int {
    if suggested == 0 then DefaultTickCount else suggested
  }

  /** The inputs the model covers: an empty range, which panics at once, or an
      effective tick count of at least 2. With a count of 1 or less the major
      step is undefined, zero or negative, and depending on the inputs the source
      either loops forever or returns no ticks; every caller passes 3 or 5. */
  predicate CountAtLeastTwo(suggested: int, min: real, max: real) {
    max <= min || EffectiveTickCount(suggested) >= 2
  }

  // ---------------------------------------------------------------------------
  // round (ticks.go:78-104)

  /** `round(x, prec)`: x rounded half away from zero to `prec` decimal places. */
  function Round(x: real, prec: int): (r: real)
    ensures x >= 0.0 ==> r >= 0.0
    ensures x <= 0.0 ==> r <= 0.0
  {
    if x == 0.0 then 0.0
    else if prec >= 0 && IsInteger(x) then x
    else
      Pow10Positive(prec);
      RoundAt(x, Pow10(prec))
  }

  /** The general branch of `round`, with `pow = math.Pow10(prec)`. */
  function RoundAt(x: real, pow: real): real
    requires pow > 0.0
  {
    var intermed := x * pow;
    var y := if x < 0.0 then Ceil(intermed - 0.5) else (intermed + 0.5).Floor;
    if y == 0 then 0.0 else y as real / pow
  }

  lemma {:induction false} RoundAtNearest(x: real, pow: real) returns (n: int)
    requires pow > 0.0
    ensures RoundAt(x, pow) * pow == n as real
    ensures x >= 0.0 ==> n as real - 0.5 <= x * pow < n as real + 0.5
    ensures x < 0.0 ==> n as real - 0.5 < x * pow <= n as real + 0.5
  {
    var intermed := x * pow;
    n := if x < 0.0 then Ceil(intermed - 0.5) else (intermed + 0.5).Floor;
  }

  /** Round returns zero for zero; otherwise, with r = Round(x, prec) and
      p = 10^prec, r * p is the integer n nearest to x * p, a tie going away
      from zero. */
  lemma {:induction false} RoundHalfAwayFromZero(x: real, prec: int) returns (r: real, p: real, n: int)
    ensures Round(0.0, prec) == 0.0
    ensures r == Round(x, prec) && p == Pow10(prec) && r * p == n as real
    ensures x >= 0.0 ==> n as real - 0.5 <= x * p < n as real + 0.5
    ensures x < 0.0 ==> n as real - 0.5 < x * p <= n as real + 0.5
  {
    Pow10Positive(prec);
    r, p := Round(x, prec), Pow10(prec);
    if x == 0.0 {
      n := 0;
    } else if prec >= 0 && IsInteger(x) {
      n := WholeScaled(x, prec);
    } else {
      n := RoundAtNearest(x, p);
    }
  }

  /** A whole number times a non-negative power of ten is whole. */
  lemma {:induction false} WholeScaled(x: real, prec: int) returns (n: int)
    requires prec >= 0 && IsInteger(x)
    ensures x * Pow10(prec) == n as real
  {
    Pow10Integral(prec);
    var a, b := x.Floor, Pow10Nat(prec);
    ProductOfIntegers(a, b);
    n := a * b;
  }

  /** The general branch returns a value already on the 1/pow grid unchanged. */
  lemma {:induction false} RoundAtExact(x: real, pow: real, n: int)
    requires pow > 0.0 && x * pow == n as real
    ensures RoundAt(x, pow) == x
  {
    var intermed := x * pow;
    assert (intermed + 0.5).Floor == n;
    assert Ceil(intermed - 0.5) == n;
    if n != 0 {
      assert RoundAt(x, pow) == n as real / pow;
      assert n as real / pow == x;
    } else {
      assert x == 0.0;
    }
  }

  /** A value already on the 10^-prec grid is returned unchanged. */
  lemma {:induction false} RoundExact(x: real, prec: int, n: int)
    requires x * Pow10(prec) == n as real
    ensures Round(x, prec) == x
  {
    Pow10Positive(prec);
    if x != 0.0 && !(prec >= 0 && IsInteger(x)) {
      RoundAtExact(x, Pow10(prec), n);
    }
  }

  lemma {:induction false} GridScale(t: int, prec: int) returns (b: nat)
    requires t + prec >= 0
    ensures Pow10(t) * Pow10(prec) == b as real
  {
    Pow10Add(t, prec);
    Pow10Integral(t + prec);
    b := Pow10Nat(t + prec);
  }

  lemma {:induction false} GridProduct(k: int, p: real, q: real, b: int)
    requires p * q == b as real
    ensures (k as real * p) * q == (k * b) as real
  {
    ProductOfIntegers(k, b);
    assert (k as real * p) * q == k as real * (p * q);
  }

  /** Rounding an integer multiple of 10^t with at least -t decimal places is exact. */
  lemma {:induction false} RoundMultipleExact(k: int, t: int, prec: int, x: real)
    requires t + prec >= 0 && x == k as real * Pow10(t)
    ensures Round(x, prec) == x
  {
    var b := GridScale(t, prec);
    GridProduct(k, Pow10(t), Pow10(prec), b);
    RoundExact(x, prec, k * b);
  }

  // ---------------------------------------------------------------------------
  // Magnitude (ticks.go:23-28)

  /** x / 10^e: the loop's `n` for `tens` = 10^e. */
  function Ratio(x: real, e: int): real {
    Pow10Positive(e);
    x / Pow10(e)
  }

  lemma {:induction false} RatioScales(x: real, e: int)
    ensures Ratio(x, e) * Pow10(e) == x
  {
    Pow10Positive(e);
  }

  /** Dividing `tens` by ten multiplies `n` by ten. */
  lemma {:induction false} StepDown(span: real, e: int)
    requires Pow10(e) <= span
    ensures Pow10(e - 1) <= span
    ensures Ratio(span, e - 1) == 10.0 * Ratio(span, e)
    ensures Ratio(span, e).Floor < Ratio(span, e - 1).Floor
  {
    Pow10Succ(e - 1);
    Pow10Positive(e - 1);
    RatioScales(span, e);
    RatioScales(span, e - 1);
    TenfoldRatio(Ratio(span, e), Ratio(span, e - 1), Pow10(e - 1), Pow10(e), span);
  }

  /** With n * 10p == span == n' * p and 10p <= span, n' is 10 n and n' has a larger floor. */
  lemma {:induction false} TenfoldRatio(n: real, n': real, p: real, q: real, span: real)
    requires p > 0.0 && q == 10.0 * p && q <= span && n * q == span && n' * p == span
    ensures n' == 10.0 * n && n.Floor < n'.Floor
  {
    assert (10.0 * n) * p == n * q;
    ScaleReal(n', 10.0 * n, p);
    ScaleReal(10.0 * n, n', p);
    ScaleReal(1.0, n, q);
    assert n' >= n + 9.0;
  }

  /** The exponent of `tens` when the magnitude loop ends, having started at e:
      the loop divides `tens` by ten while `n = span / tens` is below `need`. */
  function MagnitudeExponent(span: real, need: int, e: int): int
    requires Pow10(e) <= span
    decreases need - Ratio(span, e).Floor
  {
    if Ratio(span, e) >= need as real then e
    else
      StepDown(span, e);
      MagnitudeExponent(span, need, e - 1)
  }

  /** The loop stops at the first exponent m <= e with span / 10^m >= need; when it
      divided at least once, span / 10^m is below 10 * need. */
  lemma {:induction false} MagnitudeStops(span: real, need: int, e: int)
    requires Pow10(e) <= span
    ensures var m := MagnitudeExponent(span, need, e);
      && m <= e && Pow10(m) <= span
      && Ratio(span, m) >= need as real
      && (m < e ==> Ratio(span, m) < 10.0 * need as real)
    decreases need - Ratio(span, e).Floor
  {
    if Ratio(span, e) < need as real {
      StepDown(span, e);
      MagnitudeStops(span, need, e - 1);
    }
  }

  /** The exponent of `tens` for a span and an effective tick count. */
  function Exponent(count: int, span: real): int
    requires span > 0.0
  {
    FloorLog10Brackets(span);
    MagnitudeExponent(span, count - 1, FloorLog10(span))
  }

  /** The range the magnitude loop leaves `n` in: count - 1 <= n < 10 (count - 1),
      with a positive `tens`. */
  predicate StepRange(count: int, tens: real, n: real) {
    count >= 2 && tens > 0.0 && (count - 1) as real <= n < 10.0 * (count - 1) as real
  }

  /** What holds when the magnitude loop ends: n in StepRange and n * tens == span. */
  predicate MagnitudeFits(count: int, span: real, tens: real, n: real) {
    StepRange(count, tens, n) && n * tens == span
  }

  /** The magnitude loop ends, with tens = 10^e and n = span / tens, in a state
      where MagnitudeFits holds. */
  lemma {:induction false} MagnitudeBounds(count: int, span: real)
    requires count >= 2 && span > 0.0
    ensures var e := Exponent(count, span); MagnitudeFits(count, span, Pow10(e), Ratio(span, e))
  {
    var e := Exponent(count, span);
    MagnitudeRange(count, span);
    Pow10Positive(e);
    RatioScales(span, e);
  }

  /** n = span / 10^e after the loop satisfies count - 1 <= n < 10 (count - 1). */
  lemma {:induction false} MagnitudeRange(count: int, span: real)
    requires count >= 2 && span > 0.0
    ensures var n := Ratio(span, Exponent(count, span)); (count - 1) as real <= n < 10.0 * (count - 1) as real
  {
    var e0 := FloorLog10(span);
    FloorLog10Brackets(span);
    MagnitudeStops(span, count - 1, e0);
    if Exponent(count, span) == e0 {
      RatioBelowTen(span, e0);
    }
  }

  lemma {:induction false} RatioBelowTen(span: real, e: int)
    requires span < Pow10(e + 1)
    ensures Ratio(span, e) < 10.0
  {
    Pow10Succ(e);
    Pow10Positive(e);
    FactorBelow(Ratio(span, e), Pow10(e), span, 10.0);
  }

  // ---------------------------------------------------------------------------
  // Major and minor steps (ticks.go:30-37, 54-60)

  /** The `switch majorMult`: 7 becomes 6 and 9 becomes 8. */
  function Snap(raw: int): int {
    if raw == 7 then 6 else if raw == 9 then 8 else raw
  }

  /** A quotient n / c with c <= n < 10c lies in [1, 10). */
  lemma {:induction false} QuotientBounds(n: real, c: real)
    requires c >= 1.0 && c <= n < 10.0 * c
    ensures 1.0 <= n / c < 10.0
  {
    var q := n / c;
    assert q * c == n;
    ScaleReal(1.0, q, c);
    ScaleReal(q, 10.0, c);
  }

  /** `majorMult` after snapping; `int(n / (count-1))` truncates a positive quotient. */
  function Multiplier(count: int, n: real): int
    requires count >= 2
  {
    Snap((n / (count - 1) as real).Floor)
  }

  /** The snapped multiplier is one of 1, 2, 3, 4, 5, 6 and 8: never 0, 7 or 9. */
  lemma {:induction false} MultiplierRange(count: int, tens: real, n: real)
    requires StepRange(count, tens, n)
    ensures Multiplier(count, n) in {1, 2, 3, 4, 5, 6, 8}
  {
    QuotientBounds(n, (count - 1) as real);
  }

  /** `majorDelta = majorMult * tens`; positive, so both walks advance. */
  function MajorDelta(count: int, tens: real, n: real): (d: real)
    requires StepRange(count, tens, n)
    ensures d > 0.0
  {
    var m := Multiplier(count, n);
    MultiplierRange(count, tens, n);
    PositiveProduct(m as real, tens);
    m as real * tens
  }

  /** `minorDelta`: the major step divided by 3 (multiplier 3 or 6), 5 (multiplier 5)
      or 2 (any other multiplier). */
  function MinorDelta(d: real, mult: int): (md: real)
    requires d > 0.0
    ensures 0.0 < md < d
  {
    if mult == 3 || mult == 6 then d / 3.0 else if mult == 5 then d / 5.0 else d / 2.0
  }

  // ---------------------------------------------------------------------------
  // Walks (ticks.go:38-46, 62-74)

  /** The multiples k * d for a <= k <= b, in order. */
  function Run(a: int, b: int, d: real): seq<real> {
    if b < a then [] else seq(b - a + 1, i requires 0 <= i < b - a + 1 => (a + i) as real * d)
  }

  lemma {:induction false} RunSnoc(a: int, b: int, d: real)
    requires a <= b
    ensures Run(a, b, d) == Run(a, b - 1, d) + [b as real * d]
  {
    var r, r' := Run(a, b, d), Run(a, b - 1, d);
    assert |r| == |r'| + 1;
    forall i | 0 <= i < |r'|
      ensures r[i] == r'[i]
    {
    }
    assert r[|r'|] == b as real * d;
    assert r == r' + [b as real * d];
  }

  /** The multiples of d within [min, max], ascending: the values the major walk keeps. */
  function MajorValues(d: real, min: real, max: real): seq<real>
    requires d > 0.0
  {
    Run(CeilDiv(min, d), FloorDiv(max, d), d)
  }

  /** The value of `val` when a walk over [min, max] with step d stops: the first multiple above max. */
  function WalkEnd(d: real, max: real): real
    requires d > 0.0
  {
    (FloorDiv(max, d) + 1) as real * d
  }

  /** The elements of s that are not in ex, in order. */
  function Without(s: seq<real>, ex: seq<real>): seq<real> {
    if s == [] then []
    else Without(s[..|s| - 1], ex) + (if s[|s| - 1] in ex then [] else [s[|s| - 1]])
  }

  /** The minor walk's values: multiples of md within [min, max] that are not already ticks. */
  function MinorValues(md: real, min: real, max: real, ex: seq<real>): seq<real>
    requires md > 0.0
  {
    Without(Run(CeilDiv(min, md), FloorDiv(max, md), md), ex)
  }

  // ---------------------------------------------------------------------------
  // Precision (ticks.go:47) and the tick list

  /** Digits before the decimal point of the walk's end value, never negative
      (an end value at or below 1, including a non-positive one, has none). */
  function IntegerDigits(end: real): int {
    if end <= 1.0 then 0 else CeilLog10(end)
  }

  /** The rounding precision of the major ticks. The source computes
      ceil(log10(end)) - floor(log10(majorDelta)) (PrecisionAsWritten); this is
      the corrected form, which clamps the first term at zero. */
  function MajorPrecision(end: real, d: real): int
    requires d > 0.0
  {
    IntegerDigits(end) - FloorLog10(d)
  }

  /** The precision exactly as ticks.go:47 writes it. */
  function PrecisionAsWritten(end: real, d: real): int
    requires end > 0.0 && d > 0.0
  {
    CeilLog10(end) - FloorLog10(d)
  }

  /** The corrected precision agrees with ticks.go:47 as written whenever the
      walk ends above 0.1; they differ only at or below it. */
  lemma {:induction false} AgreeAbove(end: real, d: real)
    requires d > 0.0 && end > 0.1
    ensures MajorPrecision(end, d) == PrecisionAsWritten(end, d)
  {
    if end <= 1.0 {
      var c := CeilLog10(end);
      CeilLog10Brackets(end);
      if c > 1 {
        Pow10Increasing(0, c - 1);
      } else if c < -1 {
        Pow10Increasing(c, -1);
      }
    }
  }

  function MajorTick(v: real, prec: int): Tick {
    var r := Round(v, prec);
    Tick(r, FormatG(r))
  }

  function MajorTicks(vs: seq<real>, prec: int): seq<Tick> {
    seq(|vs|, i requires 0 <= i < |vs| => MajorTick(vs[i], prec))
  }

  function MinorTicks(vs: seq<real>): seq<Tick> {
    seq(|vs|, i requires 0 <= i < |vs| => Tick(vs[i], NoLabel))
  }

  function Values(ts: seq<Tick>): seq<real> {
    seq(|ts|, i requires 0 <= i < |ts| => ts[i].value)
  }

  /** The ticks `Ticks(min, max)` returns for `NSuggestedTicks == suggested`. */
  function TickSpec(suggested: int, min: real, max: real): Result<seq<Tick>>
    requires CountAtLeastTwo(suggested, min, max)
  {
    if max <= min then Err(IllegalRange)
    else Ok(TicksFor(EffectiveTickCount(suggested), min, max))
  }

  /** The ticks for an effective count and a non-empty range. */
  function TicksFor(count: int, min: real, max: real): seq<Tick>
    requires count >= 2 && min < max
  {
    var span := max - min;
    var e := Exponent(count, span);
    var tens, n := Pow10(e), Ratio(span, e);
    MagnitudeBounds(count, span);
    TicksWith(Multiplier(count, n), MajorDelta(count, tens, n), min, max)
  }

  /** The ticks once the multiplier and the major step are fixed: the rounded,
      labelled majors, then the unlabelled minors that are not already ticks. */
  function TicksWith(mult: int, d: real, min: real, max: real): seq<Tick>
    requires d > 0.0 && min < max
  {
    var majors := MajorTicks(MajorValues(d, min, max), MajorPrecision(WalkEnd(d, max), d));
    majors + MinorTicks(MinorValues(MinorDelta(d, mult), min, max, Values(majors)))
  }

  // ---------------------------------------------------------------------------
  // The generator (ticks.go:14-76)

  /** `PreciseTicks{NSuggestedTicks: suggested}.Ticks(min, max)`. */
  method Ticks(suggested: int, min: real, max: real) returns (r: Result<seq<Tick>>)
    requires CountAtLeastTwo(suggested, min, max)
    ensures r == TickSpec(suggested, min, max)
  {
    var count := suggested;
    if count == 0 {
      count := DefaultTickCount;
    }
    if max <= min {
      return Err(IllegalRange);
    }
    var tens, n := Magnitude(max - min, count);
    MagnitudeBounds(count, max - min);
    var majorMult := (n / (count - 1) as real).Floor;
    if majorMult == 7 {
      majorMult := 6;
    } else if majorMult == 9 {
      majorMult := 8;
    }
    var majorDelta := majorMult as real * tens;
    MajorStep(count, tens, n, majorMult, majorDelta);
    var labels, val := WalkMajors(min, max, majorDelta);
    var prec := IntegerDigits(val) - FloorLog10(majorDelta);
    var ticks := RoundMajors(labels, prec);
    var minorDelta := majorDelta / 2.0;
    if majorMult == 3 || majorMult == 6 {
      minorDelta := majorDelta / 3.0;
    } else if majorMult == 5 {
      minorDelta := majorDelta / 5.0;
    }
    ticks := AppendMinors(ticks, min, max, minorDelta);
    r := Ok(ticks);
  }

  /** The method's multiplier and major step are the specification's. */
  lemma {:induction false} MajorStep(count: int, tens: real, n: real, mult: int, d: real)
    requires StepRange(count, tens, n)
    requires mult == Snap((n / (count - 1) as real).Floor) && d == mult as real * tens
    ensures mult == Multiplier(count, n) && d == MajorDelta(count, tens, n) && d > 0.0
  {
  }

  /** The magnitude loop: `tens` starts at 10^floor(log10(span)) and is divided by
      ten while `n = span / tens` is below `need`. */
  method Magnitude(span: real, count: int) returns (tens: real, n: real)
    requires span > 0.0
    ensures tens == Pow10(Exponent(count, span)) && n == Ratio(span, Exponent(count, span))
  {
    var e := FloorLog10(span);
    FloorLog10Brackets(span);
    tens := Pow10(e);
    Pow10Positive(e);
    n := span / tens;
    ghost var g := e;
    while n < (count - 1) as real
      invariant Pow10(g) <= span && tens == Pow10(g) && n == Ratio(span, g)
      invariant MagnitudeExponent(span, count - 1, g) == Exponent(count, span)
      decreases count - 1 - n.Floor
    {
      StepDown(span, g);
      Pow10Succ(g - 1);
      Pow10Positive(g - 1);
      tens := tens / 10.0;
      n := span / tens;
      g := g - 1;
    }
  }

  /** The major walk: `val` runs over the multiples of d from floor(min/d) * d
      while `val <= max`, keeping those at or above min. */
  method WalkMajors(min: real, max: real, d: real) returns (labels: seq<real>, val: real)
    requires min < max && d > 0.0
    ensures labels == MajorValues(d, min, max)
    ensures val == WalkEnd(d, max)
  {
    ghost var first, last := CeilDiv(min, d), FloorDiv(max, d);
    ghost var k := FloorDiv(min, d);
    WalkStart(min, max, d);
    val := FloorDiv(min, d) as real * d;
    labels := [];
    while val <= max
      invariant val == k as real * d
      invariant k <= last + 1
      invariant labels == Run(first, k - 1, d)
      decreases last + 1 - k
    {
      WalkPosition(k, d, val, min, max);
      if val >= min {
        RunSnoc(first, k, d);
        labels := labels + [val];
      }
      val := val + d;
      k := k + 1;
    }
    WalkPosition(k, d, val, min, max);
  }

  /** Rounds every kept major value and labels it (ticks.go:49-53). */
  method RoundMajors(labels: seq<real>, prec: int) returns (ticks: seq<Tick>)
    ensures ticks == MajorTicks(labels, prec)
  {
    ticks := [];
    for i := 0 to |labels|
      invariant ticks == MajorTicks(labels[..i], prec)
    {
      var vRounded := Round(labels[i], prec);
      ticks := ticks + [Tick(vRounded, FormatG(vRounded))];
      assert labels[..i + 1] == labels[..i] + [labels[i]];
    }
    assert labels[..|labels|] == labels;
  }

  /** The inner loop over the ticks so far: is `val` already a tick value? */
  method Contains(ticks: seq<Tick>, val: real) returns (found: bool)
    ensures found <==> val in Values(ticks)
  {
    found := false;
    for t := 0 to |ticks|
      invariant found <==> val in Values(ticks[..t])
    {
      assert Values(ticks[..t + 1]) == Values(ticks[..t]) + [ticks[t].value];
      if ticks[t].value == val {
        found := true;
      }
    }
    assert ticks[..|ticks|] == ticks;
  }

  lemma {:induction false} ValuesOfMinors(ticks0: seq<Tick>, minors: seq<real>)
    ensures Values(ticks0 + MinorTicks(minors)) == Values(ticks0) + minors
  {
  }

  lemma {:induction false} WithoutSnoc(s: seq<real>, x: real, ex: seq<real>)
    ensures Without(s + [x], ex) == Without(s, ex) + (if x in ex then [] else [x])
  {
    assert (s + [x])[..|s + [x]| - 1] == s;
  }

  /** One more step of a walk extends the run by v = k * d when k is in range, and not otherwise. */
  lemma {:induction false} MinorStep(first: int, k: int, d: real, v: real, ex: seq<real>)
    requires v == k as real * d
    ensures first <= k ==>
      Without(Run(first, k, d), ex) == Without(Run(first, k - 1, d), ex) + (if v in ex then [] else [v])
    ensures k < first ==> Without(Run(first, k, d), ex) == []
  {
    if first <= k {
      RunSnoc(first, k, d);
      WithoutSnoc(Run(first, k - 1, d), v, ex);
    }
  }

  /** One pass of the minor walk: `val` is appended without a label when it lies in
      [min, max] and equals no tick value so far. */
  method VisitMinor(ticks: seq<Tick>, val: real, min: real, max: real) returns (ticks': seq<Tick>)
    ensures ticks' == if min <= val <= max && val !in Values(ticks) then ticks + [Tick(val, NoLabel)] else ticks
  {
    var found := Contains(ticks, val);
    ticks' := ticks;
    if val >= min && val <= max && !found {
      ticks' := ticks + [Tick(val, NoLabel)];
    }
  }

  /** A walk starts at floor(min / d): at or before the first multiple of d at or
      above min, and at or before the last one at or below max. */
  lemma {:induction false} WalkStart(min: real, max: real, d: real)
    requires d > 0.0 && min <= max
    ensures FloorDiv(min, d) <= CeilDiv(min, d)
    ensures FloorDiv(min, d) <= FloorDiv(max, d)
  {
    var k := FloorDiv(min, d);
    FloorDivBounds(min, d);
    FloorDivGreatest(k, max, d);
    NextMultiple(k - 1, d);
    CeilDivLeast(k - 1, min, d);
  }

  /** Where the walk value v = k * d stands relative to [min, max], in terms of k. */
  lemma {:induction false} WalkPosition(k: int, d: real, v: real, min: real, max: real)
    requires d > 0.0 && v == k as real * d
    ensures v <= max <==> k <= FloorDiv(max, d)
    ensures min <= v <==> CeilDiv(min, d) <= k
    ensures v + d == (k + 1) as real * d
  {
    FloorDivGreatest(k, max, d);
    CeilDivLeast(k, min, d);
    NextMultiple(k, d);
  }

  /** Every value of Run(a, b, d) lies below (b + 1) * d. */
  lemma {:induction false} RunBelow(a: int, b: int, d: real)
    requires d > 0.0
    ensures forall v <- Run(a, b, d) :: v < (b + 1) as real * d
  {
    forall i | 0 <= i < |Run(a, b, d)|
      ensures Run(a, b, d)[i] < (b + 1) as real * d
    {
      ScaleMonotone(a + i, b + 1, d);
    }
  }

  /** Without keeps only elements of its first argument. */
  lemma {:induction false} WithoutSubset(s: seq<real>, ex: seq<real>)
    ensures forall v <- Without(s, ex) :: v in s
  {
    if s != [] {
      WithoutSubset(s[..|s| - 1], ex);
    }
  }

  /** The tick list once the minor walk has visited the multiples of md from
      `first` up to but excluding k * md. */
  function MinorWalk(ticks0: seq<Tick>, first: int, k: int, md: real): seq<Tick> {
    ticks0 + MinorTicks(Without(Run(first, k - 1, md), Values(ticks0)))
  }

  /** One pass of the minor walk, stated on the whole tick list. */
  lemma {:induction false} MinorWalkStep(ticks0: seq<Tick>, first: int, k: int, md: real, val: real, min: real, max: real)
    requires md > 0.0 && first == CeilDiv(min, md) && val == k as real * md && val <= max
    ensures k + 1 <= FloorDiv(max, md) + 1 && val + md == (k + 1) as real * md
    ensures var before := MinorWalk(ticks0, first, k, md);
      MinorWalk(ticks0, first, k + 1, md)
        == if min <= val <= max && val !in Values(before) then before + [Tick(val, NoLabel)] else before
  {
    var ex := Values(ticks0);
    var minors := Without(Run(first, k - 1, md), ex);
    WalkPosition(k, md, val, min, max);
    MinorStep(first, k, md, val, ex);
    ValuesOfMinors(ticks0, minors);
    RunBelow(first, k - 1, md);
    WithoutSubset(Run(first, k - 1, md), ex);
    assert val !in minors;
    if min <= val && val !in ex {
      assert MinorTicks(minors + [val]) == MinorTicks(minors) + [Tick(val, NoLabel)];
    }
  }

  /** The minor walk: multiples of md from floor(min/md) * md up to max that
      equal no tick value so far are appended without a label. */
  method AppendMinors(ticks0: seq<Tick>, min: real, max: real, md: real) returns (ticks: seq<Tick>)
    requires min < max && md > 0.0
    ensures ticks == ticks0 + MinorTicks(MinorValues(md, min, max, Values(ticks0)))
  {
    ghost var first, last := CeilDiv(min, md), FloorDiv(max, md);
    ghost var k := FloorDiv(min, md);
    var val := FloorDiv(min, md) as real * md;
    MinorWalkStart(ticks0, min, max, md);
    ticks := ticks0;
    while val <= max
      invariant val == k as real * md
      invariant k <= last + 1
      invariant ticks == MinorWalk(ticks0, first, k, md)
      decreases last + 1 - k
    {
      MinorWalkStep(ticks0, first, k, md, val, min, max);
      ticks := VisitMinor(ticks, val, min, max);
      val := val + md;
      k := k + 1;
    }
    MinorWalkEnd(ticks0, k, val, min, max, md);
  }

  /** Before the minor walk's first step nothing has been appended. */
  lemma {:induction false} MinorWalkStart(ticks0: seq<Tick>, min: real, max: real, md: real)
    requires min < max && md > 0.0
    ensures FloorDiv(min, md) <= FloorDiv(max, md) + 1
    ensures MinorWalk(ticks0, CeilDiv(min, md), FloorDiv(min, md), md) == ticks0
  {
    WalkStart(min, max, md);
    assert Run(CeilDiv(min, md), FloorDiv(min, md) - 1, md) == [];
  }

  /** When the minor walk passes max it has appended the minor values. */
  lemma {:induction false} MinorWalkEnd(ticks0: seq<Tick>, k: int, val: real, min: real, max: real, md: real)
    requires md > 0.0 && val == k as real * md && max < val && k <= FloorDiv(max, md) + 1
    ensures MinorWalk(ticks0, CeilDiv(min, md), k, md) == ticks0 + MinorTicks(MinorValues(md, min, max, Values(ticks0)))
  {
    WalkPosition(k, md, val, min, max);
  }

  // ---------------------------------------------------------------------------
  // Properties of the output

  /** Strictly ascending. */
  predicate Ascending(s: seq<real>) {
    forall i, j | 0 <= i < j < |s| :: s[i] < s[j]
  }

  /** Every element lies in [min, max]. */
  predicate Within(s: seq<real>, min: real, max: real) {
    forall v <- s :: min <= v <= max
  }

  /** A walk with a positive step is strictly ascending, its consecutive values
      differ by the step, and each is the matching multiple of it. */
  lemma {:induction false} RunShape(a: int, b: int, d: real)
    requires d > 0.0
    ensures Ascending(Run(a, b, d))
    ensures forall i | 0 <= i < |Run(a, b, d)| :: Run(a, b, d)[i] == (a + i) as real * d
    ensures forall i | 0 < i < |Run(a, b, d)| :: Run(a, b, d)[i] == Run(a, b, d)[i - 1] + d
  {
    var r := Run(a, b, d);
    forall i | 0 <= i < |r|
      ensures r[i] == (a + i) as real * d
    {
    }
    forall i, j | 0 <= i < j < |r|
      ensures r[i] < r[j]
    {
      ScaleMonotone(a + i, a + j, d);
    }
    forall i | 0 < i < |r|
      ensures r[i] == r[i - 1] + d
    {
      NextMultiple(a + i - 1, d);
    }
  }

  /** The multiples the walks keep all lie in [min, max]. */
  lemma {:induction false} WalkWithin(d: real, min: real, max: real)
    requires d > 0.0
    ensures Within(MajorValues(d, min, max), min, max)
  {
    var a, b := CeilDiv(min, d), FloorDiv(max, d);
    var r := Run(a, b, d);
    forall i | 0 <= i < |r|
      ensures min <= r[i] <= max
    {
      CeilDivLeast(a + i, min, d);
      FloorDivGreatest(a + i, max, d);
    }
  }

  /** Conversely, every multiple of d in [min, max] is among the kept values. */
  lemma {:induction false} WalkCovers(d: real, min: real, max: real, k: int)
    requires d > 0.0 && min <= k as real * d <= max
    ensures k as real * d in MajorValues(d, min, max)
  {
    var a, b := CeilDiv(min, d), FloorDiv(max, d);
    CeilDivLeast(k, min, d);
    FloorDivGreatest(k, max, d);
    var r := Run(a, b, d);
    assert r[k - a] == (a + (k - a)) as real * d;
  }

  /** The major values: strictly ascending, within [min, max], the multiples of d
      from the first one at or above min, consecutive ones exactly d apart. */
  lemma {:induction false} MajorValuesShape(d: real, min: real, max: real)
    requires d > 0.0
    ensures var vs := MajorValues(d, min, max);
      && Ascending(vs)
      && Within(vs, min, max)
      && (forall i | 0 <= i < |vs| :: vs[i] == (CeilDiv(min, d) + i) as real * d)
      && (forall i | 0 < i < |vs| :: vs[i] == vs[i - 1] + d)
  {
    RunShape(CeilDiv(min, d), FloorDiv(max, d), d);
    WalkWithin(d, min, max);
  }

  /** Without keeps the order of an ascending sequence. */
  lemma {:induction false} WithoutAscending(s: seq<real>, ex: seq<real>)
    requires Ascending(s)
    ensures Ascending(Without(s, ex))
  {
    if s != [] {
      var init := s[..|s| - 1];
      WithoutAscending(init, ex);
      WithoutSubset(init, ex);
      var w := Without(init, ex);
      var last := s[|s| - 1];
      forall v <- w
        ensures v < last
      {
        var i :| 0 <= i < |init| && init[i] == v;
      }
      if last !in ex {
        var w' := w + [last];
        forall i, j | 0 <= i < j < |w'|
          ensures w'[i] < w'[j]
        {
          if j == |w| {
            assert w'[i] in w;
          }
        }
      }
    }
  }

  /** Without drops every element of ex. */
  lemma {:induction false} WithoutExcludes(s: seq<real>, ex: seq<real>)
    ensures forall v <- Without(s, ex) :: v !in ex
  {
    if s != [] {
      WithoutExcludes(s[..|s| - 1], ex);
    }
  }

  /** Snapping never increases the multiplier, so (count - 1) multipliers are at most n. */
  lemma {:induction false} MultiplierBelowQuotient(count: int, n: real)
    requires count >= 2
    ensures Multiplier(count, n) as real * (count - 1) as real <= n
  {
    var m, c := Multiplier(count, n) as real, (count - 1) as real;
    assert m <= n / c;
    ScaleReal(m, n / c, c);
  }

  /** (count - 1) major steps fit in the span. */
  lemma {:induction false} MajorDeltaFits(count: int, span: real, tens: real, n: real)
    requires MagnitudeFits(count, span, tens, n)
    ensures (count - 1) as real * MajorDelta(count, tens, n) <= span
  {
    MultiplierBelowQuotient(count, n);
    FitsHelper(MajorDelta(count, tens, n), Multiplier(count, n) as real, (count - 1) as real, n, tens, span);
  }

  lemma {:induction false} FitsHelper(d: real, m: real, c: real, n: real, p: real, span: real)
    requires p > 0.0 && m * c <= n && n * p == span && d == m * p
    ensures c * d <= span
  {
    ScaleReal(m * c, n, p);
    assert c * (m * p) == (m * c) * p;
  }

  /** A walk over an interval at least c steps long keeps at least c multiples. */
  lemma {:induction false} CountFromSpacing(first: int, last: int, d: real, min: real, max: real, c: int)
    requires d > 0.0 && (first - 1) as real * d < min && max < (last + 1) as real * d
    requires c as real * d <= max - min
    ensures last - first + 1 >= c
  {
    assert (last + 1) as real * d - (first - 1) as real * d == (last - first + 2) as real * d;
    ScaleMonotone(c, last - first + 2, d);
  }

  /** A walk with step d over an interval at least c steps long keeps at least c values. */
  lemma {:induction false} WalkCount(d: real, min: real, max: real, c: int)
    requires d > 0.0 && c as real * d <= max - min
    ensures |MajorValues(d, min, max)| >= c
  {
    FloorDivBounds(max, d);
    CeilDivBounds(min, d);
    CountFromSpacing(CeilDiv(min, d), FloorDiv(max, d), d, min, max, c);
  }

  /** The major walk keeps at least count - 1 values. */
  lemma {:induction false} MajorCount(count: int, min: real, max: real, tens: real, n: real)
    requires min < max && MagnitudeFits(count, max - min, tens, n)
    ensures |MajorValues(MajorDelta(count, tens, n), min, max)| >= count - 1
  {
    MajorDeltaFits(count, max - min, tens, n);
    WalkCount(MajorDelta(count, tens, n), min, max, count - 1);
  }

  /** A one-digit multiple of 10^e has e as the integer part of its log10. */
  lemma {:induction false} LeadingDigit(d: real, m: int, e: int)
    requires 1 <= m <= 9 && d == m as real * Pow10(e)
    ensures d > 0.0 && FloorLog10(d) == e
  {
    Pow10Positive(e);
    Pow10Succ(e);
    DigitBracket(d, m as real, Pow10(e));
    FloorLog10Unique(d, e);
  }

  /** A multiple m * p of p > 0 with 1 <= m < 10 lies in [p, 10p). */
  lemma {:induction false} DigitBracket(d: real, m: real, p: real)
    requires p > 0.0 && 1.0 <= m < 10.0 && d == m * p
    ensures p <= d < 10.0 * p
  {
    PositiveProduct(10.0 - m, p);
    assert 10.0 * p - d == (10.0 - m) * p;
    assert d - p == (m - 1.0) * p;
    assert (m - 1.0) * p >= 0.0;
  }

  /** The major step is a one-digit multiple of tens = 10^e, so e is the integer
      part of its log10. */
  lemma {:induction false} MajorDeltaDigits(count: int, tens: real, n: real, e: int)
    requires StepRange(count, tens, n) && tens == Pow10(e)
    ensures FloorLog10(MajorDelta(count, tens, n)) == e
  {
    MultiplierRange(count, tens, n);
    LeadingDigit(MajorDelta(count, tens, n), Multiplier(count, n), e);
  }

  /** The walk's end has a non-negative number of integer digits. */
  lemma {:induction false} IntegerDigitsNonNegative(end: real)
    ensures IntegerDigits(end) >= 0
  {
    if end > 1.0 {
      CeilLog10Brackets(end);
      var e := CeilLog10(end);
      if e < 0 {
        Pow10Increasing(e, 0);
      }
    }
  }

  lemma {:induction false} GridMultiple(j: int, m: int, p: real)
    ensures j as real * (m as real * p) == (j * m) as real * p
  {
    ProductOfIntegers(j, m);
  }

  /** Multiples of m * 10^e are unchanged by rounding to at least -e places. */
  lemma {:induction false} MultiplesRoundExactly(d: real, m: int, e: int, prec: int, min: real, max: real)
    requires d > 0.0 && d == m as real * Pow10(e) && e + prec >= 0
    ensures forall v <- MajorValues(d, min, max) :: Round(v, prec) == v
  {
    var a, b := CeilDiv(min, d), FloorDiv(max, d);
    var vs := Run(a, b, d);
    assert vs == MajorValues(d, min, max);
    forall v | v in vs
      ensures Round(v, prec) == v
    {
      var i :| 0 <= i < |vs| && vs[i] == v;
      GridPoint(a + i, m, e, prec, v);
    }
  }

  /** The point j * (m * 10^e) rounds to itself at -e or more places. */
  lemma {:induction false} GridPoint(j: int, m: int, e: int, prec: int, v: real)
    requires e + prec >= 0 && v == j as real * (m as real * Pow10(e))
    ensures Round(v, prec) == v
  {
    GridMultiple(j, m, Pow10(e));
    RoundMultipleExact(j * m, e, prec, v);
  }

  /** With the corrected precision, rounding leaves every major value unchanged. */
  lemma {:induction false} RoundingKeepsMajors(count: int, min: real, max: real, tens: real, n: real, e: int)
    requires StepRange(count, tens, n) && tens == Pow10(e)
    ensures var d := MajorDelta(count, tens, n);
      forall v <- MajorValues(d, min, max) :: Round(v, MajorPrecision(WalkEnd(d, max), d)) == v
  {
    var d := MajorDelta(count, tens, n);
    MajorDeltaDigits(count, tens, n, e);
    IntegerDigitsNonNegative(WalkEnd(d, max));
    MultiplesRoundExactly(d, Multiplier(count, n), e, MajorPrecision(WalkEnd(d, max), d), min, max);
  }

  /** Rounding that changes nothing gives each value its own label. */
  lemma {:induction false} MajorTicksExact(vs: seq<real>, prec: int)
    requires forall v <- vs :: Round(v, prec) == v
    ensures |MajorTicks(vs, prec)| == |vs|
    ensures forall i | 0 <= i < |vs| :: MajorTicks(vs, prec)[i] == Tick(vs[i], FormatG(vs[i]))
    ensures Values(MajorTicks(vs, prec)) == vs
  {
    var ts := MajorTicks(vs, prec);
    forall i | 0 <= i < |vs|
      ensures ts[i] == Tick(vs[i], FormatG(vs[i]))
    {
      assert vs[i] in vs;
    }
  }

  /** The minors: strictly ascending, within [min, max], none equal to a major. */
  lemma {:induction false} MinorValuesShape(md: real, min: real, max: real, ex: seq<real>)
    requires md > 0.0
    ensures Ascending(MinorValues(md, min, max, ex))
    ensures Within(MinorValues(md, min, max, ex), min, max)
    ensures forall v <- MinorValues(md, min, max, ex) :: v !in ex
  {
    var r := Run(CeilDiv(min, md), FloorDiv(max, md), md);
    RunShape(CeilDiv(min, md), FloorDiv(max, md), md);
    WalkWithin(md, min, max);
    WithoutAscending(r, ex);
    WithoutSubset(r, ex);
    WithoutExcludes(r, ex);
  }

  /** The shape of a tick list whose major values are `majors`: the majors come
      first, each labelled with its own value, then unlabelled ticks that are not
      majors; every tick lies in [min, max] and no two ticks share a value. */
  predicate TickShape(ts: seq<Tick>, majors: seq<real>, min: real, max: real) {
    && |majors| <= |ts|
    && (forall i | 0 <= i < |majors| :: ts[i] == Tick(majors[i], FormatG(majors[i])))
    && (forall i | |majors| <= i < |ts| :: ts[i].caption == NoLabel && ts[i].value !in majors)
    && (forall i | 0 <= i < |ts| :: min <= ts[i].value <= max)
    && (forall i, j | 0 <= i < j < |ts| :: ts[i].value != ts[j].value)
  }

  /** Labelled ascending majors followed by ascending minors that avoid them form a
      tick list of that shape. */
  lemma {:induction false} ConcatShape(labelled: seq<Tick>, majors: seq<real>, minors: seq<real>, min: real, max: real)
    requires |labelled| == |majors|
    requires forall i | 0 <= i < |majors| :: labelled[i] == Tick(majors[i], FormatG(majors[i]))
    requires Ascending(majors) && Within(majors, min, max)
    requires Ascending(minors) && Within(minors, min, max)
    requires forall v <- minors :: v !in majors
    ensures TickShape(labelled + MinorTicks(minors), majors, min, max)
  {
    var ts := labelled + MinorTicks(minors);
    forall i | 0 <= i < |ts|
      ensures min <= ts[i].value <= max
    {
      if i < |majors| {
        assert ts[i].value == majors[i] && majors[i] in majors;
      } else {
        assert ts[i].value == minors[i - |majors|] && minors[i - |majors|] in minors;
      }
    }
    forall i | |majors| <= i < |ts|
      ensures ts[i].caption == NoLabel && ts[i].value !in majors
    {
      assert ts[i].value == minors[i - |majors|] && minors[i - |majors|] in minors;
    }
    forall i, j | 0 <= i < j < |ts|
      ensures ts[i].value != ts[j].value
    {
      if j < |majors| {
        assert ts[i].value == majors[i] < majors[j] == ts[j].value;
      } else if |majors| <= i {
        assert ts[i].value == minors[i - |majors|] < minors[j - |majors|] == ts[j].value;
      } else {
        assert ts[j].value == minors[j - |majors|] && minors[j - |majors|] in minors;
        assert ts[i].value == majors[i] && majors[i] in majors;
      }
    }
  }

  /** For a fixed step whose majors round exactly, the tick list has TickShape
      over the multiples of the step in [min, max]. */
  lemma {:induction false} TicksWithShape(mult: int, d: real, min: real, max: real)
    requires d > 0.0 && min < max
    requires forall v <- MajorValues(d, min, max) :: Round(v, MajorPrecision(WalkEnd(d, max), d)) == v
    ensures TickShape(TicksWith(mult, d, min, max), MajorValues(d, min, max), min, max)
  {
    var majors := MajorValues(d, min, max);
    var prec := MajorPrecision(WalkEnd(d, max), d);
    var labelled := MajorTicks(majors, prec);
    MajorTicksExact(majors, prec);
    MajorValuesShape(d, min, max);
    var md := MinorDelta(d, mult);
    var minors := MinorValues(md, min, max, majors);
    MinorValuesShape(md, min, max, majors);
    assert TicksWith(mult, d, min, max) == labelled + MinorTicks(minors);
    ConcatShape(labelled, majors, minors, min, max);
  }

  /** The output of Ticks on a non-empty range, for the `tens`, `n` and major step
      d the source computes: at least count - 1 majors, the multiples of d within
      [min, max], each labelled with its own value, then unlabelled minors; every
      tick lies in [min, max] and no two ticks share a value. */
  lemma {:induction false} TickSpecShape(suggested: int, min: real, max: real) returns (tens: real, n: real, d: real)
    requires CountAtLeastTwo(suggested, min, max) && min < max
    ensures var count, e := EffectiveTickCount(suggested), Exponent(EffectiveTickCount(suggested), max - min);
      && tens == Pow10(e) && n == Ratio(max - min, e)
      && MagnitudeFits(count, max - min, tens, n)
      && d == MajorDelta(count, tens, n)
    ensures TickSpec(suggested, min, max).Ok?
    ensures var majors := MajorValues(d, min, max);
      && EffectiveTickCount(suggested) - 1 <= |majors|
      && TickShape(TickSpec(suggested, min, max).value, majors, min, max)
  {
    var count := EffectiveTickCount(suggested);
    var span := max - min;
    var e := Exponent(count, span);
    MagnitudeBounds(count, span);
    tens, n := Pow10(e), Ratio(span, e);
    d := MajorDelta(count, tens, n);
    MajorCount(count, min, max, tens, n);
    RoundingKeepsMajors(count, min, max, tens, n, e);
    TicksWithShape(Multiplier(count, n), d, min, max);
  }

  /** A suggested count of 0 behaves exactly as 4; the range check comes first. */
  lemma {:induction false} DefaultCount(min: real, max: real)
    ensures TickSpec(0, min, max) == TickSpec(DefaultTickCount, min, max)
    ensures TickSpec(0, min, max).Err? <==> max <= min
  {
  }

  // ---------------------------------------------------------------------------
  // The precision as written (ticks.go:47)

  /** The labelled majors with the precision exactly as ticks.go:47 computes it. */
  function MajorTicksAsWritten(d: real, min: real, max: real): seq<Tick>
    requires d > 0.0 && WalkEnd(d, max) > 0.0
  {
    MajorTicks(MajorValues(d, min, max), PrecisionAsWritten(WalkEnd(d, max), d))
  }

  /** With four suggested ticks on [0.01, 0.05] the magnitude loop keeps tens = 0.01
      (n = 4) and the major step is 1 * 0.01. */
  lemma {:induction false} SmallRangeStep() returns (tens: real, n: real)
    ensures tens == Pow10(Exponent(4, 0.04)) && n == Ratio(0.04, Exponent(4, 0.04))
    ensures StepRange(4, tens, n) && MajorDelta(4, tens, n) == 0.01
  {
    assert Pow10(-1) == 0.1;
    assert Pow10(-2) == 0.01;
    FloorLog10Unique(0.04, -2);
    assert Ratio(0.04, -2) == 4.0;
    assert Exponent(4, 0.04) == -2;
    tens, n := 0.01, 4.0;
    assert (n / 3.0).Floor == 1;
  }

  /** On that range the source's precision is 1, one digit too few: the majors
      0.01 .. 0.05 are labelled 0, 0, 0, 0 and 0.1. The corrected precision is 2
      and keeps every major (RoundingKeepsMajors). */
  lemma {:induction false} PrecisionAsWrittenDropsMajors()
    ensures MajorValues(0.01, 0.01, 0.05) == [0.01, 0.02, 0.03, 0.04, 0.05]
    ensures WalkEnd(0.01, 0.05) == 0.06
    ensures PrecisionAsWritten(0.06, 0.01) == 1 && MajorPrecision(0.06, 0.01) == 2
    ensures Values(MajorTicksAsWritten(0.01, 0.01, 0.05)) == [0.0, 0.0, 0.0, 0.0, 0.1]
  {
    assert Pow10(-1) == 0.1;
    assert Pow10(-2) == 0.01;
    assert FloorDiv(0.05, 0.01) == 5;
    assert FloorDiv(-0.01, 0.01) == -1;
    var vs := MajorValues(0.01, 0.01, 0.05);
    assert vs == [0.01, 0.02, 0.03, 0.04, 0.05];
    FloorLog10Unique(0.01, -2);
    FloorLog10Unique(0.06, -2);
    assert CeilLog10(0.06) == -1;
    assert Pow10(1) == 10.0;
    var ts := MajorTicks(vs, 1);
    assert ts[0].value == Round(0.01, 1) == 0.0;
    assert ts[1].value == Round(0.02, 1) == 0.0;
    assert ts[2].value == Round(0.03, 1) == 0.0;
    assert ts[3].value == Round(0.04, 1) == 0.0;
    assert ts[4].value == Round(0.05, 1) == 0.1;
  }
}
