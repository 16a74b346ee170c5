/**
 * The binned moment accumulators `PullGrid` (trackpull/main.go) and `ResGrid`
 * (trackres/main.go). Both hold three two-dimensional histograms over the same
 * binning: the number of samples, the sum of the samples and the sum of their
 * squares per cell. `Fill` updates the three together; `Z` reads one cell and
 * returns the mean (pull) or the standard deviation (resolution), or a
 * sentinel when the cell holds fewer than three samples.
 *
 * The two Go types have identical state, constructor, Fill, Dims, X and Y, so
 * one class models both, with the two `Z` methods as `PullZ` and `ResZ`.
 */
module BinnedMoments {
  import opened RealMath
  import opened Wrappers

  /** One histogram axis: `bins` equal bins over [low, high). */
  datatype Axis = Axis(bins: nat, low: real, high: real)

  /** The axes the histogram library accepts: at least one bin, low < high. */
  predicate ValidAxis(a: Axis) {
    a.bins >= 1 && a.low < a.high
  }

  /** The width of one bin. */
  function Width(a: Axis): (w: real)
    requires ValidAxis(a)
    ensures w > 0.0
  {
    (a.high - a.low) / a.bins as real
  }

  /** The lower edge of bin k. */
  function Edge(a: Axis, k: int): real
    requires ValidAxis(a)
  {
    a.low + k as real * Width(a)
  }

  /** The bin holding v, or None when v lies outside [low, high). */
  function BinIndex(a: Axis, v: real): (r: Option<nat>)
    requires ValidAxis(a)
    ensures r.Some? ==> r.value < a.bins
  {
    if v < a.low || a.high <= v then None
    else
      BinInRange(a, v);
      Some(FloorDiv(v - a.low, Width(a)))
  }

  lemma {:induction false} WidthTimesBins(a: Axis)
    requires ValidAxis(a)
    ensures a.bins as real * Width(a) == a.high - a.low
  {
  }

  lemma {:induction false} BinInRange(a: Axis, v: real)
    requires ValidAxis(a) && a.low <= v < a.high
    ensures 0 <= FloorDiv(v - a.low, Width(a)) < a.bins
  {
    var w := Width(a);
    WidthTimesBins(a);
    FloorDivGreatest(0, v - a.low, w);
    FloorDivGreatest(a.bins, v - a.low, w);
  }

  /** A value has a bin exactly when it lies in [low, high), and then it lies
      between that bin's edges. */
  lemma {:induction false} BinContains(a: Axis, v: real)
    requires ValidAxis(a)
    ensures BinIndex(a, v).Some? <==> a.low <= v < a.high
    ensures BinIndex(a, v).Some? ==>
      var k := BinIndex(a, v).value; Edge(a, k) <= v < Edge(a, k + 1)
  {
    if a.low <= v < a.high {
      FloorDivBounds(v - a.low, Width(a));
    }
  }

  /** The centre of bin k (`GridXYZ().X(k)` / `.Y(k)`). */
  function Centre(a: Axis, k: nat): real
    requires ValidAxis(a)
  {
    a.low + (k as real + 0.5) * Width(a)
  }

  /** The centre of bin k lies in bin k. */
  lemma {:induction false} CentreInBin(a: Axis, k: nat)
    requires ValidAxis(a) && k < a.bins
    ensures BinIndex(a, Centre(a, k)) == Some(k)
  {
    var w := Width(a);
    var c := Centre(a, k);
    var h := k as real + 0.5;
    assert c - a.low == h * w;
    WidthTimesBins(a);
    ScaleReal(0.0, h, w);
    ScaleReal(h, a.bins as real, w);
    assert a.low <= c < a.high;
    assert (h * w) / w == h;
    assert FloorDiv(c - a.low, w) == k;
  }

  // ---------------------------------------------------------------------------
  // Moments of a sequence of samples

  function Sum(vs: seq<real>): real {
    if vs == [] then 0.0 else Sum(vs[..|vs| - 1]) + vs[|vs| - 1]
  }

  function SumSq(vs: seq<real>): real {
    if vs == [] then 0.0 else SumSq(vs[..|vs| - 1]) + vs[|vs| - 1] * vs[|vs| - 1]
  }

  function Mean(vs: seq<real>): real
    requires vs != []
  {
    Sum(vs) / |vs| as real
  }

  /** `sumSq/n - (sum/n)^2`, the argument of the square root in ResGrid.Z. */
  function Variance(vs: seq<real>): real
    requires vs != []
  {
    SumSq(vs) / |vs| as real - Mean(vs) * Mean(vs)
  }

  lemma {:induction false} SumSnoc(vs: seq<real>, z: real)
    ensures Sum(vs + [z]) == Sum(vs) + z
    ensures SumSq(vs + [z]) == SumSq(vs) + z * z
  {
    assert (vs + [z])[..|vs|] == vs;
  }

  lemma {:induction false} SquareNonNegative(x: real)
    ensures x * x >= 0.0
  {
    if x != 0.0 {
      SquarePositive(x);
    }
  }

  /** The squared deviations of the values from any x sum to
      sumSq - 2 x sum + n x^2, which is therefore never negative. */
  lemma {:induction false} ShiftedSquares(vs: seq<real>, x: real)
    ensures SumSq(vs) - 2.0 * x * Sum(vs) + |vs| as real * (x * x) >= 0.0
  {
    if vs != [] {
      var init, v := vs[..|vs| - 1], vs[|vs| - 1];
      ShiftedSquares(init, x);
      assert init + [v] == vs;
      SumSnoc(init, v);
      ShiftStep(SumSq(init), Sum(init), |init| as real, v, x);
    }
  }

  lemma {:induction false} ShiftStep(q: real, s: real, k: real, v: real, x: real)
    requires q - 2.0 * x * s + k * (x * x) >= 0.0
    ensures (q + v * v) - 2.0 * x * (s + v) + (k + 1.0) * (x * x) >= 0.0
  {
    var d := v - x;
    SquareNonNegative(d);
    assert (q + v * v) - 2.0 * x * (s + v) + (k + 1.0) * (x * x) == (q - 2.0 * x * s + k * (x * x)) + d * d;
  }

  /** Cauchy-Schwarz for the moments: n * sumSq >= sum^2. */
  lemma {:induction false} CauchySchwarz(vs: seq<real>)
    ensures |vs| as real * SumSq(vs) - Sum(vs) * Sum(vs) >= 0.0
  {
    if vs != [] {
      var init, x := vs[..|vs| - 1], vs[|vs| - 1];
      CauchySchwarz(init);
      ShiftedSquares(init, x);
      assert init + [x] == vs;
      CauchySchwarzSnoc(init, x, vs);
    }
  }

  lemma {:induction false} CauchySchwarzSnoc(init: seq<real>, x: real, vs: seq<real>)
    requires vs == init + [x]
    requires |init| as real * SumSq(init) - Sum(init) * Sum(init) >= 0.0
    requires SumSq(init) - 2.0 * x * Sum(init) + |init| as real * (x * x) >= 0.0
    ensures |vs| as real * SumSq(vs) - Sum(vs) * Sum(vs) >= 0.0
  {
    SumSnoc(init, x);
    SpreadStep(|init| as real, Sum(init), SumSq(init), x, |vs| as real, Sum(vs), SumSq(vs));
  }

  lemma {:induction false} SpreadStep(k: real, s: real, q: real, x: real, n: real, s': real, q': real)
    requires k * q - s * s >= 0.0 && q - 2.0 * x * s + k * (x * x) >= 0.0
    requires n == k + 1.0 && s' == s + x && q' == q + x * x
    ensures n * q' - s' * s' >= 0.0
  {
    assert (k + 1.0) * (q + x * x) - (s + x) * (s + x) == (k * q - s * s) + (q - 2.0 * x * s + k * (x * x));
  }

  /** The argument of ResGrid's square root is never negative. */
  lemma {:induction false} VarianceNonNegative(vs: seq<real>)
    requires vs != []
    ensures Variance(vs) >= 0.0
  {
    CauchySchwarz(vs);
    VarianceSign(|vs| as real, Sum(vs), SumSq(vs), Mean(vs), Variance(vs));
  }

  lemma {:induction false} VarianceSign(n: real, s: real, q: real, m: real, v: real)
    requires n > 0.0 && n * q - s * s >= 0.0 && m == s / n && v == q / n - m * m
    ensures v >= 0.0
  {
    assert s == n * m;
    assert n * q - s * s == n * (q - m * s);
    assert q - m * s >= 0.0;
    assert m * s == n * (m * m);
    assert v == (q - m * s) / n;
  }

  lemma {:induction false} ConstantSums(vs: seq<real>, v: real)
    requires forall x <- vs :: x == v
    ensures Sum(vs) == |vs| as real * v && SumSq(vs) == |vs| as real * v * v
  {
    if vs != [] {
      var init := vs[..|vs| - 1];
      assert forall x <- init :: x in vs;
      ConstantSums(init, v);
      assert vs[|vs| - 1] in vs;
    }
  }

  /** Samples that all equal v have mean v and variance 0. */
  lemma {:induction false} ConstantMoments(vs: seq<real>, v: real)
    requires vs != [] && forall x <- vs :: x == v
    ensures Mean(vs) == v && Variance(vs) == 0.0
  {
    ConstantSums(vs, v);
    var n := |vs| as real;
    assert (n * v) / n == v;
    assert (n * v * v) / n == v * v;
  }

  // ---------------------------------------------------------------------------
  // The grid

  /** One `Fill(x, y, z)` call. */
  datatype Sample = Sample(x: real, y: real, z: real)

  /** The cell (column, row) a point (x, y) falls into, if any. */
  function CellOf(xa: Axis, ya: Axis, x: real, y: real): (c: Option<(nat, nat)>)
    requires ValidAxis(xa) && ValidAxis(ya)
    ensures c.Some? <==> BinIndex(xa, x).Some? && BinIndex(ya, y).Some?
    ensures c.Some? ==> c.value.0 < xa.bins && c.value.1 < ya.bins
  {
    var col, row := BinIndex(xa, x), BinIndex(ya, y);
    if col.Some? && row.Some? then Some((col.value, row.value)) else None
  }

  /** The z values of the samples that fell into cell (i, j), in fill order. */
  function CellValues(samples: seq<Sample>, xa: Axis, ya: Axis, i: nat, j: nat): seq<real>
    requires ValidAxis(xa) && ValidAxis(ya)
  {
    if samples == [] then []
    else
      var s := samples[|samples| - 1];
      CellValues(samples[..|samples| - 1], xa, ya, i, j)
        + (if CellOf(xa, ya, s.x, s.y) == Some((i, j)) then [s.z] else [])
  }

  lemma {:induction false} CellValuesSnoc(samples: seq<Sample>, s: Sample, xa: Axis, ya: Axis, i: nat, j: nat)
    requires ValidAxis(xa) && ValidAxis(ya)
    ensures CellValues(samples + [s], xa, ya, i, j)
      == CellValues(samples, xa, ya, i, j)
         + (if CellOf(xa, ya, s.x, s.y) == Some((i, j)) then [s.z] else [])
  {
    assert (samples + [s])[..|samples|] == samples;
  }

  /** One more sample adds one value, z and z*z to its own cell and nothing to
      any other cell. */
  lemma {:induction false} CellStep(samples: seq<Sample>, s: Sample, xa: Axis, ya: Axis, i: nat, j: nat)
    requires ValidAxis(xa) && ValidAxis(ya)
    ensures var before, after := CellValues(samples, xa, ya, i, j), CellValues(samples + [s], xa, ya, i, j);
      var hit := CellOf(xa, ya, s.x, s.y) == Some((i, j));
      && |after| as real == |before| as real + (if hit then 1.0 else 0.0)
      && Sum(after) == Sum(before) + (if hit then s.z else 0.0)
      && SumSq(after) == SumSq(before) + (if hit then s.z * s.z else 0.0)
  {
    var before, after := CellValues(samples, xa, ya, i, j), CellValues(samples + [s], xa, ya, i, j);
    CellValuesSnoc(samples, s, xa, ya, i, j);
    if CellOf(xa, ya, s.x, s.y) == Some((i, j)) {
      assert after == before + [s.z];
      SumSnoc(before, s.z);
    } else {
      assert after == before;
    }
  }

  /** The tallies of a cell before one more sample, updated by that sample,
      are the tallies of the cell after it. */
  lemma {:induction false} TallyStep(samples: seq<Sample>, s: Sample, xa: Axis, ya: Axis, i: nat, j: nat,
                                     c: real, t: real, q: real)
    requires ValidAxis(xa) && ValidAxis(ya)
    requires var vs := CellValues(samples, xa, ya, i, j);
      c == |vs| as real && t == Sum(vs) && q == SumSq(vs)
    ensures var vs, hit := CellValues(samples + [s], xa, ya, i, j),
                           CellOf(xa, ya, s.x, s.y) == Some((i, j));
      && c + (if hit then 1.0 else 0.0) == |vs| as real
      && t + (if hit then s.z else 0.0) == Sum(vs)
      && q + (if hit then s.z * s.z else 0.0) == SumSq(vs)
  {
    CellStep(samples, s, xa, ya, i, j);
  }

  /** `PullZ` of a cell holding the values vs: 0 below three samples, else the mean. */
  function PullStatistic(vs: seq<real>): real {
    if |vs| < 3 then 0.0 else Mean(vs)
  }

  /** The properties of `math.Sqrt` the model relies on. */
  ghost predicate IsSqrt(sqrt: real -> real) {
    forall x: real :: x >= 0.0 ==> sqrt(x) >= 0.0 && sqrt(x) * sqrt(x) == x
  }

  /** A cell filled k >= 3 times with the same value v has pull statistic v, and
      standard deviation 0. */
  lemma {:induction false} ConstantCell(vs: seq<real>, v: real, sqrt: real -> real)
    requires |vs| >= 3 && (forall x <- vs :: x == v) && IsSqrt(sqrt)
    ensures PullStatistic(vs) == v
    ensures Variance(vs) == 0.0 && sqrt(Variance(vs)) == 0.0
  {
    ConstantMoments(vs, v);
    SqrtZero(sqrt);
  }

  lemma {:induction false} SqrtZero(sqrt: real -> real)
    requires IsSqrt(sqrt)
    ensures sqrt(0.0) == 0.0
  {
    assert 0.0 >= 0.0 ==> sqrt(0.0) >= 0.0 && sqrt(0.0) * sqrt(0.0) == 0.0;
    SquareZero(sqrt(0.0));
  }

  lemma {:induction false} SquareZero(x: real)
    requires x * x == 0.0
    ensures x == 0.0
  {
    ZeroProduct(x, x);
  }

  lemma {:induction false} ZeroProduct(a: real, b: real)
    requires a * b == 0.0
    ensures a == 0.0 || b == 0.0
  {
  }

  lemma {:induction false} SquarePositive(x: real)
    requires x != 0.0
    ensures x * x > 0.0
  {
    if x > 0.0 {
      PositiveProduct(x, x);
    } else {
      var y := -x;
      PositiveProduct(y, y);
      assert y * y == x * x;
    }
  }

  /** PullGrid / ResGrid: three histograms of identical binning. `Samples` is the
      history of Fill calls, from which every cell's contents follow. */
  class MomentGrid {
    const xAxis: Axis
    const yAxis: Axis
    const count: array2<real>
    const sum: array2<real>
    const sumSq: array2<real>
    ghost var Samples: seq<Sample>

    ghost predicate Valid()
      reads this, count, sum, sumSq
    {
      && ValidAxis(xAxis) && ValidAxis(yAxis)
      && count != sum && count != sumSq && sum != sumSq
      && count.Length0 == xAxis.bins && count.Length1 == yAxis.bins
      && sum.Length0 == xAxis.bins && sum.Length1 == yAxis.bins
      && sumSq.Length0 == xAxis.bins && sumSq.Length1 == yAxis.bins
      && forall i: nat, j: nat | i < xAxis.bins && j < yAxis.bins :: Tallies(Samples, i, j)
    }

    /** Cell (i, j) of the three histograms holds the count, sum and sum of
        squares of the values the samples put into it. */
    ghost predicate Tallies(samples: seq<Sample>, i: nat, j: nat)
      requires ValidAxis(xAxis) && ValidAxis(yAxis)
      requires i < count.Length0 && j < count.Length1
      requires i < sum.Length0 && j < sum.Length1
      requires i < sumSq.Length0 && j < sumSq.Length1
      reads this, count, sum, sumSq
    {
      var vs := CellValues(samples, xAxis, yAxis, i, j);
      count[i, j] == |vs| as real && sum[i, j] == Sum(vs) && sumSq[i, j] == SumSq(vs)
    }

    /** `NewPullGrid` / `NewResGrid`: every cell empty. */
    constructor (nBinsX: nat, xLow: real, xHigh: real, nBinsY: nat, yLow: real, yHigh: real)
      requires ValidAxis(Axis(nBinsX, xLow, xHigh)) && ValidAxis(Axis(nBinsY, yLow, yHigh))
      ensures Valid() && fresh(count) && fresh(sum) && fresh(sumSq)
      ensures xAxis == Axis(nBinsX, xLow, xHigh) && yAxis == Axis(nBinsY, yLow, yHigh)
      ensures Samples == []
    {
      xAxis := Axis(nBinsX, xLow, xHigh);
      yAxis := Axis(nBinsY, yLow, yHigh);
      count := new real[nBinsX, nBinsY]((i, j) => 0.0);
      sum := new real[nBinsX, nBinsY]((i, j) => 0.0);
      sumSq := new real[nBinsX, nBinsY]((i, j) => 0.0);
      Samples := [];
    }

    /** `Fill(x, y, z)`: the cell holding (x, y) gains one sample, z and z*z;
        every other cell is unchanged. A point outside the grid changes no cell. */
    method Fill(x: real, y: real, z: real)
      requires Valid()
      modifies this, count, sum, sumSq
      ensures Valid() && Samples == old(Samples) + [Sample(x, y, z)]
      ensures forall i: nat, j: nat | i < xAxis.bins && j < yAxis.bins ::
        var hit := CellOf(xAxis, yAxis, x, y) == Some((i, j));
        && count[i, j] == old(count[i, j]) + (if hit then 1.0 else 0.0)
        && sum[i, j] == old(sum[i, j]) + (if hit then z else 0.0)
        && sumSq[i, j] == old(sumSq[i, j]) + (if hit then z * z else 0.0)
    {
      AddToCell(CellOf(xAxis, yAxis, x, y), z);
      Samples := Samples + [Sample(x, y, z)];
      forall i: nat, j: nat | i < xAxis.bins && j < yAxis.bins
        ensures Tallies(Samples, i, j)
      {
        assert old(Tallies(Samples, i, j));
        TallyStep(old(Samples), Sample(x, y, z), xAxis, yAxis, i, j,
          old(count[i, j]), old(sum[i, j]), old(sumSq[i, j]));
      }
    }

    /** The three histogram fills of one sample whose point lies in `cell`:
        the count of that cell gains 1, its sum z and its sum of squares z*z;
        no other cell changes, and a point outside the grid changes nothing. */
    method AddToCell(cell: Option<(nat, nat)>, z: real)
      requires count != sum && count != sumSq && sum != sumSq
      requires cell.Some? ==> cell.value.0 < count.Length0 && cell.value.1 < count.Length1
      requires sum.Length0 == sumSq.Length0 == count.Length0 && sum.Length1 == sumSq.Length1 == count.Length1
      modifies count, sum, sumSq
      ensures forall i: nat, j: nat | i < count.Length0 && j < count.Length1 ::
        var hit := cell == Some((i, j));
        && count[i, j] == old(count[i, j]) + (if hit then 1.0 else 0.0)
        && sum[i, j] == old(sum[i, j]) + (if hit then z else 0.0)
        && sumSq[i, j] == old(sumSq[i, j]) + (if hit then z * z else 0.0)
    {
      if cell.Some? {
        var (col, row) := cell.value;
        count[col, row] := count[col, row] + 1.0;
        sum[col, row] := sum[col, row] + z;
        sumSq[col, row] := sumSq[col, row] + z * z;
      }
    }

    /** `Dims()`: the bin counts given at construction, which are the arrays' shape. */
    function Dims(): (d: (nat, nat))
      requires Valid()
      reads this, count, sum, sumSq
      ensures d == (count.Length0, count.Length1)
    {
      (xAxis.bins, yAxis.bins)
    }

    /** `X(i)`: the centre of column i, a value that falls into column i. */
    function X(i: nat): (x: real)
      requires ValidAxis(xAxis) && i < xAxis.bins
      ensures BinIndex(xAxis, x) == Some(i)
    {
      CentreInBin(xAxis, i);
      Centre(xAxis, i)
    }

    /** `Y(j)`: the centre of row j, a value that falls into row j. */
    function Y(j: nat): (y: real)
      requires ValidAxis(yAxis) && j < yAxis.bins
      ensures BinIndex(yAxis, y) == Some(j)
    {
      CentreInBin(yAxis, j);
      Centre(yAxis, j)
    }

    /** `PullGrid.Z(i, j)`: 0 when the cell holds fewer than three samples,
        otherwise the mean of the values filled into it. */
    function PullZ(i: nat, j: nat): (r: real)
      requires Valid() && i < xAxis.bins && j < yAxis.bins
      reads this, count, sum, sumSq
      ensures r == PullStatistic(CellValues(Samples, xAxis, yAxis, i, j))
    {
      var n := count[i, j];
      assert Tallies(Samples, i, j);
      if n < 3.0 then 0.0 else sum[i, j] / n
    }

    /** `ResGrid.Z(i, j)`: 1 when the cell holds fewer than three samples,
        otherwise the standard deviation of the values filled into it, a
        non-negative r with r * r equal to their variance. */
    function ResZ(i: nat, j: nat, sqrt: real -> real): (r: real)
      requires Valid() && i < xAxis.bins && j < yAxis.bins && IsSqrt(sqrt)
      reads this, count, sum, sumSq
      ensures var vs := CellValues(Samples, xAxis, yAxis, i, j);
        if |vs| < 3 then r == 1.0 else r >= 0.0 && r * r == Variance(vs)
    {
      var n := count[i, j];
      assert Tallies(Samples, i, j);
      if n < 3.0 then 1.0
      else
        var mean := sum[i, j] / n;
        var mean2 := sumSq[i, j] / n;
        VarianceNonNegative(CellValues(Samples, xAxis, yAxis, i, j));
        sqrt(mean2 - mean * mean)
    }
  }
}
