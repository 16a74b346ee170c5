# eicbenchplot core, modelled in Dafny

eicbenchplot is a set of Go command-line tools. They read simulated and
reconstructed collider events and draw benchmark plots. This project models the
logic that sits between reading the events and drawing the plots:

- **`PreciseTicks.Ticks`** (`ticks.go`) chooses the axis ticks. It finds the
  power of ten that fits the range, snaps a major step multiplier, walks the
  multiples of the major step across `[min, max]` and rounds them. It then walks
  a minor step and adds the minor values that are not already ticks. `round`
  rounds half away from zero.
- **`PullGrid` / `ResGrid`** (`trackpull/main.go`, `trackres/main.go`) are 2-D
  grids. Each cell holds a count, a sum and a sum of squares, which `Fill`
  updates together. `Z` returns the mean (pull) or the standard deviation
  (resolution) of a cell, or a sentinel when the cell holds fewer than three
  samples.
- **`FloatArrayFlags`** (`flags.go`) is a repeatable float flag. The first value
  that parses replaces the defaults, and later values are appended.
- **The `trackeff` bookkeeping** (`trackeff/main.go`):
  - `intMin` and `intMax`;
  - the number of sub-plots and the clamped index of each cut flag;
  - the count of hits per candidate particle;
  - the strict-maximum choice of the truth particle.

All arithmetic is exact (`real`, `int`, `nat`). Modules:

- `RealMath` (`reals.dfy`): powers of ten, integer parts of `log10`, and the
  floor and ceiling of quotients.
- `PreciseTicks` (`ticks.dfy`).
- `BinnedMoments` (`moments.dfy`).
- `FloatFlags` (`flags.dfy`).
- `TrackEff` (`trackeff.dfy`).
- `Wrappers` (`wrappers.dfy`): `Option`.

Some parts of the program depend on code this model cannot see. They are
parameters, or are modelled by their documented effect:

- `strconv.ParseFloat` is a function parameter `parse: string -> Option<real>`.
- `math.Sqrt` is a function parameter `sqrt`. Its only property used is that it returns a
  non-negative square root on non-negative arguments (`IsSqrt`).
- The iteration order of a Go map is a parameter `order` listing the map's keys.
- `strconv.FormatFloat` labels are the constructor `FormatG(value)`.
- The binning of hbook's `H2D` is a uniform half-open binning, `Axis`. Cell
  centres are bin midpoints.

The tick generator as written in `ticks.go` has no usable major step when the
effective tick count is 1 or less: the step is undefined, zero or negative.
Depending on the inputs and the platform the source then loops forever or
returns no ticks. Every caller passes 3 or 5 (`trackpull/main.go:145` and the
other `main.go` files). The model therefore requires `CountAtLeastTwo`: either
an empty range, which yields an error, or a count of at least 2.

`Ticks` is proved equal to the pure specification `TickSpec`. The shape of the
result is then proved about `TickSpec`. `Fill` keeps every cell equal to the
count, sum and sum of squares of the samples that fell into it (the ghost
history `Samples`). `Set` is proved to be one `Step` of the pure flag state
machine, and the lemmas about `Replay` cover any sequence of calls.

## Model

| member | source | states |
|---|---|---|
| PreciseTicks.Ticks | ticks.go:14-76 | The imperative generator returns exactly `TickSpec`: an error for `max <= min`, otherwise the rounded majors followed by the new minors |
| PreciseTicks.DefaultCount | ticks.go:15-21 | A suggested count of 0 behaves exactly like 4, and the result is an error exactly when `max <= min` |
| PreciseTicks.TickSpecShape | ticks.go:14-76 | For `min < max` the result is Ok. There are at least N-1 majors, each labelled with its own value. Minors are unlabelled and are not majors. Every tick lies in `[min, max]` and no value repeats |
| PreciseTicks.Magnitude | ticks.go:23-28 | The loop that divides `tens` by 10 ends with `tens = 10^e` and `n = span / tens`, for the exponent `Exponent` describes |
| PreciseTicks.MagnitudeBounds | ticks.go:23-28 | When the loop stops, `tens > 0`, `n * tens == span` and `N-1 <= n < 10(N-1)` |
| PreciseTicks.MagnitudeStops | ticks.go:23-28 | From any exponent `e` with `10^e <= span`, the loop stops at an exponent no larger than `e`. There `n >= N-1`, and `n < 10(N-1)` when it divided at least once |
| PreciseTicks.MultiplierRange | ticks.go:30-36 | After snapping 7 to 6 and 9 to 8, the major multiplier is one of 1, 2, 3, 4, 5, 6, 8, never 0, 7 or 9 |
| PreciseTicks.MajorStep | ticks.go:30-37 | The truncation and the switch compute `Multiplier`, and the major step they give is positive |
| PreciseTicks.MajorDelta | ticks.go:37 | The major step is positive, so both walks advance |
| PreciseTicks.MinorDelta | ticks.go:54-60 | The minor step is positive and strictly smaller than the major step |
| PreciseTicks.WalkMajors | ticks.go:38-46 | The major walk collects exactly `MajorValues` and stops at `WalkEnd`, the first multiple above `max` |
| PreciseTicks.WalkCovers | ticks.go:38-46 | Every multiple of the major step in `[min, max]` is collected |
| PreciseTicks.MajorValuesShape | ticks.go:38-46 | The collected majors are strictly ascending and lie in `[min, max]`. Each is an integer multiple of the step, and consecutive ones differ by exactly the step |
| PreciseTicks.WalkWithin | ticks.go:41-44 | Every collected major lies in `[min, max]` |
| PreciseTicks.MajorCount | ticks.go:23-46 | At least N-1 majors are collected |
| PreciseTicks.RoundMajors | ticks.go:49-53 | Each major becomes a tick with its rounded value and that value's label, in order |
| PreciseTicks.Contains | ticks.go:64-69 | `found` is true exactly when some tick already has the value |
| PreciseTicks.VisitMinor | ticks.go:64-72 | A minor value is appended, unlabelled, exactly when it lies in `[min, max]` and is not yet a tick value |
| PreciseTicks.AppendMinors | ticks.go:62-74 | The minor walk appends exactly the unlabelled multiples of the minor step in `[min, max]` that are not earlier tick values |
| PreciseTicks.MinorValuesShape | ticks.go:62-74 | The appended minors are strictly ascending, lie in `[min, max]`, and equal no earlier tick value |
| PreciseTicks.WithoutExcludes | ticks.go:64-71 | Filtering by earlier values leaves none of them |
| PreciseTicks.Round | ticks.go:78-104 | Rounding never changes the sign: a non-negative value rounds to a non-negative one, a non-positive value to a non-positive one |
| PreciseTicks.RoundHalfAwayFromZero | ticks.go:78-104 | `round(0, p) == 0`. Otherwise `round(x, p) * 10^p` is the integer nearest to `x * 10^p`, with halves going away from zero |
| PreciseTicks.RoundAtNearest | ticks.go:88-103 | The general branch gives `n / pow` for an integer `n` within one half of `x * pow`, ties away from zero |
| PreciseTicks.RoundExact | ticks.go:78-104 | A value that is already a multiple of `10^-p` is returned unchanged, including integers when `p >= 0` |
| PreciseTicks.RoundMultipleExact | ticks.go:78-104 | A multiple of `10^t` with `t + p >= 0` is unchanged by rounding to `p` places |
| PreciseTicks.MajorDeltaDigits | ticks.go:37-47 | `floor(log10(majorDelta))` is the exponent of `tens` |
| PreciseTicks.RoundingKeepsMajors | ticks.go:47-52 | With the corrected precision, rounding leaves every major value unchanged |
| PreciseTicks.MajorTicksExact | ticks.go:49-53 | When rounding changes no value, the major ticks carry exactly the collected values and their labels |
| PreciseTicks.SmallRangeStep | ticks.go:23-37 | For the range `[0.01, 0.05]` and 4 ticks, `tens = 0.01`, `n = 4` and the major step is 0.01 |
| PreciseTicks.AgreeAbove | ticks.go:47 | The corrected precision equals the precision as written whenever the walk ends above 0.1 |
| PreciseTicks.PrecisionAsWrittenDropsMajors | ticks.go:38-52 | As written, for `[0.01, 0.05]` the precision is 1 where 2 is needed, and the majors become 0, 0, 0, 0, 0.1 |
| RealMath.FloorLog10Brackets | ticks.go:23 | `floor(log10(x))` is the exponent `e` with `10^e <= x < 10^(e+1)` |
| RealMath.FloorLog10Unique | ticks.go:23 | That exponent is unique |
| RealMath.CeilLog10Brackets | ticks.go:47 | `ceil(log10(x))` is the least exponent whose power of ten is not below `x` |
| RealMath.FloorDivBounds | ticks.go:38 | `floor(x/d) * d` is the multiple of `d` at or just below `x` |
| RealMath.FloorDivGreatest | ticks.go:41 | `k * d <= x` exactly when `k <= floor(x/d)` |
| RealMath.CeilDivLeast | ticks.go:42 | `x <= k * d` exactly when `k >= ceil(x/d)` |
| RealMath.Pow10Add | ticks.go:88 | Powers of ten multiply by adding exponents |
| BinnedMoments.BinIndex | trackpull/main.go:177-181 | A point is binned only into an existing cell |
| BinnedMoments.BinContains | trackpull/main.go:177-181 | A value has a bin exactly when it lies in `[low, high)`, and it lies between that bin's edges |
| BinnedMoments.CellOf | trackpull/main.go:177-181 | A point has a cell exactly when both coordinates are in range, and the cell is inside the grid |
| BinnedMoments.CentreInBin | trackpull/main.go:197-203 | The centre of bin k falls into bin k |
| BinnedMoments.MomentGrid.constructor | trackpull/main.go:166-175 | A new grid has the given binning and every cell empty |
| BinnedMoments.MomentGrid.Fill | trackpull/main.go:177-181 | The cell holding `(x, y)` gains 1, `z` and `z*z`, and no other cell changes. Every cell still equals the count, sum and sum of squares of the samples filled into it |
| BinnedMoments.MomentGrid.AddToCell | trackres/main.go:176-180 | The three histogram fills change only the cell of the point, by 1, `z` and `z*z`. A point outside the grid changes nothing |
| BinnedMoments.CellStep | trackres/main.go:176-180 | One more sample adds one value, `z` and `z*z` to its own cell's tallies and nothing to any other cell |
| BinnedMoments.TallyStep | trackpull/main.go:177-181 | A cell's old tallies plus one sample's contribution are the tallies of the longer history |
| BinnedMoments.MomentGrid.Dims | trackpull/main.go:183-185 | The dimensions are the bin counts given at construction, which are the histograms' shape |
| BinnedMoments.MomentGrid.X | trackpull/main.go:197-199 | The x coordinate of column i falls into column i |
| BinnedMoments.MomentGrid.Y | trackres/main.go:202-204 | The y coordinate of row j falls into row j |
| BinnedMoments.MomentGrid.PullZ | trackpull/main.go:187-195 | 0 when the cell holds fewer than three samples, otherwise the mean of the values filled into it |
| BinnedMoments.MomentGrid.ResZ | trackres/main.go:186-196 | 1 when the cell holds fewer than three samples, otherwise a non-negative `r` with `r*r` equal to the variance of the values filled into it |
| BinnedMoments.CauchySchwarz | trackres/main.go:191-194 | For any values, `n * sumSq >= sum^2` |
| BinnedMoments.ShiftedSquares | trackres/main.go:191-194 | For any `x`, `sumSq - 2x*sum + n*x^2 >= 0` (the squared deviations from `x`) |
| BinnedMoments.VarianceNonNegative | trackres/main.go:191-194 | `sumSq/n - (sum/n)^2 >= 0` for every non-empty fill history, so the square root's argument is never negative |
| BinnedMoments.ConstantMoments | trackpull/main.go:187-194 | Values that all equal `v` have mean `v` and variance 0 |
| BinnedMoments.ConstantCell | trackres/main.go:176-195 | A cell filled three or more times with `v` has pull statistic `v`, variance 0 and standard deviation 0 |
| FloatFlags.FloatArrayFlags.constructor | trackeff/main.go:32-34 | A flag starts with its defaults and not yet set |
| FloatFlags.Step | flags.go:13-26 | A value that does not parse leaves the flag as it was. A value that parses sets `beenSet` and becomes the last value; the earlier values are kept only if the flag had already been set, otherwise it is the only value |
| FloatFlags.FloatArrayFlags.Set | flags.go:13-26 | An error exactly when the text does not parse, and then no change. Otherwise the flag is set and holds `[v]` after the first success, or the old values followed by `v` |
| FloatFlags.ReplayContents | flags.go:13-26 | After any sequence of calls the flag is unchanged if nothing parsed. Otherwise it is set and holds the accepted values, after its old values if it was already set |
| FloatFlags.BeenSetStays | flags.go:19-22 | `beenSet` never returns to false |
| FloatFlags.DefaultsReplaced | flags.go:19-24 | From the defaults, after k >= 1 accepted values the flag holds exactly those k values |
| FloatFlags.NonEmptyStays | flags.go:13-26 | A flag holding at least one value always does |
| TrackEff.IntMin | trackeff/main.go:223-228 | The result is at most both arguments and equals one of them |
| TrackEff.IntMax | trackeff/main.go:230-235 | The result is at least both arguments and equals one of them |
| TrackEff.SubCount | trackeff/main.go:57-60 | `nSubs` is the least value that is at least 1 and at least each flag's length |
| TrackEff.ClampedIndex | trackeff/main.go:63-66 | For `j >= 0` and a flag of length `L >= 1`, the clamped index is valid. It is `j` when `j < L`, and the last index otherwise |
| TrackEff.SubCuts | trackeff/main.go:62-68 | There is one sub-plot per `nSubs`. Sub-plot `j` takes each flag's `j`-th value, or its last value once the flag is exhausted |
| TrackEff.CountSources | trackeff/main.go:121-131 | Over one deposit's sources, each simulated hit adds 1 to its particle and each particle adds 1 to itself |
| TrackEff.CountCandidates | trackeff/main.go:114-132 | `partCandID` holds exactly the voted ids, each with its number of votes from the track's energy deposits |
| TrackEff.TallyCounts | trackeff/main.go:114-132 | Counting ids one `++` at a time gives exactly each id's number of occurrences, and no other keys |
| TrackEff.TallyVote | trackeff/main.go:121-130 | One source adds one `++` for a simulated hit or a particle, and nothing otherwise |
| TrackEff.BestCandidate | trackeff/main.go:134-141 | The chosen count is at least every count, and the chosen id has it. The id is the first in iteration order with that count. An empty map gives id 0 with count 0 |
| TrackEff.TruthParticle | trackeff/main.go:114-141 | The chosen particle is voted for by the most sources. The count is 0, with id 0, exactly when nothing voted |

## Left out

- Event I/O (`proio.Open`, `ScanEvents`, `GetEntry`, `reader.Close`) is not modelled. An event is a map from entry id to `Entry`.
- Plot rendering (`plot.New`, heat maps, colours, PNG output, `p.Save`) is not modelled.
- The physics formulas built on `math.Sqrt`, `Pow`, `Atanh` and `Log10` are not modelled. These are eta, pT, the fractional difference, the efficiency and its error bars, `-t`, ΔpT, the invariant mass and the log energy deposit. They are floating-point code interleaved with I/O.
- `trackeff`'s outer loop over input files is not modelled. It repeats the same cuts for each file.
- The truth particle's later `GetEntry(partID)` check and the pT and fraction cuts are not modelled.
- The internals of hbook's `H2D` are not modelled: its real edge convention, under/overflow and centre definition are not visible. Binning is uniform over `[low, high)`, and a point outside the grid changes no cell.
- `LogTicks`/`LogScale`, `flag` parsing, `printUsage`, `profile.Start` and `FloatArrayFlags.String` are not modelled.
- Floating point is not modelled:
  - `round`'s negative-zero result and its `math.IsInf` guard;
  - the rounding error that `val += majorDelta` accumulates;
  - a `NaN` from `log10` of a non-positive walk end, for which the corrected precision counts 0 integer digits;
  - a slightly negative `sumSq/n - mean^2` that floating point can produce, making `math.Sqrt` return `NaN`. In exact arithmetic it is never negative (`VarianceNonNegative`).
- PreciseTicks.Ticks: requires `CountAtLeastTwo`. With an effective tick count of 1 or below the major step is undefined, zero or negative, and the source loops forever or returns no ticks, depending on the inputs and the platform.
- PreciseTicks.Ticks: uses the corrected precision `MajorPrecision` rather than ticks.go:47 as written. The two differ only when the major walk ends at or below 0.1 (`AgreeAbove`); see "## Findings".
- The labels from `strconv.FormatFloat(v, 'g', -1, 64)` are not modelled as text. They are the constructor `FormatG(v)`.
- BinnedMoments.MomentGrid.ResZ: states its result through the `IsSqrt` property of the `sqrt` parameter, not through `math.Sqrt` itself.
- TrackEff.SubCuts: requires every cut flag to be non-empty. The source would index position -1 otherwise. The defaults in `main` make the flags non-empty, and `FloatFlags.NonEmptyStays` keeps them so.
- TrackEff.CountCandidates: Go's `uint64` counts and ids are natural numbers here. The counts cannot realistically wrap.
- TrackEff.BestCandidate: Go's map order is unspecified. It is a parameter, and the proved property is the maximal count, not which of several tied ids wins.

## Findings

| source | as written | input that shows it | evidently intended | confidence | as-written member | corrected member |
|---|---|---|---|---|---|---|
| ticks.go:47 | `prec = ceil(log10(val)) - floor(log10(majorDelta))`, where `val` is the first multiple of the major step above `max`. When `val <= 0.1` the first term is negative and the precision is too coarse for the step | `Ticks(0.01, 0.05)` with the default 4 ticks: the step is 0.01, the walk ends at 0.06, and `prec = -1 - (-2) = 1`. The majors 0.01 to 0.05 round to 0, 0, 0, 0, 0.1 | Round to the number of decimals the major step needs (2 here), so that every major keeps its value. This clamps the integer-digit count at 0 | not executed; exact arithmetic, and the float64 values give the same `prec` | PreciseTicks.PrecisionAsWrittenDropsMajors | PreciseTicks.RoundingKeepsMajors |
