# Optimal histogram binning (Shimazaki–Shinomoto) — a Dafny model

This project models the `Binning` class of the `optimalbinning` package. For a
sample of numbers, the class:

- sweeps a sequence of "nice" bin widths (1, 2, 2.5 and 5 times a power of
  ten);
- for each width, lays out left-closed, right-open bins around a rounded
  mean;
- keeps the layouts whose bin count lies between a minimum and a maximum;
- for each layout kept, records the width, the Shimazaki–Shinomoto cost
  `(2·mean − variance) / width²` of the bin counts, the bin count and the bin
  table (lower bound, upper bound, frequency);
- takes the first lowest cost as the optimum.

Accessors read back the criterion table and the width, bin count and bin
table at the optimum.

The model has four modules:

- `Errors` (in `numeric.dfy`): `Option`, `Result`, and one error constructor
  per exception the class can raise.
- `Numeric` (in `numeric.dfy`): the extended reals with ±inf, plus
  exact-real versions of the numeric primitives the class uses:
  - `math.ceil`;
  - `numpy.round`, which rounds half to even;
  - `math.floor(math.log10(x))` and `math.ceil(math.log10(x))`, as integer
    decades with their defining bounds;
  - `math.pow(10, e)`;
  - the running minimum and maximum.
- `Frequency` (in `frequency.dfy`): `bin_frequency` as a function
  `BinDetails`, together with its partition and counting properties.
- `Search` (in `sweep.dfy`): the width sweep, as a recursive function over
  the width schedule. It contains:
  - the candidate boundaries;
  - the cost and the filter;
  - the lemmas about what a sweep records: every candidate well formed,
    widths strictly increasing and within the examined range, every width a
    nice multiple of the starting width, and the failure cases.

The `Binning` module (in `binning.dfy`) has the class itself. It is a Dafny
`class` whose fields are the four parallel candidate lists, the resolved
bin-count bounds and the optimum. The methods update these fields in place,
with loops as in the source:

- the summary pass;
- the scan of `bin_frequency`;
- the sweep, with its `while` loop over widths;
- the first-minimum scan.

Each method is proved against the specification functions of `Search` and
`Frequency`. The accessors are functions that read the fields.

Where the code does something other than what it appears to do:

- The block at `binning.py:142-145` looks like a swap of the bin-count bounds
  when the maximum is below the minimum, but it assigns `max_n_bin` twice, so
  neither bound changes. The model does the same.
- With such inverted bounds, no layout passes the filter, so the run records
  nothing (`Search.InvertedBoundsRecordNothing`).
- The `n_bin == 1` branch at `binning.py:79-80` calls `numpy.len`, which
  NumPy does not define, so it raises. `BinDetails` and the sweep model a
  one-bin layout as the `SingleBin` error. This can only happen when the
  caller passes a minimum of 1.

## Model

| member | source | states |
|---|---|---|
| Numeric.Ceil | optimalbinning/src/optimalbinning/binning.py:165-166 | the result is the least integer that is not below its argument |
| Numeric.RoundHalfEven | optimalbinning/src/optimalbinning/binning.py:164 | the result is within one half of its argument, and an exact tie goes to the even integer |
| Numeric.TenPow | optimalbinning/src/optimalbinning/binning.py:150-151 | ten to an integer power is positive |
| Numeric.FloorLog10 | optimalbinning/src/optimalbinning/binning.py:150 | the decade e of a positive x satisfies 10^e <= x < 10^(e+1) |
| Numeric.CeilLog10 | optimalbinning/src/optimalbinning/binning.py:151 | the least e with x <= 10^e, i.e. x <= 10^e < 10·x |
| Numeric.SeqMin | optimalbinning/src/optimalbinning/binning.py:113-123 | the running minimum of a non-empty sample is one of its values and is at most every value |
| Numeric.SeqMax | optimalbinning/src/optimalbinning/binning.py:114-121 | the running maximum of a non-empty sample is one of its values and is at least every value |
| Frequency.UpperOpenAbove | optimalbinning/src/optimalbinning/binning.py:61-67 | over increasing boundaries, the upper bound of a bin (the next lower boundary, or +inf for the last bin) is never -inf and lies above a finite lower bound, so every bin is a non-empty interval |
| Frequency.ScanFrom | optimalbinning/src/optimalbinning/binning.py:70-77 | the scan stops at the first bin whose successor boundary exceeds the value, or at the last bin; every boundary it passes does not exceed the value |
| Frequency.BinIndex | optimalbinning/src/optimalbinning/binning.py:69-77 | the bin a value is counted in holds it: the value is at or above that bin's lower boundary (the first bin has none) and below its upper bound, and no earlier bin's upper bound exceeds it |
| Frequency.BinIndexUnique | optimalbinning/src/optimalbinning/binning.py:69-77 | a bin whose lower boundaries up to it are all at or below the value, and whose successor is above it (or which is the last bin), is the bin the value is counted in |
| Frequency.Histogram | optimalbinning/src/optimalbinning/binning.py:64-77 | there is one count per boundary (what each count is: HistogramCountsBin) |
| Frequency.BinDetails | optimalbinning/src/optimalbinning/binning.py:59-86 | a table exists exactly when there are at least two boundaries; no boundaries is an index error and one boundary is the single-bin failure; the table has one row per boundary, its lower bounds are the boundaries, each upper bound is the next boundary or +inf for the last row, and the frequencies sum to the sample size |
| Frequency.HistogramPartition | optimalbinning/src/optimalbinning/binning.py:69-77 | every value is counted exactly once: the counts sum to the sample size |
| Frequency.BinIndexPlacement | optimalbinning/src/optimalbinning/binning.py:70-77 | for increasing boundaries, a value is placed in bin k if and only if it lies in [lower[k], upper[k]) |
| Frequency.HistogramCountsBin | optimalbinning/src/optimalbinning/binning.py:69-77 | for increasing boundaries, the count of bin k is the number of values in that bin's interval |
| Frequency.BinDetailsCounts | optimalbinning/src/optimalbinning/binning.py:82-84 | for increasing boundaries the table exists, and each row's frequency is the number of values between that row's bounds |
| Search.Advance | optimalbinning/src/optimalbinning/binning.py:196-205 | each step grows the width by at least a factor 1.25, and the phase counter cycles 0, 1, 2, 3 |
| Search.Schedule | optimalbinning/src/optimalbinning/binning.py:159-160 | the widths visited never fall below the starting width, and the phase stays below 4 |
| Search.ScheduleIsNice | optimalbinning/src/optimalbinning/binning.py:196-205 | the k-th width visited is minW · 10^(k div 4) · (1, 2, 2.5 or 5); the multiples of 1, 2, 2.5 and 5 are the nice widths the comment promises |
| Search.LowerBoundaries | optimalbinning/src/optimalbinning/binning.py:171-179 | the boundaries are -inf followed by low_x + bw·j for j = 0 .. n_bin-2, one per bin; the two-bin branch agrees with the general one |
| Search.LowerBoundariesIncreasing | optimalbinning/src/optimalbinning/binning.py:173-179 | with a positive width, the boundaries after -inf are finite and strictly increasing |
| Search.SquaredDeviation | optimalbinning/src/optimalbinning/binning.py:185 | the sum of squared deviations of the counts from the mean is non-negative, and zero when every count equals the mean |
| Search.Criterion | optimalbinning/src/optimalbinning/binning.py:184-186 | the cost (2·mean − variance) / bw², with mean = sample size / bin count, is at most 2·mean / bw², and equals it when every bin holds exactly the mean count |
| Search.Middle | optimalbinning/src/optimalbinning/binning.py:164 | middle_x lies within half a width of the mean |
| Search.BinsLeft | optimalbinning/src/optimalbinning/binning.py:165 | n_bin_left widths below middle_x reach the minimum and one width fewer does not: middle − n·bw ≤ min < middle − (n−1)·bw |
| Search.BinsRight | optimalbinning/src/optimalbinning/binning.py:166 | n_bin_right widths above middle_x reach the maximum and one width fewer does not: middle + (n−1)·bw < max ≤ middle + n·bw |
| Search.LowX | optimalbinning/src/optimalbinning/binning.py:171 | the minimum lies in the width just below low_x: low_x − bw ≤ min < low_x |
| Search.EdgeBins | optimalbinning/src/optimalbinning/binning.py:164-171 | the layout is tight around the sample: the minimum lies within one width below low_x, and the maximum lies above the last finite boundary and at most one width beyond it |
| Search.Evaluate | optimalbinning/src/optimalbinning/binning.py:179-192 | never a skip; a single boundary fails with the single-bin error; otherwise a record of the examined width with one row per boundary, counts that sum to the sample size, and the cost of those counts as its criterion |
| Search.Place | optimalbinning/src/optimalbinning/binning.py:169-192 | a width is skipped exactly when its bin count lies outside [min_n_bin, max_n_bin]; a record carries the width and that count; a failure happens only for a count of 1 |
| Search.Assess | optimalbinning/src/optimalbinning/binning.py:163-192 | the same for the bin count n_bin_left + n_bin_right derived from the width; a failure needs min_n_bin ≤ 1 |
| Search.Sweep | optimalbinning/src/optimalbinning/binning.py:159-205 | a sweep from the current width records at most one candidate per width still to examine, and its only failure is the single-bin error |
| Search.StartWidth | optimalbinning/src/optimalbinning/binning.py:150 | the smallest width 10^floor(log10(range / max_n_bin)) is positive |
| Search.StopWidth | optimalbinning/src/optimalbinning/binning.py:151 | the largest width 10^ceil(log10(range / min_n_bin)) is positive |
| Search.Run | optimalbinning/src/optimalbinning/binning.py:147-205 | the whole run from the smallest to the largest width records at most one candidate per scheduled width, and fails only with the single-bin error |
| Search.JoinStep | optimalbinning/src/optimalbinning/binning.py:161-205 | one loop iteration, in the order the source does it: a skipped width records nothing, a kept width appends its candidate, a failing width stops the sweep with the candidates so far |
| Search.RecordedWellFormed | optimalbinning/src/optimalbinning/binning.py:181-192 | a candidate recorded for increasing boundaries is well formed: its count is within the limits, its table partitions the data bin by bin, and its criterion is the cost of its counts |
| Search.EvaluateRecords | optimalbinning/src/optimalbinning/binning.py:181-192 | a recorded candidate has the examined width and is well formed; a failure is the single-bin one, with one boundary |
| Search.PlaceRecords | optimalbinning/src/optimalbinning/binning.py:170-192 | the count filter plus the boundaries it builds record only well-formed candidates of the examined width; a failure needs a minimum of at most one bin |
| Search.AssessRecords | optimalbinning/src/optimalbinning/binning.py:163-192 | the whole iteration body records only well-formed candidates of the examined width, and fails only on the single-bin layout |
| Search.SweepWellFormed | optimalbinning/src/optimalbinning/binning.py:159-205 | every candidate a sweep records is well formed, with a width between the current width and the largest width; a sweep fails only with the single-bin error, which needs a minimum of at most one bin |
| Search.SweepIncreasing | optimalbinning/src/optimalbinning/binning.py:159-205 | the recorded widths are at least the starting width and strictly increase |
| Search.InvertedBoundsRecordNothing | optimalbinning/src/optimalbinning/binning.py:142-145 | when the maximum bin count is below the minimum (the reordering step leaves them so), the sweep records nothing and does not fail |
| Search.SweepWidthsNice | optimalbinning/src/optimalbinning/binning.py:196-205 | every recorded width is a nice width of the schedule at or after the current step |
| Search.RunCandidates | optimalbinning/src/optimalbinning/binning.py:147-205 | each candidate of a run is well formed, with a width in [10^floor(log10(range/max)), 10^ceil(log10(range/min))]; the widths increase and are nice; a failure is the single-bin one with a minimum of 1; inverted bounds record nothing |
| Binning.ResolvedMin | optimalbinning/src/optimalbinning/binning.py:132-135 | min_n_bin defaults to 2; a given argument is kept |
| Binning.ResolvedMax | optimalbinning/src/optimalbinning/binning.py:137-140 | max_n_bin defaults to n // 2, the m ≥ 0 with 2m ≤ n < 2m + 2; a given argument is kept |
| Binning.Summarize | optimalbinning/src/optimalbinning/binning.py:109-129 | the pass returns the sample size and sum; for an empty sample, +inf and -inf; otherwise the minimum and maximum of the sample |
| Binning.FirstMinimum | optimalbinning/src/optimalbinning/binning.py:207-215 | for an empty list, no position and +inf; otherwise a position whose value is at most every value and strictly below every earlier one (the first minimum), with that value as the lowest |
| Binning.Binning.constructor | optimalbinning/src/optimalbinning/binning.py:29-39 | a fresh object has empty lists, no bounds and no optimum (+inf and none) |
| Binning.Binning.ResolveBounds | optimalbinning/src/optimalbinning/binning.py:132-145 | the stored bounds become ResolvedMin and ResolvedMax of the arguments (the double assignment never reorders them); lists and optimum unchanged |
| Binning.Binning.BinFrequency | optimalbinning/src/optimalbinning/binning.py:59-86 | the loops over upper bounds, values and bins compute exactly the bin table BinDetails |
| Binning.Binning.Examine | optimalbinning/src/optimalbinning/binning.py:163-192 | the iteration body computes exactly the step Assess: it applies the bin-count filter to n_bin_left + n_bin_right and hands the kept layout to Score |
| Binning.Binning.Score | optimalbinning/src/optimalbinning/binning.py:181-192 | scoring a kept layout gives exactly the step Evaluate: the bin table, or the single-bin failure, and the criterion of its counts |
| Binning.Binning.Append | optimalbinning/src/optimalbinning/binning.py:188-192 | one append to each of the four lists, keeping them parallel; bounds and optimum unchanged |
| Binning.Binning.SweepWidths | optimalbinning/src/optimalbinning/binning.py:159-205 | the while loop leaves in the lists exactly the candidates of the sweep, returns their number and the failure, and changes nothing else |
| Binning.Binning.WidthsAscending | optimalbinning/src/optimalbinning/binning.py:239-243 | lists holding a run's candidates have strictly increasing widths |
| Binning.Binning.SearchOptimum | optimalbinning/src/optimalbinning/binning.py:153-219 | after resetting the lists, they hold exactly the run's candidates; without failure the result is their number, and for a non-empty list the optimum is the first lowest criterion; a failure or an empty list keeps the previous optimum |
| Binning.Binning.OptimalBinning | optimalbinning/src/optimalbinning/binning.py:88-223 | an empty sample is an error that changes nothing; otherwise the bounds are resolved (min 2 and max n div 2 by default, no reordering); equal minimum and maximum give the degenerate-range error, and a non-positive bound gives the undefined-log error, neither touching the lists; otherwise the lists are the run's candidates and the result is their number, with the optimum as in SearchOptimum; with a maximum below the minimum (left unswapped), the run returns 0 and the lists are empty |
| Binning.Binning.BinningCriterion | optimalbinning/src/optimalbinning/binning.py:225-243 | one row per candidate, holding its width, criterion and bin count; the rows already increase in width, so sorting by width leaves them in list order |
| Binning.Binning.OptimalBoundary | optimalbinning/src/optimalbinning/binning.py:245-263 | no optimum gives none; otherwise the bin table at the optimal position, or an index error when that position is beyond the current lists |
| Binning.Binning.OptimalNBin | optimalbinning/src/optimalbinning/binning.py:265-282 | no optimum gives 0; otherwise the bin count at the optimal position, or an index error |
| Binning.Binning.OptimalWidth | optimalbinning/src/optimalbinning/binning.py:284-301 | no optimum gives none; otherwise the width at the optimal position, or an index error |
| Binning.Binning.OptimumReadBack | optimalbinning/src/optimalbinning/binning.py:245-301 | when the lists hold a run and the optimum points into them, the three accessors give one consistent candidate: a width in the examined range, a table with one row per bin whose frequencies partition the data, the bin count equal to the table size, and the stored criterion equal to the cost of that table |

## Left out

- Floating point: data, mean, widths and costs are exact reals. The model does not capture IEEE rounding. In particular, `math.log10` results near an exact power of ten may land on the other side of an integer, and products such as `1.25 * bin_width` accumulate error over many steps.
- NaN and infinite sample values are not modelled: the sample is a sequence of finite reals.
- Python's `None` defaults for `data` and inputs that are not lists are not modelled. The bin-count arguments are `Option<int>`. The default maximum `_n_x // 2` (a float in the source) is the integer `n div 2`.
- Exceptions become `Result` errors, one constructor per raising site:
  - `ValueError` for an empty sample becomes `EmptyInput`;
  - `ValueError` for a zero range becomes `DegenerateRange`;
  - the `ValueError` or `ZeroDivisionError` from `log10` or a division by a non-positive bound becomes `UndefinedWidthRange`, with the bounds updated as in the source;
  - the `AttributeError` from `numpy.len` becomes `SingleBin`, with the lists holding the candidates recorded before it;
  - the `IndexError` of an accessor whose optimal position outlived a shorter run becomes `IndexOutOfRange`.
- pandas DataFrames are sequences of rows (`Bin`, `CriterionRow`). `sort_values` is not computed: `BinningCriterion` proves the rows are already in width order, which is what the sort relies on.
- Python class attributes shared between instances before the first assignment are not modelled. Each object starts from the constructor's empty state.
- `optimalbinning/src/optimalbinning/__init__.py` only re-exports the class and sets a logger and version metadata; it is not part of this model.
- Search.Criterion: states the upper bound 2·mean / bw² and that equal counts reach it, not that only equal counts reach it; likewise `Search.SquaredDeviation` states that equal counts give zero, not the converse.
