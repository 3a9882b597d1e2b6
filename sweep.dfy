/**
 * The candidate sweep of `optimal_binning` as functions: the width schedule
 * (multipliers 1, 2, 2.5, 5 per decade), the per-width boundary construction
 * and Shimazaki-Shinomoto criterion, and the list of recorded candidates.
 */
module Search {
  import opened Errors
  import opened Numeric
  import opened Frequency

  /** The sample summary and the resolved bin-count bounds one sweep works with. */
  datatype Setting = Setting(data: seq<real>, mean: real, least: real, greatest: real, minNBin: int, maxNBin: int)

  /** The setting of a run over a non-empty sample. */
  function SettingOf(data: seq<real>, minNBin: int, maxNBin: int): Setting
    requires data != []
  {
    Setting(data, Sum(data) / |data| as real, SeqMin(data), SeqMax(data), minNBin, maxNBin)
  }

  /** One recorded candidate: an entry of each of the four parallel lists. */
  datatype Candidate = Candidate(width: real, criterion: real, nBin: int, layout: seq<Bin>)

  /** What one examined width contributes: nothing, a candidate, or the error that aborts the run. */
  datatype Step = Skip | Record(candidate: Candidate) | Fail(error: Error)

  /** The candidates a sweep records, and the error that stopped it, if any. */
  datatype Outcome = Outcome(candidates: seq<Candidate>, failure: Option<Error>)

  /** The next width and phase counter: x1.25 in phase 1, x2 otherwise; the phase counts 0, 1, 2, 3, 0, ... */
  function Advance(bw: real, phase: nat): (next: (real, nat))
    requires 0.0 < bw && phase < 4
    ensures next.0 >= 1.25 * bw
    ensures next.1 == (phase + 1) % 4
  {
    var w := if phase == 1 then 1.25 * bw else 2.0 * bw;
    var p := phase + 1;
    (w, if p == 4 then 0 else p)
  }

  /** The width and phase after k advances from (minW, 0). */
  function Schedule(minW: real, k: nat): (wp: (real, nat))
    requires 0.0 < minW
    ensures minW <= wp.0 && wp.1 < 4
  {
    if k == 0 then (minW, 0)
    else
      var prev := Schedule(minW, k - 1);
      Advance(prev.0, prev.1)
  }

  /** The "nice" multipliers of one decade. */
  function NiceFactor(p: nat): real
    requires p < 4
  {
    if p == 0 then 1.0 else if p == 1 then 2.0 else if p == 2 then 2.5 else 5.0
  }

  /** The k-th width of the schedule in closed form: minW * 10^(k div 4) * (1, 2, 2.5 or 5). */
  function NiceWidth(minW: real, k: nat): real {
    minW * Pow10(k / 4) * NiceFactor(k % 4)
  }

  /** One advance from the nice width of phase p of a decade d gives the nice width of the next phase. */
  lemma NiceAdvance(d: real, p: nat)
    requires 0.0 < d && p < 4
    ensures Advance(d * NiceFactor(p), p) == (if p == 3 then 10.0 * d else d * NiceFactor(p + 1), (p + 1) % 4)
  {
    ProductSigns(d, NiceFactor(p));
  }

  /** The nice width of step j + 1 from the decade d = minW * 10^(j div 4) of step j. */
  lemma NiceWidthStep(minW: real, j: nat)
    ensures var d := minW * Pow10(j / 4);
      && NiceWidth(minW, j) == d * NiceFactor(j % 4)
      && NiceWidth(minW, j + 1) == if j % 4 == 3 then 10.0 * d else d * NiceFactor(j % 4 + 1)
  {
    var k := j + 1;
    if j % 4 == 3 {
      assert k / 4 == j / 4 + 1 && k % 4 == 0;
      assert Pow10(k / 4) == 10.0 * Pow10(j / 4);
    } else {
      assert k / 4 == j / 4 && k % 4 == j % 4 + 1;
    }
  }

  /** Repeated advancing walks through 1, 2, 2.5, 5 times each power of ten of the starting width. */
  lemma {:induction false} ScheduleIsNice(minW: real, k: nat)
    requires 0.0 < minW
    ensures Schedule(minW, k) == (NiceWidth(minW, k), k % 4)
  {
    if k > 0 {
      var j := k - 1;
      ScheduleIsNice(minW, j);
      Pow10AtLeastOne(j / 4);
      ProductSigns(minW, Pow10(j / 4));
      NiceWidthStep(minW, j);
      NiceAdvance(minW * Pow10(j / 4), j % 4);
    }
  }

  /** A bound on the number of widths still to be examined; it drops with every advance. */
  function Fuel(minW: real, maxW: real, bw: real): nat
    requires 0.0 < minW
  {
    if bw > maxW then 0
    else
      var x := (maxW - bw) * 4.0 / minW;
      assert 0.0 <= x by {
        assert 0.0 <= (maxW - bw) * 4.0;
      }
      x.Floor + 1
  }

  /** A width that grows by at least a quarter of the smallest width uses up fuel. */
  lemma FuelDecreases(minW: real, maxW: real, bw: real, next: real)
    requires 0.0 < minW <= bw <= maxW && next >= 1.25 * bw
    ensures Fuel(minW, maxW, next) < Fuel(minW, maxW, bw)
  {
    if next <= maxW {
      var a := (maxW - bw) * 4.0;
      var b := (maxW - next) * 4.0;
      assert a - b >= minW;
      DivStep(a, b, minW);
    }
  }

  /** Dividing by c > 0 keeps a gap of at least c as a gap of at least one. */
  lemma DivStep(a: real, b: real, c: real)
    requires 0.0 < c && a - b >= c
    ensures b / c <= a / c - 1.0
  {
    var qa := a / c;
    var qb := b / c;
    assert qa * c == a;
    assert qb * c == b;
    var e := (qa - qb) - 1.0;
    assert e * c == (a - b) - c;
    FactorSigns(e, c);
  }

  /** Division by a positive number preserves order and distinguishes its arguments. */
  lemma DivPositive(a: real, b: real, c: real)
    requires 0.0 < c
    ensures a <= b ==> a / c <= b / c
    ensures a / c == b / c <==> a == b
  {
    assert a / c * c == a;
    assert b / c * c == b;
  }

  /**
   * The lower boundaries of one candidate: -inf, then low_x, low_x + bw, ...
   * (the two-bin case is written separately in the source and agrees).
   */
  function LowerBoundaries(lowX: real, bw: real, nBin: int): (lower: seq<Ext>)
    requires 1 <= nBin
    ensures |lower| == nBin && lower[0] == NegInf
    ensures forall k :: 1 <= k < nBin ==> lower[k] == Fin(lowX + bw * (k - 1) as real)
  {
    if nBin > 2 then
      var tail := seq(nBin - 1, k requires 0 <= k < nBin - 1 => Fin(lowX + bw * k as real));
      assert forall k :: 1 <= k < nBin ==> ([NegInf] + tail)[k] == tail[k - 1];
      [NegInf] + tail
    else if nBin == 2 then
      var lower := [NegInf, Fin(lowX)];
      assert forall k :: 1 <= k < nBin ==> lower[k] == Fin(lowX + bw * (k - 1) as real) by {
        forall k | 1 <= k < nBin
          ensures lower[k] == Fin(lowX + bw * (k - 1) as real)
        {
          assert k - 1 == 0;
        }
      }
      lower
    else [NegInf]
  }

  /** With a positive width the constructed boundaries are increasing after the -inf sentinel. */
  lemma LowerBoundariesIncreasing(lowX: real, bw: real, nBin: int)
    requires 0.0 < bw && 2 <= nBin
    ensures Increasing(LowerBoundaries(lowX, bw, nBin))
  {
    var lower := LowerBoundaries(lowX, bw, nBin);
    forall i, j | 1 <= i < j < nBin
      ensures lower[i].v < lower[j].v
    {
      ScaleOrder((i - 1) as real, (j - 1) as real, bw);
    }
  }

  /** The sum of squared deviations of the counts from m: never negative, and zero when every count is m. */
  function SquaredDeviation(freq: seq<nat>, m: real): (d: real)
    ensures 0.0 <= d
    ensures (forall k :: 0 <= k < |freq| ==> freq[k] as real == m) ==> d == 0.0
  {
    if freq == [] then 0.0
    else
      var t := freq[0] as real - m;
      SquareSigns(t);
      assert forall k :: 0 <= k < |freq| - 1 ==> freq[1..][k] == freq[k + 1];
      t * t + SquaredDeviation(freq[1..], m)
  }

  /**
   * The Shimazaki-Shinomoto cost (2 * mean - variance) / bw^2 of the bin counts:
   * at most 2 * mean / bw^2, and equal to it when every bin holds the mean count.
   */
  function Criterion(freq: seq<nat>, count: nat, bw: real): (c: real)
    requires 0 < |freq| && 0.0 < bw
    ensures c <= 2.0 * (count as real / |freq| as real) / bw / bw
    ensures (forall k :: 0 <= k < |freq| ==> freq[k] as real == count as real / |freq| as real) ==>
      c == 2.0 * (count as real / |freq| as real) / bw / bw
  {
    var n := |freq| as real;
    var meanFreq := count as real / n;
    var sd := SquaredDeviation(freq, meanFreq);
    var varFreq := sd / n;
    DivPositive(0.0, sd, n);
    assert 0.0 / n == 0.0;
    DivPositive(2.0 * meanFreq - varFreq, 2.0 * meanFreq, bw);
    DivPositive((2.0 * meanFreq - varFreq) / bw, 2.0 * meanFreq / bw, bw);
    (2.0 * meanFreq - varFreq) / bw / bw
  }

  /** The multiple of bw nearest to the mean (ties rounded half to even): within half a width of the mean. */
  function Middle(mean: real, bw: real): (m: real)
    requires 0.0 < bw
    ensures mean - bw * 0.5 <= m <= mean + bw * 0.5
  {
    var x := mean / bw;
    DivMul(mean, bw);
    Around(x, RoundHalfEven(x) as real, 0.5, bw, mean);
    bw * RoundHalfEven(x) as real
  }

  /** The number of bins left of the middle: the fewest whole widths that reach down to the minimum. */
  function BinsLeft(s: Setting, bw: real): (n: int)
    requires 0.0 < bw
    ensures Middle(s.mean, bw) - bw * n as real <= s.least < Middle(s.mean, bw) - bw * (n - 1) as real
  {
    var y := (Middle(s.mean, bw) - s.least) / bw;
    DivMul(Middle(s.mean, bw) - s.least, bw);
    ScaleAgainst(y, Ceil(y) as real, bw, Middle(s.mean, bw) - s.least);
    ScaleAgainst(y, (Ceil(y) - 1) as real, bw, Middle(s.mean, bw) - s.least);
    Ceil(y)
  }

  /** The number of bins right of the middle: the fewest whole widths that reach up to the maximum. */
  function BinsRight(s: Setting, bw: real): (n: int)
    requires 0.0 < bw
    ensures Middle(s.mean, bw) + bw * (n - 1) as real < s.greatest <= Middle(s.mean, bw) + bw * n as real
  {
    var y := (s.greatest - Middle(s.mean, bw)) / bw;
    DivMul(s.greatest - Middle(s.mean, bw), bw);
    ScaleAgainst(y, Ceil(y) as real, bw, s.greatest - Middle(s.mean, bw));
    ScaleAgainst(y, (Ceil(y) - 1) as real, bw, s.greatest - Middle(s.mean, bw));
    Ceil(y)
  }

  /** The lower boundary of the second bin: the minimum lies in the width just below it. */
  function LowX(s: Setting, bw: real): (x: real)
    requires 0.0 < bw
    ensures x - bw <= s.least < x
  {
    var l := BinsLeft(s, bw);
    assert (l - 1) as real * bw == bw * l as real - bw;
    Middle(s.mean, bw) - (l - 1) as real * bw
  }

  /**
   * The layout is tight around the sample: the minimum lies in the first bin,
   * within one width of low_x, and the maximum in the last bin, within one
   * width above its lower boundary.
   */
  lemma EdgeBins(s: Setting, bw: real)
    requires 0.0 < bw
    ensures var x, n := LowX(s, bw), BinsLeft(s, bw) + BinsRight(s, bw);
      && x - bw <= s.least < x
      && x + (n - 2) as real * bw < s.greatest <= x + (n - 1) as real * bw
  {
    var l, r := BinsLeft(s, bw), BinsRight(s, bw);
    var m := Middle(s.mean, bw);
    assert LowX(s, bw) == m - (l - 1) as real * bw;
    assert (l - 1) as real * bw + (l + r - 2) as real * bw == (r - 1) as real * bw + (2 * l - 2) as real * bw;
    assert (l + r - 2) as real * bw - (l - 1) as real * bw == (r - 1) as real * bw;
    assert (l + r - 1) as real * bw - (l - 1) as real * bw == r as real * bw;
    assert (r - 1) as real * bw == r as real * bw - bw;
  }

  /**
   * Count the data in the layout of the given boundaries and score it: a
   * single boundary fails, otherwise the candidate has one row per boundary,
   * counts that cover the sample, and the cost of those counts.
   */
  function Evaluate(s: Setting, bw: real, lower: seq<Ext>): (r: Step)
    requires 0.0 < bw && 1 <= |lower|
    ensures !r.Skip?
    ensures r.Fail? <==> |lower| == 1
    ensures r.Fail? ==> r.error == SingleBin
    ensures r.Record? ==> r.candidate.width == bw && r.candidate.nBin == |lower| && |r.candidate.layout| == |lower|
    ensures r.Record? ==> SumNat(Frequencies(r.candidate.layout)) == |s.data|
    ensures r.Record? ==> r.candidate.criterion == Criterion(Frequencies(r.candidate.layout), |s.data|, bw)
  {
    match BinDetails(s.data, lower)
    case Err(e) => Fail(e)
    case Ok(rows) => Record(Candidate(bw, Criterion(Frequencies(rows), |s.data|, bw), |lower|, rows))
  }

  /** Filter a bin count against the resolved bounds, and evaluate the layout that passes. */
  function Place(s: Setting, bw: real, nBin: int, lowX: real): (r: Step)
    requires 0.0 < bw && 1 <= s.minNBin
    ensures r.Skip? <==> !(s.minNBin <= nBin <= s.maxNBin)
    ensures r.Record? ==> r.candidate.width == bw && r.candidate.nBin == nBin
    ensures r.Fail? ==> r.error == SingleBin && nBin == 1
  {
    if s.minNBin <= nBin <= s.maxNBin then Evaluate(s, bw, LowerBoundaries(lowX, bw, nBin))
    else Skip
  }

  /**
   * One examined width: derive the bins around the nearest multiple of bw to
   * the mean, filter, count, score. The width is skipped exactly when its bin
   * count is out of bounds, and fails only on a single bin.
   */
  function Assess(s: Setting, bw: real): (r: Step)
    requires 0.0 < bw && 1 <= s.minNBin
    ensures r.Skip? <==> !(s.minNBin <= BinsLeft(s, bw) + BinsRight(s, bw) <= s.maxNBin)
    ensures r.Record? ==> r.candidate.width == bw && r.candidate.nBin == BinsLeft(s, bw) + BinsRight(s, bw)
    ensures r.Fail? ==> r.error == SingleBin && s.minNBin <= 1
  {
    Place(s, bw, BinsLeft(s, bw) + BinsRight(s, bw), LowX(s, bw))
  }

  /**
   * The widths from bw on, while they do not exceed maxW, and what each
   * contributes: at most one candidate per examined width, and no failure but
   * the single-bin one.
   */
  function Sweep(s: Setting, minW: real, maxW: real, bw: real, phase: nat): (o: Outcome)
    requires 0.0 < minW <= bw && phase < 4 && 1 <= s.minNBin
    ensures |o.candidates| <= Remaining(minW, maxW, bw, phase)
    ensures o.failure.Some? ==> o.failure == Some(SingleBin)
    decreases Fuel(minW, maxW, bw)
  {
    if bw > maxW then Outcome([], None)
    else
      var next := Advance(bw, phase);
      FuelDecreases(minW, maxW, bw, next.0);
      Then(Assess(s, bw), Sweep(s, minW, maxW, next.0, next.1))
  }

  /** The smallest width examined: 10^floor(log10(range / max_n_bin)). */
  function StartWidth(s: Setting): (w: real)
    requires s.least < s.greatest && 0 < s.maxNBin
    ensures 0.0 < w
  {
    DivPositive(0.0, s.greatest - s.least, s.maxNBin as real);
    TenPow(FloorLog10((s.greatest - s.least) / s.maxNBin as real))
  }

  /** The largest width examined: 10^ceil(log10(range / min_n_bin)). */
  function StopWidth(s: Setting): (w: real)
    requires s.least < s.greatest && 0 < s.minNBin
    ensures 0.0 < w
  {
    DivPositive(0.0, s.greatest - s.least, s.minNBin as real);
    TenPow(CeilLog10((s.greatest - s.least) / s.minNBin as real))
  }

  /** The whole sweep of a run: every width of the schedule from the smallest to the largest, at most one candidate each. */
  function Run(s: Setting): (o: Outcome)
    requires s.least < s.greatest && 1 <= s.minNBin && 0 < s.maxNBin
    ensures |o.candidates| <= Remaining(StartWidth(s), StopWidth(s), StartWidth(s), 0)
    ensures o.failure.Some? ==> o.failure == Some(SingleBin)
  {
    Sweep(s, StartWidth(s), StopWidth(s), StartWidth(s), 0)
  }

  /** The number of widths a sweep from bw on still examines. */
  function Remaining(minW: real, maxW: real, bw: real, phase: nat): nat
    requires 0.0 < minW <= bw && phase < 4
    decreases Fuel(minW, maxW, bw)
  {
    if bw > maxW then 0
    else
      var next := Advance(bw, phase);
      FuelDecreases(minW, maxW, bw, next.0);
      1 + Remaining(minW, maxW, next.0, next.1)
  }

  /** A step followed by the rest of the sweep: a failure discards the rest, a record is prepended. */
  function Then(step: Step, rest: Outcome): Outcome {
    match step
    case Skip => rest
    case Fail(e) => Outcome([], Some(e))
    case Record(c) => Outcome([c] + rest.candidates, rest.failure)
  }

  /** Candidates already recorded, followed by the outcome of the rest of a sweep. */
  function Join(done: seq<Candidate>, rest: Outcome): Outcome {
    Outcome(done + rest.candidates, rest.failure)
  }

  /**
   * One width of a sweep moves its contribution from the rest of the sweep to
   * the recorded candidates: nothing for a skip, the candidate for a record,
   * and for a failure the run ends with what was recorded before.
   */
  lemma JoinStep(s: Setting, minW: real, maxW: real, bw: real, phase: nat, done: seq<Candidate>)
    requires 0.0 < minW <= bw <= maxW && phase < 4 && 1 <= s.minNBin
    ensures var next := Advance(bw, phase);
      var whole := Join(done, Sweep(s, minW, maxW, bw, phase));
      var rest := Sweep(s, minW, maxW, next.0, next.1);
      && (Assess(s, bw).Skip? ==> whole == Join(done, rest))
      && (Assess(s, bw).Record? ==> whole == Join(done + [Assess(s, bw).candidate], rest))
      && (Assess(s, bw).Fail? ==> whole == Outcome(done, Some(Assess(s, bw).error)))
  {
    var next := Advance(bw, phase);
    FuelDecreases(minW, maxW, bw, next.0);
    var rest := Sweep(s, minW, maxW, next.0, next.1);
    assert Sweep(s, minW, maxW, bw, phase) == Then(Assess(s, bw), rest);
    JoinThen(done, Assess(s, bw), rest);
  }

  /** Joining recorded candidates with a step followed by the rest of a sweep. */
  lemma JoinThen(done: seq<Candidate>, step: Step, rest: Outcome)
    ensures step.Skip? ==> Join(done, Then(step, rest)) == Join(done, rest)
    ensures step.Record? ==> Join(done, Then(step, rest)) == Join(done + [step.candidate], rest)
    ensures step.Fail? ==> Join(done, Then(step, rest)) == Outcome(done, Some(step.error))
  {
    if step.Record? {
      assert done + ([step.candidate] + rest.candidates) == done + [step.candidate] + rest.candidates;
    } else if step.Fail? {
      assert done + [] == done;
    }
  }

  /** What a recorded candidate satisfies. */
  ghost predicate WellFormed(s: Setting, c: Candidate) {
    && 0.0 < c.width
    && s.minNBin <= c.nBin <= s.maxNBin
    && 2 <= c.nBin
    && |c.layout| == c.nBin
    && Increasing(LowerCloses(c.layout))
    && (forall k :: 0 <= k < c.nBin ==> c.layout[k].upperOpen == UpperOpen(LowerCloses(c.layout), k))
    && (forall k :: 0 <= k < c.nBin ==>
          c.layout[k].frequency == CountIn(s.data, c.layout[k].lowerClose, c.layout[k].upperOpen))
    && SumNat(Frequencies(c.layout)) == |s.data|
    && c.criterion == Criterion(Frequencies(c.layout), |s.data|, c.width)
  }

  /** The candidate recorded for increasing boundaries whose count passes the filter is well formed. */
  lemma RecordedWellFormed(s: Setting, bw: real, lower: seq<Ext>)
    requires 0.0 < bw && Increasing(lower) && s.minNBin <= |lower| <= s.maxNBin
    ensures var rows := BinDetails(s.data, lower).value;
      WellFormed(s, Candidate(bw, Criterion(Frequencies(rows), |s.data|, bw), |lower|, rows))
  {
    var rows := BinDetails(s.data, lower).value;
    forall k | 0 <= k < |lower|
      ensures rows[k].frequency == CountIn(s.data, rows[k].lowerClose, rows[k].upperOpen)
    {
      BinDetailsCounts(s.data, lower, k);
    }
  }

  /** Evaluating boundaries records a well-formed candidate, or fails only on a single bin. */
  lemma EvaluateRecords(s: Setting, bw: real, lower: seq<Ext>)
    requires 0.0 < bw && s.minNBin <= |lower| <= s.maxNBin && 1 <= |lower|
    requires 2 <= |lower| ==> Increasing(lower)
    ensures Evaluate(s, bw, lower).Record? ==>
      Evaluate(s, bw, lower).candidate.width == bw && WellFormed(s, Evaluate(s, bw, lower).candidate)
    ensures Evaluate(s, bw, lower).Fail? ==> Evaluate(s, bw, lower).error == SingleBin && |lower| == 1
  {
    if 2 <= |lower| {
      RecordedWellFormed(s, bw, lower);
    }
  }

  /** A bin count that passes the filter is recorded with a well-formed layout unless it is one. */
  lemma PlaceRecords(s: Setting, bw: real, nBin: int, lowX: real)
    requires 0.0 < bw && 1 <= s.minNBin
    ensures Place(s, bw, nBin, lowX).Record? ==>
      Place(s, bw, nBin, lowX).candidate.width == bw && WellFormed(s, Place(s, bw, nBin, lowX).candidate)
    ensures Place(s, bw, nBin, lowX).Fail? ==> Place(s, bw, nBin, lowX).error == SingleBin && s.minNBin <= 1
  {
    if s.minNBin <= nBin <= s.maxNBin {
      if 2 <= nBin {
        LowerBoundariesIncreasing(lowX, bw, nBin);
      }
      EvaluateRecords(s, bw, LowerBoundaries(lowX, bw, nBin));
    }
  }

  /** A width that passes the filter is recorded with a well-formed layout unless its bin count is one. */
  lemma AssessRecords(s: Setting, bw: real)
    requires 0.0 < bw && 1 <= s.minNBin
    ensures Assess(s, bw).Record? ==> Assess(s, bw).candidate.width == bw && WellFormed(s, Assess(s, bw).candidate)
    ensures Assess(s, bw).Fail? ==> Assess(s, bw).error == SingleBin && s.minNBin <= 1
  {
    PlaceRecords(s, bw, BinsLeft(s, bw) + BinsRight(s, bw), LowX(s, bw));
  }

  /** The candidates of a combination are the recorded one and those of the rest. */
  lemma ThenMembers(step: Step, rest: Outcome)
    ensures forall c :: c in Then(step, rest).candidates ==> (step.Record? && c == step.candidate) || c in rest.candidates
  {
  }

  /**
   * Every recorded candidate is well formed with a width in [bw, maxW], and a
   * sweep fails only on a one-bin layout, which needs a minimum bin count of one.
   */
  lemma {:induction false} SweepWellFormed(s: Setting, minW: real, maxW: real, bw: real, phase: nat)
    requires 0.0 < minW <= bw && phase < 4 && 1 <= s.minNBin
    ensures forall c :: c in Sweep(s, minW, maxW, bw, phase).candidates ==> bw <= c.width <= maxW && WellFormed(s, c)
    ensures Sweep(s, minW, maxW, bw, phase).failure.Some? ==>
      Sweep(s, minW, maxW, bw, phase).failure == Some(SingleBin) && s.minNBin <= 1
    decreases Fuel(minW, maxW, bw)
  {
    if bw <= maxW {
      var next := Advance(bw, phase);
      FuelDecreases(minW, maxW, bw, next.0);
      AssessRecords(s, bw);
      SweepWellFormed(s, minW, maxW, next.0, next.1);
      ThenMembers(Assess(s, bw), Sweep(s, minW, maxW, next.0, next.1));
    }
  }

  /** Widths that are all at least lo and strictly increase. */
  ghost predicate Ascending(cs: seq<Candidate>, lo: real) {
    && (forall i :: 0 <= i < |cs| ==> lo <= cs[i].width)
    && (forall i, j :: 0 <= i < j < |cs| ==> cs[i].width < cs[j].width)
  }

  /** The recorded widths strictly increase and none is below the starting width. */
  lemma {:induction false} SweepIncreasing(s: Setting, minW: real, maxW: real, bw: real, phase: nat)
    requires 0.0 < minW <= bw && phase < 4 && 1 <= s.minNBin
    ensures Ascending(Sweep(s, minW, maxW, bw, phase).candidates, bw)
    decreases Fuel(minW, maxW, bw)
  {
    if bw <= maxW {
      var next := Advance(bw, phase);
      FuelDecreases(minW, maxW, bw, next.0);
      SweepIncreasing(s, minW, maxW, next.0, next.1);
      AscendingThen(Assess(s, bw), Sweep(s, minW, maxW, next.0, next.1), bw, next.0);
    }
  }

  /** Prepending a record of width bw to widths from next > bw on keeps the widths ascending. */
  lemma AscendingThen(step: Step, rest: Outcome, bw: real, next: real)
    requires bw < next
    requires step.Record? ==> step.candidate.width == bw
    requires Ascending(rest.candidates, next)
    ensures Ascending(Then(step, rest).candidates, bw)
  {
    if step.Record? {
      var cs := Then(step, rest).candidates;
      assert forall i :: 1 <= i < |cs| ==> cs[i] == rest.candidates[i - 1];
    }
  }

  /**
   * When the resolved maximum bin count is below the minimum, no width passes
   * the filter: the sweep records nothing and cannot fail.
   */
  lemma {:induction false} InvertedBoundsRecordNothing(s: Setting, minW: real, maxW: real, bw: real, phase: nat)
    requires 0.0 < minW <= bw && phase < 4 && 1 <= s.minNBin
    requires s.maxNBin < s.minNBin
    ensures Sweep(s, minW, maxW, bw, phase) == Outcome([], None)
    decreases Fuel(minW, maxW, bw)
  {
    if bw <= maxW {
      var next := Advance(bw, phase);
      FuelDecreases(minW, maxW, bw, next.0);
      InvertedBoundsRecordNothing(s, minW, maxW, next.0, next.1);
    }
  }

  /** Widths that are all nice widths from step k of the schedule on. */
  ghost predicate NiceFrom(cs: seq<Candidate>, minW: real, k: nat) {
    forall i :: 0 <= i < |cs| ==> NiceLater(cs[i].width, minW, k)
  }

  /** w is the nice width of step k of the schedule or of a later step. */
  ghost predicate NiceLater(w: real, minW: real, k: nat) {
    exists j: nat :: k <= j && w == NiceWidth(minW, j)
  }

  /** Every width a sweep from step k of the schedule records is a nice width of step k or later. */
  lemma {:induction false} SweepWidthsNice(s: Setting, minW: real, maxW: real, k: nat)
    requires 0.0 < minW && 1 <= s.minNBin
    ensures NiceFrom(Sweep(s, minW, maxW, Schedule(minW, k).0, Schedule(minW, k).1).candidates, minW, k)
    decreases Fuel(minW, maxW, Schedule(minW, k).0)
  {
    var bw := Schedule(minW, k).0;
    var phase := Schedule(minW, k).1;
    if bw <= maxW {
      var next := Advance(bw, phase);
      assert Schedule(minW, k + 1) == next;
      FuelDecreases(minW, maxW, bw, next.0);
      SweepWidthsNice(s, minW, maxW, k + 1);
      ScheduleIsNice(minW, k);
      NiceThen(Assess(s, bw), Sweep(s, minW, maxW, next.0, next.1), minW, k);
    }
  }

  /** Prepending a record of the nice width of step k to nice widths from step k + 1 on. */
  lemma NiceThen(step: Step, rest: Outcome, minW: real, k: nat)
    requires step.Record? ==> step.candidate.width == NiceWidth(minW, k)
    requires NiceFrom(rest.candidates, minW, k + 1)
    ensures NiceFrom(Then(step, rest).candidates, minW, k)
  {
    var cs := Then(step, rest).candidates;
    forall i | 0 <= i < |cs|
      ensures NiceLater(cs[i].width, minW, k)
    {
      if step.Record? && i == 0 {
        assert cs[i].width == NiceWidth(minW, k);
      } else {
        var i' := if step.Record? then i - 1 else i;
        assert cs[i] == rest.candidates[i'];
        var j: nat :| k + 1 <= j && rest.candidates[i'].width == NiceWidth(minW, j);
        assert k <= j;
      }
    }
  }

  /**
   * What a run records: well-formed candidates, with nice widths from the
   * smallest to the largest width in strictly increasing order; it fails only
   * on a one-bin layout, and records nothing when the bounds are inverted.
   */
  lemma RunCandidates(s: Setting)
    requires s.least < s.greatest && 1 <= s.minNBin && 0 < s.maxNBin
    ensures forall c :: c in Run(s).candidates ==>
      StartWidth(s) <= c.width <= StopWidth(s) && WellFormed(s, c)
    ensures Ascending(Run(s).candidates, StartWidth(s))
    ensures NiceFrom(Run(s).candidates, StartWidth(s), 0)
    ensures Run(s).failure.Some? ==> Run(s).failure == Some(SingleBin) && s.minNBin == 1
    ensures s.maxNBin < s.minNBin ==> Run(s) == Outcome([], None)
  {
    var minW, maxW := StartWidth(s), StopWidth(s);
    SweepWellFormed(s, minW, maxW, minW, 0);
    SweepIncreasing(s, minW, maxW, minW, 0);
    SweepWidthsNice(s, minW, maxW, 0);
    if s.maxNBin < s.minNBin {
      InvertedBoundsRecordNothing(s, minW, maxW, minW, 0);
    }
  }
}
