/**
 * The `Binning` object: four parallel candidate lists, the resolved bin-count
 * bounds and the running optimum, updated in place by `OptimalBinning`, and
 * the accessors that read them back.
 */
module Binning {
  import opened Errors
  import opened Numeric
  import opened Frequency
  import opened Search

  /** One pass over the sample: its size, its total, and its smallest and largest values (+inf and -inf when empty). */
  method Summarize(data: seq<real>) returns (n: nat, total: real, least: Ext, greatest: Ext)
    ensures n == |data| && total == Sum(data)
    ensures data == [] ==> least == PosInf && greatest == NegInf
    ensures data != [] ==> least == Fin(SeqMin(data)) && greatest == Fin(SeqMax(data))
  {
    n, total, least, greatest := 0, 0.0, PosInf, NegInf;
    for i := 0 to |data|
      invariant n == i && total == Sum(data[..i])
      invariant i == 0 ==> least == PosInf && greatest == NegInf
      invariant i > 0 ==> least == Fin(SeqMin(data[..i])) && greatest == Fin(SeqMax(data[..i]))
    {
      var u := data[i];
      assert data[..i + 1][..i] == data[..i];
      n := n + 1;
      total := total + u;
      if Above(u, greatest) {
        greatest := Fin(u);
      }
      if Below(u, least) {
        least := Fin(u);
      }
    }
    assert data[..|data|] == data;
  }

  /**
   * The lowest value and its position, scanning with a strict `<` from +inf:
   * the first position of the minimum, or none for an empty list.
   */
  method FirstMinimum(values: seq<real>) returns (lowest: Ext, position: Option<nat>)
    ensures position.None? <==> values == []
    ensures position.None? ==> lowest == PosInf
    ensures position.Some? ==> position.value < |values| && lowest == Fin(values[position.value])
    ensures position.Some? ==> forall i :: 0 <= i < |values| ==> values[position.value] <= values[i]
    ensures position.Some? ==> forall i :: 0 <= i < position.value ==> values[position.value] < values[i]
  {
    lowest, position := PosInf, None;
    for i := 0 to |values|
      invariant position.None? <==> i == 0
      invariant position.None? ==> lowest == PosInf
      invariant position.Some? ==> position.value < i && lowest == Fin(values[position.value])
      invariant position.Some? ==> forall k :: 0 <= k < i ==> values[position.value] <= values[k]
      invariant position.Some? ==> forall k :: 0 <= k < position.value ==> values[position.value] < values[k]
    {
      if Below(values[i], lowest) {
        lowest, position := Fin(values[i]), Some(i);
      }
    }
  }

  /** The minimum bin count after defaulting: 2 when none is given. */
  function ResolvedMin(minArg: Option<int>): (m: int)
    ensures minArg.None? ==> m == 2
    ensures minArg.Some? ==> m == minArg.value
  {
    match minArg
    case None => 2
    case Some(m) => m
  }

  /** The maximum bin count after defaulting: half the sample size, rounded down, when none is given. */
  function ResolvedMax(maxArg: Option<int>, n: nat): (m: int)
    ensures maxArg.None? ==> 0 <= m && 2 * m <= n < 2 * m + 2
    ensures maxArg.Some? ==> m == maxArg.value
  {
    match maxArg
    case None => n / 2
    case Some(m) => m
  }

  /** A row of the criterion table: BIN_WIDTH, CRITERION and N_BIN. */
  datatype CriterionRow = CriterionRow(binWidth: real, criterion: real, nBin: int)

  class Binning {
    /** The widths of the recorded candidates, in the order examined. */
    var binWidthCandidate: seq<real>
    /** The criterion of each recorded candidate. */
    var listCriterion: seq<real>
    /** The bin count of each recorded candidate. */
    var listNBin: seq<int>
    /** The bin table of each recorded candidate. */
    var listBinBoundary: seq<seq<Bin>>
    /** The resolved bin-count bounds of the last run, none before the first. */
    var maxNBin: Option<int>
    var minNBin: Option<int>
    /** The lowest criterion found, +inf before any run records a candidate. */
    var optimalCriterion: Ext
    /** The position of the lowest criterion in the lists of the run that found it. */
    var optimalPosition: Option<nat>

    /** The four lists run in parallel. */
    ghost predicate Parallel()
      reads this
    {
      && |listCriterion| == |binWidthCandidate|
      && |listNBin| == |binWidthCandidate|
      && |listBinBoundary| == |binWidthCandidate|
    }

    /** Parallel lists with strictly increasing widths, and an optimum that is set exactly when it is finite. */
    ghost predicate Valid()
      reads this
    {
      && Parallel()
      && (forall i, j :: 0 <= i < j < |binWidthCandidate| ==> binWidthCandidate[i] < binWidthCandidate[j])
      && (optimalPosition.None? <==> optimalCriterion == PosInf)
      && optimalCriterion != NegInf
    }

    /** The recorded candidates, one per position of the four lists. */
    ghost function Candidates(): (cs: seq<Candidate>)
      reads this
      requires Parallel()
      ensures |cs| == |binWidthCandidate|
    {
      var widths, criteria, counts, tables := binWidthCandidate, listCriterion, listNBin, listBinBoundary;
      seq(|widths|, i requires 0 <= i < |widths| => Candidate(widths[i], criteria[i], counts[i], tables[i]))
    }

    /** A fresh binner: empty lists, no bounds and no optimum. */
    constructor ()
      ensures Valid() && Candidates() == []
      ensures maxNBin == None && minNBin == None
      ensures optimalCriterion == PosInf && optimalPosition == None
    {
      binWidthCandidate, listCriterion, listNBin, listBinBoundary := [], [], [], [];
      maxNBin, minNBin := None, None;
      optimalCriterion, optimalPosition := PosInf, None;
    }

    /**
     * The bin table of `data` for the given lower boundaries: each value goes
     * to the first bin whose successor boundary exceeds it, or to the last bin.
     */
    method BinFrequency(data: seq<real>, lower: seq<Ext>) returns (r: Result<seq<Bin>>)
      ensures r == BinDetails(data, lower)
    {
      var n := |lower|;
      var upper := new Ext[n](_ => Fin(0.0));
      if n == 0 {
        return Err(NoBins);
      }
      upper[n - 1] := PosInf;
      var freq := new nat[n](_ => 0);
      if n >= 2 {
        for k := 0 to n - 1
          modifies upper
          invariant forall i :: 0 <= i < k ==> upper[i] == lower[i + 1]
          invariant upper[n - 1] == PosInf
        {
          upper[k] := lower[k + 1];
        }
        assert data[..0] == [];
        for j := 0 to |data|
          modifies freq
          invariant freq[..] == Histogram(data[..j], lower)
        {
          var u := data[j];
          assert data[..j + 1][..j] == data[..j];
          var found := false;
          var i := 0;
          while i < n - 1
            modifies freq
            invariant 0 <= i <= n - 1
            invariant forall k :: 0 < k <= i ==> !Below(u, lower[k])
            invariant !found && freq[..] == Histogram(data[..j], lower)
          {
            if Below(u, lower[i + 1]) {
              BinIndexUnique(u, lower, i);
              found := true;
              freq[i] := freq[i] + 1;
              assert freq[..] == Histogram(data[..j + 1], lower);
              break;
            }
            i := i + 1;
          }
          if !found {
            BinIndexUnique(u, lower, n - 1);
            freq[n - 1] := freq[n - 1] + 1;
          }
          assert freq[..] == Histogram(data[..j + 1], lower);
        }
        assert data[..|data|] == data;
        var uppers, counts := upper[..], freq[..];
        var rows := seq(n, k requires 0 <= k < n => Bin(lower[k], uppers[k], counts[k]));
        assert forall k :: 0 <= k < n ==> uppers[k] == UpperOpen(lower, k);
        assert rows == seq(n, k requires 0 <= k < n => Bin(lower[k], UpperOpen(lower, k), Histogram(data, lower)[k]));
        return Ok(rows);
      } else {
        return Err(SingleBin);
      }
    }
  
    /** Count the data in the layout of the boundaries and score the counts. */
    method Score(s: Setting, bw: real, lower: seq<Ext>) returns (step: Step)
      requires 0.0 < bw && 1 <= |lower|
      ensures step == Evaluate(s, bw, lower)
    {
      var details := BinFrequency(s.data, lower);
      match details
      case Err(e) =>
        step := Fail(e);
      case Ok(rows) =>
        var criterion := Criterion(Frequencies(rows), |s.data|, bw);
        step := Record(Candidate(bw, criterion, |lower|, rows));
    }

    /**
     * One examined width: the bins around the nearest multiple of bw to the
     * mean, the count filter, and the scored layout of the boundaries.
     */
    method Examine(s: Setting, bw: real) returns (step: Step)
      requires 0.0 < bw && 1 <= s.minNBin
      ensures step == Assess(s, bw)
    {
      var nBin := BinsLeft(s, bw) + BinsRight(s, bw);
      if s.minNBin <= nBin <= s.maxNBin {
        var lower := LowerBoundaries(LowX(s, bw), bw, nBin);
        step := Score(s, bw, lower);
      } else {
        step := Skip;
      }
    }

    /** Candidates of ascending widths leave the width list strictly increasing. */
    lemma WidthsAscending(lo: real)
      requires Parallel() && Ascending(Candidates(), lo)
      ensures forall i, j :: 0 <= i < j < |binWidthCandidate| ==> binWidthCandidate[i] < binWidthCandidate[j]
    {
      var cs := Candidates();
      forall i, j | 0 <= i < j < |binWidthCandidate|
        ensures binWidthCandidate[i] < binWidthCandidate[j]
      {
        assert cs[i].width == binWidthCandidate[i] && cs[j].width == binWidthCandidate[j];
      }
    }

    /** Append a candidate to the four lists. */
    method Append(c: Candidate)
      requires Parallel()
      modifies this
      ensures Parallel() && Candidates() == old(Candidates()) + [c]
      ensures maxNBin == old(maxNBin) && minNBin == old(minNBin)
      ensures optimalCriterion == old(optimalCriterion) && optimalPosition == old(optimalPosition)
    {
      binWidthCandidate := binWidthCandidate + [c.width];
      listCriterion := listCriterion + [c.criterion];
      listNBin := listNBin + [c.nBin];
      listBinBoundary := listBinBoundary + [c.layout];
      assert Candidates() == old(Candidates()) + [c];
    }

    /**
     * The width loop: from minW, while the width does not exceed maxW, examine
     * it, append a recorded candidate to the four lists, and advance. The run
     * stops at the first failure. Returns the count and the failure, if any.
     */
    method SweepWidths(s: Setting, minW: real, maxW: real) returns (nCandidates: nat, failure: Option<Error>)
      requires 0.0 < minW && 1 <= s.minNBin
      requires binWidthCandidate == [] && listCriterion == [] && listNBin == [] && listBinBoundary == []
      modifies this
      ensures Parallel() && nCandidates == |binWidthCandidate|
      ensures Outcome(Candidates(), failure) == Sweep(s, minW, maxW, minW, 0)
      ensures maxNBin == old(maxNBin) && minNBin == old(minNBin)
      ensures optimalCriterion == old(optimalCriterion) && optimalPosition == old(optimalPosition)
    {
      nCandidates := 0;
      var phase: nat := 0;
      var bw := minW;
      assert Candidates() == [];
      assert Join([], Sweep(s, minW, maxW, bw, phase)) == Sweep(s, minW, maxW, minW, 0);
      while bw <= maxW
        invariant 0.0 < minW <= bw && phase < 4
        invariant Parallel() && nCandidates == |binWidthCandidate|
        invariant Join(Candidates(), Sweep(s, minW, maxW, bw, phase)) == Sweep(s, minW, maxW, minW, 0)
        invariant maxNBin == old(maxNBin) && minNBin == old(minNBin)
        invariant optimalCriterion == old(optimalCriterion) && optimalPosition == old(optimalPosition)
        decreases Remaining(minW, maxW, bw, phase)
      {
        ghost var before := Candidates();
        ghost var next := Advance(bw, phase);
        JoinStep(s, minW, maxW, bw, phase, before);

        var step := Examine(s, bw);
        if step.Fail? {
          return nCandidates, Some(step.error);
        }
        if step.Record? {
          nCandidates := nCandidates + 1;
          Append(step.candidate);
        }

        if phase == 1 {
          bw := 1.25 * bw;
        } else {
          bw := 2.0 * bw;
        }
        phase := phase + 1;
        if phase == 4 {
          phase := 0;
        }
        assert bw == next.0;
        assert phase == next.1;
      }
      return nCandidates, None;
    }

    /**
     * Store the bin-count bounds: the arguments, or 2 and n // 2 by default.
     * The reordering block that follows writes the maximum twice and so
     * changes neither bound.
     */
    method ResolveBounds(n: nat, minArg: Option<int>, maxArg: Option<int>)
      modifies this
      ensures minNBin == Some(ResolvedMin(minArg)) && maxNBin == Some(ResolvedMax(maxArg, n))
      ensures binWidthCandidate == old(binWidthCandidate) && listCriterion == old(listCriterion)
      ensures listNBin == old(listNBin) && listBinBoundary == old(listBinBoundary)
      ensures optimalCriterion == old(optimalCriterion) && optimalPosition == old(optimalPosition)
    {
      if minArg.None? {
        minNBin := Some(2);
      } else {
        minNBin := minArg;
      }
      if maxArg.None? {
        maxNBin := Some(n / 2);
      } else {
        maxNBin := maxArg;
      }
      // The reordering step writes the maximum twice and leaves the minimum as it is.
      if maxNBin.value < minNBin.value {
        var u := maxNBin;
        maxNBin := minNBin;
        maxNBin := u;
      }
    }

    /**
     * Summarize the sample, resolve the bin-count bounds, and sweep the nice
     * widths from 10^floor(log10(range / max)) to 10^ceil(log10(range / min)),
     * recording each candidate that passes the filter and keeping the first
     * lowest criterion as the optimum. Returns the number of candidates.
     */
    method OptimalBinning(data: seq<real>, minArg: Option<int>, maxArg: Option<int>) returns (r: Result<nat>)
      requires Valid()
      modifies this
      ensures Valid()
      ensures data == [] ==> r == Err(EmptyInput) && unchanged(this)
      ensures data != [] ==>
        minNBin == Some(ResolvedMin(minArg)) && maxNBin == Some(ResolvedMax(maxArg, |data|))
      ensures data != [] && !(SeqMin(data) < SeqMax(data)) ==> r == Err(DegenerateRange)
      ensures data != [] && SeqMin(data) < SeqMax(data) && !(0 < ResolvedMin(minArg) && 0 < ResolvedMax(maxArg, |data|)) ==>
        r == Err(UndefinedWidthRange)
      ensures r.Err? && r.error != SingleBin ==>
        && binWidthCandidate == old(binWidthCandidate) && listCriterion == old(listCriterion)
        && listNBin == old(listNBin) && listBinBoundary == old(listBinBoundary)
      ensures data != [] && SeqMin(data) < SeqMax(data) && 0 < ResolvedMin(minArg) && 0 < ResolvedMax(maxArg, |data|) ==>
        var outcome := Run(SettingOf(data, ResolvedMin(minArg), ResolvedMax(maxArg, |data|)));
        && Candidates() == outcome.candidates
        && (outcome.failure.Some? ==> r == Err(outcome.failure.value))
        && (outcome.failure.None? ==> r == Ok(|outcome.candidates|))
      ensures data != [] && SeqMin(data) < SeqMax(data) && 0 < ResolvedMax(maxArg, |data|) < ResolvedMin(minArg) ==>
        r == Ok(0) && binWidthCandidate == []
      ensures r.Err? || binWidthCandidate == [] ==>
        optimalCriterion == old(optimalCriterion) && optimalPosition == old(optimalPosition)
      ensures r.Ok? && binWidthCandidate != [] ==>
        && optimalPosition.Some? && optimalPosition.value < |listCriterion|
        && optimalCriterion == Fin(listCriterion[optimalPosition.value])
        && (forall i :: 0 <= i < |listCriterion| ==> listCriterion[optimalPosition.value] <= listCriterion[i])
        && (forall i :: 0 <= i < optimalPosition.value ==> listCriterion[optimalPosition.value] < listCriterion[i])
    {
      var n, total, least, greatest := Summarize(data);
      if n == 0 {
        return Err(EmptyInput);
      }
      var mean := total / n as real;
      var lo, hi := least.v, greatest.v;
      var range := hi - lo;

      ResolveBounds(n, minArg, maxArg);

      if !(range > 0.0) {
        return Err(DegenerateRange);
      }
      var minN, maxN := minNBin.value, maxNBin.value;
      if maxN <= 0 || minN <= 0 {
        return Err(UndefinedWidthRange);
      }
      var s := Setting(data, mean, lo, hi, minN, maxN);
      assert s == SettingOf(data, minN, maxN);
      r := SearchOptimum(s);
      if maxN < minN {
        InvertedBoundsRecordNothing(s, StartWidth(s), StopWidth(s), StartWidth(s), 0);
      }
    }

    /**
     * The part of a run after the checks: reset the lists, sweep the widths
     * between StartWidth and StopWidth, and unless the sweep failed, keep the
     * first lowest criterion as the optimum.
     */
    method SearchOptimum(s: Setting) returns (r: Result<nat>)
      requires Valid() && s.least < s.greatest && 1 <= s.minNBin && 0 < s.maxNBin
      modifies this
      ensures Valid()
      ensures Candidates() == Run(s).candidates
      ensures Run(s).failure.Some? ==> r == Err(Run(s).failure.value)
      ensures Run(s).failure.None? ==> r == Ok(|Run(s).candidates|)
      ensures r.Err? ==> r.error == SingleBin
      ensures maxNBin == old(maxNBin) && minNBin == old(minNBin)
      ensures r.Err? || binWidthCandidate == [] ==>
        optimalCriterion == old(optimalCriterion) && optimalPosition == old(optimalPosition)
      ensures r.Ok? && binWidthCandidate != [] ==>
        && optimalPosition.Some? && optimalPosition.value < |listCriterion|
        && optimalCriterion == Fin(listCriterion[optimalPosition.value])
        && (forall i :: 0 <= i < |listCriterion| ==> listCriterion[optimalPosition.value] <= listCriterion[i])
        && (forall i :: 0 <= i < optimalPosition.value ==> listCriterion[optimalPosition.value] < listCriterion[i])
    {
      binWidthCandidate, listCriterion, listNBin, listBinBoundary := [], [], [], [];
      var nCandidates, failure := SweepWidths(s, StartWidth(s), StopWidth(s));
      RunCandidates(s);
      WidthsAscending(StartWidth(s));
      if failure.Some? {
        return Err(failure.value);
      }

      var lowest, position := FirstMinimum(listCriterion);
      if position.Some? {
        optimalCriterion := lowest;
        optimalPosition := position;
      }
      return Ok(nCandidates);
    }

    /** The criterion table, ordered by width: the rows of the lists, which already increase in width. */
    function BinningCriterion(): (rows: seq<CriterionRow>)
      reads this
      requires Valid()
      ensures |rows| == |binWidthCandidate|
      ensures forall i :: 0 <= i < |rows| ==>
        rows[i] == CriterionRow(binWidthCandidate[i], listCriterion[i], listNBin[i])
      ensures forall i, j :: 0 <= i < j < |rows| ==> rows[i].binWidth < rows[j].binWidth
    {
      var widths, criteria, counts := binWidthCandidate, listCriterion, listNBin;
      seq(|widths|, i requires 0 <= i < |widths| => CriterionRow(widths[i], criteria[i], counts[i]))
    }

    /** The bin table at the optimal position; none without an optimum, an index error for a stale position. */
    function OptimalBoundary(): (r: Result<Option<seq<Bin>>>)
      reads this
      requires Valid()
      ensures optimalPosition.None? ==> r == Ok(None)
      ensures optimalPosition.Some? && optimalPosition.value < |listBinBoundary| ==>
        r == Ok(Some(listBinBoundary[optimalPosition.value]))
      ensures optimalPosition.Some? && optimalPosition.value >= |listBinBoundary| ==> r == Err(IndexOutOfRange)
    {
      match optimalPosition
      case None => Ok(None)
      case Some(p) => if p < |listBinBoundary| then Ok(Some(listBinBoundary[p])) else Err(IndexOutOfRange)
    }

    /** The bin count at the optimal position; 0 without an optimum, an index error for a stale position. */
    function OptimalNBin(): (r: Result<int>)
      reads this
      requires Valid()
      ensures optimalPosition.None? ==> r == Ok(0)
      ensures optimalPosition.Some? && optimalPosition.value < |listNBin| ==> r == Ok(listNBin[optimalPosition.value])
      ensures optimalPosition.Some? && optimalPosition.value >= |listNBin| ==> r == Err(IndexOutOfRange)
    {
      match optimalPosition
      case None => Ok(0)
      case Some(p) => if p < |listNBin| then Ok(listNBin[p]) else Err(IndexOutOfRange)
    }

    /** The width at the optimal position; none without an optimum, an index error for a stale position. */
    function OptimalWidth(): (r: Result<Option<real>>)
      reads this
      requires Valid()
      ensures optimalPosition.None? ==> r == Ok(None)
      ensures optimalPosition.Some? && optimalPosition.value < |binWidthCandidate| ==>
        r == Ok(Some(binWidthCandidate[optimalPosition.value]))
      ensures optimalPosition.Some? && optimalPosition.value >= |binWidthCandidate| ==> r == Err(IndexOutOfRange)
    {
      match optimalPosition
      case None => Ok(None)
      case Some(p) => if p < |binWidthCandidate| then Ok(Some(binWidthCandidate[p])) else Err(IndexOutOfRange)
    }

    /**
     * When the lists hold the candidates of a run and the optimum points into
     * them, the accessors read back one consistent candidate: a width in the
     * examined range, a bin table that partitions the data with one row per
     * bin, and a criterion recomputable from that table.
     */
    lemma OptimumReadBack(s: Setting)
      requires Valid() && s.least < s.greatest && 1 <= s.minNBin && 0 < s.maxNBin
      requires Candidates() == Run(s).candidates
      requires optimalPosition.Some? && optimalPosition.value < |binWidthCandidate|
      ensures OptimalWidth().Ok? && OptimalWidth().value.Some?
      ensures OptimalBoundary().Ok? && OptimalBoundary().value.Some?
      ensures var width := OptimalWidth().value.value;
        var table := OptimalBoundary().value.value;
        && StartWidth(s) <= width <= StopWidth(s)
        && OptimalNBin() == Ok(|table|)
        && 2 <= |table| && Increasing(LowerCloses(table))
        && SumNat(Frequencies(table)) == |s.data|
        && listCriterion[optimalPosition.value] == Criterion(Frequencies(table), |s.data|, width)
    {
      var p := optimalPosition.value;
      RunCandidates(s);
      assert Candidates()[p] in Run(s).candidates;
    }
  }
}
