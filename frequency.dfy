/**
 * What `bin_frequency` computes: each data value is placed in a left-closed,
 * right-open bin found by a linear scan of the lower boundaries, and the bin
 * table lists, per bin, its lower bound, its upper bound and its count.
 */
module Frequency {
  import opened Errors
  import opened Numeric

  /** One row of a bin table: LOWER_CLOSE, UPPER_OPEN and FREQUENCY. */
  datatype Bin = Bin(lowerClose: Ext, upperOpen: Ext, frequency: nat)

  /** The upper bound of bin k: the next lower boundary, or +inf for the last bin. */
  function UpperOpen(lower: seq<Ext>, k: nat): Ext
    requires k < |lower|
  {
    if k < |lower| - 1 then lower[k + 1] else PosInf
  }

  /**
   * Over increasing boundaries no upper bound is -inf, and every finite lower
   * bound lies strictly below its upper bound: each bin is a non-empty interval.
   */
  lemma UpperOpenAbove(lower: seq<Ext>, k: nat)
    requires Increasing(lower) && k < |lower|
    ensures UpperOpen(lower, k) != NegInf
    ensures 1 <= k ==> Below(lower[k].v, UpperOpen(lower, k))
  {
  }

  /**
   * The bin the scan puts u in when it starts at bin `from`: the first i with
   * u < lower[i + 1], or the last bin when no boundary exceeds u.
   */
  function ScanFrom(u: real, lower: seq<Ext>, from: nat): (i: nat)
    requires 2 <= |lower| && from < |lower|
    ensures from <= i < |lower|
    ensures forall k :: from < k <= i ==> !Below(u, lower[k])
    ensures i < |lower| - 1 ==> Below(u, lower[i + 1])
    decreases |lower| - from
  {
    if from == |lower| - 1 then from
    else if Below(u, lower[from + 1]) then from
    else ScanFrom(u, lower, from + 1)
  }

  /**
   * The bin a value is counted in: u lies at or above its lower boundary
   * (the first bin has none) and below its upper bound, and no earlier bin's
   * upper bound exceeds u.
   */
  function BinIndex(u: real, lower: seq<Ext>): (b: nat)
    requires 2 <= |lower|
    ensures b < |lower|
    ensures (b == 0 || !Below(u, lower[b])) && Below(u, UpperOpen(lower, b))
    ensures forall k :: 0 < k <= b ==> !Below(u, lower[k])
  {
    ScanFrom(u, lower, 0)
  }

  /** The bin index is the only bin that is a first match: every bin meeting BinIndex's contract is BinIndex. */
  lemma BinIndexUnique(u: real, lower: seq<Ext>, i: nat)
    requires 2 <= |lower| && i < |lower|
    requires forall k :: 0 < k <= i ==> !Below(u, lower[k])
    requires i == |lower| - 1 || Below(u, lower[i + 1])
    ensures BinIndex(u, lower) == i
  {
  }

  /** The per-bin counts after the values of `data` have been placed one by one. */
  function Histogram(data: seq<real>, lower: seq<Ext>): (h: seq<nat>)
    requires 2 <= |lower|
    ensures |h| == |lower|
  {
    if data == [] then seq(|lower|, _ => 0)
    else
      var h := Histogram(data[..|data| - 1], lower);
      var b := BinIndex(data[|data| - 1], lower);
      h[b := h[b] + 1]
  }

  /** The frequency column of a bin table. */
  function Frequencies(rows: seq<Bin>): (f: seq<nat>)
    ensures |f| == |rows|
    ensures forall k :: 0 <= k < |rows| ==> f[k] == rows[k].frequency
  {
    seq(|rows|, k requires 0 <= k < |rows| => rows[k].frequency)
  }

  /** The lower-bound column of a bin table. */
  function LowerCloses(rows: seq<Bin>): (l: seq<Ext>)
    ensures |l| == |rows|
    ensures forall k :: 0 <= k < |rows| ==> l[k] == rows[k].lowerClose
  {
    seq(|rows|, k requires 0 <= k < |rows| => rows[k].lowerClose)
  }

  /**
   * The bin table of `bin_frequency`: an index error for an empty boundary
   * array, a failure of the single-bin branch, and otherwise one row per
   * boundary whose counts partition the data.
   */
  function BinDetails(data: seq<real>, lower: seq<Ext>): (r: Result<seq<Bin>>)
    ensures r.Ok? <==> 2 <= |lower|
    ensures |lower| == 0 ==> r == Err(NoBins)
    ensures |lower| == 1 ==> r == Err(SingleBin)
    ensures r.Ok? ==> |r.value| == |lower| && LowerCloses(r.value) == lower
    ensures r.Ok? ==> forall k :: 0 <= k < |lower| ==> r.value[k].upperOpen == UpperOpen(lower, k)
    ensures r.Ok? ==> SumNat(Frequencies(r.value)) == |data|
  {
    if |lower| == 0 then Err(NoBins)
    else if |lower| == 1 then Err(SingleBin)
    else
      var h := Histogram(data, lower);
      var rows := seq(|lower|, k requires 0 <= k < |lower| => Bin(lower[k], UpperOpen(lower, k), h[k]));
      assert Frequencies(rows) == h;
      HistogramPartition(data, lower);
      Ok(rows)
  }

  /** Every value is counted exactly once: the counts sum to the sample size. */
  lemma {:induction false} HistogramPartition(data: seq<real>, lower: seq<Ext>)
    requires 2 <= |lower|
    ensures SumNat(Histogram(data, lower)) == |data|
  {
    if data == [] {
      SumNatZeros(|lower|);
    } else {
      HistogramPartition(data[..|data| - 1], lower);
      SumNatBump(Histogram(data[..|data| - 1], lower), BinIndex(data[|data| - 1], lower));
    }
  }

  /** Boundaries as `optimal_binning` builds them: -inf, then finite values in strictly increasing order. */
  ghost predicate Increasing(lower: seq<Ext>) {
    && 2 <= |lower|
    && lower[0] == NegInf
    && (forall k :: 1 <= k < |lower| ==> lower[k].Fin?)
    && (forall i, j :: 1 <= i < j < |lower| ==> lower[i].v < lower[j].v)
  }

  /** u lies in bin k: lower[k] <= u < UpperOpen(lower, k). */
  predicate InBin(u: real, lower: seq<Ext>, k: nat)
    requires k < |lower|
  {
    !Below(u, lower[k]) && Below(u, UpperOpen(lower, k))
  }

  /** For increasing boundaries the scan puts u in bin k exactly when u lies in that bin's interval. */
  lemma BinIndexPlacement(u: real, lower: seq<Ext>, k: nat)
    requires Increasing(lower) && k < |lower|
    ensures BinIndex(u, lower) == k <==> InBin(u, lower, k)
  {
    var r := BinIndex(u, lower);
    if r == k && k > 0 {
      assert !Below(u, lower[k]);
    }
  }

  /** The number of values of `data` in the interval [lo, hi). */
  function CountIn(data: seq<real>, lo: Ext, hi: Ext): nat {
    if data == [] then 0
    else
      var u := data[|data| - 1];
      CountIn(data[..|data| - 1], lo, hi) + (if !Below(u, lo) && Below(u, hi) then 1 else 0)
  }

  /** For increasing boundaries, bin k counts exactly the values in [lower[k], UpperOpen(lower, k)). */
  lemma {:induction false} HistogramCountsBin(data: seq<real>, lower: seq<Ext>, k: nat)
    requires Increasing(lower) && k < |lower|
    ensures Histogram(data, lower)[k] == CountIn(data, lower[k], UpperOpen(lower, k))
  {
    if data != [] {
      HistogramCountsBin(data[..|data| - 1], lower, k);
      BinIndexPlacement(data[|data| - 1], lower, k);
    }
  }

  /** The bin table of increasing boundaries counts, in each row, the values between that row's bounds. */
  lemma BinDetailsCounts(data: seq<real>, lower: seq<Ext>, k: nat)
    requires Increasing(lower) && k < |lower|
    ensures BinDetails(data, lower).Ok?
    ensures var row := BinDetails(data, lower).value[k];
      row.frequency == CountIn(data, row.lowerClose, row.upperOpen)
  {
    HistogramCountsBin(data, lower, k);
  }
}
