/** Optional values, run errors and results shared by the binner's modules. */
module Errors {

  datatype Option<T> = None | Some(value: T)

  /** The exceptions the binner raises, one constructor per raising site. */
  datatype Error =
    | EmptyInput          // optimal_binning: the data array is empty
    | DegenerateRange     // optimal_binning: the minimum equals the maximum
    | UndefinedWidthRange // log10 of a non-positive ratio, or a division by a zero bin count
    | NoBins              // an empty boundary array cannot be indexed
    | SingleBin           // the single-bin branch of bin_frequency calls a function NumPy lacks
    | IndexOutOfRange     // an accessor indexes a list with a stale optimal position

  datatype Result<T> = Ok(value: T) | Err(error: Error)
}

/** Exact-real stand-ins for the numeric primitives the binner uses. */
module Numeric {

  /** A real number extended with NumPy's -inf and +inf. */
  datatype Ext = NegInf | Fin(v: real) | PosInf

  /** u < b, where -inf is below and +inf above every real. */
  predicate Below(u: real, b: Ext) {
    match b
    case NegInf => false
    case Fin(x) => u < x
    case PosInf => true
  }

  /** u > b. */
  predicate Above(u: real, b: Ext) {
    match b
    case NegInf => true
    case Fin(x) => u > x
    case PosInf => false
  }

  /** math.ceil: the least integer that is not below x. */
  function Ceil(x: real): (r: int)
    ensures x <= r as real < x + 1.0
  {
    -((-x).Floor)
  }

  /** numpy.round to zero decimals: the nearest integer, ties going to the even one. */
  function RoundHalfEven(x: real): (r: int)
    ensures x - 0.5 <= r as real <= x + 0.5
    ensures r as real == x - 0.5 || r as real == x + 0.5 ==> r % 2 == 0
  {
    var f := x.Floor;
    var d := x - f as real;
    if d < 0.5 then f
    else if d > 0.5 then f + 1
    else if f % 2 == 0 then f
    else f + 1
  }

  /** 10 to a natural power. */
  function Pow10(e: nat): real {
    if e == 0 then 1.0 else 10.0 * Pow10(e - 1)
  }

  /** Powers of ten with a natural exponent are at least one. */
  lemma {:induction false} Pow10AtLeastOne(e: nat)
    ensures 1.0 <= Pow10(e)
  {
    if e > 0 {
      Pow10AtLeastOne(e - 1);
    }
  }

  /** math.pow(10.0, e) for an integer exponent e. */
  function TenPow(e: int): (p: real)
    ensures 0.0 < p
  {
    Pow10AtLeastOne(if e >= 0 then e else -e);
    if e >= 0 then Pow10(e) else 1.0 / Pow10(-e)
  }

  /** The decade of y >= 1: the e with 10^e <= y < 10^(e+1). */
  function FloorLog10AtLeastOne(y: real): (e: nat)
    requires 1.0 <= y
    ensures Pow10(e) <= y < 10.0 * Pow10(e)
    decreases y.Floor
  {
    if y < 10.0 then 0 else 1 + FloorLog10AtLeastOne(y / 10.0)
  }

  /** The least e >= 0 with y <= 10^e, for y >= 1. */
  function CeilLog10AtLeastOne(y: real): (e: nat)
    requires 1.0 <= y
    ensures y <= Pow10(e) && (e == 0 || 10.0 * y > Pow10(e))
    decreases y.Floor
  {
    if y <= 1.0 then 0
    else if y <= 10.0 then 1
    else 1 + CeilLog10AtLeastOne(y / 10.0)
  }

  /** math.floor(math.log10(x)) for x > 0: the e with 10^e <= x < 10^(e+1). */
  function FloorLog10(x: real): (e: int)
    requires 0.0 < x
    ensures TenPow(e) <= x < 10.0 * TenPow(e)
  {
    if x >= 1.0 then FloorLog10AtLeastOne(x)
    else
      var y := 1.0 / x;
      assert y * x == 1.0;
      assert 1.0 <= y by {
        Reciprocal(x, 1.0);
      }
      var c := CeilLog10AtLeastOne(y);
      if c == 0 then
        assert false;
        0
      else
        Reciprocal(y, Pow10(c));
        Reciprocal(Pow10(c - 1), y);
        assert 1.0 / y == x;
        -(c as int)
  }

  /** math.ceil(math.log10(x)) for x > 0: the e with 10^(e-1) < x <= 10^e. */
  function CeilLog10(x: real): (e: int)
    requires 0.0 < x
    ensures x <= TenPow(e) < 10.0 * x
  {
    if x >= 1.0 then CeilLog10AtLeastOne(x)
    else
      var y := 1.0 / x;
      assert y * x == 1.0;
      assert 1.0 <= y by {
        Reciprocal(x, 1.0);
      }
      var f := FloorLog10AtLeastOne(y);
      Reciprocal(Pow10(f), y);
      Reciprocal(y, 10.0 * Pow10(f));
      assert 1.0 / y == x;
      -(f as int)
  }

  /** For 0 < a <= b, 1 / b <= 1 / a, strictly when a < b. */
  lemma Reciprocal(a: real, b: real)
    requires 0.0 < a <= b
    ensures 1.0 / b <= 1.0 / a
    ensures a < b ==> 1.0 / b < 1.0 / a
  {
    var ra := 1.0 / a;
    var rb := 1.0 / b;
    assert ra * a == 1.0;
    assert rb * b == 1.0;
    assert ra * b - ra * a == ra * (b - a);
    ProductSigns(ra, b - a);
    assert (ra - rb) * b == ra * b - 1.0;
    FactorSigns(ra - rb, b);
  }

  /** The product of a positive and a non-negative number is non-negative, and positive when both are. */
  lemma ProductSigns(x: real, y: real)
    requires 0.0 < x && 0.0 <= y
    ensures 0.0 <= x * y
    ensures 0.0 < y ==> 0.0 < x * y
  {
  }

  /** A factor of a non-negative product with a positive other factor is non-negative, and positive when the product is. */
  lemma FactorSigns(e: real, c: real)
    requires 0.0 < c && 0.0 <= e * c
    ensures 0.0 <= e
    ensures 0.0 < e * c ==> 0.0 < e
  {
  }

  /** Multiplying by c > 0 preserves order, strict and non-strict. */
  lemma ScaleOrder(a: real, b: real, c: real)
    requires 0.0 < c
    ensures a <= b ==> c * a <= c * b
    ensures a < b ==> c * a < c * b
  {
    if a <= b {
      assert c * b - c * a == c * (b - a);
      ProductSigns(c, b - a);
    }
  }

  /** A square is non-negative, and zero for a zero base. */
  lemma SquareSigns(t: real)
    ensures 0.0 <= t * t
    ensures t == 0.0 ==> t * t == 0.0
  {
    if t > 0.0 {
      ProductSigns(t, t);
    } else if t < 0.0 {
      ProductSigns(-t, -t);
      assert (-t) * (-t) == t * t;
    }
  }

  /** Dividing by c and multiplying back gives the original value. */
  lemma DivMul(a: real, c: real)
    requires c != 0.0
    ensures c * (a / c) == a
  {
  }

  /** If r is within h of x, then c * r is within c * h of y = c * x, for c > 0. */
  lemma Around(x: real, r: real, h: real, c: real, y: real)
    requires 0.0 < c && c * x == y && x - h <= r <= x + h
    ensures y - c * h <= c * r <= y + c * h
  {
    ScaleOrder(x - h, r, c);
    ScaleOrder(r, x + h, c);
    assert c * (x - h) == c * x - c * h;
    assert c * (x + h) == c * x + c * h;
  }

  /** Scaling a comparison with x by c > 0, where y = c * x, in both directions. */
  lemma ScaleAgainst(x: real, m: real, c: real, y: real)
    requires 0.0 < c && c * x == y
    ensures m < x ==> c * m < y
    ensures x <= m ==> y <= c * m
  {
    ScaleOrder(m, x, c);
    ScaleOrder(x, m, c);
  }

  /** The sum of a sample, accumulated front to back. */
  function Sum(s: seq<real>): real {
    if s == [] then 0.0 else Sum(s[..|s| - 1]) + s[|s| - 1]
  }

  /** The sum of a sequence of counts. */
  function SumNat(s: seq<nat>): nat {
    if s == [] then 0 else s[0] + SumNat(s[1..])
  }

  /** Counting one more item in position b raises the total by one. */
  lemma {:induction false} SumNatBump(s: seq<nat>, b: nat)
    requires b < |s|
    ensures SumNat(s[b := s[b] + 1]) == SumNat(s) + 1
  {
    if b > 0 {
      assert s[b := s[b] + 1][1..] == s[1..][b - 1 := s[b] + 1];
      SumNatBump(s[1..], b - 1);
    } else {
      assert s[b := s[b] + 1][1..] == s[1..];
    }
  }

  /** A sequence of zero counts sums to zero. */
  lemma {:induction false} SumNatZeros(n: nat)
    ensures SumNat(seq(n, _ => 0)) == 0
  {
    if n > 0 {
      assert seq(n, _ => 0)[1..] == seq(n - 1, _ => 0);
      SumNatZeros(n - 1);
    }
  }

  /** The smallest value of a non-empty sample, with the scan order of a strict `<` update. */
  function SeqMin(s: seq<real>): (m: real)
    requires s != []
    ensures m in s
    ensures forall i :: 0 <= i < |s| ==> m <= s[i]
  {
    if |s| == 1 then s[0]
    else
      var init := s[..|s| - 1];
      var m := SeqMin(init);
      assert forall i :: 0 <= i < |s| - 1 ==> s[i] == init[i];
      if s[|s| - 1] < m then s[|s| - 1] else m
  }

  /** The largest value of a non-empty sample, with the scan order of a strict `>` update. */
  function SeqMax(s: seq<real>): (m: real)
    requires s != []
    ensures m in s
    ensures forall i :: 0 <= i < |s| ==> s[i] <= m
  {
    if |s| == 1 then s[0]
    else
      var init := s[..|s| - 1];
      var m := SeqMax(init);
      assert forall i :: 0 <= i < |s| - 1 ==> s[i] == init[i];
      if s[|s| - 1] > m then s[|s| - 1] else m
  }
}
