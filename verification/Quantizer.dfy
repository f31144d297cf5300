/** Scalar quantization to signed bytes (include/index/quantizer.hpp:36-92), over the reals. */
module Quantizer {

  type Vector = seq<real>

  /** The largest float, from which train starts its minima. */
  const FLOAT_MAX := 340282346638528859811704183484516925440.0
  const TINY := 0.000000001
  const INT32_MAX := 2147483647

  // ---- One component ----

  /** A cast from a floating-point number to an integer drops the fraction. */
  function Truncate(y: real): int {
    if y >= 0.0 then y.Floor else -((-y).Floor)
  }

  function Clamp(y: real, low: real, high: real): real {
    if y < low then low else if y > high then high else y
  }

  function Normalized(x: real, low: real, high: real): real {
    if high - low > TINY then (x - low) / (high - low) else 0.0
  }

  function Code(x: real, low: real, high: real): int {
    Truncate(Clamp(Normalized(x, low, high) * 254.0 - 127.0, -127.0, 127.0))
  }

  function Recovered(code: int, low: real, high: real): real {
    low + (code as real + 127.0) / 254.0 * (high - low)
  }

  function Abs(x: real): real {
    if x < 0.0 then -x else x
  }

  lemma TruncateNear(y: real)
    ensures Abs(Truncate(y) as real - y) < 1.0
    ensures -127.0 <= y <= 127.0 ==> -127 <= Truncate(y) <= 127
  {
  }

  lemma TruncateWhole(n: int)
    ensures Truncate(n as real) == n
  {
  }

  lemma ScaledBelow(t: real, range: real)
    requires Abs(t) < 1.0 && range > 0.0
    ensures Abs(t / 254.0 * range) < range / 254.0
  {
    var step := range / 254.0;
    assert t / 254.0 * range == t * step;
    NegativeProduct(t - 1.0, step);
    NegativeProduct(-1.0 - t, step);
    assert (t - 1.0) * step == t * step - step && (-1.0 - t) * step == -step - t * step;
  }

  /** y is where x lies on the scale of the codes. */
  lemma OnScale(x: real, low: real, high: real)
    requires low <= x <= high && high - low > TINY
    ensures var y := Normalized(x, low, high) * 254.0 - 127.0;
            -127.0 <= y <= 127.0 && x == low + (y + 127.0) / 254.0 * (high - low)
  {
    var range := high - low;
    var n := (x - low) / range;
    assert n * range == x - low;
    assert n >= 0.0 by { if n < 0.0 { NegativeProduct(n, range); } }
    assert n <= 1.0 by { if n > 1.0 { NegativeProduct(1.0 - n, range); } }
    assert (n * 254.0 - 127.0 + 127.0) / 254.0 == n;
  }

  lemma NegativeProduct(a: real, b: real)
    requires a < 0.0 && b > 0.0
    ensures a * b < 0.0
  {
  }

  lemma Spread(low: real, a: real, b: real, range: real)
    ensures (low + (a + 127.0) / 254.0 * range) - (low + (b + 127.0) / 254.0 * range) == (a - b) / 254.0 * range
  {
  }

  lemma ErrorOnScale(code: int, y: real, low: real, high: real, x: real)
    requires x == low + (y + 127.0) / 254.0 * (high - low)
    ensures Recovered(code, low, high) - x == (code as real - y) / 254.0 * (high - low)
  {
    Spread(low, code as real, y, high - low);
  }

  /** The code is the place on the scale without its fraction. */
  lemma CodeOnScale(x: real, low: real, high: real) returns (y: real)
    requires low <= x <= high && high - low > TINY
    ensures x == low + (y + 127.0) / 254.0 * (high - low)
    ensures -127 <= Code(x, low, high) <= 127 && Abs(Code(x, low, high) as real - y) < 1.0
  {
    y := Normalized(x, low, high) * 254.0 - 127.0;
    OnScale(x, low, high);
    assert Clamp(y, -127.0, 127.0) == y;
    TruncateNear(y);
  }

  /** A value inside the trained range is recovered to within one step of the scale, or, if the range is
      too small to divide by, within the range. */
  lemma RecoveredWithinStep(x: real, low: real, high: real)
    requires low <= x <= high
    ensures -127 <= Code(x, low, high) <= 127
    ensures high - low > TINY ==> Abs(Recovered(Code(x, low, high), low, high) - x) < (high - low) / 254.0
    ensures high - low <= TINY ==> Abs(Recovered(Code(x, low, high), low, high) - x) <= high - low
  {
    if high - low > TINY {
      var y := CodeOnScale(x, low, high);
      ErrorOnScale(Code(x, low, high), y, low, high, x);
      ScaledBelow(Code(x, low, high) as real - y, high - low);
    } else {
      TruncateWhole(-127);
      assert Recovered(-127, low, high) == low;
    }
  }

  lemma TruncatesTowardZero(y: real)
    ensures y >= 0.0 ==> 0 <= Truncate(y) && Truncate(y) as real <= y < Truncate(y) as real + 1.0
    ensures y <= 0.0 ==> Truncate(y) <= 0 && Truncate(y) as real - 1.0 < y <= Truncate(y) as real
  {
  }

  /** Which code a value gets: the ends of the scale for values outside the range, and inside it the place on
      the scale cut toward zero. */
  lemma CodeIs(x: real, low: real, high: real)
    requires high - low > TINY
    ensures var code, y := Code(x, low, high) as real, (x - low) / (high - low) * 254.0 - 127.0;
            && (x <= low ==> code == -127.0) && (x >= high ==> code == 127.0)
            && (low < x < high && y >= 0.0 ==> 0.0 <= code <= y < code + 1.0)
            && (low < x < high && y <= 0.0 ==> code - 1.0 < y <= code <= 0.0)
  {
    var n, y := (x - low) / (high - low), (x - low) / (high - low) * 254.0 - 127.0;
    Quotient(x - low, high - low);
    TruncatesTowardZero(Clamp(y, -127.0, 127.0));
    TruncateWhole(-127);
    TruncateWhole(127);
  }

  /** With a range too small to divide by every value gets the lowest code. */
  lemma FlatCode(x: real, low: real, high: real)
    requires high - low <= TINY
    ensures Code(x, low, high) == -127
  {
    TruncateWhole(-127);
  }

  lemma Quotient(a: real, b: real)
    requires b > 0.0
    ensures a <= 0.0 <==> a / b <= 0.0
    ensures a >= b <==> a / b >= 1.0
  {
    var q := a / b;
    assert q * b == a;
    if q > 0.0 { NegativeProduct(-q, b); }
    if q < 0.0 { NegativeProduct(q, b); }
    if q < 1.0 { NegativeProduct(q - 1.0, b); }
    if q > 1.0 { NegativeProduct(1.0 - q, b); }
  }

  /** Codes keep the order of the values. */
  lemma CodesKeepOrder(x: real, x': real, low: real, high: real)
    requires x <= x'
    ensures Code(x, low, high) <= Code(x', low, high)
  {
    if high - low > TINY {
      var range := high - low;
      SmallerQuotient(x - low, x' - low, range);
      var y, y' := Normalized(x, low, high) * 254.0 - 127.0, Normalized(x', low, high) * 254.0 - 127.0;
      TruncatesTowardZero(Clamp(y, -127.0, 127.0));
      TruncatesTowardZero(Clamp(y', -127.0, 127.0));
    }
  }

  lemma SmallerQuotient(a: real, b: real, c: real)
    requires a <= b && c > 0.0
    ensures a / c <= b / c
  {
    var p, q := a / c, b / c;
    assert p * c == a && q * c == b;
    if p > q { NegativeProduct(q - p, c); }
  }

  /** Of all signed bytes exactly those from -127 on come back from a round trip. */
  lemma CodeSurvives(code: int, low: real, high: real)
    requires -128 <= code <= 127 && high - low > TINY
    ensures Code(Recovered(code, low, high), low, high) == code <==> code >= -127
  {
    var range, share := high - low, (code as real + 127.0) / 254.0;
    var x := Recovered(code, low, high);
    assert x - low == share * range;
    Cancel(share, range);
    assert Normalized(x, low, high) == share;
    assert share * 254.0 - 127.0 == code as real;
    TruncateWhole(code);
    TruncateWhole(-127);
  }

  lemma Cancel(a: real, b: real)
    requires b > 0.0
    ensures a * b / b == a
  {
  }

  // ---- The quantizer ----

  ghost predicate Rectangular(vecs: seq<Vector>, dim: nat) {
    forall j :: 0 <= j < |vecs| ==> |vecs[j]| == dim
  }

  /** All components are floats. */
  ghost predicate Finite(vecs: seq<Vector>) {
    forall j, i :: 0 <= j < |vecs| && 0 <= i < |vecs[j]| ==> -FLOAT_MAX <= vecs[j][i] <= FLOAT_MAX
  }

  /** low and high are the least and the greatest component i of the vectors. */
  ghost predicate Range(vecs: seq<Vector>, i: nat, low: real, high: real)
    requires forall j :: 0 <= j < |vecs| ==> i < |vecs[j]|
  {
    && (forall j :: 0 <= j < |vecs| ==> low <= vecs[j][i] <= high)
    && (exists j :: 0 <= j < |vecs| && vecs[j][i] == low) && (exists j :: 0 <= j < |vecs| && vecs[j][i] == high)
  }

  class ScalarQuantizer {
    var low: seq<real>
    var high: seq<real>
    var dim: nat
    var trained: bool

    constructor ()
      ensures !trained && dim == 0
    {
      low, high, dim, trained := [], [], 0, false;
    }

    ghost predicate TrainedOn(vecs: seq<Vector>)
      reads this
    {
      && trained && vecs != [] && Rectangular(vecs, dim) && |low| == |high| == dim
      && forall i :: 0 <= i < dim ==> Range(vecs, i, low[i], high[i])
    }

    /** Widen the ranges by one vector. */
    method Widen(v: Vector)
      requires |v| == dim && |low| == |high| == dim
      modifies this`low, this`high
      ensures |low| == |high| == dim
      ensures forall i :: 0 <= i < dim ==>
                && low[i] == (if v[i] < old(low)[i] then v[i] else old(low)[i])
                && high[i] == (if v[i] > old(high)[i] then v[i] else old(high)[i])
    {
      for i := 0 to dim
        invariant |low| == |high| == dim && low[i..] == old(low)[i..] && high[i..] == old(high)[i..]
        invariant forall j :: 0 <= j < i ==>
                    && low[j] == (if v[j] < old(low)[j] then v[j] else old(low)[j])
                    && high[j] == (if v[j] > old(high)[j] then v[j] else old(high)[j])
      {
        assert low[i] == old(low)[i] && high[i] == old(high)[i];
        if v[i] < low[i] { low := low[i := v[i]]; }
        if v[i] > high[i] { high := high[i := v[i]]; }
      }
    }

    method Train(vecs: seq<Vector>)
      requires Finite(vecs) && (vecs != [] ==> Rectangular(vecs, |vecs[0]|))
      modifies this
      ensures vecs != [] ==> TrainedOn(vecs)
      ensures vecs == [] ==> trained == old(trained) && dim == old(dim) && low == old(low) && high == old(high)
    {
      if vecs == [] { return; }
      dim := |vecs[0]|;
      low, high := seq(dim, i => FLOAT_MAX), seq(dim, i => -FLOAT_MAX);
      for j := 0 to |vecs|
        invariant |low| == |high| == dim == |vecs[0]|
        invariant j == 0 ==> forall i :: 0 <= i < dim ==> low[i] == FLOAT_MAX && high[i] == -FLOAT_MAX
        invariant j > 0 ==> forall i :: 0 <= i < dim ==> Range(vecs[..j], i, low[i], high[i])
      {
        ghost var low', high' := low, high;
        Widen(vecs[j]);
        forall i | 0 <= i < dim ensures Range(vecs[..j + 1], i, low[i], high[i]) {
          if j == 0 { FirstRange(vecs, i, low[i], high[i]); }
          else { WiderRange(vecs, j, i, low'[i], high'[i], low[i], high[i]); }
        }
      }
      assert vecs[..|vecs|] == vecs;
      trained := true;
    }

    /** The first `n` components of `v` as codes; an untrained quantizer throws. */
    method Quantize(v: Vector, out: array<int>, n: nat) returns (thrown: bool)
      requires trained ==> n <= |v| && n <= out.Length && n <= |low| && n <= |high|
      modifies out
      ensures thrown == !trained
      ensures !thrown ==> forall i :: 0 <= i < n ==> out[i] == Code(v[i], low[i], high[i])
      ensures forall i :: 0 <= i < out.Length && (thrown || i >= n) ==> out[i] == old(out[i])
    {
      if !trained { return true; }
      for i := 0 to n
        invariant forall j :: 0 <= j < i ==> out[j] == Code(v[j], low[j], high[j])
        invariant forall j :: i <= j < out.Length ==> out[j] == old(out[j])
      {
        out[i] := Code(v[i], low[i], high[i]);
      }
      return false;
    }

    method Dequantize(codes: seq<int>, out: array<real>, n: nat) returns (thrown: bool)
      requires trained ==> n <= |codes| && n <= out.Length && n <= |low| && n <= |high|
      modifies out
      ensures thrown == !trained
      ensures !thrown ==> forall i :: 0 <= i < n ==> out[i] == Recovered(codes[i], low[i], high[i])
      ensures forall i :: 0 <= i < out.Length && (thrown || i >= n) ==> out[i] == old(out[i])
    {
      if !trained { return true; }
      for i := 0 to n
        invariant forall j :: 0 <= j < i ==> out[j] == Recovered(codes[j], low[j], high[j])
        invariant forall j :: i <= j < out.Length ==> out[j] == old(out[j])
      {
        out[i] := Recovered(codes[i], low[i], high[i]);
      }
      return false;
    }

    /** Every component of every training vector is recovered within a 254th of its range, or within the
        range if that is too small to divide by. */
    lemma TrainingVectorRecovered(vecs: seq<Vector>, j: nat, i: nat)
      requires TrainedOn(vecs) && j < |vecs| && i < dim
      ensures var x, range := vecs[j][i], high[i] - low[i];
              var error := Abs(Recovered(Code(x, low[i], high[i]), low[i], high[i]) - x);
              if range > TINY then error < range / 254.0 else error <= range
    {
      assert Range(vecs, i, low[i], high[i]);
      RecoveredWithinStep(vecs[j][i], low[i], high[i]);
    }
  }

  lemma FirstRange(vecs: seq<Vector>, i: nat, low: real, high: real)
    requires vecs != [] && i < |vecs[0]| && low == high == vecs[0][i]
    ensures Range(vecs[..1], i, low, high)
  {
  }

  lemma WiderRange(vecs: seq<Vector>, j: nat, i: nat, low: real, high: real, low': real, high': real)
    requires 0 < j < |vecs| && forall k :: 0 <= k <= j ==> i < |vecs[k]|
    requires Range(vecs[..j], i, low, high)
    requires low' == (if vecs[j][i] < low then vecs[j][i] else low) && high' == (if vecs[j][i] > high then vecs[j][i] else high)
    ensures Range(vecs[..j + 1], i, low', high')
  {
  }

  // ---- The integer distance ----

  function Square(d: int): nat {
    d * d
  }

  function SumOfSquares(a: seq<int>, b: seq<int>, n: nat): (s: nat)
    requires n <= |a| && n <= |b|
  {
    if n == 0 then 0 else SumOfSquares(a, b, n - 1) + Square(a[n - 1] - b[n - 1])
  }

  /** The squared Euclidean distance of what the codes stand for, where every component has its own range. */
  function RecoveredDistance(a: seq<int>, b: seq<int>, low: seq<real>, high: seq<real>, n: nat): real
    requires n <= |a| && n <= |b| && n <= |low| && n <= |high|
  {
    if n == 0 then 0.0
    else
      var d := Recovered(a[n - 1], low[n - 1], high[n - 1]) - Recovered(b[n - 1], low[n - 1], high[n - 1]);
      RecoveredDistance(a, b, low, high, n - 1) + d * d
  }

  lemma RecoveredDifference(a: int, b: int, low: real, high: real, step: real)
    requires step == (high - low) / 254.0
    ensures var d := Recovered(a, low, high) - Recovered(b, low, high);
            d == (a - b) as real * step && d * d == (step * step) * (Square(a - b) as real)
  {
    var d, k := Recovered(a, low, high) - Recovered(b, low, high), (a - b) as real;
    assert high - low == 254.0 * step;
    assert (a as real + 127.0) / 254.0 * (254.0 * step) == (a as real + 127.0) * step;
    assert (b as real + 127.0) / 254.0 * (254.0 * step) == (b as real + 127.0) * step;
    assert (a as real + 127.0) * step - (b as real + 127.0) * step == k * step;
    assert d == k * step;
    assert (a - b) * (a - b) == Square(a - b);
    SquareOfProduct(k, step);
    SquareAsReal(a - b);
  }

  lemma SquareOfProduct(k: real, step: real)
    ensures (k * step) * (k * step) == (step * step) * (k * k)
  {
  }

  lemma SquareAsReal(k: int)
    ensures (k as real) * (k as real) == (k * k) as real
  {
  }

  /** Where all components have the same range, the integer distance is the distance of the recovered vectors in
      units of a squared step; so it orders them as that does. */
  lemma DistanceIsScaled(a: seq<int>, b: seq<int>, low: seq<real>, high: seq<real>, range: real, n: nat)
    requires n <= |a| && n <= |b| && n <= |low| && n <= |high|
    requires forall i :: 0 <= i < n ==> high[i] - low[i] == range
    ensures RecoveredDistance(a, b, low, high, n) == (range / 254.0) * (range / 254.0) * (SumOfSquares(a, b, n) as real)
  {
    DistanceInUnits(a, b, low, high, range / 254.0, (range / 254.0) * (range / 254.0), n);
  }

  lemma {:induction false} DistanceInUnits(a: seq<int>, b: seq<int>, low: seq<real>, high: seq<real>, step: real, unit: real, n: nat)
    requires n <= |a| && n <= |b| && n <= |low| && n <= |high| && unit == step * step
    requires forall i :: 0 <= i < n ==> (high[i] - low[i]) / 254.0 == step
    ensures RecoveredDistance(a, b, low, high, n) == unit * (SumOfSquares(a, b, n) as real)
  {
    if n == 0 {
    } else {
      DistanceInUnits(a, b, low, high, step, unit, n - 1);
      RecoveredDifference(a[n - 1], b[n - 1], low[n - 1], high[n - 1], step);
      SumScaled(unit, SumOfSquares(a, b, n - 1), Square(a[n - 1] - b[n - 1]));
    }
  }

  lemma SumScaled(scale: real, a: nat, b: nat)
    ensures scale * (a as real) + scale * (b as real) == scale * ((a + b) as real)
  {
  }

  ghost predicate Codes(s: seq<int>) {
    forall i :: 0 <= i < |s| ==> -127 <= s[i] <= 127
  }

  const MOST := 254 * 254

  lemma {:induction false} SumBound(a: seq<int>, b: seq<int>, n: nat)
    requires Codes(a) && Codes(b) && n <= |a| && n <= |b|
    ensures SumOfSquares(a, b, n) <= n * MOST
  {
    if n == 0 {
    } else {
      SumBound(a, b, n - 1);
      SquareBound(a[n - 1] - b[n - 1]);
    }
  }

  lemma SquareBound(d: int)
    requires -254 <= d <= 254
    ensures Square(d) <= MOST
  {
  }

  /** The sum and every partial sum stay within 32 bits. */
  ghost predicate NoOverflow(a: seq<int>, b: seq<int>, n: nat)
    requires n <= |a| && n <= |b|
  {
    forall m :: 0 <= m <= n ==> SumOfSquares(a, b, m) <= INT32_MAX
  }

  function Repeat(code: int, n: nat): (s: seq<int>)
    ensures |s| == n && forall i :: 0 <= i < n ==> s[i] == code
  {
    if n == 0 then [] else Repeat(code, n - 1) + [code]
  }

  lemma {:induction false} ExtremeSum(a: seq<int>, b: seq<int>, n: nat)
    requires n <= |a| && n <= |b| && forall i :: 0 <= i < n ==> a[i] == 127 && b[i] == -127
    ensures SumOfSquares(a, b, n) == n * MOST
  {
    if n == 0 {
    } else {
      ExtremeSum(a, b, n - 1);
      assert a[n - 1] - b[n - 1] == 254;
    }
  }

  /** No two quantized vectors overflow the distance exactly up to 33286 dimensions. */
  lemma DistanceFits(dim: nat)
    ensures dim <= 33286 <==> forall a, b :: |a| == dim && |b| == dim && Codes(a) && Codes(b) ==> NoOverflow(a, b, dim)
  {
    if dim <= 33286 {
      forall a, b | |a| == dim && |b| == dim && Codes(a) && Codes(b) ensures NoOverflow(a, b, dim) {
        forall m: nat | m <= dim ensures SumOfSquares(a, b, m) <= INT32_MAX { SumBound(a, b, m); }
      }
    } else {
      var a, b := Repeat(127, dim), Repeat(-127, dim);
      ExtremeSum(a, b, dim);
      assert Codes(a) && Codes(b) && SumOfSquares(a, b, dim) > INT32_MAX;
      assert !NoOverflow(a, b, dim);
    }
  }

  method QuantizeDistance(a: seq<int>, b: seq<int>, dim: nat) returns (sum: int)
    requires dim <= |a| && dim <= |b|
    ensures sum == SumOfSquares(a, b, dim)
  {
    sum := 0;
    for i := 0 to dim
      invariant sum == SumOfSquares(a, b, i)
    {
      var diff := a[i] - b[i];
      sum := sum + diff * diff;
    }
  }
}
