/** The two smoothers of the application: the exponential smoother applied to
    each new fingertip (`applySmoothing`) and the five-point weighted window
    applied to the whole trail before it is drawn (`smoothTrail`). */
module Smoothing {
  import opened Geometry

  /** Weight of the new fingertip in the exponential smoother. */
  const Alpha: real := 0.3

  /** `applySmoothing` on the stored value `prev`: the first point is taken as
      it is, later ones are blended axis by axis. */
  function Smooth(prev: Option<Point>, p: Point): (r: Point)
    ensures prev.None? ==> r == p
    ensures prev.Some? ==> r.x == Alpha * p.x + (1.0 - Alpha) * prev.value.x
    ensures prev.Some? ==> r.y == Alpha * p.y + (1.0 - Alpha) * prev.value.y
    ensures prev.Some? ==> Between(r.x, prev.value.x, p.x) && Between(r.y, prev.value.y, p.y)
  {
    if prev.None? then p
    else Point(Blend(prev.value.x, p.x, Alpha), Blend(prev.value.y, p.y, Alpha))
  }

  /** `v` lies between `a` and `b`, in either order. */
  predicate Between(v: real, a: real, b: real)
  {
    (a <= v <= b) || (b <= v <= a)
  }

  /** The smoother fed the same fingertip `n` times after `start`. */
  function SmoothRepeatedly(start: Point, p: Point, n: nat): Point
  {
    if n == 0 then start else Smooth(Some(SmoothRepeatedly(start, p, n - 1)), p)
  }

  /** Holding the finger still, each frame shrinks the gap to the fingertip
      by the factor 0.7 on both axes. */
  lemma {:induction false} SmoothConverges(start: Point, p: Point, n: nat)
    ensures p.x - SmoothRepeatedly(start, p, n).x == Pow(0.7, n) * (p.x - start.x)
    ensures p.y - SmoothRepeatedly(start, p, n).y == Pow(0.7, n) * (p.y - start.y)
  {
    SmoothAsBlend(start, p, n);
    BlendRepeatedlyGap(start.x, p.x, Alpha, n);
    BlendRepeatedlyGap(start.y, p.y, Alpha, n);
  }

  lemma {:induction false} SmoothAsBlend(start: Point, p: Point, n: nat)
    ensures SmoothRepeatedly(start, p, n) ==
            Point(BlendRepeatedly(start.x, p.x, Alpha, n), BlendRepeatedly(start.y, p.y, Alpha, n))
  {
    if n > 0 {
      SmoothAsBlend(start, p, n - 1);
    }
  }

  const WindowSize: nat := 5
  const HalfWindow: int := 2
  /** The window's weights, centre heaviest. */
  const Weights: seq<real> := [0.1, 0.2, 0.4, 0.2, 0.1]

  /** Weight slot `m` of the window around `i` falls inside a trail of
      length `n`. */
  predicate InWindow(n: nat, i: int, m: nat)
  {
    0 <= i + m - HalfWindow < n
  }

  /** Sum of the in-range weights among the first `m` slots. */
  function WeightSum(n: nat, i: int, m: nat): real
    requires m <= WindowSize
  {
    if m == 0 then 0.0
    else WeightSum(n, i, m - 1) + (if InWindow(n, i, m - 1) then Weights[m - 1] else 0.0)
  }

  /** Weighted sum of the in-range values among the first `m` slots. */
  function WindowSum(xs: seq<real>, i: int, m: nat): real
    requires m <= WindowSize
  {
    if m == 0 then 0.0
    else WindowSum(xs, i, m - 1) +
         (if InWindow(|xs|, i, m - 1) then xs[i + m - 1 - HalfWindow] * Weights[m - 1] else 0.0)
  }

  function Xs(trail: seq<Point>): (xs: seq<real>)
    ensures |xs| == |trail| && forall k :: 0 <= k < |xs| ==> xs[k] == trail[k].x
  {
    seq(|trail|, k requires 0 <= k < |trail| => trail[k].x)
  }

  function Ys(trail: seq<Point>): (ys: seq<real>)
    ensures |ys| == |trail| && forall k :: 0 <= k < |ys| ==> ys[k] == trail[k].y
  {
    seq(|trail|, k requires 0 <= k < |trail| => trail[k].y)
  }

  /** The centre weight is always present, so the normaliser is at least 0.4. */
  lemma {:induction false} WeightSumBelow(n: nat, i: int, m: nat)
    requires m <= WindowSize && 0 <= i < n
    ensures WeightSum(n, i, m) >= 0.0
    ensures m > HalfWindow ==> WeightSum(n, i, m) >= Weights[HalfWindow]
  {
    if m > 0 {
      WeightSumBelow(n, i, m - 1);
    }
  }

  /** The renormalised window average at index `i`. */
  function SmoothedAt(trail: seq<Point>, i: nat): Point
    requires i < |trail|
  {
    WeightSumBelow(|trail|, i, WindowSize);
    var w := WeightSum(|trail|, i, WindowSize);
    Point(WindowSum(Xs(trail), i, WindowSize) / w, WindowSum(Ys(trail), i, WindowSize) / w)
  }

  /** What `smoothTrail` returns: short trails as they are, longer ones
      point by point through the window. */
  function SmoothedTrail(trail: seq<Point>): (r: seq<Point>)
    ensures |r| == |trail|
    ensures |trail| < WindowSize ==> r == trail
  {
    if |trail| < WindowSize then trail
    else seq(|trail|, i requires 0 <= i < |trail| => SmoothedAt(trail, i))
  }

  /** `smoothTrail`, with its nested loops and accumulators. */
  method SmoothTrail(trail: seq<Point>) returns (smoothed: seq<Point>)
    ensures smoothed == SmoothedTrail(trail)
  {
    if |trail| < WindowSize {
      return trail;
    }
    smoothed := [];
    var i := 0;
    while i < |trail|
      invariant 0 <= i <= |trail|
      invariant |smoothed| == i
      invariant forall k :: 0 <= k < i ==> smoothed[k] == SmoothedAt(trail, k)
    {
      var p := SmoothWindow(trail, i);
      smoothed := smoothed + [p];
      i := i + 1;
    }
  }

  /** The inner loop of `smoothTrail` for one index. */
  method SmoothWindow(trail: seq<Point>, i: nat) returns (p: Point)
    requires i < |trail|
    ensures p == SmoothedAt(trail, i)
  {
    ghost var xs, ys := Xs(trail), Ys(trail);
    var weightedSumX, weightedSumY, weightSum := 0.0, 0.0, 0.0;
    var j: int := -HalfWindow;
    while j <= HalfWindow
      invariant -HalfWindow <= j <= HalfWindow + 1
      invariant weightedSumX == WindowSum(xs, i, j + HalfWindow)
      invariant weightedSumY == WindowSum(ys, i, j + HalfWindow)
      invariant weightSum == WeightSum(|trail|, i, j + HalfWindow)
    {
      var index := i + j;
      var weightIndex := j + HalfWindow;
      if 0 <= index < |trail| {
        weightedSumX := weightedSumX + trail[index].x * Weights[weightIndex];
        weightedSumY := weightedSumY + trail[index].y * Weights[weightIndex];
        weightSum := weightSum + Weights[weightIndex];
      }
      j := j + 1;
    }
    WeightSumBelow(|trail|, i, WindowSize);
    p := Point(weightedSumX / weightSum, weightedSumY / weightSum);
  }

  /** Every in-range value of the window around `i` lies in `[lo, hi]`. */
  predicate WindowWithin(xs: seq<real>, i: int, lo: real, hi: real)
  {
    forall k :: 0 <= k < |xs| && i - HalfWindow <= k <= i + HalfWindow ==> lo <= xs[k] <= hi
  }

  /** `c` times the in-range weights, slot by slot. */
  function ScaledWeightSum(c: real, n: nat, i: int, m: nat): real
    requires m <= WindowSize
  {
    if m == 0 then 0.0
    else ScaledWeightSum(c, n, i, m - 1) + (if InWindow(n, i, m - 1) then c * Weights[m - 1] else 0.0)
  }

  lemma {:induction false} ScaledWeightSumIsProduct(c: real, n: nat, i: int, m: nat)
    requires m <= WindowSize
    ensures ScaledWeightSum(c, n, i, m) == c * WeightSum(n, i, m)
  {
    if m > 0 {
      ScaledWeightSumIsProduct(c, n, i, m - 1);
      if InWindow(n, i, m - 1) {
        MulDistributes(c, WeightSum(n, i, m - 1), Weights[m - 1]);
      }
    }
  }

  lemma MulDistributes(c: real, a: real, b: real)
    ensures c * (a + b) == c * a + c * b
  {
  }

  /** Slot by slot, the weighted values lie between the weights scaled by the
      bounds. */
  lemma {:induction false} WindowSumBounds(xs: seq<real>, i: int, m: nat, lo: real, hi: real)
    requires m <= WindowSize && WindowWithin(xs, i, lo, hi)
    ensures ScaledWeightSum(lo, |xs|, i, m) <= WindowSum(xs, i, m) <= ScaledWeightSum(hi, |xs|, i, m)
  {
    if m > 0 {
      WindowSumBounds(xs, i, m - 1, lo, hi);
      if InWindow(|xs|, i, m - 1) {
        var v, w := xs[i + m - 1 - HalfWindow], Weights[m - 1];
        assert lo <= v <= hi && w >= 0.0;
        MulMonotoneReal(lo, v, w);
        MulMonotoneReal(v, hi, w);
      }
    }
  }

  lemma MulMonotoneReal(a: real, b: real, w: real)
    requires a <= b && w >= 0.0
    ensures a * w <= b * w
  {
    MulNonneg(b - a, w);
  }

  /** A quotient of bounds: `lo * w <= s <= hi * w` with `w > 0`. */
  lemma DivideBounds(s: real, w: real, lo: real, hi: real)
    requires w > 0.0 && lo * w <= s <= hi * w
    ensures lo <= s / w <= hi
  {
    var q := s / w;
    assert q * w == s;
    NegativeTimesPositive(q - lo, w);
    NegativeTimesPositive(hi - q, w);
  }

  lemma NegativeTimesPositive(a: real, w: real)
    requires w > 0.0
    ensures a < 0.0 ==> a * w < 0.0
  {
    if a < 0.0 {
      MulNonneg(-a, w);
    }
  }

  /** The renormalised average of one coordinate lies within any bounds of
      its in-range window. */
  lemma AverageWithin(xs: seq<real>, i: nat, lo: real, hi: real)
    requires i < |xs| && WindowWithin(xs, i, lo, hi)
    ensures WeightSum(|xs|, i, WindowSize) > 0.0
    ensures lo <= WindowSum(xs, i, WindowSize) / WeightSum(|xs|, i, WindowSize) <= hi
  {
    WeightSumBelow(|xs|, i, WindowSize);
    WindowSumBounds(xs, i, WindowSize, lo, hi);
    ScaledWeightSumIsProduct(lo, |xs|, i, WindowSize);
    ScaledWeightSumIsProduct(hi, |xs|, i, WindowSize);
    DivideBounds(WindowSum(xs, i, WindowSize), WeightSum(|xs|, i, WindowSize), lo, hi);
  }

  /** Each smoothed coordinate is a convex combination of its window: it lies
      within any bounds that hold for the in-range neighbours. */
  lemma SmoothedWithinWindow(trail: seq<Point>, i: nat, lo: Point, hi: Point)
    requires i < |trail|
    requires WindowWithin(Xs(trail), i, lo.x, hi.x) && WindowWithin(Ys(trail), i, lo.y, hi.y)
    ensures lo.x <= SmoothedAt(trail, i).x <= hi.x
    ensures lo.y <= SmoothedAt(trail, i).y <= hi.y
  {
    AverageWithin(Xs(trail), i, lo.x, hi.x);
    AverageWithin(Ys(trail), i, lo.y, hi.y);
  }

  /** A trail that stays on one point is left as it is. */
  lemma ConstantTrailUnchanged(trail: seq<Point>, p: Point)
    requires forall k :: 0 <= k < |trail| ==> trail[k] == p
    ensures SmoothedTrail(trail) == trail
  {
    if |trail| >= WindowSize {
      forall i | 0 <= i < |trail|
        ensures SmoothedAt(trail, i) == trail[i]
      {
        SmoothedWithinWindow(trail, i, p, p);
      }
    }
  }
}
