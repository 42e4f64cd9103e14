/** Values shared by every component: normalised 2D points, an optional
    value for the places where the program uses `null`, and the scalar
    helpers (clamping, exponential blending) that several files repeat. */
module Geometry {

  /** A point in normalised image coordinates, origin top-left. */
  datatype Point = Point(x: real, y: real)

  datatype Option<T> = None | Some(value: T)

  /** Squared Euclidean distance; the program compares `Math.sqrt` and
      `Math.hypot` results against thresholds, which this model does on the
      squares instead. */
  function SqDist(a: Point, b: Point): (d: real)
    ensures d >= 0.0
    ensures d == 0.0 <==> a == b
  {
    Square(a.x - b.x) + Square(a.y - b.y)
  }

  function Square(v: real): (r: real)
    ensures r >= 0.0
    ensures r == 0.0 <==> v == 0.0
  {
    if v >= 0.0 then MulNonneg(v, v); v * v
    else MulNonneg(-v, -v); v * v
  }

  lemma MulNonneg(a: real, b: real)
    requires a >= 0.0 && b >= 0.0
    ensures a * b >= 0.0
    ensures a * b == 0.0 <==> a == 0.0 || b == 0.0
  {
  }

  /** `0 <= f <= 1` scales a quantity toward zero without changing its sign. */
  lemma ScaleDown(f: real, d: real)
    requires 0.0 <= f <= 1.0
    ensures d >= 0.0 ==> 0.0 <= f * d <= d
    ensures d <= 0.0 ==> d <= f * d <= 0.0
  {
    if d >= 0.0 {
      MulNonneg(f, d);
      MulNonneg(1.0 - f, d);
    } else {
      MulNonneg(f, -d);
      MulNonneg(1.0 - f, -d);
    }
  }

  function Midpoint(a: Point, b: Point): (m: Point)
    ensures SqDist(a, m) == SqDist(m, b)
    ensures 4.0 * SqDist(a, m) == SqDist(a, b)
  {
    var m := Point((a.x + b.x) / 2.0, (a.y + b.y) / 2.0);
    assert a.x - m.x == m.x - b.x == (a.x - b.x) / 2.0;
    assert a.y - m.y == m.y - b.y == (a.y - b.y) / 2.0;
    HalfSquare(a.x - b.x);
    HalfSquare(a.y - b.y);
    m
  }

  lemma HalfSquare(v: real)
    ensures 4.0 * Square(v / 2.0) == Square(v)
  {
  }

  function Abs(v: real): (r: real)
    ensures r >= 0.0 && (r == v || r == -v)
  {
    if v < 0.0 then -v else v
  }

  /** `Math.max(lo, Math.min(hi, v))`. */
  function Clamp(v: real, lo: real, hi: real): (r: real)
    requires lo <= hi
    ensures lo <= r <= hi
    ensures lo <= v <= hi ==> r == v
    ensures v < lo ==> r == lo
    ensures v > hi ==> r == hi
  {
    var m := if v < hi then v else hi;
    if m > lo then m else lo
  }

  /** One exponential-smoothing step: a weight `alpha` on the new value and
      `1 - alpha` on the old one, that is, the old value moved by `alpha` of
      the gap. */
  function Blend(prev: real, next: real, alpha: real): (r: real)
    requires 0.0 <= alpha <= 1.0
    ensures next - r == (1.0 - alpha) * (next - prev)
    ensures prev <= next ==> prev <= r <= next
    ensures next <= prev ==> next <= r <= prev
  {
    var r := prev + alpha * (next - prev);
    BlendGap(prev, next, alpha, r);
    BlendRange(prev, next, alpha, r);
    r
  }

  lemma BlendGap(prev: real, next: real, alpha: real, r: real)
    requires r == prev + alpha * (next - prev)
    ensures next - r == (1.0 - alpha) * (next - prev)
  {
    assert (1.0 - alpha) * (next - prev) == (next - prev) - alpha * (next - prev);
  }

  lemma BlendRange(prev: real, next: real, alpha: real, r: real)
    requires 0.0 <= alpha <= 1.0
    requires r == prev + alpha * (next - prev)
    ensures prev <= next ==> prev <= r <= next
    ensures next <= prev ==> next <= r <= prev
  {
    var gap := next - prev;
    var step := alpha * gap;
    assert r == prev + step;
    ScaleDown(alpha, gap);
    assert gap >= 0.0 ==> 0.0 <= step <= gap;
    assert gap <= 0.0 ==> gap <= step <= 0.0;
  }

  function Pow(b: real, n: nat): real
  {
    if n == 0 then 1.0 else b * Pow(b, n - 1)
  }

  lemma MulAssoc(a: real, b: real, c: real)
    ensures a * (b * c) == (a * b) * c
  {
  }

  /** `n` blending steps toward a fixed target. */
  function BlendRepeatedly(start: real, target: real, alpha: real, n: nat): real
    requires 0.0 <= alpha <= 1.0
  {
    if n == 0 then start else Blend(BlendRepeatedly(start, target, alpha, n - 1), target, alpha)
  }

  /** After `n` steps toward a constant target the remaining gap is the first
      gap times `(1 - alpha)^n`; by `Blend`'s contract each step lands between
      the previous value and the target, so the approach is monotone. */
  lemma {:induction false} BlendRepeatedlyGap(start: real, target: real, alpha: real, n: nat)
    requires 0.0 <= alpha <= 1.0
    ensures target - BlendRepeatedly(start, target, alpha, n) == Pow(1.0 - alpha, n) * (target - start)
  {
    if n > 0 {
      BlendRepeatedlyGap(start, target, alpha, n - 1);
      var p, d := Pow(1.0 - alpha, n - 1), target - start;
      assert Pow(1.0 - alpha, n) == (1.0 - alpha) * p;
      BlendOneStep(start, target, alpha, n);
      MulAssoc(1.0 - alpha, p, d);
    }
  }

  /** One step of `BlendRepeatedlyGap`: each blend keeps `1 - alpha` of the
      remaining gap. */
  lemma BlendOneStep(start: real, target: real, alpha: real, n: nat)
    requires 0.0 <= alpha <= 1.0 && n > 0
    ensures target - BlendRepeatedly(start, target, alpha, n) ==
            (1.0 - alpha) * (target - BlendRepeatedly(start, target, alpha, n - 1))
  {
  }
}
