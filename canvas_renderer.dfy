/** The 2D renderer's own trail buffer: mirrored canvas-pixel points with a
    timestamp, capped in length and thinned out by age on every frame. */
module Canvas {
  import opened Geometry
  import opened Sampling

  const MaxTrailLength: nat := 200
  const CanvasWidth: real := 640.0
  const CanvasHeight: real := 480.0
  /** Seconds a trail point stays on screen. */
  const MaxAge: real := 2.0

  /** A point handed to `addTrailPoint`: a coordinate that is not a number is
      `None`. */
  datatype RawPoint = RawPoint(x: Option<real>, y: Option<real>)

  /** A stored trail entry, in canvas pixels, stamped in milliseconds. */
  datatype TimedPoint = TimedPoint(x: real, y: real, timestamp: int)

  predicate IsValidPoint(point: Option<RawPoint>)
  {
    point.Some? && point.value.x.Some? && point.value.y.Some?
  }

  /** The camera image is mirrored horizontally, then scaled to the canvas. */
  function ToCanvas(p: RawPoint, now: int): (t: TimedPoint)
    requires p.x.Some? && p.y.Some?
    ensures t.timestamp == now
    ensures 0.0 <= p.x.value <= 1.0 ==> 0.0 <= t.x <= CanvasWidth
    ensures 0.0 <= p.y.value <= 1.0 ==> 0.0 <= t.y <= CanvasHeight
    ensures t.x + p.x.value * CanvasWidth == CanvasWidth
    ensures t.y == p.y.value * CanvasHeight
  {
    var x, y := p.x.value, p.y.value;
    TimedPoint((1.0 - x) * CanvasWidth, y * CanvasHeight, now)
  }

  /** Appending to a capped buffer: one entry in, the oldest out on overflow. */
  function Push(trail: seq<TimedPoint>, t: TimedPoint): (r: seq<TimedPoint>)
    ensures |trail| <= MaxTrailLength ==> |r| <= MaxTrailLength
    ensures |r| > 0 && r[|r| - 1] == t
    ensures |trail| < MaxTrailLength ==> r == trail + [t]
    ensures |trail| >= MaxTrailLength ==> r == trail[1..] + [t]
  {
    var pushed := trail + [t];
    if |pushed| > MaxTrailLength then pushed[1..] else pushed
  }

  /** `(now - timestamp) / 1000 < 2.0`, with the age in seconds. */
  predicate IsRecent(t: TimedPoint, now: int)
  {
    (now - t.timestamp) as real / 1000.0 < MaxAge
  }

  /** `Array.prototype.filter` with the age test. */
  function KeepRecent(trail: seq<TimedPoint>, now: int): (r: seq<TimedPoint>)
    ensures |r| <= |trail|
    ensures forall i :: 0 <= i < |r| ==> IsRecent(r[i], now)
  {
    if trail == [] then []
    else
      var rest := KeepRecent(trail[1..], now);
      if IsRecent(trail[0], now) then [trail[0]] + rest else rest
  }

  /** The filter keeps exactly the recent entries. */
  lemma {:induction false} KeepRecentMembers(trail: seq<TimedPoint>, now: int, t: TimedPoint)
    ensures t in KeepRecent(trail, now) <==> t in trail && IsRecent(t, now)
    decreases |trail|
  {
    if trail != [] {
      KeepRecentMembers(trail[1..], now, t);
      assert trail == [trail[0]] + trail[1..];
    }
  }

  /** The filter works entry by entry, so it keeps the original order:
      filtering a concatenation concatenates the filtered parts. */
  lemma {:induction false} KeepRecentAppend(a: seq<TimedPoint>, b: seq<TimedPoint>, now: int)
    ensures KeepRecent(a + b, now) == KeepRecent(a, now) + KeepRecent(b, now)
    decreases |a|
  {
    if a == [] {
      assert a + b == b;
    } else {
      assert (a + b)[1..] == a[1..] + b;
      KeepRecentAppend(a[1..], b, now);
    }
  }

  /** An entry stamped in the same frame survives the filter. */
  lemma FreshPointIsRecent(t: TimedPoint, now: int)
    requires t.timestamp == now
    ensures IsRecent(t, now)
  {
  }

  function Positions(trail: seq<TimedPoint>): (ps: seq<Point>)
    ensures |ps| == |trail|
    ensures forall i :: 0 <= i < |ps| ==> ps[i] == Point(trail[i].x, trail[i].y)
  {
    seq(|trail|, i requires 0 <= i < |trail| => Point(trail[i].x, trail[i].y))
  }

  /** `simplifyAndSmoothTrail`: the downsampled positions of the trail. */
  method SimplifyAndSmoothTrail(trail: seq<TimedPoint>, targetPoints: nat) returns (result: seq<Point>)
    ensures result == Positions(Downsample(trail, targetPoints))
  {
    if |trail| <= targetPoints {
      result := Positions(trail);
      return;
    }
    result := [];
    var i := 0;
    while i < targetPoints
      invariant 0 <= i <= targetPoints
      invariant |result| == i
      invariant forall k :: 0 <= k < i ==>
                  result[k] == Point(trail[SampleIndex(k, |trail|, targetPoints)].x,
                                     trail[SampleIndex(k, |trail|, targetPoints)].y)
    {
      var index := SampleIndex(i, |trail|, targetPoints);
      var point := trail[index];
      result := result + [Point(point.x, point.y)];
      i := i + 1;
    }
  }

  class CanvasRenderer {
    var trail: seq<TimedPoint>
    var isAnimating: bool

    ghost predicate Valid()
      reads this
    {
      |trail| <= MaxTrailLength
    }

    constructor ()
      ensures Valid() && trail == [] && !isAnimating
    {
      trail := [];
      isAnimating := false;
    }

    /** `addTrailPoint` at time `now`: an absent point or one with a
        non-numeric coordinate is ignored. */
    method AddTrailPoint(point: Option<RawPoint>, now: int)
      requires Valid()
      modifies this
      ensures Valid()
      ensures isAnimating == old(isAnimating)
      ensures !IsValidPoint(point) ==> trail == old(trail)
      ensures IsValidPoint(point) ==> trail == Push(old(trail), ToCanvas(point.value, now))
    {
      if point.None? || point.value.x.None? || point.value.y.None? {
        return;
      }
      var canvasX := (1.0 - point.value.x.value) * CanvasWidth;
      var canvasY := point.value.y.value * CanvasHeight;
      trail := trail + [TimedPoint(canvasX, canvasY, now)];
      if |trail| > MaxTrailLength {
        trail := trail[1..];
      }
    }

    method ClearTrail()
      modifies this
      ensures trail == [] && isAnimating == old(isAnimating)
    {
      trail := [];
    }

    /** The state change of `render` for a frame at time `now`: nothing while
        the heart animation plays; otherwise record the fingertip, then drop
        every entry two seconds old or older. */
    method Render(indexFingerTip: Option<RawPoint>, now: int)
      requires Valid()
      modifies this
      ensures Valid()
      ensures isAnimating == old(isAnimating)
      ensures old(isAnimating) ==> trail == old(trail)
      ensures !old(isAnimating) && !IsValidPoint(indexFingerTip) ==>
                trail == KeepRecent(old(trail), now)
      ensures !old(isAnimating) && IsValidPoint(indexFingerTip) ==>
                trail == KeepRecent(Push(old(trail), ToCanvas(indexFingerTip.value, now)), now)
    {
      if isAnimating {
        return;
      }
      if indexFingerTip.Some? {
        AddTrailPoint(indexFingerTip, now);
      }
      trail := KeepRecent(trail, now);
    }
  }

  /** A frame with a valid fingertip always leaves that point as the newest
      entry of the trail. */
  lemma RenderKeepsNewestPoint(trail: seq<TimedPoint>, p: RawPoint, now: int)
    requires p.x.Some? && p.y.Some?
    ensures var r := KeepRecent(Push(trail, ToCanvas(p, now)), now);
            |r| > 0 && r[|r| - 1] == ToCanvas(p, now)
  {
    var pushed := Push(trail, ToCanvas(p, now));
    var t := pushed[|pushed| - 1];
    assert pushed == pushed[..|pushed| - 1] + [t];
    KeepRecentAppend(pushed[..|pushed| - 1], [t], now);
    FreshPointIsRecent(t, now);
    assert KeepRecent([t], now) == [t] by {
      assert [t][1..] == [];
    }
  }
}
