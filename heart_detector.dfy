/** The heart-shape classifier: a fixed geometric test over a drawn trail of
    normalised points, guarded by a cooldown flag that a positive answer sets. */
module HeartDetector {
  import opened Geometry

  const MinPoints: nat := 12
  const MaxPoints: nat := 400
  /** Milliseconds until the timer scheduled by a positive answer clears the
      cooldown; the timer itself is the event `Detector.CooldownElapsed`. */
  const CooldownDuration: nat := 1500

  const MinWidth: real := 0.06
  const MinHeight: real := 0.08
  const MaxWidth: real := 0.9
  const MaxHeight: real := 0.95
  const MinAspect: real := 0.8
  const MaxAspect: real := 3.0
  /** The upper and lower bands start this fraction of the height away from
      the vertical centre. */
  const BandFraction: real := 0.1
  const MinLobePoints: nat := 3
  const MinBottomPoints: nat := 3
  const MaxBottomFraction: real := 0.9
  const MaxClosureFraction: real := 0.5

  /** The running extremes of the bounding-box loop. */
  datatype Box = Box(minX: real, maxX: real, minY: real, maxY: real) {
    function Width(): real { maxX - minX }
    function Height(): real { maxY - minY }
    function CenterX(): real { (minX + maxX) / 2.0 }
    function CenterY(): real { (minY + maxY) / 2.0 }
  }

  /** The loop starts from minX = minY = 1 and maxX = maxY = 0, so it finds the
      true extremes only of points inside the unit square. */
  const StartBox := Box(1.0, 0.0, 1.0, 0.0)

  function Widen(b: Box, p: Point): Box
  {
    Box(if p.x < b.minX then p.x else b.minX,
        if p.x > b.maxX then p.x else b.maxX,
        if p.y < b.minY then p.y else b.minY,
        if p.y > b.maxY then p.y else b.maxY)
  }

  function BoundingBox(ps: seq<Point>): Box
  {
    if ps == [] then StartBox else Widen(BoundingBox(ps[..|ps| - 1]), ps[|ps| - 1])
  }

  /** The three regions the classifier counts points in. In the upper band a
      point exactly on the vertical centre line counts as right. */
  datatype Region = UpperLeft | UpperRight | Lower

  predicate InUpperBand(p: Point, b: Box)
  {
    p.y < b.CenterY() - b.Height() * BandFraction
  }

  predicate InLowerBand(p: Point, b: Box)
  {
    p.y > b.CenterY() + b.Height() * BandFraction
  }

  predicate InRegion(p: Point, b: Box, r: Region)
  {
    match r
    case UpperLeft => InUpperBand(p, b) && p.x < b.CenterX()
    case UpperRight => InUpperBand(p, b) && !(p.x < b.CenterX())
    case Lower => InLowerBand(p, b)
  }

  /** The counter loops: how many points of `ps` fall in region `r`. */
  function Count(ps: seq<Point>, b: Box, r: Region): nat
  {
    if ps == [] then 0
    else Count(ps[..|ps| - 1], b, r) + (if InRegion(ps[|ps| - 1], b, r) then 1 else 0)
  }

  /** The horizontal extremes of the lower-band points, folded from lo = 1 and
      hi = 0 like the bounding box. */
  datatype Span = Span(lo: real, hi: real)

  function LowerSpan(ps: seq<Point>, b: Box): Span
  {
    if ps == [] then Span(1.0, 0.0)
    else
      var s := LowerSpan(ps[..|ps| - 1], b);
      var p := ps[|ps| - 1];
      if InLowerBand(p, b) then
        Span(if p.x < s.lo then p.x else s.lo, if p.x > s.hi then p.x else s.hi)
      else s
  }

  /** The classifier's verdict on a trail, cooldown aside: every feature
      check of `detectHeart`, in the order the code makes them. The closure
      test compares `sqrt(d2) > 0.5 * width` as `d2 > (0.5 * width)^2`, which
      is the same test because the width is already known to be positive. */
  predicate IsHeart(trail: seq<Point>)
  {
    && MinPoints <= |trail| <= MaxPoints
    && var b := BoundingBox(trail);
    && SizeOk(b)
    && AspectOk(b)
    && LobesOk(trail, b)
    && TaperOk(trail, b)
    && ClosureOk(trail, b)
  }

  predicate SizeOk(b: Box)
  {
    && MinWidth <= b.Width() && MinHeight <= b.Height()
    && b.Width() <= MaxWidth && b.Height() <= MaxHeight
  }

  /** Only asked of a box that passed `SizeOk`, so the width is not zero. */
  predicate AspectOk(b: Box)
  {
    b.Width() != 0.0 && MinAspect <= b.Height() / b.Width() <= MaxAspect
  }

  predicate LobesOk(trail: seq<Point>, b: Box)
  {
    Count(trail, b, UpperLeft) >= MinLobePoints && Count(trail, b, UpperRight) >= MinLobePoints
  }

  predicate TaperOk(trail: seq<Point>, b: Box)
  {
    && Count(trail, b, Lower) >= MinBottomPoints
    && var s := LowerSpan(trail, b);
    && s.hi - s.lo <= b.Width() * MaxBottomFraction
  }

  predicate ClosureOk(trail: seq<Point>, b: Box)
  {
    |trail| > 0 && SqDist(trail[0], trail[|trail| - 1]) <= Square(b.Width() * MaxClosureFraction)
  }

  /** The geometric body of `detectHeart`: the same checks in the same order,
      each loop over the trail being one of the three scans below. */
  method Classify(trail: seq<Point>) returns (isHeart: bool)
    ensures isHeart == IsHeart(trail)
  {
    if |trail| < MinPoints || |trail| > MaxPoints {
      return false;
    }

    var b := ScanBoundingBox(trail);
    var width := b.maxX - b.minX;
    var height := b.maxY - b.minY;

    if width < MinWidth || height < MinHeight { return false; }
    if width > MaxWidth || height > MaxHeight { return false; }

    var aspectRatio := height / width;
    if aspectRatio < MinAspect || aspectRatio > MaxAspect { return false; }

    isHeart := CheckOutline(trail, b);
  }

  /** The checks of `detectHeart` after the aspect ratio: the two upper lobes,
      the tapering bottom, and the closure of the path. */
  method CheckOutline(trail: seq<Point>, b: Box) returns (ok: bool)
    requires |trail| > 0
    ensures ok == (LobesOk(trail, b) && TaperOk(trail, b) && ClosureOk(trail, b))
  {
    var width := b.maxX - b.minX;
    var leftTopCount, rightTopCount := CountLobes(trail, b);
    if leftTopCount < MinLobePoints || rightTopCount < MinLobePoints {
      return false;
    }

    var bottomPointCount, bottomMinX, bottomMaxX := ScanBottom(trail, b);
    if bottomPointCount < MinBottomPoints {
      return false;
    }

    var bottomWidth := bottomMaxX - bottomMinX;
    if bottomWidth > width * MaxBottomFraction {
      return false;
    }

    var startPoint := trail[0];
    var endPoint := trail[|trail| - 1];
    var closureSquared := Square(endPoint.x - startPoint.x) + Square(endPoint.y - startPoint.y);
    if closureSquared > Square(width * MaxClosureFraction) {
      return false;
    }

    return true;
  }

  /** The bounding-box loop. */
  method ScanBoundingBox(trail: seq<Point>) returns (b: Box)
    ensures b == BoundingBox(trail)
  {
    var minX, maxX, minY, maxY := 1.0, 0.0, 1.0, 0.0;
    var i := 0;
    while i < |trail|
      invariant 0 <= i <= |trail|
      invariant Box(minX, maxX, minY, maxY) == BoundingBox(trail[..i])
    {
      var p := trail[i];
      if p.x < minX { minX := p.x; }
      if p.x > maxX { maxX := p.x; }
      if p.y < minY { minY := p.y; }
      if p.y > maxY { maxY := p.y; }
      assert trail[..i + 1][..i] == trail[..i];
      i := i + 1;
    }
    assert trail[..|trail|] == trail;
    b := Box(minX, maxX, minY, maxY);
  }

  /** The loop that counts upper-band points left and right of the centre. */
  method CountLobes(trail: seq<Point>, b: Box) returns (leftTopCount: nat, rightTopCount: nat)
    ensures leftTopCount == Count(trail, b, UpperLeft)
    ensures rightTopCount == Count(trail, b, UpperRight)
  {
    var centerX := (b.minX + b.maxX) / 2.0;
    var centerY := (b.minY + b.maxY) / 2.0;
    var height := b.maxY - b.minY;
    leftTopCount, rightTopCount := 0, 0;
    var i := 0;
    while i < |trail|
      invariant 0 <= i <= |trail|
      invariant leftTopCount == Count(trail[..i], b, UpperLeft)
      invariant rightTopCount == Count(trail[..i], b, UpperRight)
    {
      var p := trail[i];
      if p.y < centerY - height * BandFraction {
        if p.x < centerX { leftTopCount := leftTopCount + 1; }
        else { rightTopCount := rightTopCount + 1; }
      }
      assert trail[..i + 1][..i] == trail[..i];
      i := i + 1;
    }
    assert trail[..|trail|] == trail;
  }

  /** The loop over the lower band: its point count and horizontal extremes. */
  method ScanBottom(trail: seq<Point>, b: Box) returns (bottomPointCount: nat, bottomMinX: real, bottomMaxX: real)
    ensures bottomPointCount == Count(trail, b, Lower)
    ensures Span(bottomMinX, bottomMaxX) == LowerSpan(trail, b)
  {
    var centerY := (b.minY + b.maxY) / 2.0;
    var height := b.maxY - b.minY;
    bottomMinX, bottomMaxX := 1.0, 0.0;
    bottomPointCount := 0;
    var i := 0;
    while i < |trail|
      invariant 0 <= i <= |trail|
      invariant bottomPointCount == Count(trail[..i], b, Lower)
      invariant Span(bottomMinX, bottomMaxX) == LowerSpan(trail[..i], b)
    {
      var p := trail[i];
      if p.y > centerY + height * BandFraction {
        bottomPointCount := bottomPointCount + 1;
        if p.x < bottomMinX { bottomMinX := p.x; }
        if p.x > bottomMaxX { bottomMaxX := p.x; }
      }
      assert trail[..i + 1][..i] == trail[..i];
      i := i + 1;
    }
    assert trail[..|trail|] == trail;
  }

  /** Every point lies inside the folded box, whatever its coordinates. */
  lemma {:induction false} BoundingBoxContains(ps: seq<Point>, i: int)
    requires 0 <= i < |ps|
    ensures var b := BoundingBox(ps);
            b.minX <= ps[i].x <= b.maxX && b.minY <= ps[i].y <= b.maxY
  {
    var init := ps[..|ps| - 1];
    if i < |ps| - 1 {
      BoundingBoxContains(init, i);
      assert init[i] == ps[i];
    }
  }

  predicate InUnitSquare(p: Point)
  {
    0.0 <= p.x <= 1.0 && 0.0 <= p.y <= 1.0
  }

  /** For a non-empty trail inside the unit square the fold yields the true
      extremes: each side of the box is touched by some point. */
  lemma {:induction false} BoundingBoxAttained(ps: seq<Point>)
    requires |ps| > 0
    requires forall k :: 0 <= k < |ps| ==> InUnitSquare(ps[k])
    ensures var b := BoundingBox(ps);
            && (exists k :: 0 <= k < |ps| && ps[k].x == b.minX)
            && (exists k :: 0 <= k < |ps| && ps[k].x == b.maxX)
            && (exists k :: 0 <= k < |ps| && ps[k].y == b.minY)
            && (exists k :: 0 <= k < |ps| && ps[k].y == b.maxY)
  {
    var n := |ps| - 1;
    var init := ps[..n];
    var b := BoundingBox(ps);
    if n == 0 {
      assert init == [];
      assert BoundingBox(init) == StartBox;
      assert b == Widen(StartBox, ps[0]);
      assert ps[0].x == b.minX && ps[0].x == b.maxX && ps[0].y == b.minY && ps[0].y == b.maxY;
    } else {
      forall k | 0 <= k < |init| ensures InUnitSquare(init[k]) {
        assert init[k] == ps[k];
      }
      BoundingBoxAttained(init);
      var c := BoundingBox(init);
      if b.minX != ps[n].x {
        var k :| 0 <= k < |init| && init[k].x == c.minX;
        assert ps[k].x == b.minX;
      }
      if b.maxX != ps[n].x {
        var k :| 0 <= k < |init| && init[k].x == c.maxX;
        assert ps[k].x == b.maxX;
      }
      if b.minY != ps[n].y {
        var k :| 0 <= k < |init| && init[k].y == c.minY;
        assert ps[k].y == b.minY;
      }
      if b.maxY != ps[n].y {
        var k :| 0 <= k < |init| && init[k].y == c.maxY;
        assert ps[k].y == b.maxY;
      }
    }
  }

  /** The indices of the points in a region, an independent statement of what
      the counter loops count. */
  ghost function RegionIndices(ps: seq<Point>, b: Box, r: Region): set<int>
  {
    set k | 0 <= k < |ps| && InRegion(ps[k], b, r)
  }

  lemma {:induction false} CountIsCardinality(ps: seq<Point>, b: Box, r: Region)
    ensures Count(ps, b, r) == |RegionIndices(ps, b, r)|
  {
    if ps != [] {
      var n := |ps| - 1;
      var init := ps[..n];
      CountIsCardinality(init, b, r);
      var before := RegionIndices(init, b, r);
      var after := RegionIndices(ps, b, r);
      assert forall k :: 0 <= k < n ==> init[k] == ps[k];
      if InRegion(ps[n], b, r) {
        assert after == before + {n};
      } else {
        assert after == before;
      }
    }
  }

  /** Every lower-band point lies inside the folded lower span. */
  lemma {:induction false} LowerSpanContains(ps: seq<Point>, b: Box, i: int)
    requires 0 <= i < |ps| && InLowerBand(ps[i], b)
    ensures LowerSpan(ps, b).lo <= ps[i].x <= LowerSpan(ps, b).hi
  {
    var init := ps[..|ps| - 1];
    if i < |ps| - 1 {
      assert init[i] == ps[i];
      LowerSpanContains(init, b, i);
    }
  }

  /** What a positive verdict guarantees, stated without the folds: the size
      and aspect bounds, at least three points in each upper lobe and in the
      lower band, a lower band whose points are at most 90% of the width apart,
      and a start and end at most half the width apart. */
  lemma HeartFeatures(trail: seq<Point>)
    requires IsHeart(trail)
    ensures MinPoints <= |trail| <= MaxPoints
    ensures var b := BoundingBox(trail);
            && MinWidth <= b.Width() <= MaxWidth
            && MinHeight <= b.Height() <= MaxHeight
            && MinAspect <= b.Height() / b.Width() <= MaxAspect
            && |RegionIndices(trail, b, UpperLeft)| >= MinLobePoints
            && |RegionIndices(trail, b, UpperRight)| >= MinLobePoints
            && |RegionIndices(trail, b, Lower)| >= MinBottomPoints
            && (forall i, j ::
                  (0 <= i < |trail| && 0 <= j < |trail| &&
                   InLowerBand(trail[i], b) && InLowerBand(trail[j], b)) ==>
                  trail[i].x - trail[j].x <= MaxBottomFraction * b.Width())
            && SqDist(trail[0], trail[|trail| - 1]) <= Square(MaxClosureFraction * b.Width())
  {
    var b := BoundingBox(trail);
    CountIsCardinality(trail, b, UpperLeft);
    CountIsCardinality(trail, b, UpperRight);
    CountIsCardinality(trail, b, Lower);
    forall i, j | 0 <= i < |trail| && 0 <= j < |trail| &&
                  InLowerBand(trail[i], b) && InLowerBand(trail[j], b)
      ensures trail[i].x - trail[j].x <= MaxBottomFraction * b.Width()
    {
      LowerSpanContains(trail, b, i);
      LowerSpanContains(trail, b, j);
    }
  }

  /** The classifier object. `cooldown` is the flag a positive answer sets;
      `pendingTimers` counts the expiry timers scheduled by `startCooldown`
      that have not fired yet. */
  class Detector {
    var cooldown: bool
    var pendingTimers: nat

    constructor ()
      ensures !cooldown && pendingTimers == 0
    {
      cooldown := false;
      pendingTimers := 0;
    }

    /** While the cooldown is on the answer is false and nothing changes; a
        true answer sets the cooldown and schedules one expiry timer. */
    method DetectHeart(trail: seq<Point>) returns (isHeart: bool)
      modifies this
      ensures isHeart == (!old(cooldown) && IsHeart(trail))
      ensures cooldown == (old(cooldown) || isHeart)
      ensures pendingTimers == old(pendingTimers) + (if isHeart then 1 else 0)
    {
      if cooldown {
        return false;
      }
      isHeart := Classify(trail);
      if isHeart {
        StartCooldown();
      }
    }

    method StartCooldown()
      modifies this
      ensures cooldown && pendingTimers == old(pendingTimers) + 1
    {
      cooldown := true;
      pendingTimers := pendingTimers + 1;
    }

    /** One scheduled timer fires. It clears the flag whichever detection
        scheduled it, so a timer left over from before a `Reset` can end a
        later cooldown early. */
    method CooldownElapsed()
      requires pendingTimers > 0
      modifies this
      ensures !cooldown && pendingTimers == old(pendingTimers) - 1
    {
      cooldown := false;
      pendingTimers := pendingTimers - 1;
    }

    /** Clears the flag at once; timers already scheduled stay scheduled. */
    method Reset()
      modifies this
      ensures !cooldown && pendingTimers == old(pendingTimers)
    {
      cooldown := false;
    }
  }
}
