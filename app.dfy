/** The application object: it owns the drawing trail and the mode flags,
    routes every hand-tracking frame either to the trail (drawing mode) or to
    the gesture controller (3D mode), and switches modes when the detector
    recognises a heart or the user asks for a reset. */
module App {
  import opened Geometry
  import opened HandTracker
  import opened Smoothing
  import HeartDetector
  import Gestures
  import Holo

  const MaxTrailLength: nat := 200
  /** Smallest move, in normalised units, that adds a trail point. */
  const MinDistance: real := 0.005
  /** Milliseconds without a move after which a long enough trail is dropped. */
  const IdleTimeout: int := 600
  /** The idle eviction applies only to trails longer than this. */
  const IdleMinPoints: nat := 7
  /** Trails shorter than this are not offered to the detector. */
  const DetectionMinPoints: nat := 15

  /** The fields that drawing mode reads and writes. */
  datatype DrawState = DrawState(
    trail: seq<Point>,
    lastPoint: Option<Point>,
    smoothedPoint: Option<Point>,
    lastPointTime: Option<int>,
    lastMoveTime: Option<int>)

  /** The state `resetTrail` leaves. */
  const ClearedDraw := DrawState([], None, None, None, None)

  /** The trail is capped, `lastPoint` is recorded exactly while the trail is
      non-empty and is then its newest point, with a recorded move time. */
  predicate DrawInv(s: DrawState)
  {
    && |s.trail| <= MaxTrailLength
    && (s.lastPoint.None? <==> s.trail == [])
    && (s.lastPoint.Some? ==> s.lastPoint.value == s.trail[|s.trail| - 1] && s.lastMoveTime.Some?)
  }

  /** Push-then-shift on a buffer of at most 200 points. */
  function Cap(trail: seq<Point>): (r: seq<Point>)
    ensures |trail| <= MaxTrailLength + 1 ==> |r| <= MaxTrailLength
    ensures |trail| > MaxTrailLength ==> r == trail[1..]
    ensures |trail| <= MaxTrailLength ==> r == trail
  {
    if |trail| > MaxTrailLength then trail[1..] else trail
  }

  /** The distance test `Math.sqrt(dx^2 + dy^2) > 0.005`, on squares. */
  predicate FarEnough(p: Point, q: Point)
  {
    SqDist(p, q) > Square(MinDistance)
  }

  predicate IsIdle(s: DrawState, now: int)
    requires s.lastMoveTime.Some?
  {
    now - s.lastMoveTime.value > IdleTimeout && |s.trail| > IdleMinPoints
  }

  /** The drawing branch of `onHandResults` for a frame at time `now` whose
      index fingertip is `tip`. */
  function DrawFrame(s: DrawState, tip: Option<Point>, now: int): (r: DrawState)
    requires DrawInv(s)
    ensures DrawInv(r)
    ensures tip.None? ==> r == ClearedDraw
    ensures |r.trail| <= |s.trail| + 1
  {
    if tip.None? then ClearedDraw
    else
      var p := Smooth(s.smoothedPoint, tip.value);
      var s1 := s.(smoothedPoint := Some(p));
      if s1.lastPoint.None? then
        s1.(trail := s1.trail + [p], lastPoint := Some(p), lastPointTime := Some(now), lastMoveTime := Some(now))
      else if IsIdle(s1, now) then ClearedDraw
      else if FarEnough(p, s1.lastPoint.value) then
        s1.(lastMoveTime := Some(now), trail := Cap(s1.trail + [p]), lastPoint := Some(p), lastPointTime := Some(now))
      else s1
  }

  /** Which of the four outcomes a frame with a fingertip has: the first
      point is taken as it is; a long idle trail is dropped together with the
      current point before the move is looked at; a far enough point is
      appended (dropping the oldest on overflow); anything else only moves the
      smoother. */
  lemma DrawFrameCases(s: DrawState, tip: Point, now: int)
    requires DrawInv(s)
    ensures var p := Smooth(s.smoothedPoint, tip);
            var r := DrawFrame(s, Some(tip), now);
            && (s.lastPoint.None? ==>
                  r == DrawState([p], Some(p), Some(p), Some(now), Some(now)))
            && (s.lastPoint.Some? && IsIdle(s, now) ==> r == ClearedDraw)
            && (s.lastPoint.Some? && !IsIdle(s, now) && FarEnough(p, s.lastPoint.value) ==>
                  r == DrawState(Cap(s.trail + [p]), Some(p), Some(p), Some(now), Some(now)))
            && (s.lastPoint.Some? && !IsIdle(s, now) && !FarEnough(p, s.lastPoint.value) ==>
                  r == s.(smoothedPoint := Some(p)))
  {
  }

  /** Consecutive trail points lie more than the minimum distance apart. */
  predicate Spaced(trail: seq<Point>)
  {
    forall k :: 0 < k < |trail| ==> FarEnough(trail[k], trail[k - 1])
  }

  /** Every frame keeps the trail spaced: a point is appended only when it is
      far enough from the newest one, and dropping the oldest keeps the
      remaining neighbours. */
  lemma DrawFrameKeepsSpacing(s: DrawState, tip: Option<Point>, now: int)
    requires DrawInv(s) && Spaced(s.trail)
    ensures Spaced(DrawFrame(s, tip, now).trail)
  {
    if tip.Some? && s.lastPoint.Some? {
      var p := Smooth(s.smoothedPoint, tip.value);
      if !IsIdle(s, now) && FarEnough(p, s.lastPoint.value) {
        AppendKeepsSpacing(s.trail, p);
        var t := s.trail + [p];
        if |t| > MaxTrailLength {
          assert forall k :: 0 < k < |t[1..]| ==> t[1..][k] == t[k + 1] && t[1..][k - 1] == t[k];
        }
      }
    }
  }

  lemma AppendKeepsSpacing(trail: seq<Point>, p: Point)
    requires Spaced(trail) && |trail| > 0 && FarEnough(p, trail[|trail| - 1])
    ensures Spaced(trail + [p])
  {
    var t := trail + [p];
    forall k | 0 < k < |t|
      ensures FarEnough(t[k], t[k - 1])
    {
      if k < |trail| {
        assert t[k] == trail[k] && t[k - 1] == trail[k - 1];
      }
    }
  }

  class HeartApp {
    var isDrawing: bool
    var hasDetectedHeart: bool
    var trail: seq<Point>
    var lastPoint: Option<Point>
    var smoothedPoint: Option<Point>
    var lastPointTime: Option<int>
    var lastMoveTime: Option<int>
    const detector: HeartDetector.Detector
    const gesture: Gestures.GestureController
    var heart3D: Holo.HolographicHeart?

    function Draw(): DrawState
      reads this
    {
      DrawState(trail, lastPoint, smoothedPoint, lastPointTime, lastMoveTime)
    }

    /** Exactly one mode is on, the 3D heart exists exactly in 3D mode, and
        the trail and the gesture controller keep their own invariants. */
    ghost predicate Valid()
      reads this, gesture, HeartFootprint()
    {
      && isDrawing == !hasDetectedHeart
      && (hasDetectedHeart <==> heart3D != null)
      && DrawInv(Draw())
      && gesture.Valid()
      && (heart3D != null ==> heart3D.Valid())
    }

    /** The 3D heart and its two particle arrays, when there is a heart. */
    ghost function HeartFootprint(): set<object>
      reads this
    {
      if heart3D == null then {} else {heart3D, heart3D.positions, heart3D.velocities}
    }

    constructor ()
      ensures Valid()
      ensures isDrawing && !hasDetectedHeart && heart3D == null
      ensures Draw() == ClearedDraw
      ensures fresh(detector) && fresh(gesture)
      ensures !detector.cooldown && detector.pendingTimers == 0
      ensures gesture.State() == Gestures.InitialState
    {
      isDrawing := true;
      hasDetectedHeart := false;
      trail := [];
      lastPoint := None;
      smoothedPoint := None;
      lastPointTime := None;
      lastMoveTime := None;
      heart3D := null;
      detector := new HeartDetector.Detector();
      gesture := new Gestures.GestureController();
    }

    /** `onHandResults` for a frame at time `now`; `distance` is the first
        hand's thumb-to-index distance. The result is the gesture events that
        were forwarded to the 3D heart. */
    method OnHandResults(multiHandLandmarks: Option<seq<Hand>>, now: int, distance: real)
      returns (events: seq<Gestures.Event>)
      requires Valid()
      requires Gestures.DistanceFits(multiHandLandmarks, distance)
      modifies this, gesture, heart3D
      ensures Valid()
      ensures isDrawing == old(isDrawing) && hasDetectedHeart == old(hasDetectedHeart)
      ensures heart3D == old(heart3D)
      ensures old(isDrawing) ==>
                && Draw() == DrawFrame(old(Draw()), ExtractIndexFingerTip(multiHandLandmarks), now)
                && gesture.State() == old(gesture.State())
                && events == []
      ensures old(hasDetectedHeart) ==> Draw() == old(Draw())
      ensures old(hasDetectedHeart) && !Gestures.HasHands(multiHandLandmarks) ==>
                gesture.State() == old(gesture.State()) && events == []
      ensures old(hasDetectedHeart) && Gestures.HasHands(multiHandLandmarks) ==>
                Gestures.Outcome(gesture.State(), events) ==
                Gestures.Step(old(gesture.State()), multiHandLandmarks, now, distance)
      ensures old(hasDetectedHeart) ==> Forwarded(old(heart3D.targetScale), old(heart3D.targetRotationX),
                                                  old(heart3D.targetRotationY), events, heart3D)
      ensures old(hasDetectedHeart) ==>
                && heart3D.shape == old(heart3D.shape)
                && heart3D.currentScale == old(heart3D.currentScale)
                && heart3D.currentRotationX == old(heart3D.currentRotationX)
                && heart3D.currentRotationY == old(heart3D.currentRotationY)
                && heart3D.positions[..] == old(heart3D.positions[..])
                && heart3D.velocities[..] == old(heart3D.velocities[..])
    {
      var indexFingerTip := ExtractIndexFingerTip(multiHandLandmarks);
      events := [];
      if isDrawing && !hasDetectedHeart {
        DrawingFrame(indexFingerTip, now);
      } else if hasDetectedHeart {
        if multiHandLandmarks.Some? && |multiHandLandmarks.value| > 0 {
          events := gesture.ProcessHands(multiHandLandmarks, now, distance);
          if |events| > 0 {
            match events[0]
            case ScaleChanged(scale) => heart3D.SetScale(scale);
            case RotationChanged(rotX, rotY) => heart3D.SetRotation(rotX, rotY);
          }
        }
      }
    }

    /** The callbacks reach the 3D heart: a scale event sets its clamped
        target scale, a rotation event its target rotation, and without an
        event both stay. */
    ghost predicate Forwarded(scale: real, rotX: real, rotY: real, events: seq<Gestures.Event>, h: Holo.HolographicHeart?)
      reads h
    {
      h != null &&
      if events == [] then
        h.targetScale == scale && h.targetRotationX == rotX && h.targetRotationY == rotY
      else
        match events[0]
        case ScaleChanged(s) =>
          h.targetScale == Clamp(s, Holo.MinScale, Holo.MaxScale) &&
          h.targetRotationX == rotX && h.targetRotationY == rotY
        case RotationChanged(x, y) =>
          h.targetScale == scale && h.targetRotationX == x && h.targetRotationY == y
    }

    /** The drawing branch of `onHandResults`. */
    method DrawingFrame(indexFingerTip: Option<Point>, now: int)
      requires DrawInv(Draw())
      modifies this
      ensures Draw() == DrawFrame(old(Draw()), indexFingerTip, now)
      ensures isDrawing == old(isDrawing) && hasDetectedHeart == old(hasDetectedHeart)
      ensures heart3D == old(heart3D)
    {
      if indexFingerTip.None? {
        ResetTrail();
        return;
      }
      var smoothed := ApplySmoothing(indexFingerTip.value);
      if lastPoint.None? {
        trail := trail + [smoothed];
        lastPoint := Some(smoothed);
        lastPointTime := Some(now);
        lastMoveTime := Some(now);
        return;
      }
      var distanceSquared := SqDist(smoothed, lastPoint.value);
      var currentTime := now;
      var timeSinceLastMove := currentTime - lastMoveTime.value;
      if timeSinceLastMove > IdleTimeout && |trail| > IdleMinPoints {
        ResetTrail();
        return;
      }
      if distanceSquared > Square(MinDistance) {
        lastMoveTime := Some(currentTime);
        trail := trail + [smoothed];
        lastPoint := Some(smoothed);
        lastPointTime := Some(currentTime);
        if |trail| > MaxTrailLength {
          trail := trail[1..];
        }
      }
    }

    method ResetTrail()
      modifies this
      ensures Draw() == ClearedDraw
      ensures isDrawing == old(isDrawing) && hasDetectedHeart == old(hasDetectedHeart)
      ensures heart3D == old(heart3D)
    {
      trail := [];
      lastPoint := None;
      smoothedPoint := None;
      lastPointTime := None;
      lastMoveTime := None;
    }

    /** `applySmoothing`: the stored smoothed point moves toward `newPoint`. */
    method ApplySmoothing(newPoint: Point) returns (smoothed: Point)
      modifies this
      ensures smoothed == Smooth(old(smoothedPoint), newPoint)
      ensures Draw() == old(Draw()).(smoothedPoint := Some(smoothed))
      ensures isDrawing == old(isDrawing) && hasDetectedHeart == old(hasDetectedHeart)
      ensures heart3D == old(heart3D)
    {
      if smoothedPoint.None? {
        smoothedPoint := Some(newPoint);
        return newPoint;
      }
      var x := Alpha * newPoint.x + (1.0 - Alpha) * smoothedPoint.value.x;
      var y := Alpha * newPoint.y + (1.0 - Alpha) * smoothedPoint.value.y;
      smoothedPoint := Some(Point(x, y));
      smoothed := Point(x, y);
    }

    /** The application's `detectHeart`: short trails and 3D mode give false
        without consulting the detector. */
    method DetectHeart() returns (isHeart: bool)
      modifies detector
      ensures isHeart == (|trail| >= DetectionMinPoints && !hasDetectedHeart &&
                          !old(detector.cooldown) && HeartDetector.IsHeart(trail))
      ensures detector.cooldown == (old(detector.cooldown) || isHeart)
      ensures detector.pendingTimers == old(detector.pendingTimers) + (if isHeart then 1 else 0)
    {
      if |trail| < DetectionMinPoints || hasDetectedHeart {
        return false;
      }
      isHeart := detector.DetectHeart(trail);
    }

    /** `onHeartDetected`: switch to 3D mode and build the heart from the
        trail, at the gesture controller's scale. The random particle cloud
        is given as `initialPositions` and `initialVelocities`. */
    method OnHeartDetected(initialPositions: seq<real>, initialVelocities: seq<real>)
      requires Valid()
      requires |initialPositions| == |initialVelocities| == 3 * Holo.ParticleCount
      requires forall k :: 0 <= k < |initialPositions| ==> -55.0 <= initialPositions[k] <= 55.0
      requires forall k :: 0 <= k < |initialVelocities| ==> -0.01 <= initialVelocities[k] <= 0.01
      modifies this
      ensures Valid()
      ensures hasDetectedHeart && !isDrawing
      ensures Draw() == old(Draw())
      ensures heart3D != null && fresh(heart3D)
      ensures heart3D.shape == Holo.ShapeFor(Some(trail))
      ensures heart3D.targetScale == Clamp(gesture.targetScale, Holo.MinScale, Holo.MaxScale)
      ensures heart3D.Valid()
      ensures heart3D.currentScale == 1.0
      ensures heart3D.currentRotationX == 0.0 && heart3D.currentRotationY == 0.0
      ensures heart3D.targetRotationX == 0.0 && heart3D.targetRotationY == 0.0
      ensures heart3D.positions[..] == initialPositions && heart3D.velocities[..] == initialVelocities
      ensures gesture.State() == old(gesture.State())
    {
      hasDetectedHeart := true;
      isDrawing := false;
      var heart := new Holo.HolographicHeart(Some(trail), initialPositions, initialVelocities);
      var currentScale := gesture.GetCurrentScale();
      heart.SetScale(currentScale);
      heart3D := heart;
    }

    /** One tick of the detection interval: in drawing mode, with at least
        15 points and the detector agreeing, the app switches to 3D mode;
        otherwise nothing but the detector's cooldown can change. */
    method DetectionTick(initialPositions: seq<real>, initialVelocities: seq<real>)
      returns (detected: bool)
      requires Valid()
      requires |initialPositions| == |initialVelocities| == 3 * Holo.ParticleCount
      requires forall k :: 0 <= k < |initialPositions| ==> -55.0 <= initialPositions[k] <= 55.0
      requires forall k :: 0 <= k < |initialVelocities| ==> -0.01 <= initialVelocities[k] <= 0.01
      modifies this, detector
      ensures Valid()
      ensures detected == (!old(hasDetectedHeart) && |trail| >= DetectionMinPoints &&
                           !old(detector.cooldown) && HeartDetector.IsHeart(trail))
      ensures Draw() == old(Draw())
      ensures detected ==> hasDetectedHeart && fresh(heart3D)
      ensures !detected ==> hasDetectedHeart == old(hasDetectedHeart) && heart3D == old(heart3D)
      ensures detector.cooldown == (old(detector.cooldown) || detected)
      ensures detector.pendingTimers == old(detector.pendingTimers) + (if detected then 1 else 0)
      ensures detected ==>
                && heart3D.shape == Holo.ShapeFor(Some(trail))
                && heart3D.targetScale == Clamp(gesture.targetScale, Holo.MinScale, Holo.MaxScale)
                && heart3D.currentScale == 1.0
                && heart3D.currentRotationX == 0.0 && heart3D.currentRotationY == 0.0
                && heart3D.positions[..] == initialPositions && heart3D.velocities[..] == initialVelocities
      ensures !detected && old(heart3D) != null ==>
                && heart3D.shape == old(heart3D.shape)
                && heart3D.currentScale == old(heart3D.currentScale)
                && heart3D.targetScale == old(heart3D.targetScale)
                && heart3D.currentRotationX == old(heart3D.currentRotationX)
                && heart3D.currentRotationY == old(heart3D.currentRotationY)
                && heart3D.targetRotationX == old(heart3D.targetRotationX)
                && heart3D.targetRotationY == old(heart3D.targetRotationY)
                && heart3D.positions[..] == old(heart3D.positions[..])
                && heart3D.velocities[..] == old(heart3D.velocities[..])
      ensures gesture.State() == old(gesture.State())
    {
      detected := false;
      if !hasDetectedHeart && |trail| >= DetectionMinPoints {
        var isHeart := DetectHeart();
        if isHeart {
          OnHeartDetected(initialPositions, initialVelocities);
          detected := true;
        }
      }
    }

    /** `reset`: back to drawing mode with an empty trail, scale 1 and the
        detector's cooldown cleared. The smoother, the move time and the
        gesture anchor and rotation are left as they were. */
    method Reset()
      requires Valid()
      modifies this, gesture, detector
      ensures Valid()
      ensures isDrawing && !hasDetectedHeart && heart3D == null
      ensures trail == [] && lastPoint.None?
      ensures smoothedPoint == old(smoothedPoint)
      ensures lastPointTime == old(lastPointTime) && lastMoveTime == old(lastMoveTime)
      ensures gesture.State() == old(gesture.State()).(currentScale := 1.0, targetScale := 1.0)
      ensures !detector.cooldown && detector.pendingTimers == old(detector.pendingTimers)
    {
      hasDetectedHeart := false;
      isDrawing := true;
      trail := [];
      lastPoint := None;
      gesture.SetCurrentScale(1.0);
      detector.Reset();
      heart3D := null;
    }
  }
}
