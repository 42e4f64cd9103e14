/** The two-finger gesture controller: pinching changes the scale, moving the
    pinched fingers changes the rotation, and each change is reported as an
    event for the renderer. */
module Gestures {
  import opened Geometry
  import opened HandTracker

  const MinScale: real := 0.25
  const MaxScale: real := 4.0
  /** Declared by the controller but never read by it. */
  const ScaleSmoothFactor: real := 0.15
  /** Milliseconds that must pass between two processed frames. */
  const UpdateInterval: int := 16
  /** A change of the finger distance above this is a pinch. */
  const PinchThreshold: real := 0.01
  /** A move of the finger midpoint above this (with no pinch) is a rotation. */
  const MoveThreshold: real := 0.005
  const RotationSensitivity: real := 3.0

  /** The two callbacks of the controller, as emitted values. */
  datatype Event = ScaleChanged(scale: real) | RotationChanged(rotationX: real, rotationY: real)

  datatype Rotation = Rotation(x: real, y: real)

  /** The controller's fields. */
  datatype GestureState = GestureState(
    currentScale: real,
    targetScale: real,
    rotationX: real,
    rotationY: real,
    lastDistance: Option<real>,
    lastCenter: Option<Point>,
    isActive: bool,
    lastUpdateTime: int)

  const InitialState := GestureState(1.0, 1.0, 0.0, 0.0, None, None, false, 0)

  /** The class invariant: both scale fields agree and lie within bounds, and
      a recorded distance and centre exist exactly while a gesture is active. */
  predicate Inv(s: GestureState)
  {
    && s.currentScale == s.targetScale
    && MinScale <= s.targetScale <= MaxScale
    && s.isActive == s.lastDistance.Some?
    && s.isActive == s.lastCenter.Some?
    && (s.lastDistance.Some? ==> s.lastDistance.value >= 0.0)
  }

  /** `reset`: forget the gesture, keep the scale and the rotation. */
  function Deactivated(s: GestureState): (r: GestureState)
    ensures !r.isActive && r.lastDistance.None? && r.lastCenter.None?
    ensures r.currentScale == s.currentScale && r.targetScale == s.targetScale
    ensures r.rotationX == s.rotationX && r.rotationY == s.rotationY
    ensures r.lastUpdateTime == s.lastUpdateTime
  {
    s.(isActive := false, lastDistance := None, lastCenter := None)
  }

  predicate HasHands(multiHandLandmarks: Option<seq<Hand>>)
  {
    multiHandLandmarks.Some? && |multiHandLandmarks.value| > 0
  }

  function AsPoint(lm: Landmark): Point
  {
    Point(lm.x, lm.y)
  }

  /** Thumb tip and index tip of a hand, when both are present. */
  predicate HasTips(hand: Hand)
  {
    LandmarkAt(hand, ThumbTip).Some? && LandmarkAt(hand, IndexTip).Some?
  }

  function Thumb(hand: Hand): Point
    requires HasTips(hand)
  {
    AsPoint(LandmarkAt(hand, ThumbTip).value)
  }

  function Index(hand: Hand): Point
    requires HasTips(hand)
  {
    AsPoint(LandmarkAt(hand, IndexTip).value)
  }

  /** `distance` stands for `Math.hypot` of the first hand's two tips. */
  predicate DistanceFits(multiHandLandmarks: Option<seq<Hand>>, distance: real)
  {
    HasHands(multiHandLandmarks) && HasTips(multiHandLandmarks.value[0]) ==>
      var hand := multiHandLandmarks.value[0];
      distance >= 0.0 && distance * distance == SqDist(Thumb(hand), Index(hand))
  }

  /** The scale after a pinch: the current scale times the distance ratio,
      clamped. A zero previous distance makes the ratio infinite in the
      program, which the clamp turns into the upper bound. */
  function PinchScale(current: real, distance: real, lastDistance: real): (r: real)
    ensures MinScale <= r <= MaxScale
    ensures lastDistance == 0.0 ==> r == MaxScale
    ensures lastDistance != 0.0 && MinScale <= current * (distance / lastDistance) <= MaxScale ==>
              r == current * (distance / lastDistance)
  {
    if lastDistance == 0.0 then MaxScale
    else Clamp(current * (distance / lastDistance), MinScale, MaxScale)
  }

  datatype Outcome = Outcome(state: GestureState, events: seq<Event>)

  /** What one call of `processHands` does to the controller's fields and
      which callbacks it fires, for a frame that arrives at time `now`. */
  function Step(s: GestureState, multiHandLandmarks: Option<seq<Hand>>, now: int, distance: real): (o: Outcome)
    requires Inv(s) && DistanceFits(multiHandLandmarks, distance)
    ensures Inv(o.state)
    ensures |o.events| <= 1
    ensures !HasHands(multiHandLandmarks) ==> o == Outcome(Deactivated(s), [])
    ensures HasHands(multiHandLandmarks) && now - s.lastUpdateTime < UpdateInterval ==> o == Outcome(s, [])
    ensures HasHands(multiHandLandmarks) && now - s.lastUpdateTime >= UpdateInterval ==>
              o.state.lastUpdateTime == now
    ensures o.state.currentScale != s.currentScale ==> o.events == [ScaleChanged(o.state.targetScale)]
    ensures o.state.rotationX != s.rotationX || o.state.rotationY != s.rotationY ==>
              o.events == [RotationChanged(o.state.rotationX, o.state.rotationY)]
  {
    if !HasHands(multiHandLandmarks) then Outcome(Deactivated(s), [])
    else if now - s.lastUpdateTime < UpdateInterval then Outcome(s, [])
    else
      var s1 := s.(lastUpdateTime := now);
      var hand := multiHandLandmarks.value[0];
      if !HasTips(hand) then Outcome(Deactivated(s1), [])
      else
        var center := Midpoint(Thumb(hand), Index(hand));
        if !s1.isActive then
          Outcome(s1.(lastDistance := Some(distance), lastCenter := Some(center), isActive := true), [])
        else TrackStep(s1, center, distance)
  }

  /** The active part of `processHands`: one pinch or one move, or nothing. */
  function TrackStep(s: GestureState, center: Point, distance: real): (o: Outcome)
    requires Inv(s) && s.isActive && distance >= 0.0
    ensures Inv(o.state) && |o.events| <= 1
    ensures o.state.lastUpdateTime == s.lastUpdateTime && o.state.isActive
  {
    var distanceChange := Abs(distance - s.lastDistance.value);
    var centerChange := SqDist(center, s.lastCenter.value);
    if distanceChange > PinchThreshold then
      var scale := PinchScale(s.currentScale, distance, s.lastDistance.value);
      Outcome(s.(currentScale := scale, targetScale := scale, lastDistance := Some(distance)),
              [ScaleChanged(scale)])
    else if centerChange > Square(MoveThreshold) && distanceChange < PinchThreshold then
      var c := s.lastCenter.value;
      var rotY := s.rotationY - (center.x - c.x) * RotationSensitivity;
      var rotX := s.rotationX + (center.y - c.y) * RotationSensitivity;
      Outcome(s.(rotationX := rotX, rotationY := rotY, lastCenter := Some(center)),
              [RotationChanged(rotX, rotY)])
    else
      Outcome(s, [])
  }

  /** A frame that passes the debounce and carries both tips. */
  predicate Usable(s: GestureState, multiHandLandmarks: Option<seq<Hand>>, now: int)
  {
    && HasHands(multiHandLandmarks)
    && now - s.lastUpdateTime >= UpdateInterval
    && HasTips(multiHandLandmarks.value[0])
  }

  function Center(multiHandLandmarks: Option<seq<Hand>>): Point
    requires HasHands(multiHandLandmarks) && HasTips(multiHandLandmarks.value[0])
  {
    var hand := multiHandLandmarks.value[0];
    Midpoint(Thumb(hand), Index(hand))
  }

  /** A missing thumb or index tip resets the gesture, but only once the
      frame has passed the debounce. */
  lemma MissingTipResets(s: GestureState, multiHandLandmarks: Option<seq<Hand>>, now: int, distance: real)
    requires Inv(s) && DistanceFits(multiHandLandmarks, distance) && HasHands(multiHandLandmarks) && now - s.lastUpdateTime >= UpdateInterval
    requires !HasTips(multiHandLandmarks.value[0])
    ensures Step(s, multiHandLandmarks, now, distance) == Outcome(Deactivated(s.(lastUpdateTime := now)), [])
  {
  }

  /** The first usable frame of a gesture only anchors it. */
  lemma FirstFrameAnchors(s: GestureState, multiHandLandmarks: Option<seq<Hand>>, now: int, distance: real)
    requires Inv(s) && DistanceFits(multiHandLandmarks, distance) && Usable(s, multiHandLandmarks, now) && !s.isActive
    ensures var o := Step(s, multiHandLandmarks, now, distance);
            && o.events == []
            && o.state.isActive
            && o.state.lastDistance == Some(distance)
            && o.state.lastCenter == Some(Center(multiHandLandmarks))
            && o.state.targetScale == s.targetScale
            && o.state.rotationX == s.rotationX && o.state.rotationY == s.rotationY
  {
  }

  /** The scale branch runs exactly when the distance changed by more than the
      threshold; it reports the clamped scale and re-anchors the distance, and
      otherwise the scale and the anchored distance stay. */
  lemma ScaleBranch(s: GestureState, multiHandLandmarks: Option<seq<Hand>>, now: int, distance: real)
    requires Inv(s) && DistanceFits(multiHandLandmarks, distance) && Usable(s, multiHandLandmarks, now) && s.isActive
    ensures var o := Step(s, multiHandLandmarks, now, distance);
            var last := s.lastDistance.value;
            if Abs(distance - last) > PinchThreshold then
              && o.events == [ScaleChanged(PinchScale(s.currentScale, distance, last))]
              && o.state.targetScale == PinchScale(s.currentScale, distance, last)
              && o.state.lastDistance == Some(distance)
              && o.state.lastCenter == s.lastCenter
              && o.state.rotationX == s.rotationX && o.state.rotationY == s.rotationY
            else
              && (forall e :: e in o.events ==> !e.ScaleChanged?)
              && o.state.targetScale == s.targetScale
              && o.state.lastDistance == s.lastDistance
  {
  }

  /** The rotation branch runs exactly when the midpoint moved by more than the
      threshold and the distance changed by less than the pinch threshold; the
      rotation accumulates three times the midpoint displacement, unclamped. */
  lemma RotationBranch(s: GestureState, multiHandLandmarks: Option<seq<Hand>>, now: int, distance: real)
    requires Inv(s) && DistanceFits(multiHandLandmarks, distance) && Usable(s, multiHandLandmarks, now) && s.isActive
    ensures var o := Step(s, multiHandLandmarks, now, distance);
            var c := Center(multiHandLandmarks);
            var last := s.lastCenter.value;
            if SqDist(c, last) > Square(MoveThreshold) && Abs(distance - s.lastDistance.value) < PinchThreshold then
              && o.state.rotationY == s.rotationY - RotationSensitivity * (c.x - last.x)
              && o.state.rotationX == s.rotationX + RotationSensitivity * (c.y - last.y)
              && o.events == [RotationChanged(o.state.rotationX, o.state.rotationY)]
              && o.state.lastCenter == Some(c)
              && o.state.targetScale == s.targetScale
            else
              && (forall e :: e in o.events ==> !e.RotationChanged?)
              && o.state.rotationX == s.rotationX && o.state.rotationY == s.rotationY
              && o.state.lastCenter == s.lastCenter
  {
  }

  /** A distance change of exactly the threshold is neither a pinch nor a
      rotation: nothing fires and nothing but the timestamp changes. */
  lemma ExactThresholdIsIgnored(s: GestureState, multiHandLandmarks: Option<seq<Hand>>, now: int, distance: real)
    requires Inv(s) && DistanceFits(multiHandLandmarks, distance) && Usable(s, multiHandLandmarks, now) && s.isActive
    requires Abs(distance - s.lastDistance.value) == PinchThreshold
    ensures Step(s, multiHandLandmarks, now, distance) == Outcome(s.(lastUpdateTime := now), [])
  {
  }

  /** A wider pinch never gives a smaller scale than a narrower one from the
      same anchor. */
  lemma PinchScaleMonotone(current: real, d1: real, d2: real, lastDistance: real)
    requires current > 0.0 && lastDistance > 0.0 && d1 <= d2
    ensures PinchScale(current, d1, lastDistance) <= PinchScale(current, d2, lastDistance)
  {
    var r1, r2 := d1 / lastDistance, d2 / lastDistance;
    assert r1 <= r2 by {
      assert d1 == r1 * lastDistance && d2 == r2 * lastDistance;
    }
    assert current * r1 <= current * r2 by {
      MulNonneg(current, r2 - r1);
    }
  }

  class GestureController {
    var currentScale: real
    var targetScale: real
    var targetRotationX: real
    var targetRotationY: real
    var lastDistance: Option<real>
    var lastCenter: Option<Point>
    var isActive: bool
    var lastUpdateTime: int

    function State(): GestureState
      reads this
    {
      GestureState(currentScale, targetScale, targetRotationX, targetRotationY,
                   lastDistance, lastCenter, isActive, lastUpdateTime)
    }

    ghost predicate Valid()
      reads this
    {
      Inv(State())
    }

    constructor ()
      ensures Valid() && State() == InitialState
    {
      currentScale, targetScale := 1.0, 1.0;
      targetRotationX, targetRotationY := 0.0, 0.0;
      lastDistance, lastCenter := None, None;
      isActive := false;
      lastUpdateTime := 0;
    }

    /** `processHands` for a frame delivered at time `now`; the events are the
        callbacks it fires, in order. */
    method ProcessHands(multiHandLandmarks: Option<seq<Hand>>, now: int, distance: real)
      returns (events: seq<Event>)
      requires Valid()
      requires DistanceFits(multiHandLandmarks, distance)
      modifies this
      ensures Valid()
      ensures Outcome(State(), events) == Step(old(State()), multiHandLandmarks, now, distance)
    {
      events := [];
      if multiHandLandmarks.None? || |multiHandLandmarks.value| == 0 {
        Reset();
        return;
      }

      if now - lastUpdateTime < UpdateInterval {
        return;
      }
      lastUpdateTime := now;

      var hand := multiHandLandmarks.value[0];
      var thumb := LandmarkAt(hand, ThumbTip);
      var index := LandmarkAt(hand, IndexTip);
      if thumb.None? || index.None? {
        Reset();
        return;
      }

      var center := Point((thumb.value.x + index.value.x) / 2.0, (thumb.value.y + index.value.y) / 2.0);

      if !isActive {
        lastDistance := Some(distance);
        lastCenter := Some(center);
        isActive := true;
        return;
      }

      events := Track(center, distance);
    }

    /** The active part of `processHands`, on the fields. */
    method Track(center: Point, distance: real) returns (events: seq<Event>)
      requires Valid() && isActive && distance >= 0.0
      modifies this
      ensures Outcome(State(), events) == TrackStep(old(State()), center, distance)
    {
      events := [];
      var distanceDelta := distance - lastDistance.value;
      var centerDelta := Point(center.x - lastCenter.value.x, center.y - lastCenter.value.y);
      var distanceChange := Abs(distanceDelta);
      var centerChangeSquared := Square(centerDelta.x) + Square(centerDelta.y);
      assert centerChangeSquared == SqDist(center, lastCenter.value);
      ghost var s := State();

      if distanceChange > PinchThreshold {
        if lastDistance.value == 0.0 {
          targetScale := MaxScale;
        } else {
          var scaleRatio := distance / lastDistance.value;
          var newScale := currentScale * scaleRatio;
          targetScale := Clamp(newScale, MinScale, MaxScale);
        }
        assert targetScale == PinchScale(s.currentScale, distance, s.lastDistance.value);
        events := events + [ScaleChanged(targetScale)];
        currentScale := targetScale;
        lastDistance := Some(distance);
      }

      if centerChangeSquared > Square(MoveThreshold) && distanceChange < PinchThreshold {
        targetRotationY := targetRotationY - centerDelta.x * RotationSensitivity;
        targetRotationX := targetRotationX + centerDelta.y * RotationSensitivity;
        events := events + [RotationChanged(targetRotationX, targetRotationY)];
        lastCenter := Some(center);
      }
    }

    method Reset()
      modifies this
      ensures State() == Deactivated(old(State()))
    {
      isActive := false;
      lastDistance := None;
      lastCenter := None;
    }

    method SetCurrentScale(scale: real)
      requires Valid()
      modifies this
      ensures Valid()
      ensures State() == old(State()).(currentScale := Clamp(scale, MinScale, MaxScale),
                                       targetScale := Clamp(scale, MinScale, MaxScale))
    {
      currentScale := Clamp(scale, MinScale, MaxScale);
      targetScale := currentScale;
    }

    method GetCurrentScale() returns (scale: real)
      requires Valid()
      ensures scale == targetScale && MinScale <= scale <= MaxScale
    {
      scale := targetScale;
    }

    method GetCurrentRotation() returns (rotation: Rotation)
      ensures rotation == Rotation(targetRotationX, targetRotationY)
    {
      rotation := Rotation(targetRotationX, targetRotationY);
    }
  }
}
