/** The scalar and particle state of the 3D heart: the outline chosen from the
    drawn trail, eased scale and rotation, and the particle cloud that drifts
    and bounces off the walls of a cube. */
module Holo {
  import opened Geometry
  import opened Sampling

  const MinScale: real := 0.4
  const MaxScale: real := 3.3
  /** Fraction of the remaining scale gap closed per frame. */
  const ScaleEase: real := 0.05
  /** Fraction of the remaining rotation gap closed per frame. */
  const RotationEase: real := 0.08
  /** Half the side of the cube the particles bounce inside. */
  const Bound: real := 60.0
  const ParticleCount: nat := 300
  /** Trails shorter than this fall back to the built-in heart. */
  const MinTrailPoints: nat := 10
  /** Points kept for the translucent fill. */
  const FillPoints: nat := 20
  /** World units per unit of normalised image coordinates. */
  const WorldScale: real := 80.0

  datatype Vec3 = Vec3(x: real, y: real, z: real)

  /** The heart that `init` builds: the parametric default, or the drawn
      outline with its downsampled fill. */
  datatype Shape = DefaultShape | TrailShape(outline: seq<Vec3>, fill: seq<Vec3>)

  /** A normalised trail point in world space: mirrored, centred on the
      origin and scaled, in the `z == 0` plane. */
  function To3D(p: Point): (v: Vec3)
    ensures v.z == 0.0
    ensures 0.0 <= p.x <= 1.0 ==> -40.0 <= v.x <= 40.0
    ensures 0.0 <= p.y <= 1.0 ==> -40.0 <= v.y <= 40.0
  {
    Vec3((0.5 - p.x) * WorldScale, (0.5 - p.y) * WorldScale, 0.0)
  }

  /** Distinct trail points land on distinct world points. */
  lemma To3DInjective(p: Point, q: Point)
    ensures To3D(p) == To3D(q) ==> p == q
  {
  }

  function MapTo3D(trail: seq<Point>): (vs: seq<Vec3>)
    ensures |vs| == |trail|
    ensures forall i :: 0 <= i < |vs| ==> vs[i] == To3D(trail[i])
  {
    seq(|trail|, i requires 0 <= i < |trail| => To3D(trail[i]))
  }

  /** `init` with `createHeartFromTrail`: an absent or empty trail, or one
      with fewer than ten points, gives the default heart. */
  function ShapeFor(trailPoints: Option<seq<Point>>): (s: Shape)
    ensures s.TrailShape? <==> trailPoints.Some? && |trailPoints.value| >= MinTrailPoints
    ensures s.TrailShape? ==> s.outline == MapTo3D(trailPoints.value)
    ensures s.TrailShape? ==> s.fill == Downsample(s.outline, FillPoints)
  {
    if trailPoints.None? || |trailPoints.value| == 0 then DefaultShape
    else
      var points := MapTo3D(trailPoints.value);
      if |points| < MinTrailPoints then DefaultShape
      else TrailShape(points, Downsample(points, FillPoints))
  }

  /** `simplifyPoints`: the same uniform downsampler, as a loop. */
  method SimplifyPoints(points: seq<Vec3>, targetCount: nat) returns (result: seq<Vec3>)
    ensures result == Downsample(points, targetCount)
  {
    if |points| <= targetCount {
      return points;
    }
    result := [];
    var i := 0;
    while i < targetCount
      invariant 0 <= i <= targetCount
      invariant |result| == i
      invariant forall k :: 0 <= k < i ==> result[k] == points[SampleIndex(k, |points|, targetCount)]
    {
      var index := SampleIndex(i, |points|, targetCount);
      result := result + [points[index]];
      i := i + 1;
    }
  }

  /** One particle coordinate after a frame: moved by its velocity. */
  function Moved(positions: seq<real>, velocities: seq<real>): (r: seq<real>)
    requires |positions| == |velocities|
    ensures |r| == |positions|
  {
    seq(|positions|, k requires 0 <= k < |positions| => positions[k] + velocities[k])
  }

  /** A velocity component reverses when its moved coordinate is outside the
      cube. */
  function BounceOne(position: real, velocity: real): real
  {
    if Abs(position + velocity) > Bound then -velocity else velocity
  }

  function Bounced(positions: seq<real>, velocities: seq<real>): (r: seq<real>)
    requires |positions| == |velocities|
    ensures |r| == |velocities|
  {
    seq(|positions|, k requires 0 <= k < |positions| => BounceOne(positions[k], velocities[k]))
  }

  /** Bouncing only ever reverses a velocity: every speed is kept. */
  lemma BouncePreservesSpeed(positions: seq<real>, velocities: seq<real>)
    requires |positions| == |velocities|
    ensures forall k :: 0 <= k < |velocities| ==>
              Bounced(positions, velocities)[k] == velocities[k] ||
              Bounced(positions, velocities)[k] == -velocities[k]
    ensures forall k :: 0 <= k < |velocities| ==>
              Abs(Bounced(positions, velocities)[k]) == Abs(velocities[k])
  {
  }

  /** A coordinate stays inside the cube, or has overshot by at most one step
      and is heading back. */
  predicate Contained(p: real, v: real)
  {
    && Abs(v) <= Bound
    && (|| -Bound <= p <= Bound
        || (Bound < p <= Bound + Abs(v) && v < 0.0)
        || (-Bound - Abs(v) <= p < -Bound && v > 0.0))
  }

  predicate AllContained(positions: seq<real>, velocities: seq<real>)
  {
    |positions| == |velocities| &&
    forall k :: 0 <= k < |positions| ==> Contained(positions[k], velocities[k])
  }

  /** The bounce keeps every particle within one step of the cube: no
      particle escapes, however many frames run. */
  lemma {:induction false} BounceKeepsContained(positions: seq<real>, velocities: seq<real>)
    requires AllContained(positions, velocities)
    ensures AllContained(Moved(positions, velocities), Bounced(positions, velocities))
  {
    var ps, vs := Moved(positions, velocities), Bounced(positions, velocities);
    forall k | 0 <= k < |ps|
      ensures Contained(ps[k], vs[k])
    {
      ContainedStep(positions[k], velocities[k]);
    }
  }

  lemma ContainedStep(p: real, v: real)
    requires Contained(p, v)
    ensures Contained(p + v, BounceOne(p, v))
  {
  }

  class HolographicHeart {
    var shape: Shape
    var currentScale: real
    var targetScale: real
    var currentRotationX: real
    var currentRotationY: real
    var targetRotationX: real
    var targetRotationY: real
    /** Three coordinates per particle, and one velocity per coordinate. */
    const positions: array<real>
    const velocities: array<real>

    ghost predicate Valid()
      reads this, positions, velocities
    {
      && positions != velocities
      && positions.Length == velocities.Length
      && positions.Length % 3 == 0
      && MinScale <= targetScale <= MaxScale
      && AllContained(positions[..], velocities[..])
    }

    /** The heart drawn from `trailPoints`; the random particle cloud is given
        as `initialPositions` (inside a sphere of radius 55) and
        `initialVelocities` (each component within 0.01). */
    constructor (trailPoints: Option<seq<Point>>, initialPositions: seq<real>, initialVelocities: seq<real>)
      requires |initialPositions| == |initialVelocities| == 3 * ParticleCount
      requires forall k :: 0 <= k < |initialPositions| ==> -55.0 <= initialPositions[k] <= 55.0
      requires forall k :: 0 <= k < |initialVelocities| ==> -0.01 <= initialVelocities[k] <= 0.01
      ensures Valid()
      ensures fresh(positions) && fresh(velocities)
      ensures shape == ShapeFor(trailPoints)
      ensures currentScale == 1.0 && targetScale == 1.0
      ensures currentRotationX == 0.0 && currentRotationY == 0.0
      ensures targetRotationX == 0.0 && targetRotationY == 0.0
      ensures positions[..] == initialPositions && velocities[..] == initialVelocities
    {
      shape := ShapeFor(trailPoints);
      currentScale, targetScale := 1.0, 1.0;
      currentRotationX, currentRotationY := 0.0, 0.0;
      targetRotationX, targetRotationY := 0.0, 0.0;
      positions := new real[|initialPositions|](k requires 0 <= k < |initialPositions| => initialPositions[k]);
      velocities := new real[|initialVelocities|](k requires 0 <= k < |initialVelocities| => initialVelocities[k]);
    }

    method SetScale(scale: real)
      requires Valid()
      modifies this
      ensures Valid()
      ensures targetScale == Clamp(scale, MinScale, MaxScale)
      ensures shape == old(shape) && currentScale == old(currentScale)
      ensures currentRotationX == old(currentRotationX) && currentRotationY == old(currentRotationY)
      ensures targetRotationX == old(targetRotationX) && targetRotationY == old(targetRotationY)
    {
      targetScale := Clamp(scale, MinScale, MaxScale);
    }

    method SetRotation(rotX: real, rotY: real)
      requires Valid()
      modifies this
      ensures Valid()
      ensures targetRotationX == rotX && targetRotationY == rotY
      ensures shape == old(shape) && currentScale == old(currentScale) && targetScale == old(targetScale)
      ensures currentRotationX == old(currentRotationX) && currentRotationY == old(currentRotationY)
    {
      targetRotationX := rotX;
      targetRotationY := rotY;
    }

    /** One animation frame: ease scale and rotation toward their targets and
        advance the particles. */
    method Update()
      requires Valid()
      modifies this, positions, velocities
      ensures Valid()
      ensures currentScale == Blend(old(currentScale), targetScale, ScaleEase)
      ensures currentRotationX == Blend(old(currentRotationX), targetRotationX, RotationEase)
      ensures currentRotationY == Blend(old(currentRotationY), targetRotationY, RotationEase)
      ensures shape == old(shape) && targetScale == old(targetScale)
      ensures targetRotationX == old(targetRotationX) && targetRotationY == old(targetRotationY)
      ensures positions[..] == Moved(old(positions[..]), old(velocities[..]))
      ensures velocities[..] == Bounced(old(positions[..]), old(velocities[..]))
    {
      currentScale := currentScale + (targetScale - currentScale) * ScaleEase;
      currentRotationX := currentRotationX + (targetRotationX - currentRotationX) * RotationEase;
      currentRotationY := currentRotationY + (targetRotationY - currentRotationY) * RotationEase;
      BounceKeepsContained(positions[..], velocities[..]);
      MoveParticles();
    }

    /** The particle loop of `update`, three coordinates per step. */
    method MoveParticles()
      requires positions != velocities
      requires positions.Length == velocities.Length && positions.Length % 3 == 0
      modifies positions, velocities
      ensures positions[..] == Moved(old(positions[..]), old(velocities[..]))
      ensures velocities[..] == Bounced(old(positions[..]), old(velocities[..]))
    {
      ghost var ps, vs := positions[..], velocities[..];
      var i := 0;
      while i < positions.Length
        invariant 0 <= i <= positions.Length && i % 3 == 0
        invariant forall k :: 0 <= k < i ==> positions[k] == ps[k] + vs[k]
        invariant forall k :: 0 <= k < i ==> velocities[k] == BounceOne(ps[k], vs[k])
        invariant forall k :: i <= k < positions.Length ==> positions[k] == ps[k] && velocities[k] == vs[k]
      {
        MoveParticle(positions, velocities, i);
        i := i + 3;
      }
      assert positions[..] == Moved(ps, vs);
      assert velocities[..] == Bounced(ps, vs);
    }
  }

  /** One step of the particle loop: the three coordinates of the particle
      starting at `i` move, then each velocity component outside the cube
      reverses. */
  method MoveParticle(positions: array<real>, velocities: array<real>, i: nat)
    requires positions != velocities
    requires positions.Length == velocities.Length && i + 3 <= positions.Length
    modifies positions, velocities
    ensures forall k :: 0 <= k < positions.Length ==>
              positions[k] == if i <= k < i + 3 then old(positions[k]) + old(velocities[k]) else old(positions[k])
    ensures forall k :: 0 <= k < velocities.Length ==>
              velocities[k] == if i <= k < i + 3 then BounceOne(old(positions[k]), old(velocities[k])) else old(velocities[k])
  {
    positions[i] := positions[i] + velocities[i];
    positions[i + 1] := positions[i + 1] + velocities[i + 1];
    positions[i + 2] := positions[i + 2] + velocities[i + 2];

    if Abs(positions[i]) > Bound { velocities[i] := -velocities[i]; }
    if Abs(positions[i + 1]) > Bound { velocities[i + 1] := -velocities[i + 1]; }
    if Abs(positions[i + 2]) > Bound { velocities[i + 2] := -velocities[i + 2]; }
  }

  /** Each frame closes 5% of the scale gap: after `n` frames with a fixed
      target the gap is `0.95^n` of the first one, never overshooting. */
  lemma ScaleEasing(start: real, target: real, n: nat)
    ensures target - BlendRepeatedly(start, target, ScaleEase, n) == Pow(0.95, n) * (target - start)
  {
    BlendRepeatedlyGap(start, target, ScaleEase, n);
  }

  /** The frame formula `c + (t - c) * k` is the blend with weight `k`. */
  lemma EaseIsBlend(c: real, t: real, k: real)
    requires 0.0 <= k <= 1.0
    ensures c + (t - c) * k == Blend(c, t, k)
  {
  }
}
