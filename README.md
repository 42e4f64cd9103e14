# Heart-Drawing-App, modelled in Dafny

The application follows one hand in the webcam image. In **drawing mode**
the index fingertip leaves a trail of smoothed points. A detector checks
that trail every 100 ms for a heart-shaped outline. When it finds one, the
app switches to **3D mode**: a holographic heart built from the trail
appears, and a two-finger gesture controls it. Pinching thumb and index
scales the heart; moving the pinched fingers rotates it. Clicking the heart
(`reset`) returns to drawing mode.

This project models the logic behind that behaviour and proves properties
of the model. Every component keeps its own module:

| file | module | models |
|---|---|---|
| `geometry.dfy` | `Geometry` | points, `Option`, squared distance, clamping, the exponential blend shared by the smoothers and the 3D easing |
| `hand_tracker.dfy` | `HandTracker` | `extractIndexFingerTip` |
| `heart_detector.dfy` | `HeartDetector` | the heart classifier as a specification predicate `IsHeart`, the loops of `detectHeart`, and the `Detector` class with its cooldown |
| `gesture_controller.dfy` | `Gestures` | the controller's state machine: a function `Step` on a state value, and the class `GestureController` proved against it |
| `sampling.dfy` | `Sampling` | the uniform downsampler `Math.floor(i * (n / target))` used by the 2D renderer and the 3D heart |
| `canvas_renderer.dfy` | `Canvas` | the 2D renderer's timestamped trail buffer: mirroring, the 200-entry cap, the two-second age filter, and downsampling |
| `holographic_heart.dfy` | `Holo` | the 3D heart's outline choice, its eased scale and rotation, and the in-place particle loop over two arrays |
| `smoothing.dfy` | `Smoothing` | `applySmoothing` (alpha = 0.3) and the five-point weighted window of `smoothTrail` |
| `app.dfy` | `App` | the application object: mode flags, per-frame routing, the drawing trail, the detection tick, `onHeartDetected` and `reset` |

Code that changes state step by step is modelled as classes and methods with
`modifies` clauses: the detector's cooldown, the gesture controller's
fields, the renderer's trail, the heart's fields and particle arrays, and
the app's fields. Each method is proved against a pure function of the old
state. The properties the program relies on are then lemmas about those
functions.

The conventions of the model:

- **Time.** `Date.now()` becomes a parameter `now: int`, in milliseconds.
- **Timers.** The 1500 ms `setTimeout` of `startCooldown` becomes the
  method `Detector.CooldownElapsed`. The 100 ms `setInterval` becomes one
  call of `HeartApp.DetectionTick`.
- **Callbacks.** The controller's `onScaleChange` and `onRotationChange`
  become returned `Event` values. `HeartApp.OnHandResults` forwards them to
  the 3D heart's `SetScale` and `SetRotation`, as the callbacks installed in
  `src/main.js:131-142` do.
- **Square roots.** Every comparison of `Math.sqrt` or `Math.hypot`
  against a threshold is made on squares; both sides are non-negative, so
  the test is the same. The one place the distance value itself enters a
  computation is the pinch ratio `distance / lastDistance`. There the
  distance is a parameter, which `DistanceFits` ties to the landmarks:
  non-negative, with a square equal to the squared distance of the tips.
- **Division by zero.** If the anchoring frame had the two tips on the
  same spot, `lastDistance` is 0. The program then divides by zero and
  gets `Infinity`, which the clamp turns into 4.0. The model writes this as
  an explicit branch to the upper bound.
- **Randomness.** The particle cloud comes from `Math.random()`. It is
  given to the heart's constructor as two sequences that satisfy the
  bounds of `src/holographicHeart3D.js:356-373`: every position coordinate
  is within 55, every velocity component within 0.01.

On these points the model keeps the code's exact behaviour:

- There is no nonlinear pinch acceleration and no re-anchoring of the base
  distance: the ratio is taken against the last accepted distance.
- `rotationX` is not clamped to ±π/2.
- The debounce is 16 ms.
- The pinch threshold is 0.01, and a change below it leaves
  `lastDistance` as it was.
- The rotation dead-zone tests the length of the midpoint's displacement
  (`Math.hypot` > 0.005), not each axis separately.
- A distance change of exactly 0.01 fires neither a scale nor a rotation
  event.

The model also keeps three quirks of the code:

- **`reset` keeps some state.** The app's `reset` (`src/main.js:378-405`)
  restores the scale to 1 and clears the trail, the mode flags and the
  detector's cooldown. It leaves alone the exponential smoother, the two
  drawing timestamps, and the gesture controller's rotation and anchor.
- **The controller's own hand-lost reset is never used.** In 3D mode a
  frame without hands is not forwarded to the controller
  (`src/main.js:250`). So the controller's reset on an empty list
  (`src/gestureController.js:36-39`) never runs from the app, and the
  gesture anchor survives the hand leaving the image.
- **A stale cooldown timer can fire.** The cooldown timer is never
  cancelled. A timer scheduled before a `reset` can therefore end a later
  cooldown early. `Detector.pendingTimers` counts the scheduled timers for
  that reason. Only the detector on its own reaches this case. In the app,
  the click handler that calls `reset` is installed 2000 ms after a
  detection (`src/main.js:355-358`). By then the 1500 ms cooldown timer
  (`src/heartDetector.js:28`, `:139-142`) has always fired. The model's
  `HeartApp.Reset` drops that delay, so the model's app can reach the case.
  The app never relies on the cooldown: `hasDetectedHeart` blocks every
  detection tick until `reset`, and `reset` clears the cooldown too.

## Model

| member | source | states |
|---|---|---|
| Geometry.SqDist | src/main.js:215-218 | the squared distance is non-negative and zero exactly when the points coincide |
| Geometry.Midpoint | src/gestureController.js:56-59 | the midpoint is equally far from both tips, at a quarter of their squared distance |
| Geometry.Clamp | src/gestureController.js:84 | the result lies in [lo, hi]; it is the value itself inside the range and the bound it crossed outside |
| Geometry.Blend | src/holographicHeart3D.js:421 | one easing step leaves `1 - alpha` of the gap to the target and lands between the old value and the target (no overshoot) |
| Geometry.BlendRepeatedlyGap | src/holographicHeart3D.js:421 | after n steps toward a fixed target the gap is `(1 - alpha)^n` times the first gap |
| HandTracker.LandmarkAt | src/handTracker.js:165-169 | a landmark is present exactly when its index is inside the hand and the entry is not missing |
| HandTracker.ExtractIndexFingerTip | src/handTracker.js:156-176 | no tip for an absent or empty hand list or a missing landmark 8; otherwise exactly the x and y of the first hand's landmark 8 |
| HandTracker.OnlyFirstHandConsulted | src/handTracker.js:163 | two hand lists with the same first hand give the same tip |
| HeartDetector.Classify | src/heartDetector.js:48-127 | the loop-based classifier answers exactly `IsHeart`: length 12..400, size, aspect, lobes, taper and closure |
| HeartDetector.CheckOutline | src/heartDetector.js:82-127 | the checks after the aspect ratio pass exactly when the lobe, taper and closure predicates hold |
| HeartDetector.ScanBoundingBox | src/heartDetector.js:55-62 | the bounding-box loop computes the fold from minX = minY = 1 and maxX = maxY = 0 |
| HeartDetector.CountLobes | src/heartDetector.js:82-92 | the two counters are the numbers of upper-band points left of the centre and on or right of it |
| HeartDetector.ScanBottom | src/heartDetector.js:98-109 | the counter and the extremes are the lower-band count and the fold of the lower-band x values |
| HeartDetector.BoundingBoxContains | src/heartDetector.js:55-62 | every trail point lies inside the folded box |
| HeartDetector.BoundingBoxAttained | src/heartDetector.js:55-62 | for a non-empty trail inside the unit square, some point touches each side of the box, so the fold is the true bounding box |
| HeartDetector.CountIsCardinality | src/heartDetector.js:85-92 | each counter equals the number of indices whose point lies in its region |
| HeartDetector.LowerSpanContains | src/heartDetector.js:101-109 | every lower-band point lies inside the folded lower span |
| HeartDetector.HeartFeatures | src/heartDetector.js:48-126 | a positive verdict implies 12..400 points, width 0.06..0.9, height 0.08..0.95, aspect 0.8..3.0, at least 3 points in each upper lobe and in the lower band, lower-band points at most 0.9 width apart, and ends at most half the width apart |
| HeartDetector.Detector.constructor | src/heartDetector.js:24-29 | a new detector starts without cooldown and without pending timers |
| HeartDetector.Detector.DetectHeart | src/heartDetector.js:43-131 | during cooldown the answer is false and nothing changes; otherwise the answer is `IsHeart`, and a true answer sets the cooldown and schedules one timer |
| HeartDetector.Detector.StartCooldown | src/heartDetector.js:138-143 | sets the cooldown and schedules one more timer |
| HeartDetector.Detector.CooldownElapsed | src/heartDetector.js:140-142 | a pending timer fires and clears the cooldown, whichever detection scheduled it |
| HeartDetector.Detector.Reset | src/heartDetector.js:150-152 | clears the cooldown and leaves the scheduled timers in place |
| Gestures.Deactivated | src/gestureController.js:107-111 | `reset` clears the activity flag, the distance and the centre, and keeps the scale, the rotation and the timestamp |
| Gestures.PinchScale | src/gestureController.js:82-84 | the new scale lies in [0.25, 4.0]; it is the unclamped product `current * distance / lastDistance` when that is in range, and 4.0 when the anchor distance is 0 |
| Gestures.Step | src/gestureController.js:35-105 | one frame keeps the class invariant and fires at most one event; no hands resets before the debounce; a debounced frame changes nothing; otherwise the timestamp becomes `now`; a scale change or a rotation change comes with its event |
| Gestures.TrackStep | src/gestureController.js:69-104 | the active branch keeps the invariant, stays active and fires at most one event |
| Gestures.MissingTipResets | src/gestureController.js:45-52 | a frame past the debounce without both tips resets the gesture and still records the timestamp |
| Gestures.FirstFrameAnchors | src/gestureController.js:61-67 | the first usable frame records distance and centre, activates, and changes neither scale nor rotation, firing nothing |
| Gestures.ScaleBranch | src/gestureController.js:77-92 | the scale branch runs exactly when the distance changed by more than 0.01; it reports and stores the clamped ratio scale and re-anchors the distance; otherwise the scale and the anchor distance stay |
| Gestures.RotationBranch | src/gestureController.js:94-104 | the rotation branch runs exactly when the midpoint moved more than 0.005 and the distance changed by less than 0.01; it adds `-3 dx` to rotationY and `3 dy` to rotationX without clamping and re-anchors the centre; otherwise rotation and centre stay |
| Gestures.ExactThresholdIsIgnored | src/gestureController.js:81 | a distance change of exactly 0.01 fires nothing and changes only the timestamp |
| Gestures.PinchScaleMonotone | src/gestureController.js:82-84 | from the same anchor, a wider pinch never yields a smaller scale |
| Gestures.GestureController.constructor | src/gestureController.js:12-33 | the controller starts at scale 1, rotation 0, inactive, with timestamp 0 |
| Gestures.GestureController.ProcessHands | src/gestureController.js:35-105 | the new fields and the fired callbacks are exactly those of `Step` on the old fields, and the invariant holds |
| Gestures.GestureController.Track | src/gestureController.js:69-104 | the active branch on the fields computes exactly `TrackStep` |
| Gestures.GestureController.Reset | src/gestureController.js:107-111 | the fields become `Deactivated` of the old fields |
| Gestures.GestureController.SetCurrentScale | src/gestureController.js:113-116 | both scale fields become the clamped argument; nothing else changes |
| Gestures.GestureController.GetCurrentScale | src/gestureController.js:118-120 | returns the target scale, which lies in [0.25, 4.0] |
| Gestures.GestureController.GetCurrentRotation | src/gestureController.js:122-124 | returns the two target rotations |
| Sampling.SampleIndex | src/canvasRenderer.js:206-209 | every sampled index is inside the input |
| Sampling.Downsample | src/canvasRenderer.js:199-219 | a sequence that fits is returned whole; otherwise exactly `target` elements, the i-th taken at `floor(i * n / target)` |
| Sampling.SampleIndexStrictlyIncreasing | src/holographicHeart3D.js:227-233 | for more inputs than slots the sampled indices strictly increase, so order is kept and nothing repeats |
| Sampling.FirstSampleIsFirst | src/canvasRenderer.js:208-211 | the first sample is the first element |
| Sampling.SampleFromInput | src/holographicHeart3D.js:230-233 | every sample is an element of the input |
| Canvas.ToCanvas | src/canvasRenderer.js:21-28 | a stored point is the mirrored x times 640 and y times 480, stamped with `now`; unit coordinates land on the canvas |
| Canvas.Push | src/canvasRenderer.js:24-32 | the new point is last; below the cap it is appended, at the cap the oldest entry is dropped first; the length stays at most 200 |
| Canvas.KeepRecent | src/canvasRenderer.js:282-286 | the age filter returns only entries younger than two seconds and never grows |
| Canvas.KeepRecentMembers | src/canvasRenderer.js:282-286 | an entry survives the filter exactly when it was in the trail and is younger than two seconds |
| Canvas.KeepRecentAppend | src/canvasRenderer.js:282-286 | the filter works entry by entry and keeps the original order |
| Canvas.FreshPointIsRecent | src/canvasRenderer.js:27 | an entry stamped in the current frame passes the age filter |
| Canvas.SimplifyAndSmoothTrail | src/canvasRenderer.js:199-219 | the loop returns the positions of `Downsample(trail, target)` |
| Canvas.CanvasRenderer.constructor | src/canvasRenderer.js:2-10 | the renderer starts with an empty trail and not animating |
| Canvas.CanvasRenderer.AddTrailPoint | src/canvasRenderer.js:16-33 | an absent point or one with a non-numeric coordinate is ignored; otherwise the trail becomes `Push` of the mirrored point |
| Canvas.CanvasRenderer.ClearTrail | src/canvasRenderer.js:35-37 | the trail becomes empty |
| Canvas.CanvasRenderer.Render | src/canvasRenderer.js:270-287 | while animating nothing changes; otherwise the fingertip is pushed (when valid) and then the age filter runs |
| Canvas.RenderKeepsNewestPoint | src/canvasRenderer.js:275-286 | after a frame with a valid fingertip that point is the newest entry of the trail |
| Holo.To3D | src/holographicHeart3D.js:124-129 | a trail point maps into the z = 0 plane, and unit coordinates land within 40 of the origin |
| Holo.To3DInjective | src/holographicHeart3D.js:124-129 | the image-to-world map is injective: two trail points with the same world point are the same point |
| Holo.MapTo3D | src/holographicHeart3D.js:124-129 | the outline has one world point per trail point, in order |
| Holo.ShapeFor | src/holographicHeart3D.js:92-96 | the drawn outline is used exactly when the trail is present with at least 10 points; its fill is the outline downsampled to 20 points |
| Holo.SimplifyPoints | src/holographicHeart3D.js:223-236 | the loop computes `Downsample(points, target)` |
| Holo.BouncePreservesSpeed | src/holographicHeart3D.js:453-455 | each velocity component is kept or negated, so every speed is unchanged |
| Holo.BounceKeepsContained | src/holographicHeart3D.js:447-456 | a frame keeps every particle within one step of the 60-unit cube and heading back when outside, so no particle escapes |
| Holo.ContainedStep | src/holographicHeart3D.js:448-455 | one coordinate's move and bounce keep it contained |
| Holo.HolographicHeart.constructor | src/holographicHeart3D.js:64-71 | a new heart has scale 1, rotation 0, the shape `ShapeFor(trail)`, and the given particle cloud, contained in the cube |
| Holo.HolographicHeart.SetScale | src/holographicHeart3D.js:396-398 | the target scale becomes the argument clamped to [0.4, 3.3]; nothing else changes and the heart's invariant is kept |
| Holo.HolographicHeart.SetRotation | src/holographicHeart3D.js:406-409 | the target rotations become the arguments unchanged; nothing else changes and the heart's invariant is kept |
| Holo.HolographicHeart.Update | src/holographicHeart3D.js:419-461 | the scale eases 5% and the rotations 8% toward their targets, the particles move and bounce, and the invariant (clamped target, contained particles) holds |
| Holo.HolographicHeart.MoveParticles | src/holographicHeart3D.js:447-456 | the loop leaves the arrays equal to `Moved` and `Bounced` of their old contents |
| Holo.MoveParticle | src/holographicHeart3D.js:448-455 | one loop step moves the three coordinates of one particle and bounces them, leaving every other entry unchanged |
| Holo.ScaleEasing | src/holographicHeart3D.js:421 | after n frames with a fixed target the scale gap is `0.95^n` of the first gap |
| Holo.EaseIsBlend | src/holographicHeart3D.js:425-426 | the frame formula `c + (t - c) * k` is the blend with weight k |
| Smoothing.Smooth | src/main.js:278-295 | the first point is taken as it is; later ones are `0.3 new + 0.7 old` per axis and lie between the old and the new value |
| Smoothing.SmoothConverges | src/main.js:288-292 | holding the finger still, the gap to the fingertip shrinks by the factor 0.7 per frame on both axes |
| Smoothing.SmoothAsBlend | src/main.js:291-292 | repeated smoothing is the blend applied to each axis separately |
| Smoothing.WeightSumBelow | src/main.js:540-543 | the normaliser is non-negative, and at least 0.4 because the centre point is always in range |
| Smoothing.SmoothedTrail | src/main.js:521-554 | the result has the trail's length, and a trail shorter than 5 comes back unchanged |
| Smoothing.SmoothTrail | src/main.js:521-554 | the nested loops compute `SmoothedTrail` |
| Smoothing.SmoothWindow | src/main.js:531-550 | the inner loop computes the renormalised window average at one index |
| Smoothing.ScaledWeightSumIsProduct | src/main.js:543 | summing a constant times the in-range weights is the constant times their sum |
| Smoothing.WindowSumBounds | src/main.js:540-544 | the weighted sum lies between the weight sum times the lower and times the upper bound of the window |
| Smoothing.AverageWithin | src/main.js:548-549 | the renormalised average of one coordinate lies within the bounds of its in-range window |
| Smoothing.SmoothedWithinWindow | src/main.js:530-551 | each smoothed point lies within any bounds that hold for its in-range neighbours |
| Smoothing.ConstantTrailUnchanged | src/main.js:521-554 | a trail that stays on one point comes back unchanged |
| App.Cap | src/main.js:239-241 | pushing past 200 drops exactly the oldest point, keeping the order and the cap |
| App.DrawFrame | src/main.js:198-247 | a drawing frame keeps the trail invariant (capped; `lastPoint` set exactly when the trail is non-empty, and then its newest point); a frame without a tip clears everything; the trail grows by at most one |
| App.DrawFrameCases | src/main.js:207-242 | the four outcomes of a frame with a tip: the first point is taken; an idle trail of more than 7 points after more than 600 ms is dropped, together with the current point, before the move is looked at; a point more than 0.005 away is appended; otherwise only the smoother moves |
| App.DrawFrameKeepsSpacing | src/main.js:229-241 | consecutive trail points stay more than 0.005 apart after every frame |
| App.AppendKeepsSpacing | src/main.js:230-234 | appending a far enough point keeps the trail spaced |
| App.HeartApp.constructor | src/main.js:66-69 | the app starts in drawing mode with an empty trail, no heart, a detector without cooldown or pending timer and a controller in its initial state |
| App.HeartApp.OnHandResults | src/main.js:195-254 | the mode never changes; in drawing mode the drawing state becomes `DrawFrame` and the controller is untouched; in 3D mode the trail is untouched, a frame without hands is not forwarded, a frame with hands is `Step` of the controller, and its event reaches the heart's target scale or target rotation, while the heart's shape, current scale, current rotations and particles stay |
| App.HeartApp.DrawingFrame | src/main.js:198-247 | the drawing branch on the fields computes exactly `DrawFrame` |
| App.HeartApp.ResetTrail | src/main.js:261-267 | the trail, the last point, the smoother and both timestamps are cleared |
| App.HeartApp.ApplySmoothing | src/main.js:278-295 | the stored and returned point is `Smooth` of the old stored point and the fingertip |
| App.HeartApp.DetectHeart | src/main.js:302-308 | true exactly for a trail of at least 15 points in drawing mode that the detector, not in cooldown, classifies as a heart; a true answer sets the cooldown and schedules one expiry timer, a false one changes neither |
| App.HeartApp.OnHeartDetected | src/main.js:336-359 | the app enters 3D mode, keeps the trail and the controller, and builds a valid heart of `ShapeFor(trail)` with the given particles, current scale 1, zero rotations, and a target scale equal to the controller's scale clamped to the heart's range |
| App.HeartApp.DetectionTick | src/main.js:315-325 | a tick switches to 3D mode exactly when not yet detected, the trail has at least 15 points, the detector is not cooling down, and the trail is a heart; a switch sets the cooldown, schedules one timer and builds the heart as `OnHeartDetected` does; otherwise the cooldown, the timers, the mode and every field of an existing heart stay; the trail and the controller never change |
| App.HeartApp.Reset | src/main.js:378-405 | back to drawing mode with an empty trail, no heart, scale 1 and no cooldown; the smoother, the timestamps, the rotation and the gesture anchor stay |

## Left out

- Camera access, model loading and the frame pump of the hand tracker are
  outside the model. These are MediaPipe and `getUserMedia` I/O.
- All drawing is left out: the canvases, Three.js geometry, materials,
  lights and the render loop, `techEffects.js`, and `animation.js`.
  `animation.js` is not imported by the app.
- The particles' y rotation gets a constant 0.002 rad added each frame
  (`src/holographicHeart3D.js:437-441`). This is left out. The code sets
  that rotation from `currentRotationY` before adding, so the 0.002 never
  builds up: it is a fixed display offset, not a spin, and not stored
  state that the model tracks.
- The copying of the heart's scale and rotation onto the Three.js objects is
  left out. The model keeps only the numeric fields.
- Floating point is left out. Coordinates, scales and rotations are exact
  reals, and the Float32 particle buffer is exact too.
- Sampling.Downsample: its index is the exact `floor(i * n / target)`.
  The program computes `Math.floor(i * (n / target))` in floating point,
  which can round differently when `i * n / target` is an integer.
- Canvas.SimplifyAndSmoothTrail: when the trail already fits, the
  program returns copies of the stored entries with their timestamps. The
  model returns only their positions, as it does on the sampling path.
- Canvas.CanvasRenderer.Render: `render` reads the clock twice, once when
  adding the point and once for the age filter. The model uses one `now`
  for both reads.
- The real `setInterval` of `startHeartDetection` is not modelled, nor
  `clearInterval` or the restart of the interval in `reset`. Each tick is
  one call of `HeartApp.DetectionTick`, whose guard makes a tick in 3D mode
  change nothing.
- The two-second delay before the click handler is installed
  (`src/main.js:355-358`) is not modelled: `HeartApp.Reset` may be called
  at any time in 3D mode.
- `HeartApp.Reset` hides the old heart by dropping the reference. The
  display call `hide()` is not modelled.
- Gestures.GestureController.ProcessHands: takes the thumb-to-index
  distance as the argument `distance`, tied to the landmarks by
  `DistanceFits`, because `Math.hypot` has no exact counterpart on reals.
- Holo.HolographicHeart.constructor: requires the particle cloud as
  arguments: 900 position coordinates in [-55, 55] and 900 velocity
  components in [-0.01, 0.01]. This replaces the spherical random
  generation by `Math.random()`. The model uses three properties of that
  generation: the position bound, the velocity bound, and the count of 900
  coordinates, three per particle.
- The geometry built by `createHeartGeometry` (the parametric default
  heart) and by `createHeartFromTrail` (tube, fill mesh, dot matrix) is
  not modelled. `Holo.Shape` records only which outline is used and the
  points it is built from.
