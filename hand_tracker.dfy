/** The landmark selector of the hand tracker: given the tracking service's
    per-frame result, pick the index fingertip of the first hand. */
module HandTracker {
  import opened Geometry

  /** One tracked landmark as the service delivers it: normalised x and y plus
      a depth value that the application never uses. */
  datatype Landmark = Landmark(x: real, y: real, z: real)

  /** The landmarks of one hand in the standard 21-point skeleton order; an
      index past the end, or a `None` entry, is a landmark that is missing. */
  type Hand = seq<Option<Landmark>>

  const ThumbTip: nat := 4
  const IndexTip: nat := 8

  function LandmarkAt(hand: Hand, i: nat): (r: Option<Landmark>)
    ensures r.Some? <==> i < |hand| && hand[i].Some?
    ensures r.Some? ==> r == hand[i]
  {
    if i < |hand| then hand[i] else None
  }

  /** `multiHandLandmarks` being absent is `None`; an empty list is `Some([])`. */
  function ExtractIndexFingerTip(multiHandLandmarks: Option<seq<Hand>>): (tip: Option<Point>)
    ensures multiHandLandmarks.None? || multiHandLandmarks.value == [] ==> tip.None?
    ensures tip.Some? <==>
              multiHandLandmarks.Some? && |multiHandLandmarks.value| > 0 &&
              LandmarkAt(multiHandLandmarks.value[0], IndexTip).Some?
    ensures tip.Some? ==>
              var lm := LandmarkAt(multiHandLandmarks.value[0], IndexTip).value;
              tip.value.x == lm.x && tip.value.y == lm.y
  {
    if multiHandLandmarks.None? || |multiHandLandmarks.value| == 0 then None
    else
      var landmarks := multiHandLandmarks.value[0];
      match LandmarkAt(landmarks, IndexTip)
      case None => None
      case Some(lm) => Some(Point(lm.x, lm.y))
  }

  /** Only the first hand is consulted: two frames whose first hands agree give
      the same fingertip whatever the other hands hold. */
  lemma OnlyFirstHandConsulted(a: seq<Hand>, b: seq<Hand>)
    requires |a| > 0 && |b| > 0 && a[0] == b[0]
    ensures ExtractIndexFingerTip(Some(a)) == ExtractIndexFingerTip(Some(b))
  {
  }
}
