/** The hand-gesture classifier (src/utils/gestureRecognition.ts): one frame
    of hand landmarks becomes one of seven gesture kinds. Everything except
    the swipe stage is a pure function of the frame; the swipe stage reads
    and writes the wrist position remembered from the previous frame, which
    the source keeps in a module-level variable and this model keeps in a
    `GestureTracker` object. */
module GestureRecognition {
  import Wrappers

  /** The gesture kinds, in the order the source declares them. */
  datatype GestureType = ZoomIn | ZoomOut | Explode | Assemble | RotateLeft | RotateRight | None

  /** The `data` payload of a result: `distance` for the zoom gestures,
      `velocity` for the rotation gestures; an absent payload has neither. */
  datatype GestureData = GestureData(distance: Wrappers.Option<real>, velocity: Wrappers.Option<real>)

  const NoData := GestureData(Wrappers.None, Wrappers.None)

  datatype GestureResult = GestureResult(kind: GestureType, confidence: real, data: GestureData)

  /** `{ type: 'NONE', confidence: 0 }` */
  const NoGesture := GestureResult(None, 0.0, NoData)

  /** One normalised landmark of a hand (`x`, `y` in [0, 1] in practice;
      `z` is carried but never read). */
  datatype Landmark = Landmark(x: real, y: real, z: real)

  /** A complete hand has this many landmarks. */
  const LandmarkCount := 21

  const Wrist := 0
  const IndexPip := 6
  const IndexTip := 8
  const MiddlePip := 10
  const MiddleTip := 12
  const RingPip := 14
  const RingTip := 16
  const PinkyPip := 18
  const PinkyTip := 20

  /** The tunables the source reads from its scene configuration. */
  datatype Thresholds = Thresholds(
    spreadThreshold: real,
    pinchThreshold: real,
    fistThreshold: real,
    swipeThreshold: real)
  {
    predicate Valid() {
      0.0 <= spreadThreshold && 0.0 <= pinchThreshold && 0.0 <= fistThreshold && 0.0 <= swipeThreshold
    }
  }

  /** `Math.sqrt`, which the model receives as a parameter: on non-negative
      arguments it returns the non-negative square root. */
  ghost predicate IsSqrt(sqrt: real -> real) {
    forall v :: 0.0 <= v ==> 0.0 <= sqrt(v) && sqrt(v) * sqrt(v) == v
  }

  function SquaredDistance(p: Landmark, q: Landmark): (d2: real)
    ensures 0.0 <= d2
  {
    var dx := p.x - q.x;
    var dy := p.y - q.y;
    dx * dx + dy * dy
  }

  /** Euclidean distance of two landmarks in the image plane. */
  function Distance(sqrt: real -> real, p: Landmark, q: Landmark): (d: real)
    requires IsSqrt(sqrt)
    ensures 0.0 <= d && d * d == SquaredDistance(p, q)
  {
    sqrt(SquaredDistance(p, q))
  }

  /** Comparing a distance with a non-negative threshold is comparing the
      squared distance with the squared threshold: the classifier's
      decisions do not depend on how the square root is computed. */
  lemma DistanceVersusThreshold(sqrt: real -> real, p: Landmark, q: Landmark, t: real)
    requires IsSqrt(sqrt) && 0.0 <= t
    ensures Distance(sqrt, p, q) > t <==> SquaredDistance(p, q) > t * t
    ensures Distance(sqrt, p, q) < t <==> SquaredDistance(p, q) < t * t
  {
    var d := Distance(sqrt, p, q);
    SquareMonotone(d, t);
    SquareMonotone(t, d);
  }

  /** Squaring is strictly increasing on the non-negative reals. */
  lemma SquareMonotone(a: real, b: real)
    requires 0.0 <= a && 0.0 <= b
    ensures a < b <==> a * a < b * b
  {
    if a < b {
      SquareBelow(a, b);
    } else {
      SquareBelow(b, a);
    }
  }

  lemma SquareBelow(a: real, b: real)
    requires 0.0 <= a <= b
    ensures a < b ==> a * a < b * b
    ensures a * a <= b * b
  {
    if a < b {
      PositiveProduct(b - a, b + a);
      assert b * b - a * a == (b - a) * (b + a);
    }
  }

  lemma PositiveProduct(x: real, y: real)
    requires 0.0 < x && 0.0 < y
    ensures 0.0 < x * y
  {
  }

  /** A finger is extended when its tip is above (smaller y than) its PIP
      joint. */
  predicate IsFingerExtended(landmarks: seq<Landmark>, tip: nat, pip: nat): (extended: bool)
    requires tip < |landmarks| && pip < |landmarks|
    ensures extended ==> tip != pip
  {
    landmarks[tip].y < landmarks[pip].y
  }

  predicate AllFingersExtended(landmarks: seq<Landmark>)
    requires |landmarks| >= LandmarkCount
  {
    && IsFingerExtended(landmarks, IndexTip, IndexPip)
    && IsFingerExtended(landmarks, MiddleTip, MiddlePip)
    && IsFingerExtended(landmarks, RingTip, RingPip)
    && IsFingerExtended(landmarks, PinkyTip, PinkyPip)
  }

  /** The two-finger stage: with index and middle finger extended, a spread
      wider than `spreadThreshold` is ZOOM_IN and a pinch narrower than
      `pinchThreshold` is ZOOM_OUT, both carrying the distance; anything
      else, including the band between the thresholds, is NONE. */
  function RecognizeTwoFingerGesture(t: Thresholds, sqrt: real -> real, landmarks: seq<Landmark>): (r: GestureResult)
    requires IsSqrt(sqrt) && |landmarks| >= LandmarkCount
    ensures r.kind in {ZoomIn, ZoomOut, None}
    ensures r.kind != None ==>
      && IsFingerExtended(landmarks, IndexTip, IndexPip)
      && IsFingerExtended(landmarks, MiddleTip, MiddlePip)
      && r.confidence == 0.8
      && r.data == GestureData(Wrappers.Some(Distance(sqrt, landmarks[IndexTip], landmarks[MiddleTip])), Wrappers.None)
    ensures r.kind == None ==> r == NoGesture
    ensures var both := IsFingerExtended(landmarks, IndexTip, IndexPip) && IsFingerExtended(landmarks, MiddleTip, MiddlePip);
      var d := Distance(sqrt, landmarks[IndexTip], landmarks[MiddleTip]);
      && (r.kind == ZoomIn <==> both && d > t.spreadThreshold)
      && (r.kind == ZoomOut <==> both && d <= t.spreadThreshold && d < t.pinchThreshold)
  {
    if !IsFingerExtended(landmarks, IndexTip, IndexPip) || !IsFingerExtended(landmarks, MiddleTip, MiddlePip) then
      NoGesture
    else
      var fingerDistance := Distance(sqrt, landmarks[IndexTip], landmarks[MiddleTip]);
      if fingerDistance > t.spreadThreshold then
        GestureResult(ZoomIn, 0.8, GestureData(Wrappers.Some(fingerDistance), Wrappers.None))
      else if fingerDistance < t.pinchThreshold then
        GestureResult(ZoomOut, 0.8, GestureData(Wrappers.Some(fingerDistance), Wrappers.None))
      else
        NoGesture
  }

  /** The two-finger stage against a reference that uses squared distances
      only: which zoom fires is decided by the index and middle finger tips
      and the thresholds, spread taking precedence when the thresholds
      overlap. */
  lemma TwoFingerDecision(t: Thresholds, sqrt: real -> real, landmarks: seq<Landmark>)
    requires IsSqrt(sqrt) && |landmarks| >= LandmarkCount && t.Valid()
    ensures var both := IsFingerExtended(landmarks, IndexTip, IndexPip) && IsFingerExtended(landmarks, MiddleTip, MiddlePip);
      var d2 := SquaredDistance(landmarks[IndexTip], landmarks[MiddleTip]);
      var r := RecognizeTwoFingerGesture(t, sqrt, landmarks);
      && (r.kind == ZoomIn <==> both && d2 > t.spreadThreshold * t.spreadThreshold)
      && (r.kind == ZoomOut <==> both && d2 <= t.spreadThreshold * t.spreadThreshold && d2 < t.pinchThreshold * t.pinchThreshold)
  {
    DistanceVersusThreshold(sqrt, landmarks[IndexTip], landmarks[MiddleTip], t.spreadThreshold);
    DistanceVersusThreshold(sqrt, landmarks[IndexTip], landmarks[MiddleTip], t.pinchThreshold);
  }

  /** The open-hand stage: EXPLODE exactly when all four fingers are
      extended. */
  function RecognizeOpenFist(landmarks: seq<Landmark>): (r: GestureResult)
    requires |landmarks| >= LandmarkCount
    ensures r.kind in {Explode, None}
    ensures r.kind == Explode <==> AllFingersExtended(landmarks)
    ensures r.kind == Explode ==> r == GestureResult(Explode, 0.9, NoData)
    ensures r.kind == None ==> r == NoGesture
  {
    var fingersExtended := [
      IsFingerExtended(landmarks, IndexTip, IndexPip),
      IsFingerExtended(landmarks, MiddleTip, MiddlePip),
      IsFingerExtended(landmarks, RingTip, RingPip),
      IsFingerExtended(landmarks, PinkyTip, PinkyPip)
    ];
    var allExtended := forall i :: 0 <= i < |fingersExtended| ==> fingersExtended[i];
    assert allExtended <==> fingersExtended[0] && fingersExtended[1] && fingersExtended[2] && fingersExtended[3];
    if allExtended then GestureResult(Explode, 0.9, NoData) else NoGesture
  }

  /** Mean distance from the wrist to the four non-thumb finger tips, summed
      from 0 in the order index, middle, ring, pinky as `reduce` does. */
  function MeanTipDistance(sqrt: real -> real, landmarks: seq<Landmark>): (m: real)
    requires IsSqrt(sqrt) && |landmarks| >= LandmarkCount
    ensures 0.0 <= m
  {
    var wrist := landmarks[Wrist];
    var fingertips := [landmarks[IndexTip], landmarks[MiddleTip], landmarks[RingTip], landmarks[PinkyTip]];
    var sum := 0.0 + Distance(sqrt, fingertips[0], wrist) + Distance(sqrt, fingertips[1], wrist)
                   + Distance(sqrt, fingertips[2], wrist) + Distance(sqrt, fingertips[3], wrist);
    sum / |fingertips| as real
  }

  /** The closed-fist stage: ASSEMBLE exactly when the finger tips are, on
      average, closer to the wrist than `fistThreshold`. */
  function RecognizeClosedFist(t: Thresholds, sqrt: real -> real, landmarks: seq<Landmark>): (r: GestureResult)
    requires IsSqrt(sqrt) && |landmarks| >= LandmarkCount
    ensures r.kind in {Assemble, None}
    ensures r.kind == Assemble <==> MeanTipDistance(sqrt, landmarks) < t.fistThreshold
    ensures r.kind == Assemble ==> r == GestureResult(Assemble, 0.9, NoData)
    ensures r.kind == None ==> r == NoGesture
  {
    if MeanTipDistance(sqrt, landmarks) < t.fistThreshold then GestureResult(Assemble, 0.9, NoData)
    else NoGesture
  }

  /** The hand moved by `dx` across and `dy` down the image. */
  function Translate(landmarks: seq<Landmark>, dx: real, dy: real): (moved: seq<Landmark>)
    ensures |moved| == |landmarks|
    ensures forall i :: 0 <= i < |landmarks| ==>
      moved[i] == Landmark(landmarks[i].x + dx, landmarks[i].y + dy, landmarks[i].z)
  {
    seq(|landmarks|, i requires 0 <= i < |landmarks| =>
      Landmark(landmarks[i].x + dx, landmarks[i].y + dy, landmarks[i].z))
  }

  /** Whether a finger is extended depends only on where its tip is
      relative to its PIP joint, not on where the hand is. */
  lemma ExtensionIgnoresTranslation(landmarks: seq<Landmark>, tip: nat, pip: nat, dx: real, dy: real)
    requires tip < |landmarks| && pip < |landmarks|
    ensures IsFingerExtended(Translate(landmarks, dx, dy), tip, pip) <==> IsFingerExtended(landmarks, tip, pip)
  {
    var moved := Translate(landmarks, dx, dy);
    assert moved[tip].y - moved[pip].y == landmarks[tip].y - landmarks[pip].y;
  }

  /** The squared distance depends only on the differences of the
      coordinates. */
  lemma SquaredDistanceByDifference(p: Landmark, q: Landmark, p': Landmark, q': Landmark)
    requires p.x - q.x == p'.x - q'.x && p.y - q.y == p'.y - q'.y
    ensures SquaredDistance(p, q) == SquaredDistance(p', q')
  {
    var dx, dy := p.x - q.x, p.y - q.y;
    assert SquaredDistance(p', q') == dx * dx + dy * dy;
  }

  lemma DistanceIgnoresTranslation(sqrt: real -> real, landmarks: seq<Landmark>, i: nat, j: nat, dx: real, dy: real)
    requires IsSqrt(sqrt) && i < |landmarks| && j < |landmarks|
    ensures Distance(sqrt, Translate(landmarks, dx, dy)[i], Translate(landmarks, dx, dy)[j])
         == Distance(sqrt, landmarks[i], landmarks[j])
  {
    var moved := Translate(landmarks, dx, dy);
    SquaredDistanceByDifference(moved[i], moved[j], landmarks[i], landmarks[j]);
  }

  /** The two-finger stage classifies a hand the same wherever it is in the
      image. */
  lemma TwoFingerIgnoresTranslation(t: Thresholds, sqrt: real -> real, landmarks: seq<Landmark>, dx: real, dy: real)
    requires IsSqrt(sqrt) && |landmarks| >= LandmarkCount
    ensures RecognizeTwoFingerGesture(t, sqrt, Translate(landmarks, dx, dy))
         == RecognizeTwoFingerGesture(t, sqrt, landmarks)
  {
    ExtensionIgnoresTranslation(landmarks, IndexTip, IndexPip, dx, dy);
    ExtensionIgnoresTranslation(landmarks, MiddleTip, MiddlePip, dx, dy);
    DistanceIgnoresTranslation(sqrt, landmarks, IndexTip, MiddleTip, dx, dy);
  }

  /** So does the open-hand stage. */
  lemma OpenFistIgnoresTranslation(landmarks: seq<Landmark>, dx: real, dy: real)
    requires |landmarks| >= LandmarkCount
    ensures RecognizeOpenFist(Translate(landmarks, dx, dy)) == RecognizeOpenFist(landmarks)
  {
    ExtensionIgnoresTranslation(landmarks, IndexTip, IndexPip, dx, dy);
    ExtensionIgnoresTranslation(landmarks, MiddleTip, MiddlePip, dx, dy);
    ExtensionIgnoresTranslation(landmarks, RingTip, RingPip, dx, dy);
    ExtensionIgnoresTranslation(landmarks, PinkyTip, PinkyPip, dx, dy);
  }

  /** And so does the closed-fist stage. */
  lemma ClosedFistIgnoresTranslation(t: Thresholds, sqrt: real -> real, landmarks: seq<Landmark>, dx: real, dy: real)
    requires IsSqrt(sqrt) && |landmarks| >= LandmarkCount
    ensures RecognizeClosedFist(t, sqrt, Translate(landmarks, dx, dy)) == RecognizeClosedFist(t, sqrt, landmarks)
  {
    DistanceIgnoresTranslation(sqrt, landmarks, IndexTip, Wrist, dx, dy);
    DistanceIgnoresTranslation(sqrt, landmarks, MiddleTip, Wrist, dx, dy);
    DistanceIgnoresTranslation(sqrt, landmarks, RingTip, Wrist, dx, dy);
    DistanceIgnoresTranslation(sqrt, landmarks, PinkyTip, Wrist, dx, dy);
    assert MeanTipDistance(sqrt, Translate(landmarks, dx, dy)) == MeanTipDistance(sqrt, landmarks);
  }

  /** A classification together with the tracked wrist position after it. */
  datatype Classification = Classification(result: GestureResult, previousWristX: Wrappers.Option<real>)

  function Abs(v: real): real {
    if v < 0.0 then -v else v
  }

  /** The swipe stage, given the remembered wrist position and the current
      one: a horizontal move of more than `swipeThreshold` rotates in the
      direction of the move, with the move as velocity. The remembered
      position always becomes the current one. */
  function SwipeStage(swipeThreshold: real, previousWristX: Wrappers.Option<real>, wristX: real): (c: Classification)
    ensures c.previousWristX == Wrappers.Some(wristX)
    ensures c.result.kind in {RotateLeft, RotateRight, None}
    ensures c.result.kind != None <==>
      previousWristX.Some? && Abs(wristX - previousWristX.value) > swipeThreshold
    ensures c.result.kind != None ==>
      && (c.result.kind == RotateRight <==> wristX - previousWristX.value > 0.0)
      && c.result.confidence == 0.7
      && c.result.data == GestureData(Wrappers.None, Wrappers.Some(wristX - previousWristX.value))
    ensures c.result.kind == None ==> c.result == NoGesture
  {
    if previousWristX.Some? && Abs(wristX - previousWristX.value) > swipeThreshold then
      var deltaX := wristX - previousWristX.value;
      var data := GestureData(Wrappers.None, Wrappers.Some(deltaX));
      Classification(GestureResult(if deltaX > 0.0 then RotateRight else RotateLeft, 0.7, data), Wrappers.Some(wristX))
    else
      Classification(NoGesture, Wrappers.Some(wristX))
  }

  predicate IsCompleteFrame(landmarks: Wrappers.Option<seq<Landmark>>) {
    landmarks.Some? && |landmarks.value| >= LandmarkCount
  }

  /** `recognizeGesture` as a function of the remembered wrist position:
      closed fist, then open hand, then two fingers, then swipe, the first
      stage that fires deciding the result. A missing or incomplete frame is
      NONE. Only when the swipe stage is reached is the wrist position
      updated. */
  function Classify(t: Thresholds, sqrt: real -> real, previousWristX: Wrappers.Option<real>,
                    landmarks: Wrappers.Option<seq<Landmark>>): (c: Classification)
    requires IsSqrt(sqrt)
    ensures c.result.confidence == 0.0 <==> c.result.kind == None
    ensures c.result.kind != None ==> c.result.confidence in {0.7, 0.8, 0.9}
    ensures c.result.kind == None ==> c.result == NoGesture
    ensures c.previousWristX == previousWristX
         || (IsCompleteFrame(landmarks) && c.previousWristX == Wrappers.Some(landmarks.value[Wrist].x))
  {
    if !IsCompleteFrame(landmarks) then
      Classification(NoGesture, previousWristX)
    else
      var frame := landmarks.value;
      var closedFist := RecognizeClosedFist(t, sqrt, frame);
      if closedFist.kind != None then Classification(closedFist, previousWristX)
      else
        var openFist := RecognizeOpenFist(frame);
        if openFist.kind != None then Classification(openFist, previousWristX)
        else
          var twoFinger := RecognizeTwoFingerGesture(t, sqrt, frame);
          if twoFinger.kind != None then Classification(twoFinger, previousWristX)
          else
            var swipe := SwipeStage(t.swipeThreshold, previousWristX, frame[Wrist].x);
            if swipe.result.kind != None then swipe
            else Classification(NoGesture, swipe.previousWristX)
  }

  /** Whether a complete frame reaches the swipe stage: no earlier stage
      fires. */
  predicate ReachesSwipe(t: Thresholds, sqrt: real -> real, landmarks: seq<Landmark>)
    requires IsSqrt(sqrt) && |landmarks| >= LandmarkCount
  {
    && RecognizeClosedFist(t, sqrt, landmarks).kind == None
    && RecognizeOpenFist(landmarks).kind == None
    && RecognizeTwoFingerGesture(t, sqrt, landmarks).kind == None
  }

  /** A missing frame or one with fewer than 21 landmarks is NONE with
      confidence 0 and leaves the tracked wrist position alone. */
  lemma IncompleteFrameIsNone(t: Thresholds, sqrt: real -> real, prev: Wrappers.Option<real>,
                              landmarks: Wrappers.Option<seq<Landmark>>)
    requires IsSqrt(sqrt) && !IsCompleteFrame(landmarks)
    ensures Classify(t, sqrt, prev, landmarks) == Classification(NoGesture, prev)
  {
  }

  /** A closed fist is ASSEMBLE with confidence 0.9 whatever the fingers'
      extension says: a pose that also looks like an open hand is never
      EXPLODE. */
  lemma ClosedFistWins(t: Thresholds, sqrt: real -> real, prev: Wrappers.Option<real>, landmarks: seq<Landmark>)
    requires IsSqrt(sqrt) && |landmarks| >= LandmarkCount
    requires MeanTipDistance(sqrt, landmarks) < t.fistThreshold
    ensures Classify(t, sqrt, prev, Wrappers.Some(landmarks)) ==
            Classification(GestureResult(Assemble, 0.9, NoData), prev)
  {
  }

  /** An open hand that is not a closed fist is EXPLODE with confidence 0.9. */
  lemma OpenHandIsExplode(t: Thresholds, sqrt: real -> real, prev: Wrappers.Option<real>, landmarks: seq<Landmark>)
    requires IsSqrt(sqrt) && |landmarks| >= LandmarkCount
    requires MeanTipDistance(sqrt, landmarks) >= t.fistThreshold && AllFingersExtended(landmarks)
    ensures Classify(t, sqrt, prev, Wrappers.Some(landmarks)) ==
            Classification(GestureResult(Explode, 0.9, NoData), prev)
  {
  }

  /** A hand that is neither a closed fist nor an open hand, and on which the
      two-finger stage fires, is that stage's zoom gesture, distance and all;
      the tracked wrist position is left alone. */
  lemma TwoFingerWins(t: Thresholds, sqrt: real -> real, prev: Wrappers.Option<real>, landmarks: seq<Landmark>)
    requires IsSqrt(sqrt) && |landmarks| >= LandmarkCount
    requires MeanTipDistance(sqrt, landmarks) >= t.fistThreshold && !AllFingersExtended(landmarks)
    requires RecognizeTwoFingerGesture(t, sqrt, landmarks).kind != None
    ensures Classify(t, sqrt, prev, Wrappers.Some(landmarks)) ==
            Classification(RecognizeTwoFingerGesture(t, sqrt, landmarks), prev)
  {
  }

  /** In the band between the pinch and spread thresholds the two-finger
      stage never fires: the frame is no zoom gesture, and is NONE unless the
      swipe stage fires. */
  lemma DeadZoneIsNoZoom(t: Thresholds, sqrt: real -> real, prev: Wrappers.Option<real>, landmarks: seq<Landmark>)
    requires IsSqrt(sqrt) && |landmarks| >= LandmarkCount
    requires var d := Distance(sqrt, landmarks[IndexTip], landmarks[MiddleTip]);
      t.pinchThreshold <= d <= t.spreadThreshold
    ensures var c := Classify(t, sqrt, prev, Wrappers.Some(landmarks));
      c.result.kind !in {ZoomIn, ZoomOut}
    ensures RecognizeTwoFingerGesture(t, sqrt, landmarks) == NoGesture
  {
  }

  /** The swipe stage runs exactly when no earlier stage fires; when it runs
      the tracked position becomes the current wrist x, and otherwise it is
      left alone. */
  lemma WristTracking(t: Thresholds, sqrt: real -> real, prev: Wrappers.Option<real>, landmarks: seq<Landmark>)
    requires IsSqrt(sqrt) && |landmarks| >= LandmarkCount
    ensures var c := Classify(t, sqrt, prev, Wrappers.Some(landmarks));
      && (ReachesSwipe(t, sqrt, landmarks) ==> c == SwipeStage(t.swipeThreshold, prev, landmarks[Wrist].x))
      && (!ReachesSwipe(t, sqrt, landmarks) ==> c.previousWristX == prev && c.result.kind in {Assemble, Explode, ZoomIn, ZoomOut})
  {
  }

  /** With no remembered wrist position, as after a reset, no frame is a
      rotation. */
  lemma NoRotationWithoutHistory(t: Thresholds, sqrt: real -> real, landmarks: Wrappers.Option<seq<Landmark>>)
    requires IsSqrt(sqrt)
    ensures Classify(t, sqrt, Wrappers.None, landmarks).result.kind !in {RotateLeft, RotateRight}
  {
  }

  /** The tracker that replaces the module-level `previousWristX`. The
      thresholds and the square root are fixed at construction. */
  class GestureTracker {
    const thresholds: Thresholds
    const sqrt: real -> real
    var previousWristX: Wrappers.Option<real>

    ghost predicate Valid() {
      IsSqrt(sqrt) && thresholds.Valid()
    }

    constructor (thresholds: Thresholds, sqrt: real -> real)
      requires thresholds.Valid() && IsSqrt(sqrt)
      ensures Valid() && this.thresholds == thresholds && this.sqrt == sqrt
      ensures previousWristX == Wrappers.None
    {
      this.thresholds := thresholds;
      this.sqrt := sqrt;
      previousWristX := Wrappers.None;
    }

    /** `recognizeSwipe`: compares the wrist with the remembered position
        and always remembers the current one. */
    method RecognizeSwipe(landmarks: seq<Landmark>) returns (r: GestureResult)
      requires |landmarks| > Wrist
      modifies this
      ensures Classification(r, previousWristX) ==
              SwipeStage(thresholds.swipeThreshold, old(previousWristX), landmarks[Wrist].x)
    {
      var wristX := landmarks[Wrist].x;
      if previousWristX.Some? {
        var deltaX := wristX - previousWristX.value;
        if Abs(deltaX) > thresholds.swipeThreshold {
          previousWristX := Wrappers.Some(wristX);
          var data := GestureData(Wrappers.None, Wrappers.Some(deltaX));
          if deltaX > 0.0 {
            return GestureResult(RotateRight, 0.7, data);
          } else {
            return GestureResult(RotateLeft, 0.7, data);
          }
        }
      }
      previousWristX := Wrappers.Some(wristX);
      return NoGesture;
    }

    /** `recognizeGesture`. */
    method RecognizeGesture(landmarks: Wrappers.Option<seq<Landmark>>) returns (r: GestureResult)
      requires Valid()
      modifies this
      ensures Valid()
      ensures Classification(r, previousWristX) == Classify(thresholds, sqrt, old(previousWristX), landmarks)
    {
      if landmarks.None? || |landmarks.value| < LandmarkCount {
        return NoGesture;
      }
      var frame := landmarks.value;

      var closedFist := RecognizeClosedFist(thresholds, sqrt, frame);
      if closedFist.kind != None {
        return closedFist;
      }

      var openFist := RecognizeOpenFist(frame);
      if openFist.kind != None {
        return openFist;
      }

      var twoFinger := RecognizeTwoFingerGesture(thresholds, sqrt, frame);
      if twoFinger.kind != None {
        return twoFinger;
      }

      var swipe := RecognizeSwipe(frame);
      if swipe.kind != None {
        return swipe;
      }

      return NoGesture;
    }

    /** `resetGestureTracking`. */
    method ResetGestureTracking()
      modifies this
      ensures previousWristX == Wrappers.None
    {
      previousWristX := Wrappers.None;
    }
  }
}
