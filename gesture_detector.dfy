/** The per-frame wiring of the engine in the gesture detector component
    (src/components/GestureDetector.tsx): a throttled callback that, for
    the first detected hand, classifies the frame and dispatches every
    gesture other than NONE. The camera, canvas and MediaPipe plumbing
    around it are not modelled. */
module GestureDetector {
  import Wrappers
  import opened Performance
  import opened GestureRecognition
  import opened GestureActions

  predicate HasHand(multiHandLandmarks: Wrappers.Option<seq<seq<Landmark>>>) {
    multiHandLandmarks.Some? && |multiHandLandmarks.value| > 0
  }

  class Detector {
    const throttle: Throttle
    const tracker: GestureTracker
    const actions: ActionDispatcher

    ghost predicate Valid()
      reads this, throttle, actions
    {
      throttle.Valid() && tracker.Valid() && actions.Valid()
    }

    /** `throttleMs` is the throttle interval the component reads from its
        configuration. */
    constructor (thresholds: Thresholds, sqrt: real -> real, throttleMs: real)
      requires thresholds.Valid() && IsSqrt(sqrt) && throttleMs > 0.0
      ensures Valid()
      ensures throttle.State() == FreshGate && throttle.limit == throttleMs
      ensures tracker.previousWristX == Wrappers.None && tracker.thresholds == thresholds && tracker.sqrt == sqrt
      ensures actions.State() == InitialState
    {
      throttle := new Throttle(throttleMs);
      tracker := new GestureTracker(thresholds, sqrt);
      actions := new ActionDispatcher();
    }

    /** The throttled results callback at time `now`. `shown` is the label
        the component displays, when it sets one. */
    method ProcessGesture(now: real, multiHandLandmarks: Wrappers.Option<seq<seq<Landmark>>>)
      returns (shown: Wrappers.Option<GestureType>)
      requires Valid()
      modifies throttle, tracker, actions
      ensures Valid()
      ensures actions.State().zoom == old(actions.State().zoom)
      ensures actions.State().rotationY == old(actions.State().rotationY)
      ensures throttle.State() == GateStep(old(throttle.State()), throttle.limit, now).0
      ensures !GateStep(old(throttle.State()), throttle.limit, now).1 || !HasHand(multiHandLandmarks) ==>
        && shown == Wrappers.None
        && tracker.previousWristX == old(tracker.previousWristX)
        && actions.State() == old(actions.State())
      ensures GateStep(old(throttle.State()), throttle.limit, now).1 && HasHand(multiHandLandmarks) ==>
        var c := Classify(tracker.thresholds, tracker.sqrt, old(tracker.previousWristX),
                          Wrappers.Some(multiHandLandmarks.value[0]));
        && tracker.previousWristX == c.previousWristX
        && actions.State() == Dispatch(old(actions.State()), c.result.kind, c.result.data, false, false)
        && shown == if c.result.kind == None then Wrappers.None else Wrappers.Some(c.result.kind)
    {
      shown := Wrappers.None;
      var ran := throttle.Call(now);
      if ran && multiHandLandmarks.Some? && |multiHandLandmarks.value| > 0 {
        var landmarks := multiHandLandmarks.value[0];
        var gesture := tracker.RecognizeGesture(Wrappers.Some(landmarks));
        if gesture.kind != None {
          shown := Wrappers.Some(gesture.kind);
          actions.ExecuteGestureAction(gesture.kind, gesture.data, null, null);
        }
      }
    }
  }
}
