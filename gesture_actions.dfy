/** The gesture action dispatcher (src/utils/gestureActions.ts): a small
    state machine over the accumulated zoom, the accumulated rotation and
    the explode flag, mirrored onto an optional camera and an optional model
    reference. */
module GestureActions {
  import Wrappers
  import Performance
  import opened GestureRecognition

  const MinZoom: real := 0.5
  const MaxZoom: real := 2.0
  /** Zoom per unit of finger distance above the neutral 0.1. */
  const ZoomScale: real := 0.01
  /** Amplification of a swipe velocity into a rotation. */
  const RotationGain: real := 5.0

  /** The dispatcher's state: `currentZoom`, `rotationY`, and the explode
      flag. */
  datatype ControlState = ControlState(zoom: real, rotationY: real, isExploded: bool)
  {
    ghost predicate Valid() {
      MinZoom <= zoom <= MaxZoom
    }
  }

  /** The state at module load. */
  const InitialState := ControlState(1.0, 0.0, false)

  /** The zoom after one zoom gesture with finger distance `distance`: a
      spread wider than 0.1 zooms in, a narrower one zooms out, by
      (distance - 0.1) * 2 * 0.01, and the result is kept within
      [0.5, 2]. */
  function ZoomAfter(zoom: real, distance: real): (z: real)
    ensures MinZoom <= z <= MaxZoom
    ensures MinZoom <= zoom <= MaxZoom && distance >= 0.1 ==> zoom <= z
    ensures MinZoom <= zoom <= MaxZoom && distance <= 0.1 ==> z <= zoom
    ensures MinZoom < z < MaxZoom ==> z == zoom + (distance - 0.1) * 2.0 * ZoomScale
  {
    var zoomDelta := (distance - 0.1) * 2.0;
    Performance.Clamp(zoom + zoomDelta * ZoomScale, MinZoom, MaxZoom)
  }

  /** `executeGestureAction` on the dispatcher's state. `hasCamera` and
      `hasModelRef` say whether a camera and a model reference were
      supplied. */
  function Dispatch(s: ControlState, kind: GestureType, data: GestureData,
                    hasCamera: bool, hasModelRef: bool): (s': ControlState)
    ensures s.Valid() ==> s'.Valid()
    ensures kind == None ==> s' == s
    ensures kind == Explode ==> s' == s.(isExploded := true)
    ensures kind == Assemble ==> s' == s.(isExploded := false)
    ensures kind in {ZoomIn, ZoomOut} ==> s'.rotationY == s.rotationY && s'.isExploded == s.isExploded
    ensures kind in {ZoomIn, ZoomOut} && !(data.distance.Some? && hasCamera) ==> s' == s
    ensures kind in {RotateLeft, RotateRight} ==> s'.zoom == s.zoom && s'.isExploded == s.isExploded
    ensures kind in {RotateLeft, RotateRight} && !(data.velocity.Some? && hasModelRef) ==> s' == s
  {
    match kind
    case ZoomIn | ZoomOut =>
      if data.distance.Some? && hasCamera then s.(zoom := ZoomAfter(s.zoom, data.distance.value)) else s
    case RotateLeft | RotateRight =>
      if data.velocity.Some? && hasModelRef then s.(rotationY := s.rotationY + data.velocity.value * RotationGain) else s
    case Explode => s.(isExploded := true)
    case Assemble => s.(isExploded := false)
    case None => s
  }

  /** EXPLODE and ASSEMBLE are idempotent. */
  lemma ToggleIdempotent(s: ControlState, kind: GestureType, data: GestureData, hasCamera: bool, hasModelRef: bool)
    requires kind in {Explode, Assemble}
    ensures var once := Dispatch(s, kind, data, hasCamera, hasModelRef);
      Dispatch(once, kind, data, hasCamera, hasModelRef) == once
  {
  }

  /** A zoom gesture with a distance and a camera sets the zoom to the
      clamped sum, and changes nothing else. */
  lemma ZoomGestureStep(s: ControlState, kind: GestureType, distance: real, velocity: Wrappers.Option<real>, hasModelRef: bool)
    requires kind in {ZoomIn, ZoomOut}
    ensures Dispatch(s, kind, GestureData(Wrappers.Some(distance), velocity), true, hasModelRef) ==
            s.(zoom := Performance.Clamp(s.zoom + (distance - 0.1) * 2.0 * 0.01, 0.5, 2.0))
  {
  }

  /** One dispatched call: the gesture, its data, and which of the optional
      camera and model reference were supplied. */
  datatype Action = Action(kind: GestureType, data: GestureData, hasCamera: bool, hasModelRef: bool)

  /** The state after dispatching `actions` in order. */
  function DispatchAll(s: ControlState, actions: seq<Action>): (s': ControlState)
    decreases |actions|
  {
    if actions == [] then s
    else
      var a := actions[0];
      DispatchAll(Dispatch(s, a.kind, a.data, a.hasCamera, a.hasModelRef), actions[1..])
  }

  /** From the initial zoom of 1, any sequence of gestures keeps the zoom
      within [0.5, 2]. */
  lemma {:induction false} ZoomStaysInRange(s: ControlState, actions: seq<Action>)
    requires s.Valid()
    ensures DispatchAll(s, actions).Valid()
    decreases |actions|
  {
    if actions != [] {
      var a := actions[0];
      ZoomStaysInRange(Dispatch(s, a.kind, a.data, a.hasCamera, a.hasModelRef), actions[1..]);
    }
  }

  lemma InitialZoomInRange(actions: seq<Action>)
    ensures MinZoom <= DispatchAll(InitialState, actions).zoom <= MaxZoom
  {
    ZoomStaysInRange(InitialState, actions);
  }

  predicate IsDeliveredRotation(a: Action) {
    a.kind in {RotateLeft, RotateRight} && a.data.velocity.Some? && a.hasModelRef
  }

  function SumVelocities(actions: seq<Action>): real
    requires forall i :: 0 <= i < |actions| ==> IsDeliveredRotation(actions[i])
    decreases |actions|
  {
    if actions == [] then 0.0
    else
      assert IsDeliveredRotation(actions[0]);
      actions[0].data.velocity.value + SumVelocities(actions[1..])
  }

  /** Rotation accumulates without wrap-around: after rotation gestures that
      all reach the model, the angle has grown by exactly five times the sum
      of their velocities, and zoom and the explode flag are as before. */
  lemma {:induction false} RotationAccumulates(s: ControlState, actions: seq<Action>)
    requires forall i :: 0 <= i < |actions| ==> IsDeliveredRotation(actions[i])
    ensures DispatchAll(s, actions).rotationY == s.rotationY + RotationGain * SumVelocities(actions)
    ensures DispatchAll(s, actions).zoom == s.zoom
    ensures DispatchAll(s, actions).isExploded == s.isExploded
    decreases |actions|
  {
    if actions != [] {
      var a := actions[0];
      var s1 := Dispatch(s, a.kind, a.data, a.hasCamera, a.hasModelRef);
      assert s1.rotationY == s.rotationY + a.data.velocity.value * RotationGain;
      RotationAccumulates(s1, actions[1..]);
    }
  }

  /** Without a camera and a model reference, as in the detector's own
      call, a sequence of gestures changes only the explode flag, which ends
      as the last EXPLODE or ASSEMBLE left it. */
  lemma {:induction false} OnlyTogglesWithoutTargets(s: ControlState, actions: seq<Action>)
    requires forall i :: 0 <= i < |actions| ==> !actions[i].hasCamera && !actions[i].hasModelRef
    ensures DispatchAll(s, actions).zoom == s.zoom
    ensures DispatchAll(s, actions).rotationY == s.rotationY
    ensures DispatchAll(s, actions).isExploded == LastToggle(s.isExploded, actions)
    decreases |actions|
  {
    if actions != [] {
      var a := actions[0];
      OnlyTogglesWithoutTargets(Dispatch(s, a.kind, a.data, a.hasCamera, a.hasModelRef), actions[1..]);
    }
  }

  /** The explode flag as set by the last EXPLODE or ASSEMBLE in `actions`,
      or `flag` when there is none. */
  function LastToggle(flag: bool, actions: seq<Action>): bool
    decreases |actions|
  {
    if actions == [] then flag
    else
      var k := actions[0].kind;
      LastToggle(if k == Explode then true else if k == Assemble then false else flag, actions[1..])
  }

  /** A camera with its `zoom` property. */
  class Camera {
    var zoom: real

    constructor (zoom: real)
      ensures this.zoom == zoom
    {
      this.zoom := zoom;
    }
  }

  /** A three.js object with its `rotation.y`. */
  class Object3D {
    var rotationY: real

    constructor (rotationY: real)
      ensures this.rotationY == rotationY
    {
      this.rotationY := rotationY;
    }
  }

  /** A React ref whose `current` may be unset. */
  class ModelRef {
    var current: Object3D?

    constructor (current: Object3D?)
      ensures this.current == current
    {
      this.current := current;
    }
  }

  /** The module-level `currentZoom` and `rotationY`, and the explode flag
      the store setter would hold. */
  class ActionDispatcher {
    var currentZoom: real
    var rotationY: real
    var isExploded: bool

    function State(): ControlState
      reads this
    {
      ControlState(currentZoom, rotationY, isExploded)
    }

    ghost predicate Valid()
      reads this
    {
      State().Valid()
    }

    constructor ()
      ensures Valid() && State() == InitialState
    {
      currentZoom := 1.0;
      rotationY := 0.0;
      isExploded := false;
    }

    /** `applyZoomGesture`. */
    method ApplyZoomGesture(distance: real, camera: Camera?)
      requires Valid()
      modifies this, camera
      ensures Valid()
      ensures State() == old(State()).(zoom := ZoomAfter(old(currentZoom), distance))
      ensures camera != null ==> camera.zoom == currentZoom
    {
      var zoomDelta := (distance - 0.1) * 2.0;
      currentZoom := Performance.Clamp(currentZoom + zoomDelta * ZoomScale, MinZoom, MaxZoom);
      if camera != null {
        camera.zoom := currentZoom;
      }
    }

    /** `applyRotationGesture`. */
    method ApplyRotationGesture(velocity: real, modelRef: ModelRef?)
      requires Valid()
      modifies this, if modelRef != null then {modelRef.current} else {}
      ensures Valid()
      ensures State() == old(State()).(rotationY := old(rotationY) + velocity * RotationGain)
      ensures modelRef != null && modelRef.current != null ==> modelRef.current.rotationY == rotationY
    {
      rotationY := rotationY + velocity * RotationGain;
      if modelRef != null && modelRef.current != null {
        modelRef.current.rotationY := rotationY;
      }
    }

    /** `applyExplodeGesture`. */
    method ApplyExplodeGesture()
      requires Valid()
      modifies this
      ensures Valid() && State() == old(State()).(isExploded := true)
    {
      isExploded := true;
    }

    /** `applyAssembleGesture`. */
    method ApplyAssembleGesture()
      requires Valid()
      modifies this
      ensures Valid() && State() == old(State()).(isExploded := false)
    {
      isExploded := false;
    }

    /** `executeGestureAction`. */
    method ExecuteGestureAction(kind: GestureType, data: GestureData, camera: Camera?, modelRef: ModelRef?)
      requires Valid()
      modifies this, camera, if modelRef != null then {modelRef.current} else {}
      ensures Valid()
      ensures State() == Dispatch(old(State()), kind, data, camera != null, modelRef != null)
      ensures camera != null ==>
        camera.zoom == if kind in {ZoomIn, ZoomOut} && data.distance.Some? then currentZoom else old(camera.zoom)
      ensures modelRef != null && modelRef.current != null ==>
        modelRef.current.rotationY ==
          if kind in {RotateLeft, RotateRight} && data.velocity.Some? then rotationY else old(modelRef.current.rotationY)
    {
      match kind
      case ZoomIn | ZoomOut =>
        if data.distance.Some? && camera != null {
          ApplyZoomGesture(data.distance.value, camera);
        }
      case RotateLeft | RotateRight =>
        if data.velocity.Some? && modelRef != null {
          ApplyRotationGesture(data.velocity.value, modelRef);
        }
      case Explode =>
        ApplyExplodeGesture();
      case Assemble =>
        ApplyAssembleGesture();
      case None =>
    }

    /** `resetGestureActions`: zoom back to 1 and rotation back to 0; the
        explode flag is not touched. */
    method ResetGestureActions()
      modifies this
      ensures Valid()
      ensures State() == ControlState(1.0, 0.0, old(isExploded))
    {
      currentZoom := 1.0;
      rotationY := 0.0;
    }
  }
}
