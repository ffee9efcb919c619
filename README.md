# Gesture engine of the holographic model viewer

This project models the engine behind the viewer's hand-gesture control. It covers four parts:

- **The gesture classifier** (`src/utils/gestureRecognition.ts`). It turns one frame of 21 hand landmarks into a gesture. There are seven gestures: ZOOM_IN, ZOOM_OUT, EXPLODE, ASSEMBLE, ROTATE_LEFT, ROTATE_RIGHT and NONE. Each comes with a confidence and an optional distance or velocity. The stages are tried in a fixed order: closed fist, open hand, two fingers, then wrist swipe. The classifier remembers the wrist's last x position between frames, so consecutive frames can be read as a swipe.
- **The action dispatcher** (`src/utils/gestureActions.ts`). It turns a gesture into a change of the viewer's state:
  - the camera zoom, clamped to [0.5, 2];
  - the model's accumulated rotation;
  - the explode flag.
- **The performance helpers** (`src/utils/performance.ts`): the call throttle, the frame-rate monitor, `clamp` and `lerp`.
- **The part-name formatter** (`getPartMetadata` in `src/utils/modelParser.ts`). It turns a mesh name such as `front_LeftWheel` into a display name and a canned description.

The detector component's throttled per-frame callback (`src/components/GestureDetector.tsx`) is modelled too. It ties the throttle, the classifier and the dispatcher together.

The model is made of these Dafny modules:

- `Wrappers` holds `Option`.
- `Performance`:
  - `Clamp`, `Lerp` and `Round`;
  - the throttle. Its pure step `GateStep` and its run `Accepted` over a sequence of call times are the specification. The class `Throttle` implements it.
  - the class `FpsMonitor`.
- `GestureRecognition`:
  - the gesture datatypes;
  - each classifier stage as a pure function;
  - the whole classification `Classify`, a function of the thresholds, the remembered wrist position and the frame;
  - the class `GestureTracker`, which holds the remembered wrist position and whose methods are proved against `Classify`.
- `GestureActions`:
  - the pure transition `Dispatch` on a `ControlState`;
  - its run `DispatchAll`;
  - the class `ActionDispatcher`, which holds the dispatcher's module-level state. Its methods are proved against `Dispatch`. The camera and model are small classes whose fields it writes.
- `PartMetadata`:
  - the name-cleaning pipeline: underscores become spaces; a space goes before each upper-case letter; the ends are trimmed; white-space runs collapse; the first letter is capitalised;
  - the keyword rule table that picks the description.
- `GestureDetector`: the class `Detector`, which holds a throttle, a tracker and a dispatcher and processes one MediaPipe result.

Numbers are exact reals. The classifier's `Math.sqrt` is a parameter `sqrt`, which is assumed to be a true square root (`IsSqrt`). So are the four gesture thresholds. Time is a parameter `now` of the calls that read the clock.

## Model

| member | source | states |
|---|---|---|
| Performance.Clamp | src/utils/performance.ts:54-56 | with lo <= hi the result lies in [lo, hi] and is the value itself when that is already in range; with lo > hi the result is hi (min is applied last); the result is always one of value, lo, hi |
| Performance.ClampIdempotent | src/utils/performance.ts:54-56 | clamping twice is clamping once |
| Performance.ClampMonotone | src/utils/performance.ts:54-56 | clamp is monotone in the value |
| Performance.Lerp | src/utils/performance.ts:59-61 | t = 0 gives start and t = 1 gives end |
| Performance.LerpBetween | src/utils/performance.ts:59-61 | for t in [0, 1] the result lies between start and end, in either order |
| Performance.Round | src/utils/performance.ts:40 | `Math.round`: the integer n with n - 1/2 <= x < n + 1/2 (halves round up) |
| Performance.GateStep | src/utils/performance.ts:2-14 | a call runs the wrapped function iff the gate is open (never closed, or its release time has come); running closes it until now + limit, and a dropped call changes nothing |
| Performance.Accepted | src/utils/performance.ts:2-14 | the calls that run are a subset of the calls made, and never more of them |
| Performance.AcceptedSpaced | src/utils/performance.ts:8-11 | with limit > 0, successive runs are at least `limit` apart, and none comes before a closed gate's release time |
| Performance.NoneAcceptedWhileClosed | src/utils/performance.ts:8-11 | while the gate is closed, calls before the release time all drop |
| Performance.AtMostOncePerWindow | src/utils/performance.ts:2-14 | calls that all fall within one window shorter than `limit` run the function at most once |
| Performance.FirstCallRuns | src/utils/performance.ts:6-9 | the first call through a fresh throttle always runs |
| Performance.Throttle.constructor | src/utils/performance.ts:2-6 | a fresh throttle is open and has never run |
| Performance.Throttle.Call | src/utils/performance.ts:7-13 | the new gate and the run flag are exactly `GateStep` of the old gate; it runs iff it never ran before or the last run was at least `limit` ago; a dropped call changes nothing |
| Performance.RateBound | src/utils/performance.ts:39-40 | once at least 1000 ms have passed, the rate computed from `frames` frames lies between 0 and `frames` |
| Performance.FpsMonitor.constructor | src/utils/performance.ts:29-32 | frames and fps start at 0, with the start time as given |
| Performance.FpsMonitor.Update | src/utils/performance.ts:34-46 | when 1000 ms or more have passed, fps becomes the rounded rate, the counter restarts and the window restarts at now; otherwise only the frame counter grows; the returned value is the current fps, never negative |
| Performance.FpsMonitor.GetFps | src/utils/performance.ts:48-50 | returns the last computed rate, which is never negative |
| GestureRecognition.Distance | src/utils/gestureRecognition.ts:20-24 | the distance is non-negative and its square is dx² + dy² (z is ignored) |
| GestureRecognition.DistanceVersusThreshold | src/utils/gestureRecognition.ts:20-24 | comparing a distance with a non-negative threshold is comparing its square with the threshold's square |
| GestureRecognition.IsFingerExtended | src/utils/gestureRecognition.ts:27-35 | the predicate is the source's comparison: the tip's y is below the PIP joint's y. Its contract adds only that a tip is never above itself; `ExtensionIgnoresTranslation` is its partner |
| GestureRecognition.ExtensionIgnoresTranslation | src/utils/gestureRecognition.ts:27-35 | moving every landmark by the same (dx, dy) does not change whether a finger is extended |
| GestureRecognition.DistanceIgnoresTranslation | src/utils/gestureRecognition.ts:20-24 | moving every landmark by the same (dx, dy) does not change the distance between two of them |
| GestureRecognition.RecognizeTwoFingerGesture | src/utils/gestureRecognition.ts:38-60 | only ZOOM_IN, ZOOM_OUT or NONE; ZOOM_IN iff index and middle are extended and their tip distance is above the spread threshold; ZOOM_OUT iff both are extended and the distance is at most the spread threshold and below the pinch threshold; a zoom has confidence 0.8 and carries the distance, and NONE carries nothing |
| GestureRecognition.TwoFingerIgnoresTranslation | src/utils/gestureRecognition.ts:38-60 | the two-finger result is the same when the whole hand moves |
| GestureRecognition.TwoFingerDecision | src/utils/gestureRecognition.ts:38-60 | with both fingers extended, ZOOM_IN iff the squared tip distance exceeds spread², otherwise ZOOM_OUT iff it is below pinch²; without both fingers extended, NONE |
| GestureRecognition.RecognizeOpenFist | src/utils/gestureRecognition.ts:63-78 | EXPLODE (confidence 0.9) iff index, middle, ring and pinky are all extended; otherwise NONE |
| GestureRecognition.OpenFistIgnoresTranslation | src/utils/gestureRecognition.ts:63-78 | the open-hand result is the same when the whole hand moves |
| GestureRecognition.RecognizeClosedFist | src/utils/gestureRecognition.ts:81-98 | ASSEMBLE (confidence 0.9) iff the mean tip-to-wrist distance of the four fingers is below the fist threshold; otherwise NONE |
| GestureRecognition.MeanTipDistance | src/utils/gestureRecognition.ts:83-91 | the mean of the four tip-to-wrist distances is non-negative |
| GestureRecognition.ClosedFistIgnoresTranslation | src/utils/gestureRecognition.ts:81-98 | the closed-fist result is the same when the whole hand moves |
| GestureRecognition.SwipeStage | src/utils/gestureRecognition.ts:104-124 | the remembered wrist x becomes the current one; it is a rotation iff a previous x existed and the wrist moved more than the swipe threshold; RIGHT for a positive move and LEFT for a negative one, confidence 0.7, velocity the move |
| GestureRecognition.Classify | src/utils/gestureRecognition.ts:130-162 | confidence is 0 exactly for NONE and otherwise one of 0.7, 0.8, 0.9; NONE carries no data; the remembered wrist x is unchanged or becomes the frame's |
| GestureRecognition.IncompleteFrameIsNone | src/utils/gestureRecognition.ts:131-133 | a missing frame, or one with fewer than 21 landmarks, is NONE and leaves the remembered wrist x alone |
| GestureRecognition.ClosedFistWins | src/utils/gestureRecognition.ts:135-141 | a closed fist is ASSEMBLE whatever else the frame shows |
| GestureRecognition.OpenHandIsExplode | src/utils/gestureRecognition.ts:143-147 | an open hand that is not a closed fist is EXPLODE |
| GestureRecognition.TwoFingerWins | src/utils/gestureRecognition.ts:138-154 | a hand that is neither a closed fist nor an open hand, and on which the two-finger stage fires, is classified as exactly that stage's result, distance included, and the remembered wrist x is left alone |
| GestureRecognition.DeadZoneIsNoZoom | src/utils/gestureRecognition.ts:52-59 | a tip distance between the pinch and spread thresholds never zooms |
| GestureRecognition.WristTracking | src/utils/gestureRecognition.ts:130-162 | the swipe stage decides the frame exactly when no earlier stage fires; otherwise the remembered wrist x stays as it was and the result is a fist or zoom gesture |
| GestureRecognition.NoRotationWithoutHistory | src/utils/gestureRecognition.ts:107-121 | with no remembered wrist x, as after a reset, no frame is a rotation |
| GestureRecognition.GestureTracker.constructor | src/utils/gestureRecognition.ts:101 | a new tracker remembers no wrist position |
| GestureRecognition.GestureTracker.RecognizeSwipe | src/utils/gestureRecognition.ts:104-124 | the result and the new remembered wrist x are those of `SwipeStage` on the old one |
| GestureRecognition.GestureTracker.RecognizeGesture | src/utils/gestureRecognition.ts:130-162 | the result and the new remembered wrist x are exactly `Classify` of the old remembered x and the frame |
| GestureRecognition.GestureTracker.ResetGestureTracking | src/utils/gestureRecognition.ts:165-168 | the remembered wrist x is cleared |
| GestureActions.ZoomAfter | src/utils/gestureActions.ts:10-19 | the new zoom is in [0.5, 2]; from an in-range zoom it never decreases for distance >= 0.1 and never increases for distance <= 0.1; strictly inside the range it is zoom + (distance - 0.1) * 2 * 0.01 |
| GestureActions.Dispatch | src/utils/gestureActions.ts:47-80 | keeps the zoom in range; NONE changes nothing; EXPLODE and ASSEMBLE set the flag to true and false; zoom gestures touch only zoom and need both a distance and a camera; rotation gestures touch only rotation and need both a velocity and a model reference |
| GestureActions.ToggleIdempotent | src/utils/gestureActions.ts:68-74 | EXPLODE twice is EXPLODE once, and the same for ASSEMBLE |
| GestureActions.ZoomGestureStep | src/utils/gestureActions.ts:54-60 | a zoom gesture with a distance and a camera sets zoom to clamp(zoom + (distance - 0.1) * 2 * 0.01, 0.5, 2) and leaves the rest alone |
| GestureActions.ZoomStaysInRange | src/utils/gestureActions.ts:6-19 | any sequence of dispatched gestures keeps an in-range zoom in range |
| GestureActions.InitialZoomInRange | src/utils/gestureActions.ts:6-8 | from the initial zoom of 1, the zoom stays in [0.5, 2] whatever is dispatched |
| GestureActions.RotationAccumulates | src/utils/gestureActions.ts:22-30 | after rotation gestures that all reach the model, the angle has grown by exactly 5 × the sum of their velocities, with no wrap-around, and nothing else changed |
| GestureActions.OnlyTogglesWithoutTargets | src/utils/gestureActions.ts:47-80 | with no camera and no model reference, a sequence of gestures changes neither zoom nor rotation, and leaves the flag as the last EXPLODE or ASSEMBLE set it |
| GestureActions.ActionDispatcher.constructor | src/utils/gestureActions.ts:6-22 | zoom 1, rotation 0, not exploded |
| GestureActions.ActionDispatcher.ApplyZoomGesture | src/utils/gestureActions.ts:10-19 | the zoom becomes `ZoomAfter` of the old one; a given camera mirrors it; nothing else changes |
| GestureActions.ActionDispatcher.ApplyRotationGesture | src/utils/gestureActions.ts:24-30 | the angle grows by 5 × velocity even with no model; a present model mirrors it |
| GestureActions.ActionDispatcher.ApplyExplodeGesture | src/utils/gestureActions.ts:33-36 | the explode flag becomes true and nothing else changes |
| GestureActions.ActionDispatcher.ApplyAssembleGesture | src/utils/gestureActions.ts:38-41 | the explode flag becomes false and nothing else changes |
| GestureActions.ActionDispatcher.ExecuteGestureAction | src/utils/gestureActions.ts:47-80 | the new state is exactly `Dispatch` of the old one, given whether a camera and a model reference were supplied; the camera and the model mirror the state |
| GestureActions.ActionDispatcher.ResetGestureActions | src/utils/gestureActions.ts:83-86 | zoom back to 1 and rotation back to 0, the explode flag untouched |
| PartMetadata.ToLower | src/utils/modelParser.ts:62 | same length; each character is its lower-case form |
| PartMetadata.ReplaceUnderscores | src/utils/modelParser.ts:56 | same length; each `_` becomes a space and every other character stays in place |
| PartMetadata.SpaceBeforeUppercase | src/utils/modelParser.ts:57 | one character is added per ASCII capital; every capital has a space right before it; dropping the space before each capital gives the input back; visible characters are kept and only spaces are added |
| PartMetadata.SpaceBeforeUppercaseUnique | src/utils/modelParser.ts:57 | the result is the only string with a space before each capital from which dropping those spaces gives the input back |
| PartMetadata.SpaceBeforeUppercaseConcat | src/utils/modelParser.ts:57 | the replacement works letter by letter: it distributes over concatenation |
| PartMetadata.Trim | src/utils/modelParser.ts:58 | the result neither starts nor ends with white space, keeps the visible characters, adds no character, and keeps every upper-case letter after a space |
| PartMetadata.TrimSplit | src/utils/modelParser.ts:58 | the input is the result with a run of white space, possibly empty, before it and after it: only the ends are removed |
| PartMetadata.TrimRemovesOuterWhitespace | src/utils/modelParser.ts:58 | white space around a string that already has no white space at its ends is removed, and nothing else |
| PartMetadata.CollapseWhitespace | src/utils/modelParser.ts:59 | the result is empty exactly when the input is; its first character is the input's, or a space when that is white space |
| PartMetadata.CollapseRuns | src/utils/modelParser.ts:59 | a maximal run of white space between two parts becomes exactly one space, and the parts collapse on their own |
| PartMetadata.CollapseKeepsWords | src/utils/modelParser.ts:59 | a string with no white space is kept as it is |
| PartMetadata.CollapseConcat | src/utils/modelParser.ts:59 | collapsing splits after any character that is not white space |
| PartMetadata.CollapseSingleSpaced | src/utils/modelParser.ts:59 | after collapsing, every white-space character is a single space and no two are adjacent |
| PartMetadata.CollapseVisible | src/utils/modelParser.ts:59 | collapsing keeps the visible characters |
| PartMetadata.CleanName | src/utils/modelParser.ts:55-59 | the cleaned name is trimmed, single-spaced and free of underscores; every upper-case letter after the first character follows a space; its visible characters are the part name's |
| PartMetadata.CleanNameJoin | src/utils/modelParser.ts:55-59 | for a part name a + w + b, where a ends and b starts with a visible character and w holds only `_` and white space: the cleaned name is that of a, then one space if w is not empty or b starts with an ASCII capital (nothing otherwise), then that of b |
| PartMetadata.CleanNameOuterSeparators | src/utils/modelParser.ts:55-59 | underscores and white space at either end of the part name do not change the cleaned name |
| PartMetadata.CleanNameLetter | src/utils/modelParser.ts:55-59 | a single character that is neither `_` nor white space is its own cleaned name |
| PartMetadata.Capitalize | src/utils/modelParser.ts:86 | same length; the first character is upper-cased and the rest is unchanged |
| PartMetadata.CapitalizeKeepsShape | src/utils/modelParser.ts:86 | capitalising the first character keeps trimming, single spacing and the spaces before capitals |
| PartMetadata.DisplayNameJoin | src/utils/modelParser.ts:53-89 | for a part name a + w + b as in `CleanNameJoin`: the display name is that of a, then the same single space or nothing, then the cleaned b unchanged |
| PartMetadata.DisplayNameOuterSeparators | src/utils/modelParser.ts:53-89 | underscores and white space at either end of the part name do not change the display name |
| PartMetadata.DisplayNameLetter | src/utils/modelParser.ts:53-89 | a one-character part name that is not `_` or white space is displayed as that character upper-cased |
| PartMetadata.ContainsIsSubstring | src/utils/modelParser.ts:65 | `includes` holds exactly when the keyword is the slice of the name at some index |
| PartMetadata.Describe | src/utils/modelParser.ts:63-83 | the description is the default or one of the nine rule descriptions |
| PartMetadata.DescribeDefault | src/utils/modelParser.ts:63-83 | the description is the default exactly when no keyword of any rule occurs in the lower-cased name |
| PartMetadata.FirstMatchIsFirst | src/utils/modelParser.ts:65-83 | the description is that of the earliest rule one of whose keywords occurs in the name |
| PartMetadata.FirstMatchDefault | src/utils/modelParser.ts:63 | when no rule's keyword occurs in the name, the description is the default |
| PartMetadata.DescribeIsFirstMatch | src/utils/modelParser.ts:63-83 | the if-else ladder over the nine keyword groups picks the same description as the first-match rule table |
| PartMetadata.ContainsLowered | src/utils/modelParser.ts:62-65 | a keyword that occurs in the name occurs, lower-cased, in the lower-cased name, so matching ignores case |
| PartMetadata.GetPartMetadata | src/utils/modelParser.ts:53-89 | the name has no underscores, single spaces and no space at either end; every capital after the first character follows a space; its visible characters are the part name's with the first capitalised; it is empty iff the part name has no visible character; the description is the first-matching rule's on the lower-cased part name |
| GestureDetector.Detector.constructor | src/components/GestureDetector.tsx:52-82 | an open throttle with the configured interval, a tracker with no wrist history, and the initial control state |
| GestureDetector.Detector.ProcessGesture | src/components/GestureDetector.tsx:52-64 | the throttle steps as `GateStep`; a dropped frame or a frame with no hand changes nothing and shows nothing; otherwise the first hand is classified by `Classify` and dispatched with no camera and no model reference, and a gesture other than NONE is shown; zoom and rotation never change |

## Left out

- `debounce` (src/utils/performance.ts:17-26) is not used by the gesture engine. It is not modelled.
- Performance.Throttle.Call: the `setTimeout` that reopens the gate is not a separate event. It takes effect at the first call at or after `now + limit`, which is equivalent for the calls that can observe it. Timer jitter is not modelled; the interval is required to be positive. The source calls the wrapped function before it closes the gate, so a call that throws leaves the gate open. The model closes the gate on every run: it assumes the wrapped function returns.
- Performance.FpsMonitor.Update: `performance.now()` is the parameter `now`.
- Floating-point arithmetic: every number is an exact real. For example, IEEE rounding of `(distance - 0.1) * 2` and of the thresholds is not modelled. `Math.sqrt` is a parameter that is assumed to be exact.
- GestureRecognition: the thresholds are a parameter of the tracker, assumed non-negative. `src/config/sceneConfig.ts` has no `gestures` section. As shipped, `SCENE_CONFIG.gestures.spreadThreshold` and its siblings read through an undefined object, so no complete frame can be classified at all. This is a configuration defect outside the modelled code.
- GestureRecognition: the module-level `swipeVelocity` is written but never read. It is not modelled.
- GestureRecognition: each landmark's `z` is carried but never read, as in the source.
- GestureActions: `camera.updateProjectionMatrix()` and the three.js objects are not modelled. The camera and the model are bare classes holding the one field the dispatcher writes.
- GestureActions: the explode flag is a field of `ActionDispatcher`. The source writes it through the app store's `setIsExploded`, which `src/store/useAppStore.ts` does not define. The model assumes the setter that was evidently intended.
- GestureDetector: the label is reset after 1000 ms by a `setTimeout`. Landmark drawing, the MediaPipe and camera set-up, the React state and the enable switch are not modelled.
- GestureDetector: the component never calls `resetGestureTracking` or `resetGestureActions`, so the model does not either. The remembered wrist position survives hand loss and disabling. In the source, `previousWristX` and `currentZoom` are module-level and also survive a re-mount of the component; only the throttle is built again. A new `Detector` starts from scratch, so the model does not capture state carried across re-mounts.
- PartMetadata: `toUpperCase` and `toLowerCase` are modelled on ASCII letters only, and the `[A-Z]` pattern only matches ASCII. Unicode case mapping and surrogate pairs are not modelled. White space is the ECMAScript `\s` / `trim` set, written out.
- CollapseWhitespace: its own contract states only emptiness and the first character. What collapsing does is stated by `CollapseRuns` (a run becomes one space), `CollapseKeepsWords` (the rest is kept) and `CollapseConcat`. Together they fix the result for every input.
- Trim: its own contract does not say that only the ends are removed. `TrimSplit` states it as a lemma: the input is the result with white space before and after it. Putting it in the contract would bring an existential into every proof that mentions `Trim`.
- Contains: it has no contract of its own. `ContainsIsSubstring` states what it means, in both directions.
