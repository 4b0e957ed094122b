# Astris 3D scene editor — controller model

This project models the controller of the Astris 3D scene editor (the `App`
component of `frontend/src/App.js`). The editor lets a user add primitive
shapes to a 3D scene and edit them in two ways:

- with the mouse: click to select, drag to move, shift-drag to orbit the
  camera, and the wheel to zoom;
- with the hand: a landmark model reports the user's hand every frame, and a
  pinch or grab gesture moves or turns the selected object.

The model has three modules:

- `Gesture` (`gesture.dfy`) is the gesture estimator. It takes the 21
  landmarks of one hand and computes the pinch and grab strengths, including
  the one-decimal formatting the page applies. It also sets the presence
  flag and the confidence readout.
- `Scene` (`scene.dfy`) holds the values the controller works on: scene
  objects by id, the object list, the spawn position, wheel zoom, pointer
  drag, camera orbit and the per-hand gesture controls. Beside them are the
  lemmas that relate these values.
- `Editor` (`editor.dfy`) is the class `SceneEditor`. It holds the state
  the component keeps:
  - the scene objects, the object list and the selection;
  - the camera and the position readout;
  - the gesture readout and the last landmarks;
  - the pointer state (`isDragging`, `isRotating`, `lastPosition`).

  Its methods model the handlers (`OnMouseDown`, `OnMouseMove`,
  `OnMouseUp`, `OnMouseWheel`, `AddShape`, `DeleteSelected`,
  `OnHandResults`), the mount callback `InitScene`, and the helpers the
  handlers call (`SelectObject`, `ApplyGestureControls`, and `HandleHand`
  and `HandleHands` for the per-hand loop of `OnHandResults`). Every method
  preserves the editor's invariant `Valid()`. That invariant says:
  - the object list and the scene hold the same objects, once each;
  - the selection is a scene object, and exactly the selected object wears
    the selection material;
  - the gesture readout is consistent.

Square roots, `Math.random()`, `Date.now()`, ray casting and the library's
spherical conversions are not computed; they are inputs to the model:

- a distance is a value `d >= 0` whose square is the planar squared distance;
- a random draw is a value in `[0, 1)`;
- a new object's id is a value not yet in the scene;
- a ray cast is the list of scene objects under the pointer, nearest first;
- the two spherical conversions are function parameters.

## Model

| member | source | states |
|---|---|---|
| Gesture.PlanarSquaredDistance | frontend/src/App.js:336-339 | the squared thumb-to-index (or wrist-to-fingertip) distance in the image plane is never negative |
| Gesture.Clamp | frontend/src/App.js:340 | `Math.max(lo, Math.min(hi, v))` lies in `[lo, hi]`; it is `v` inside the range and the nearer end outside it |
| Gesture.PinchStrength | frontend/src/App.js:340 | the raw pinch strength is always within `[0, 100]` |
| Gesture.GrabStrength | frontend/src/App.js:348 | the raw grab strength is always within `[0, 100]` |
| Gesture.ToFixed1 | frontend/src/App.js:351-352 | `toFixed(1)` read back as a number: a multiple of 0.1 within 0.05 of the value (ties round up) and never negative |
| Gesture.CalculateGesture | frontend/src/App.js:328-356 | a detected hand reads present with a consistent readout: strengths in `[0, 100]` and confidence in `[85, 95)`; a pinch distance of 0 reads pinch 100 and one of 0.1 or more reads pinch 0; a mean fingertip distance of 0 reads grab 100 and one of 0.2 or more reads grab 0 |
| Gesture.CoincidentTips | frontend/src/App.js:336-340 | a thumb tip and an index tip at the same place in the image plane read pinch 100, whatever their depth |
| Gesture.ToFixed1Range | frontend/src/App.js:351-352 | formatting keeps a strength in `[0, 100]` and keeps both ends exactly |
| Gesture.ToFixed1Monotone | frontend/src/App.js:351-352 | formatting never reverses the order of two strengths |
| Gesture.ToFixed1Above | frontend/src/App.js:351-352 | a formatted strength exceeds an integer threshold `k` (the controls' 70 and 80) exactly when the raw strength is at least `k + 0.05` |
| Gesture.PinchMonotone | frontend/src/App.js:336-340 | opening the pinch never raises the pinch strength, raw or formatted |
| Gesture.PinchEnds | frontend/src/App.js:340 | distance 0 gives 100, distance 0.1 or more gives 0, and anything strictly between gives a value strictly between |
| Gesture.GrabMonotoneAndEnds | frontend/src/App.js:348 | a larger mean distance never raises the grab strength, raw or formatted; a mean of 0 gives 100 and 0.2 or more gives 0 |
| Gesture.Sum | frontend/src/App.js:344-347 | the `reduce` fold from 0 over non-negative distances is non-negative |
| Gesture.MeanFingerDistance | frontend/src/App.js:344-347 | the mean over four distances is their plain sum divided by 4 |
| Gesture.SumMonotone | frontend/src/App.js:344-347 | increasing any distance never decreases the fold |
| Gesture.GrabMonotoneInFingers | frontend/src/App.js:342-348 | moving no fingertip further from the wrist never lowers the formatted grab strength |
| Gesture.NoHandConsistent | frontend/src/App.js:320 | the no-hand readout is absent and reads zero everywhere |
| Scene.RemoveId | frontend/src/App.js:390 | the filtered object list is never longer than the original |
| Scene.RemoveIdMembers | frontend/src/App.js:390 | the filter keeps exactly the entries whose id differs from the deleted one |
| Scene.RemoveIdIds | frontend/src/App.js:390 | the ids of the filtered list are the original ids less the deleted one |
| Scene.RemoveIdAbsent | frontend/src/App.js:390 | filtering out an id that is not in the list leaves the list unchanged |
| Scene.RemoveIdDistinct | frontend/src/App.js:390 | filtering keeps the ids distinct |
| Scene.RemoveIdSubsequence | frontend/src/App.js:390 | the entries that survive the filter keep their original order |
| Scene.RemoveIdCount | frontend/src/App.js:390 | with distinct ids, filtering out a present id removes exactly one entry, and filtering out an absent id removes none |
| Scene.ReplaceMeshKeeps | frontend/src/App.js:155-158 | moving or turning an object keeps the list agreement and the single highlight |
| Scene.Rehighlight | frontend/src/App.js:199-206 | the material swap keeps every object and changes nothing but materials; the new selection wears the selection material, a previous selection other than it wears the default one, and every other object is unchanged |
| Scene.RehighlightKeeps | frontend/src/App.js:199-215 | moving the selection changes only materials: afterwards the new selection alone is highlighted and the list still matches |
| Scene.RehighlightAsWritten | frontend/src/App.js:199-202 | the selection handler as registered at mount touches no object other than the new selection |
| Scene.StaleSelectionKeepsOldHighlight | frontend/src/App.js:199-202 | as registered, selecting a different object leaves the previous one highlighted, so two objects wear the selection material |
| Scene.StaleSelectionExample | frontend/src/App.js:199-202 | with two cubes, clicking the first and then the second leaves both highlighted |
| Scene.AddKeeps | frontend/src/App.js:246-262 | appending a fresh unhighlighted object to both the scene and the list keeps both agreements |
| Scene.DeleteKeeps | frontend/src/App.js:387-394 | removing the selected object from both and clearing the selection keeps both agreements and shortens the list by one |
| Scene.SpawnPosition | frontend/src/App.js:248-252 | a new object spawns within `[-2, 2) × [1, 3) × [-2, 2)` |
| Scene.Scale | frontend/src/App.js:185 | `multiplyScalar` by 1 leaves the vector unchanged and by 0 sends it to the origin; `ScaleKeepsRay` covers the positive factors the wheel applies |
| Scene.ScaleKeepsRay | frontend/src/App.js:185 | `multiplyScalar` by a positive factor keeps every coordinate's sign and keeps the vector a multiple of the original, so it stays on its ray from the origin |
| Scene.WheelFactor | frontend/src/App.js:183-186 | the zoom factor is 1.1 or 0.9, and it is above 1 exactly when the wheel scrolls down |
| Scene.ZoomAllIsProduct | frontend/src/App.js:183-186 | any sequence of wheel events scales the camera by the positive product of their factors; `ZoomAllKeepsRay` draws from it that the camera stays on its ray |
| Scene.ZoomAllKeepsRay | frontend/src/App.js:183-186 | after any sequence of wheel events the camera has the signs of its start and is a multiple of it: zooming only slides the camera along its ray from the origin |
| Scene.DragBy | frontend/src/App.js:155-158 | one drag move shifts x by `0.01·dx`, y by `−0.01·dy`, and keeps z |
| Scene.DragTelescopes | frontend/src/App.js:151-175 | a drag along any pointer path moves the object by the pointer's total displacement only |
| Scene.ClampPhi | frontend/src/App.js:170 | the polar angle stays within `[0.1, π − 0.1]` and is unchanged inside that range |
| Scene.OrbitStep | frontend/src/App.js:164-171 | an orbit step keeps the radius, turns the azimuth by `−0.01·dx`, and keeps the polar angle within its limits (exact when in range) |
| Scene.OrbitPhiFollowsPointer | frontend/src/App.js:166-170 | the polar angle never moves against the pointer's vertical motion |
| Scene.HandTarget | frontend/src/App.js:365-371 | an index tip in the unit square maps into `[-5, 5] × [-0.5, 4.5]` and keeps the object's z |
| Scene.Pinching | frontend/src/App.js:368 | the pinch test (`> 70` on the formatted strength); a consistent readout that passes it is a present hand |
| Scene.Grabbing | frontend/src/App.js:379 | the grab test (`> 80` on the formatted strength); a consistent readout that passes it is a present hand |
| Scene.PinchingDistance | frontend/src/App.js:368 | for a detected hand, the pinch test passes exactly when the thumb and index tips are at most 0.02995 apart |
| Scene.GrabbingDistance | frontend/src/App.js:379 | for a detected hand, the grab test passes exactly when the mean fingertip-to-wrist distance is at most 0.0399 |
| Scene.ApplyGesture | frontend/src/App.js:359-384 | a pinch above 70 puts the object at the hand target, and a grab above 80 turns it by 0.01 about x and 0.02 about y; both may apply, and shape, material and z are kept |
| Scene.ApplyHands | frontend/src/App.js:307-318 | handling the first `n` hands of a frame in turn keeps the object's shape, material, z position and z rotation; `ApplyHandsEffect` states its position and rotation |
| Scene.GrabCount | frontend/src/App.js:307-318 | counts the grabbing hands among the first `n` (at most `n`); `ApplyHandsEffect` turns the object by one rotation step per counted hand |
| Scene.GrabCountZero | frontend/src/App.js:307-318 | the count is zero exactly when no hand among the first `n` grabs, so only then is the rotation untouched |
| Scene.LastPinch | frontend/src/App.js:307-318 | finds the last pinching hand of a frame, or reports that none pinches |
| Scene.ApplyHandsEffect | frontend/src/App.js:307-318 | after a frame's hands, the last pinching hand sets the position and each grabbing hand adds one rotation step; shape, material and z are kept |
| Editor.SceneEditor.constructor | frontend/src/App.js:35-53 | the initial state: no scene, camera at (0, 5, 10), no objects, no selection, no hand readout, pointer idle |
| Editor.SceneEditor.InitScene | frontend/src/App.js:56-72 | the scene is built exactly when the mount point exists, with the camera at (0, 5, 10); the invariant holds |
| Editor.SceneEditor.SelectionExclusive | frontend/src/App.js:199-215 | under the invariant the highlighted objects are exactly the selection |
| Editor.SceneEditor.SelectObject | frontend/src/App.js:189-216 | the nearest hit, if any, becomes the selection and every other object wears the default material; a hit refreshes the position readout; the invariant holds |
| Editor.SceneEditor.OnMouseDown | frontend/src/App.js:132-149 | a left press with shift starts orbiting; without shift it selects the nearest hit, so only materials change and exactly the new selection is highlighted, a hit refreshes the position readout, and dragging starts; every press records the pointer |
| Editor.SceneEditor.OnMouseMove | frontend/src/App.js:151-176 | while dragging a selection, the object follows the pointer; otherwise, while orbiting, the camera takes one orbit step; the pointer is recorded |
| Editor.SceneEditor.OnMouseUp | frontend/src/App.js:178-181 | releasing the button ends dragging and orbiting and changes nothing else |
| Editor.SceneEditor.OnMouseWheel | frontend/src/App.js:183-186 | the camera is scaled by the wheel factor and nothing else changes |
| Editor.SceneEditor.AddShape | frontend/src/App.js:219-263 | with a scene, one unselected object is appended to both the scene and the list at its spawn position; without a scene nothing changes |
| Editor.SceneEditor.DeleteSelected | frontend/src/App.js:387-394 | the selected object leaves both the scene and the list, the list shrinks by one, and the selection and readout are cleared; without a selection nothing changes |
| Editor.SceneEditor.ApplyGestureControls | frontend/src/App.js:359-384 | with a selection and landmarks, the selected object receives one hand's gesture, and a pinch refreshes the readout; otherwise nothing changes |
| Editor.SceneEditor.HandleHand | frontend/src/App.js:307-317 | one hand becomes the gesture readout and its landmarks, and its gesture is applied to the selection |
| Editor.SceneEditor.HandleHands | frontend/src/App.js:306-318 | after a frame the last hand's readout remains, the selection is moved as `ApplyHands` says, and camera, list, selection and pointer state are untouched |
| Editor.SceneEditor.OnHandResults | frontend/src/App.js:299-325 | without a canvas nothing changes; without a hand list the readout becomes "no hand"; otherwise every hand is handled in turn |

## Left out

- Rendering is not modelled: the Three.js scene graph, geometries, lights,
  grid, the animation loop, the camera's `lookAt`, the window-resize handler
  and the HUD.
- Ray casting and the pointer-to-normalised-device conversion are not
  modelled. `SelectObject` and `OnMouseDown` take the ray cast's result: the
  scene objects under the pointer, nearest first.
- MediaPipe and the webcam are not modelled, nor is the drawing of the
  landmarks on the canvas. The frame's hand list is an input, as are the
  distances measured on each hand and its confidence draw. The detector's
  limit of two hands is not imposed.
- `Math.sqrt`, `Math.random()` and `Date.now()` are not computed; they are
  inputs under the constraints stated above. Ids are assumed fresh, as
  `Date.now() + Math.random()` makes likely but does not guarantee.
- The spherical conversions (`setFromVector3`, `setFromSpherical`) are
  parameters of `OnMouseMove`; their trigonometry is not modelled.
- The position readout's `toFixed(2)` strings are modelled as the exact
  position. That rounding is display only.
- The object list's entries in the source also alias the mesh position. The
  model keeps the id and the shape, and reads the position from the scene.
- An `addShape` type outside the six kinds falls back to a cube geometry in
  the source. The model admits only the six kinds.
- Floating point is not modelled: NaN, infinities and rounding. Reals are
  exact.
- Tool selection (`currentTool`), the camera readout, `initHands`'
  configuration and the backend service are not modelled.
- Handlers run with the current selection. The source binds the mouse
  listeners (`frontend/src/App.js:109-112`) and the hand-results callback
  (`frontend/src/App.js:280`) once at mount. They therefore read the
  selection of the first render, which is always empty. Three effects of this
  are outside the modelled intended behaviour:
  - dragging a selected object with the mouse does nothing;
  - gesture controls do nothing;
  - the previous highlight is never cleared.

  Only the last is modelled as written; see Findings.
- There is no throttle, confidence floor or pinch zoom. The gesture path has
  none of them: a pinch moves the selected object and a grab turns it. This
  follows the code.
- Every hand in a frame is handled in order, so the last hand's readout
  remains. The model follows this too.

## Findings

| source | as written | input that shows it | evidently intended | confidence | as-written member | corrected member |
|---|---|---|---|---|---|---|
| frontend/src/App.js:199-202 | the mouse-down listener is bound once at mount, so `selectObject` always sees no previous selection and never resets its material | two objects: click the first, then the second; both wear the selection material | the previous selection goes back to the default material, so only the selected object is highlighted | high; not executed | Scene.StaleSelectionKeepsOldHighlight | Scene.RehighlightKeeps |
