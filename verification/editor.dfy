/** The scene editor's controller: the state the App component keeps
    (scene objects, object list, selection, camera, pointer state, gesture
    readout) and the handlers that change it. */
module Editor {
  import opened Scene
  import Gesture

  /** The pointer button `event.button` reports for the left button. */
  const LEFT_BUTTON: int := 0

  class SceneEditor {
    /** Whether the scene has been built (the scene, camera and renderer refs are set). */
    var hasScene: bool
    var camera: Vec3
    /** The user objects of the scene, by id. */
    var scene: map<Id, Mesh>
    /** The object list shown in the HUD, in the order objects were added. */
    var objects: seq<ObjectEntry>
    var selected: Option<Id>
    /** The position readout of the selected object. */
    var coords: Vec3
    var gestureData: Gesture.GestureData
    var handData: Option<Gesture.HandPose>
    // mouseState
    var isDragging: bool
    var isRotating: bool
    var lastPosition: Point

    /** The editor's invariant: the object list and the scene hold the same
        objects once each; the selection is a scene object; exactly the
        selected object wears the selection material; the gesture readout
        is consistent. */
    ghost predicate Valid()
      reads this
    {
      (!hasScene ==> scene == map[] && objects == []) &&
      ListMatchesScene(objects, scene) && HighlightMatchesSelection(scene, selected) &&
      Gesture.Consistent(gestureData)
    }

    /** Which objects wear the selection material. */
    ghost function HighlightedIds(): set<Id>
      reads this
    {
      set id | id in scene && scene[id].material == SelectedMaterial
    }

    /** At most one object is highlighted, and it is the selected one. */
    lemma SelectionExclusive()
      requires Valid()
      ensures HighlightedIds() == if selected.Some? then {selected.value} else {}
    {
    }

    /** The fields the gesture path never writes: the scene flag, the
        camera, the object list, the selection and the pointer state. */
    ghost function GestureFrame(): (bool, Vec3, seq<ObjectEntry>, Option<Id>, bool, bool, Point)
      reads this
    {
      (hasScene, camera, objects, selected, isDragging, isRotating, lastPosition)
    }

    /** The component's initial state, before the scene is built. */
    constructor ()
      ensures Valid()
      ensures !hasScene && scene == map[] && objects == [] && selected == None
      ensures camera == Vec3(0.0, 5.0, 10.0) && coords == Vec3(0.0, 0.0, 0.0)
      ensures gestureData == Gesture.NO_HAND && handData == None
      ensures !isDragging && !isRotating && lastPosition == Point(0.0, 0.0)
    {
      hasScene := false;
      camera := Vec3(0.0, 5.0, 10.0);
      scene := map[];
      objects := [];
      selected := None;
      coords := Vec3(0.0, 0.0, 0.0);
      gestureData := Gesture.NO_HAND;
      handData := None;
      isDragging := false;
      isRotating := false;
      lastPosition := Point(0.0, 0.0);
    }

    /** Builds the scene when the mount point exists; the camera starts at
        (0, 5, 10). Nothing happens without a mount point. */
    method InitScene(mounted: bool)
      requires Valid() && !hasScene
      modifies this
      ensures Valid()
      ensures hasScene == mounted
      ensures camera == if mounted then Vec3(0.0, 5.0, 10.0) else old(camera)
      ensures scene == old(scene) && objects == old(objects) && selected == old(selected)
      ensures coords == old(coords) && gestureData == old(gestureData) && handData == old(handData)
      ensures isDragging == old(isDragging) && isRotating == old(isRotating)
      ensures lastPosition == old(lastPosition)
    {
      if mounted {
        hasScene := true;
        camera := Vec3(0.0, 5.0, 10.0);
      }
    }

    /** Selection by ray cast; `hits` are the scene objects under the
        pointer, nearest first. The previous selection goes back to the
        default material; the nearest hit, if any, becomes the selection
        and wears the selection material. */
    method SelectObject(hits: seq<Id>)
      requires Valid() && hasScene
      requires forall i :: 0 <= i < |hits| ==> hits[i] in scene
      modifies this
      ensures Valid()
      ensures selected == if hits == [] then None else Some(hits[0])
      ensures scene.Keys == old(scene.Keys)
      ensures forall id :: id in scene ==>
                scene[id] == old(scene)[id].(material := if selected == Some(id) then SelectedMaterial else DefaultMaterial)
      ensures coords == if hits == [] then old(coords) else scene[hits[0]].position
      ensures hasScene == old(hasScene) && camera == old(camera) && objects == old(objects)
      ensures gestureData == old(gestureData) && handData == old(handData)
      ensures isDragging == old(isDragging) && isRotating == old(isRotating)
      ensures lastPosition == old(lastPosition)
    {
      var next := if hits == [] then None else Some(hits[0]);
      RehighlightKeeps(objects, scene, selected, next);
      scene := Rehighlight(scene, selected, next);
      selected := next;
      if next.Some? {
        coords := scene[next.value].position;
      }
    }

    /** Button press at client position `(clientX, clientY)`. A left press
        with shift starts orbiting; without shift it selects and starts
        dragging, whether or not anything was hit. Every press records the
        pointer position. */
    method OnMouseDown(button: int, shiftKey: bool, clientX: real, clientY: real, hits: seq<Id>)
      requires Valid() && hasScene
      requires forall i :: 0 <= i < |hits| ==> hits[i] in scene
      modifies this
      ensures Valid()
      ensures lastPosition == Point(clientX, clientY)
      ensures isRotating == (old(isRotating) || (button == LEFT_BUTTON && shiftKey))
      ensures isDragging == (old(isDragging) || (button == LEFT_BUTTON && !shiftKey))
      ensures selected == if button == LEFT_BUTTON && !shiftKey
                          then (if hits == [] then None else Some(hits[0]))
                          else old(selected)
      ensures button != LEFT_BUTTON || shiftKey ==> scene == old(scene) && coords == old(coords)
      ensures scene.Keys == old(scene.Keys)
      ensures button == LEFT_BUTTON && !shiftKey ==>
                forall id :: id in scene ==>
                  scene[id] == old(scene)[id].(material := if selected == Some(id) then SelectedMaterial else DefaultMaterial)
      ensures button == LEFT_BUTTON && !shiftKey ==>
                coords == if hits == [] then old(coords) else scene[hits[0]].position
      ensures hasScene == old(hasScene) && camera == old(camera) && objects == old(objects)
      ensures gestureData == old(gestureData) && handData == old(handData)
    {
      if button == LEFT_BUTTON {
        if shiftKey {
          isRotating := true;
        } else {
          SelectObject(hits);
          isDragging := true;
        }
      }
      lastPosition := Point(clientX, clientY);
    }

    /** Pointer move to `(clientX, clientY)`. While dragging with a
        selection, the selected object follows the pointer (z kept);
        otherwise, while orbiting, the camera orbits the origin with its
        polar angle clamped. The pointer position is always recorded.
        `toSpherical` and `fromSpherical` stand for the library's
        coordinate conversions. */
    method OnMouseMove(clientX: real, clientY: real,
                       toSpherical: Vec3 -> Spherical, fromSpherical: Spherical -> Vec3)
      requires Valid() && hasScene
      modifies this
      ensures Valid()
      ensures lastPosition == Point(clientX, clientY)
      ensures old(isDragging && selected.Some?) ==>
                var id := old(selected).value;
                var moved := DragBy(old(scene)[id].position, clientX - old(lastPosition).x,
                                    clientY - old(lastPosition).y);
                scene == old(scene)[id := old(scene)[id].(position := moved)] &&
                coords == moved && camera == old(camera)
      ensures !old(isDragging && selected.Some?) ==>
                scene == old(scene) && coords == old(coords) &&
                camera == if old(isRotating)
                          then fromSpherical(OrbitStep(toSpherical(old(camera)),
                                                       clientX - old(lastPosition).x,
                                                       clientY - old(lastPosition).y))
                          else old(camera)
      ensures hasScene == old(hasScene) && objects == old(objects) && selected == old(selected)
      ensures gestureData == old(gestureData) && handData == old(handData)
      ensures isDragging == old(isDragging) && isRotating == old(isRotating)
    {
      var deltaX := clientX - lastPosition.x;
      var deltaY := clientY - lastPosition.y;
      if isDragging && selected.Some? {
        var id := selected.value;
        var moved := DragBy(scene[id].position, deltaX, deltaY);
        ReplaceMeshKeeps(objects, scene, selected, id, scene[id].(position := moved));
        scene := scene[id := scene[id].(position := moved)];
        coords := moved;
      } else if isRotating {
        var s := OrbitStep(toSpherical(camera), deltaX, deltaY);
        camera := fromSpherical(s);
      }
      lastPosition := Point(clientX, clientY);
    }

    /** Button release ends both dragging and orbiting. */
    method OnMouseUp()
      requires Valid()
      modifies this
      ensures Valid()
      ensures !isDragging && !isRotating
      ensures lastPosition == old(lastPosition)
      ensures hasScene == old(hasScene) && camera == old(camera) && scene == old(scene)
      ensures objects == old(objects) && selected == old(selected) && coords == old(coords)
      ensures gestureData == old(gestureData) && handData == old(handData)
    {
      isDragging := false;
      isRotating := false;
    }

    /** Wheel: scrolling down (`deltaY > 0`) moves the camera away from the
        origin by 10%, anything else moves it 10% closer. */
    method OnMouseWheel(deltaY: real)
      requires Valid() && hasScene
      modifies this
      ensures Valid()
      ensures camera == Scale(old(camera), WheelFactor(deltaY))
      ensures hasScene == old(hasScene) && scene == old(scene) && objects == old(objects)
      ensures selected == old(selected) && coords == old(coords)
      ensures gestureData == old(gestureData) && handData == old(handData)
      ensures isDragging == old(isDragging) && isRotating == old(isRotating)
      ensures lastPosition == old(lastPosition)
    {
      camera := Scale(camera, WheelFactor(deltaY));
    }

    /** Adds one object of `shape` with the fresh id `id` at the spawn
        position drawn from `rx`, `ry`, `rz`, in the default material, at
        the end of the object list. Nothing happens before the scene exists. */
    method AddShape(shape: ShapeKind, id: Id, rx: real, ry: real, rz: real)
      requires Valid()
      requires id !in scene
      requires 0.0 <= rx < 1.0 && 0.0 <= ry < 1.0 && 0.0 <= rz < 1.0
      modifies this
      ensures Valid()
      ensures !old(hasScene) ==> scene == old(scene) && objects == old(objects)
      ensures old(hasScene) ==>
                objects == old(objects) + [ObjectEntry(id, shape)] &&
                scene == old(scene)[id := Mesh(shape, SpawnPosition(rx, ry, rz),
                                               Vec3(0.0, 0.0, 0.0), DefaultMaterial)]
      ensures hasScene == old(hasScene) && camera == old(camera) && selected == old(selected)
      ensures coords == old(coords) && gestureData == old(gestureData) && handData == old(handData)
      ensures isDragging == old(isDragging) && isRotating == old(isRotating)
      ensures lastPosition == old(lastPosition)
    {
      if !hasScene {
        return;
      }
      var mesh := Mesh(shape, SpawnPosition(rx, ry, rz), Vec3(0.0, 0.0, 0.0), DefaultMaterial);
      AddKeeps(objects, scene, selected, id, mesh);
      scene := scene[id := mesh];
      objects := objects + [ObjectEntry(id, shape)];
    }

    /** Removes the selected object from the scene and the object list,
        clears the selection and resets the position readout. Nothing
        happens without a selection or a scene. */
    method DeleteSelected()
      requires Valid()
      modifies this
      ensures Valid()
      ensures old(selected.Some? && hasScene) ==>
                scene == old(scene) - {old(selected).value} &&
                objects == RemoveId(old(objects), old(selected).value) &&
                |objects| == |old(objects)| - 1 &&
                selected == None && coords == Vec3(0.0, 0.0, 0.0)
      ensures !old(selected.Some? && hasScene) ==>
                scene == old(scene) && objects == old(objects) &&
                selected == old(selected) && coords == old(coords)
      ensures hasScene == old(hasScene) && camera == old(camera)
      ensures gestureData == old(gestureData) && handData == old(handData)
      ensures isDragging == old(isDragging) && isRotating == old(isRotating)
      ensures lastPosition == old(lastPosition)
    {
      if selected.Some? && hasScene {
        var id := selected.value;
        DeleteKeeps(objects, scene, id);
        scene, objects, selected, coords := scene - {id}, RemoveId(objects, id), None, Vec3(0.0, 0.0, 0.0);
      }
    }

    /** One hand's gesture applied to the selected object; nothing happens
        without a selection or without landmarks. A pinch also refreshes
        the position readout. */
    method ApplyGestureControls(landmarks: Option<Gesture.HandPose>, g: Gesture.GestureData)
      requires Valid()
      requires landmarks.Some? ==> |landmarks.value| > Gesture.INDEX_TIP
      modifies this
      ensures Valid()
      ensures selected.None? || landmarks.None? ==> scene == old(scene) && coords == old(coords)
      ensures old(selected).Some? && landmarks.Some? ==>
                var id := old(selected).value;
                var m := ApplyGesture(old(scene)[id], landmarks.value[Gesture.INDEX_TIP], g);
                scene == old(scene)[id := m] &&
                coords == if Pinching(g) then m.position else old(coords)
      ensures GestureFrame() == old(GestureFrame())
      ensures gestureData == old(gestureData) && handData == old(handData)
    {
      if selected.None? || landmarks.None? {
        return;
      }
      var id := selected.value;
      var m := ApplyGesture(scene[id], landmarks.value[Gesture.INDEX_TIP], g);
      ReplaceMeshKeeps(objects, scene, selected, id, m);
      scene := scene[id := m];
      if Pinching(g) {
        coords := m.position;
      }
    }

    /** One frame of hand-detection results. Without a canvas nothing
        happens. With no hand list the readout goes to "no hand". Otherwise
        the hands are handled in turn. */
    method OnHandResults(canvasMounted: bool, results: Option<seq<Gesture.HandSample>>)
      requires Valid()
      requires results.Some? ==> ValidHands(results.value)
      modifies this
      ensures Valid()
      ensures !canvasMounted ==> gestureData == old(gestureData) && handData == old(handData)
      ensures canvasMounted && results.None? ==> gestureData == Gesture.NO_HAND && handData == None
      ensures canvasMounted && results.Some? && results.value != [] ==>
                var last := results.value[|results.value| - 1];
                gestureData == Gesture.Estimate(last) && handData == Some(last.pose)
      ensures canvasMounted && results.Some? && results.value == [] ==>
                gestureData == old(gestureData) && handData == old(handData)
      ensures !canvasMounted || results.None? || old(selected).None? ==>
                scene == old(scene) && coords == old(coords)
      ensures canvasMounted && results.Some? && old(selected).Some? ==>
                var id := old(selected).value;
                scene == old(scene)[id := ApplyHands(old(scene)[id], results.value, |results.value|)] &&
                coords == if LastPinch(results.value, |results.value|) >= 0 then scene[id].position else old(coords)
      ensures GestureFrame() == old(GestureFrame())
    {
      if !canvasMounted {
        return;
      }
      if results.None? {
        gestureData := Gesture.NO_HAND;
        handData := None;
        return;
      }
      HandleHands(results.value);
    }

    /** One detected hand: its gesture is estimated, becomes the readout
        together with its landmarks, and is applied to the selected object. */
    method HandleHand(hand: Gesture.HandSample)
      requires Valid()
      requires Gesture.ValidSample(hand)
      modifies this
      ensures Valid()
      ensures gestureData == Gesture.Estimate(hand) && handData == Some(hand.pose)
      ensures old(selected).None? ==> scene == old(scene) && coords == old(coords)
      ensures old(selected).Some? ==>
                var id := old(selected).value;
                var m := ApplyGesture(old(scene)[id], hand.pose[Gesture.INDEX_TIP], Gesture.Estimate(hand));
                scene == old(scene)[id := m] &&
                coords == if Pinching(Gesture.Estimate(hand)) then m.position else old(coords)
      ensures GestureFrame() == old(GestureFrame())
    {
      var gestureInfo := Gesture.CalculateGesture(hand.pose, hand.pinchDistance,
                                                  hand.fingerDistances, hand.jitter);
      gestureData := gestureInfo;
      handData := Some(hand.pose);
      ApplyGestureControls(Some(hand.pose), gestureInfo);
    }

    /** Every detected hand in turn is estimated, becomes the readout and
        is applied to the selected object: the last hand's readout stays,
        the last pinching hand places the object, every grabbing hand
        turns it. */
    method HandleHands(hands: seq<Gesture.HandSample>)
      requires Valid()
      requires ValidHands(hands)
      modifies this
      ensures Valid()
      ensures hands != [] ==>
                gestureData == Gesture.Estimate(hands[|hands| - 1]) &&
                handData == Some(hands[|hands| - 1].pose)
      ensures hands == [] ==> gestureData == old(gestureData) && handData == old(handData)
      ensures old(selected).None? ==> scene == old(scene) && coords == old(coords)
      ensures old(selected).Some? ==>
                var id := old(selected).value;
                scene == old(scene)[id := ApplyHands(old(scene)[id], hands, |hands|)] &&
                coords == if LastPinch(hands, |hands|) >= 0 then scene[id].position else old(coords)
      ensures GestureFrame() == old(GestureFrame())
    {
      ghost var scene0, coords0, gesture0, hand0 := scene, coords, gestureData, handData;
      ghost var last: Option<Gesture.HandSample> := None;
      var i := 0;
      while i < |hands|
        invariant 0 <= i <= |hands|
        invariant Valid() && selected == old(selected)
        invariant i > 0 ==> last == Some(hands[i - 1]) &&
                            gestureData == Gesture.Estimate(last.value) && handData == Some(last.value.pose)
        invariant i == 0 ==> gestureData == gesture0 && handData == hand0
        invariant selected.None? ==> scene == scene0 && coords == coords0
        invariant selected.Some? ==>
                    scene == scene0[selected.value := ApplyHands(scene0[selected.value], hands, i)] &&
                    coords == if LastPinch(hands, i) >= 0 then scene[selected.value].position else coords0
        invariant GestureFrame() == old(GestureFrame())
      {
        HandleHand(hands[i]);
        last := Some(hands[i]);
        if selected.Some? {
          var id := selected.value;
          UpdateTwice(scene0, id, ApplyHands(scene0[id], hands, i), ApplyHands(scene0[id], hands, i + 1));
        }
        i := i + 1;
      }
    }
  }
}
