/** Values of the scene editor and the pure rules its handlers apply to
    them: placed objects, the object list, the camera, pointer dragging,
    orbiting, wheel zoom and the gesture-to-object mapping. */
module Scene {
  import Gesture

  datatype Option<T> = None | Some(value: T)

  datatype Vec3 = Vec3(x: real, y: real, z: real)

  /** `Vector3.multiplyScalar`: a factor of 1 leaves the vector as it is
      and a factor of 0 sends it to the origin. */
  function Scale(v: Vec3, k: real): (r: Vec3)
    ensures k == 1.0 ==> r == v
    ensures k == 0.0 ==> r == Vec3(0.0, 0.0, 0.0)
  {
    Vec3(v.x * k, v.y * k, v.z * k)
  }

  /** A positive factor keeps the vector on its ray from the origin: every
      coordinate keeps its sign, and the result is a multiple of `v`. */
  lemma ScaleKeepsRay(v: Vec3, k: real)
    requires k > 0.0
    ensures var r := Scale(v, k);
      (r.x > 0.0 <==> v.x > 0.0) && (r.x < 0.0 <==> v.x < 0.0) &&
      (r.y > 0.0 <==> v.y > 0.0) && (r.y < 0.0 <==> v.y < 0.0) &&
      (r.z > 0.0 <==> v.z > 0.0) && (r.z < 0.0 <==> v.z < 0.0)
    ensures var r := Scale(v, k);
      v.x * r.y == v.y * r.x && v.y * r.z == v.z * r.y && v.x * r.z == v.z * r.x
  {
  }

  /** The six primitives of the shape palette. */
  datatype ShapeKind = Cube | Sphere | Cylinder | Cone | Torus | Plane

  /** The two materials a placed object can wear. */
  datatype Material = DefaultMaterial | SelectedMaterial

  /** Object ids are `Date.now() + Math.random()`, a number. */
  type Id = real

  /** A placed object: its shape, position, Euler rotation and material. */
  datatype Mesh = Mesh(shape: ShapeKind, position: Vec3, rotation: Vec3, material: Material)

  /** An entry of the object list. Its position is the mesh's own position
      object, so it is read from the mesh with the same id. */
  datatype ObjectEntry = ObjectEntry(id: Id, shape: ShapeKind)

  // ---------------------------------------------------------------------
  // Object list

  function Ids(entries: seq<ObjectEntry>): set<Id>
  {
    set e | e in entries :: e.id
  }

  predicate DistinctIds(entries: seq<ObjectEntry>)
  {
    forall i, j :: 0 <= i < j < |entries| ==> entries[i].id != entries[j].id
  }

  /** `objects.filter(obj => obj.id !== id)`: keeps exactly the entries
      whose id differs from `id`. */
  function RemoveId(entries: seq<ObjectEntry>, id: Id): (r: seq<ObjectEntry>)
    ensures |r| <= |entries|
  {
    if entries == [] then []
    else
      var rest := RemoveId(entries[1..], id);
      if entries[0].id == id then rest else [entries[0]] + rest
  }

  /** The filter keeps exactly the entries whose id differs from `id`. */
  lemma {:induction false} RemoveIdMembers(entries: seq<ObjectEntry>, id: Id)
    ensures forall e :: e in RemoveId(entries, id) <==> e in entries && e.id != id
  {
    if entries != [] {
      RemoveIdMembers(entries[1..], id);
      assert forall e :: e in entries <==> e == entries[0] || e in entries[1..];
    }
  }

  lemma IdsCons(entries: seq<ObjectEntry>)
    requires entries != []
    ensures Ids(entries) == {entries[0].id} + Ids(entries[1..])
  {
    assert forall e :: e in entries <==> e == entries[0] || e in entries[1..];
  }

  /** `a` is `b` with some entries left out, the rest in their order. */
  predicate IsSubsequence(a: seq<ObjectEntry>, b: seq<ObjectEntry>)
    decreases |b|
  {
    a == [] ||
    (b != [] && if a[0] == b[0] then IsSubsequence(a[1..], b[1..]) else IsSubsequence(a, b[1..]))
  }

  /** The entries that survive the filter keep their order. */
  lemma {:induction false} RemoveIdSubsequence(entries: seq<ObjectEntry>, id: Id)
    ensures IsSubsequence(RemoveId(entries, id), entries)
  {
    if entries != [] {
      var rest := RemoveId(entries[1..], id);
      RemoveIdSubsequence(entries[1..], id);
      if entries[0].id == id && rest != [] {
        RemoveIdMembers(entries[1..], id);
        assert rest[0] in rest;
      }
    }
  }

  /** The filter removes exactly `id` from the ids. */
  lemma {:induction false} RemoveIdIds(entries: seq<ObjectEntry>, id: Id)
    ensures Ids(RemoveId(entries, id)) == Ids(entries) - {id}
  {
    if entries != [] {
      IdsCons(entries);
      RemoveIdIds(entries[1..], id);
      if entries[0].id != id {
        IdsCons(RemoveId(entries, id));
      }
    }
  }

  /** Filtering out an absent id leaves the list as it was. */
  lemma {:induction false} RemoveIdAbsent(entries: seq<ObjectEntry>, id: Id)
    requires id !in Ids(entries)
    ensures RemoveId(entries, id) == entries
  {
    if entries != [] {
      IdsCons(entries);
      RemoveIdAbsent(entries[1..], id);
    }
  }

  lemma DistinctTail(entries: seq<ObjectEntry>)
    requires entries != [] && DistinctIds(entries)
    ensures DistinctIds(entries[1..]) && entries[0].id !in Ids(entries[1..])
  {
    var rest := entries[1..];
    forall i, j | 0 <= i < j < |rest| ensures rest[i].id != rest[j].id {
      assert rest[i] == entries[i + 1] && rest[j] == entries[j + 1];
    }
  }

  /** With distinct ids, the filter keeps them distinct. */
  lemma {:induction false} RemoveIdDistinct(entries: seq<ObjectEntry>, id: Id)
    requires DistinctIds(entries)
    ensures DistinctIds(RemoveId(entries, id))
  {
    if entries != [] {
      DistinctTail(entries);
      RemoveIdDistinct(entries[1..], id);
      if entries[0].id != id {
        var rest := RemoveId(entries[1..], id);
        RemoveIdMembers(entries[1..], id);
        var r := [entries[0]] + rest;
        forall i, j | 0 <= i < j < |r| ensures r[i].id != r[j].id {
          if i == 0 {
            assert r[j] in rest;
          } else {
            assert r[i] == rest[i - 1] && r[j] == rest[j - 1];
          }
        }
      }
    }
  }

  /** With distinct ids, filtering out a present id drops exactly one entry. */
  lemma {:induction false} RemoveIdCount(entries: seq<ObjectEntry>, id: Id)
    requires DistinctIds(entries)
    ensures |RemoveId(entries, id)| == if id in Ids(entries) then |entries| - 1 else |entries|
  {
    if entries != [] {
      IdsCons(entries);
      DistinctTail(entries);
      RemoveIdCount(entries[1..], id);
      if entries[0].id == id {
        RemoveIdAbsent(entries[1..], id);
      }
    }
  }

  /** The object list and the scene's user objects agree: the same ids,
      each listed once, with the same shapes. */
  predicate ListMatchesScene(objects: seq<ObjectEntry>, scene: map<Id, Mesh>)
  {
    DistinctIds(objects) && Ids(objects) == scene.Keys &&
    forall e :: e in objects ==> e.id in scene && scene[e.id].shape == e.shape
  }

  /** The selection is a scene object and it alone wears the selection material. */
  predicate HighlightMatchesSelection(scene: map<Id, Mesh>, selected: Option<Id>)
  {
    (selected.Some? ==> selected.value in scene) &&
    forall id :: id in scene ==> (scene[id].material == SelectedMaterial <==> selected == Some(id))
  }

  /** Changing an object's position or rotation keeps both agreements. */
  lemma ReplaceMeshKeeps(objects: seq<ObjectEntry>, scene: map<Id, Mesh>, selected: Option<Id>,
                         id: Id, m: Mesh)
    requires ListMatchesScene(objects, scene) && HighlightMatchesSelection(scene, selected)
    requires id in scene && m.shape == scene[id].shape && m.material == scene[id].material
    ensures ListMatchesScene(objects, scene[id := m])
    ensures HighlightMatchesSelection(scene[id := m], selected)
  {
    assert scene[id := m].Keys == scene.Keys;
  }

  /** A second update of the same key overrides the first. */
  lemma UpdateTwice<K, V>(m: map<K, V>, k: K, a: V, b: V)
    ensures m[k := a][k := b] == m[k := b]
  {
  }

  /** The scene after the selection moves from `prev` to `next`: the
      previous selection goes back to the default material, then the new
      one takes the selection material. */
  function Rehighlight(scene: map<Id, Mesh>, prev: Option<Id>, next: Option<Id>): (r: map<Id, Mesh>)
    requires prev.Some? ==> prev.value in scene
    requires next.Some? ==> next.value in scene
    ensures r.Keys == scene.Keys
    ensures forall id :: id in scene ==> r[id] == scene[id].(material := r[id].material)
    ensures next.Some? ==> r[next.value].material == SelectedMaterial
    ensures prev.Some? && next != prev ==> r[prev.value].material == DefaultMaterial
    ensures forall id :: id in scene && Some(id) != prev && Some(id) != next ==> r[id] == scene[id]
  {
    var s1 := if prev.Some? then scene[prev.value := scene[prev.value].(material := DefaultMaterial)] else scene;
    if next.Some? then s1[next.value := s1[next.value].(material := SelectedMaterial)] else s1
  }

  /** Moving the highlight changes materials only: the new selection alone
      is highlighted afterwards and the object list still matches. */
  lemma RehighlightKeeps(objects: seq<ObjectEntry>, scene: map<Id, Mesh>, prev: Option<Id>, next: Option<Id>)
    requires ListMatchesScene(objects, scene) && HighlightMatchesSelection(scene, prev)
    requires next.Some? ==> next.value in scene
    ensures Rehighlight(scene, prev, next).Keys == scene.Keys
    ensures forall id :: id in scene ==>
              Rehighlight(scene, prev, next)[id] ==
                scene[id].(material := if next == Some(id) then SelectedMaterial else DefaultMaterial)
    ensures ListMatchesScene(objects, Rehighlight(scene, prev, next))
    ensures HighlightMatchesSelection(Rehighlight(scene, prev, next), next)
  {
    var r := Rehighlight(scene, prev, next);
    assert r.Keys == scene.Keys;
    forall id | id in scene
      ensures r[id] == scene[id].(material := if next == Some(id) then SelectedMaterial else DefaultMaterial)
    {
      if next != Some(id) && prev != Some(id) {
        assert scene[id].material == DefaultMaterial;
      }
    }
  }

  /** The highlight update of the selection handler as the page registers
      it: the listener is bound once at mount time and reads the selection
      of the first render, which is always empty, so the previous
      selection is never put back to the default material. */
  function RehighlightAsWritten(scene: map<Id, Mesh>, next: Option<Id>): (r: map<Id, Mesh>)
    requires next.Some? ==> next.value in scene
    ensures r.Keys == scene.Keys
    ensures forall id :: id in scene && next != Some(id) ==> r[id] == scene[id]
  {
    Rehighlight(scene, None, next)
  }

  /** As registered, selecting a second object leaves the first one
      highlighted too: the single-highlight agreement breaks. */
  lemma StaleSelectionKeepsOldHighlight(scene: map<Id, Mesh>, prev: Id, next: Id)
    requires HighlightMatchesSelection(scene, Some(prev))
    requires next in scene && next != prev
    ensures RehighlightAsWritten(scene, Some(next))[prev].material == SelectedMaterial
    ensures RehighlightAsWritten(scene, Some(next))[next].material == SelectedMaterial
    ensures !HighlightMatchesSelection(RehighlightAsWritten(scene, Some(next)), Some(next))
  {
    var r := RehighlightAsWritten(scene, Some(next));
    assert r[prev] == scene[prev];
  }

  /** Two cubes with ids 1 and 2: clicking the first and then the second
      leaves both wearing the selection material. */
  lemma StaleSelectionExample()
    ensures var cube := Mesh(Cube, Vec3(0.0, 0.0, 0.0), Vec3(0.0, 0.0, 0.0), DefaultMaterial);
            var s0 := map[1.0 := cube, 2.0 := cube];
            var s2 := RehighlightAsWritten(RehighlightAsWritten(s0, Some(1.0)), Some(2.0));
            s2[1.0].material == SelectedMaterial && s2[2.0].material == SelectedMaterial
  {
    var cube := Mesh(Cube, Vec3(0.0, 0.0, 0.0), Vec3(0.0, 0.0, 0.0), DefaultMaterial);
    var s0 := map[1.0 := cube, 2.0 := cube];
    var s1 := RehighlightAsWritten(s0, Some(1.0));
    assert s1[1.0].material == SelectedMaterial && s1[2.0] == cube;
  }

  /** Appending a fresh unselected object to both keeps both agreements. */
  lemma AddKeeps(objects: seq<ObjectEntry>, scene: map<Id, Mesh>, selected: Option<Id>,
                 id: Id, m: Mesh)
    requires ListMatchesScene(objects, scene) && HighlightMatchesSelection(scene, selected)
    requires id !in scene && m.material == DefaultMaterial
    ensures ListMatchesScene(objects + [ObjectEntry(id, m.shape)], scene[id := m])
    ensures HighlightMatchesSelection(scene[id := m], selected)
  {
    var objects' := objects + [ObjectEntry(id, m.shape)];
    assert forall e :: e in objects' <==> e in objects || e == ObjectEntry(id, m.shape);
    assert Ids(objects') == Ids(objects) + {id};
  }

  /** Deleting the selected object from both, and clearing the selection,
      keeps both agreements. */
  lemma DeleteKeeps(objects: seq<ObjectEntry>, scene: map<Id, Mesh>, id: Id)
    requires ListMatchesScene(objects, scene) && HighlightMatchesSelection(scene, Some(id))
    ensures ListMatchesScene(RemoveId(objects, id), scene - {id})
    ensures HighlightMatchesSelection(scene - {id}, None)
    ensures |RemoveId(objects, id)| == |objects| - 1
  {
    RemoveIdMembers(objects, id);
    RemoveIdIds(objects, id);
    RemoveIdDistinct(objects, id);
    RemoveIdCount(objects, id);
  }

  // ---------------------------------------------------------------------
  // Spawning

  /** `(rx * 4 - 2, ry * 2 + 1, rz * 4 - 2)` for three `Math.random()` draws. */
  function SpawnPosition(rx: real, ry: real, rz: real): (p: Vec3)
    requires 0.0 <= rx < 1.0 && 0.0 <= ry < 1.0 && 0.0 <= rz < 1.0
    ensures -2.0 <= p.x < 2.0 && 1.0 <= p.y < 3.0 && -2.0 <= p.z < 2.0
  {
    Vec3(rx * 4.0 - 2.0, ry * 2.0 + 1.0, rz * 4.0 - 2.0)
  }

  // ---------------------------------------------------------------------
  // Wheel zoom

  const ZOOM_OUT: real := 1.1
  const ZOOM_IN: real := 0.9

  /** The factor one wheel event applies to the camera position. */
  function WheelFactor(deltaY: real): (k: real)
    ensures k > 0.0
    ensures k == ZOOM_OUT || k == ZOOM_IN
    ensures k > 1.0 <==> deltaY > 0.0
  {
    if deltaY > 0.0 then ZOOM_OUT else ZOOM_IN
  }

  /** The camera after a sequence of wheel events, one at a time. */
  function ZoomAll(camera: Vec3, deltas: seq<real>): Vec3
    decreases deltas
  {
    if deltas == [] then camera
    else ZoomAll(Scale(camera, WheelFactor(deltas[0])), deltas[1..])
  }

  /** The product of the factors of a sequence of wheel events. */
  function WheelProduct(deltas: seq<real>): real
  {
    if deltas == [] then 1.0 else WheelFactor(deltas[0]) * WheelProduct(deltas[1..])
  }

  /** A sequence of wheel events scales the camera by the product of its
      factors, which is positive. */
  lemma {:induction false} ZoomAllIsProduct(camera: Vec3, deltas: seq<real>)
    ensures WheelProduct(deltas) > 0.0
    ensures ZoomAll(camera, deltas) == Scale(camera, WheelProduct(deltas))
    decreases deltas
  {
    if deltas != [] {
      var k := WheelFactor(deltas[0]);
      var rest := WheelProduct(deltas[1..]);
      ZoomAllIsProduct(Scale(camera, k), deltas[1..]);
      assert camera.x * k * rest == camera.x * (k * rest);
      assert camera.y * k * rest == camera.y * (k * rest);
      assert camera.z * k * rest == camera.z * (k * rest);
      assert k * rest > 0.0;
    }
  }

  /** However many wheel events arrive, the camera stays on its ray from the
      origin: no coordinate changes sign and the position stays a multiple
      of where it started. */
  lemma ZoomAllKeepsRay(camera: Vec3, deltas: seq<real>)
    ensures var c := ZoomAll(camera, deltas);
      (c.x > 0.0 <==> camera.x > 0.0) && (c.x < 0.0 <==> camera.x < 0.0) &&
      (c.y > 0.0 <==> camera.y > 0.0) && (c.y < 0.0 <==> camera.y < 0.0) &&
      (c.z > 0.0 <==> camera.z > 0.0) && (c.z < 0.0 <==> camera.z < 0.0)
    ensures var c := ZoomAll(camera, deltas);
      camera.x * c.y == camera.y * c.x && camera.y * c.z == camera.z * c.y &&
      camera.x * c.z == camera.z * c.x
  {
    ZoomAllIsProduct(camera, deltas);
    ScaleKeepsRay(camera, WheelProduct(deltas));
  }

  // ---------------------------------------------------------------------
  // Pointer drag of the selected object

  const DRAG_GAIN: real := 0.01

  datatype Point = Point(x: real, y: real)

  /** One move of a drag: x follows the pointer, y is inverted, z is kept. */
  function DragBy(p: Vec3, dx: real, dy: real): (r: Vec3)
    ensures r.z == p.z
    ensures r.x - p.x == dx * DRAG_GAIN && p.y - r.y == dy * DRAG_GAIN
  {
    Vec3(p.x + dx * DRAG_GAIN, p.y - dy * DRAG_GAIN, p.z)
  }

  /** The object after a drag through the pointer positions `path`,
      starting with the pointer at `from`; each move is measured from the
      pointer position of the move before. */
  function DragAlong(p: Vec3, from: Point, path: seq<Point>): Vec3
    decreases path
  {
    if path == [] then p
    else DragAlong(DragBy(p, path[0].x - from.x, path[0].y - from.y), path[0], path[1..])
  }

  /** A drag moves the object by the pointer's total displacement, whatever
      the path in between. */
  lemma {:induction false} DragTelescopes(p: Vec3, from: Point, path: seq<Point>)
    requires path != []
    ensures DragAlong(p, from, path)
         == DragBy(p, path[|path| - 1].x - from.x, path[|path| - 1].y - from.y)
    decreases path
  {
    if |path| > 1 {
      var q := DragBy(p, path[0].x - from.x, path[0].y - from.y);
      DragTelescopes(q, path[0], path[1..]);
    }
  }

  // ---------------------------------------------------------------------
  // Orbiting the camera

  /** `Math.PI`. */
  const PI: real := 3.141592653589793
  const PHI_MARGIN: real := 0.1
  const ORBIT_GAIN: real := 0.01

  /** Spherical coordinates of the camera about the origin. */
  datatype Spherical = Spherical(radius: real, phi: real, theta: real)

  /** `Math.max(0.1, Math.min(Math.PI - 0.1, phi))`. */
  function ClampPhi(phi: real): (r: real)
    ensures PHI_MARGIN <= r <= PI - PHI_MARGIN
    ensures PHI_MARGIN <= phi <= PI - PHI_MARGIN ==> r == phi
  {
    Gesture.Clamp(PHI_MARGIN, PI - PHI_MARGIN, phi)
  }

  /** One orbit step for a pointer move of `(dx, dy)`. */
  function OrbitStep(s: Spherical, dx: real, dy: real): (r: Spherical)
    ensures r.radius == s.radius
    ensures r.theta == s.theta - dx * ORBIT_GAIN
    ensures PHI_MARGIN <= r.phi <= PI - PHI_MARGIN
    ensures PHI_MARGIN <= s.phi + dy * ORBIT_GAIN <= PI - PHI_MARGIN ==> r.phi == s.phi + dy * ORBIT_GAIN
  {
    Spherical(s.radius, ClampPhi(s.phi + dy * ORBIT_GAIN), s.theta - dx * ORBIT_GAIN)
  }

  /** Polar angle never decreases when the pointer moves down and never
      increases when it moves up. */
  lemma OrbitPhiFollowsPointer(s: Spherical, dx: real, dy: real)
    requires PHI_MARGIN <= s.phi <= PI - PHI_MARGIN
    ensures dy >= 0.0 ==> OrbitStep(s, dx, dy).phi >= s.phi
    ensures dy <= 0.0 ==> OrbitStep(s, dx, dy).phi <= s.phi
    ensures dy == 0.0 ==> OrbitStep(s, dx, dy).phi == s.phi
  {
  }

  // ---------------------------------------------------------------------
  // Gesture controls on the selected object

  const PINCH_MOVE_THRESHOLD: real := 70.0
  const GRAB_ROTATE_THRESHOLD: real := 80.0
  const ROTATE_STEP_Y: real := 0.02
  const ROTATE_STEP_X: real := 0.01

  /** The pinch test of the controls. A consistent readout that passes it
      is a present hand: the no-hand readout never moves anything. */
  predicate Pinching(g: Gesture.GestureData): (b: bool)
    ensures b && Gesture.Consistent(g) ==> g.handPresent
  {
    g.pinchStrength > PINCH_MOVE_THRESHOLD
  }

  /** The grab test of the controls, likewise only passed by a present hand. */
  predicate Grabbing(g: Gesture.GestureData): (b: bool)
    ensures b && Gesture.Consistent(g) ==> g.handPresent
  {
    g.grabStrength > GRAB_ROTATE_THRESHOLD
  }

  /** On the formatted strength, the pinch test passes exactly when the
      thumb and index tips are at most 0.02995 apart. */
  lemma PinchingDistance(h: Gesture.HandSample)
    requires Gesture.ValidSample(h)
    ensures Pinching(Gesture.Estimate(h)) <==> h.pinchDistance <= 0.02995
  {
    Gesture.ToFixed1Above(Gesture.PinchStrength(h.pinchDistance), 70);
  }

  /** On the formatted strength, the grab test passes exactly when the
      fingertips are on average at most 0.0399 from the wrist. */
  lemma GrabbingDistance(h: Gesture.HandSample)
    requires Gesture.ValidSample(h)
    ensures Grabbing(Gesture.Estimate(h)) <==> Gesture.MeanFingerDistance(h.fingerDistances) <= 0.0399
  {
    Gesture.ToFixed1Above(Gesture.GrabStrength(Gesture.MeanFingerDistance(h.fingerDistances)), 80);
  }

  /** Where a pinch puts the selected object for an index tip at `tip`. */
  function HandTarget(tip: Gesture.Landmark, z: real): (r: Vec3)
    ensures r.z == z
    ensures 0.0 <= tip.x <= 1.0 ==> -5.0 <= r.x <= 5.0
    ensures 0.0 <= tip.y <= 1.0 ==> -0.5 <= r.y <= 4.5
  {
    Vec3((tip.x - 0.5) * 10.0, -(tip.y - 0.5) * 5.0 + 2.0, z)
  }

  /** One hand's effect on the selected object: a pinch sets its x and y
      from the index tip, a grab turns it; both may apply. */
  function ApplyGesture(m: Mesh, tip: Gesture.Landmark, g: Gesture.GestureData): (r: Mesh)
    ensures r.shape == m.shape && r.material == m.material
    ensures r.position.z == m.position.z && r.rotation.z == m.rotation.z
    ensures r.position == if Pinching(g) then HandTarget(tip, m.position.z) else m.position
    ensures r.rotation.y - m.rotation.y == if Grabbing(g) then ROTATE_STEP_Y else 0.0
    ensures r.rotation.x - m.rotation.x == if Grabbing(g) then ROTATE_STEP_X else 0.0
  {
    var moved := if Pinching(g) then m.(position := HandTarget(tip, m.position.z)) else m;
    if Grabbing(g) then
      moved.(rotation := Vec3(moved.rotation.x + ROTATE_STEP_X, moved.rotation.y + ROTATE_STEP_Y,
                              moved.rotation.z))
    else moved
  }

  ghost predicate ValidHands(hands: seq<Gesture.HandSample>)
  {
    forall i :: 0 <= i < |hands| ==> Gesture.ValidSample(hands[i])
  }

  /** The selected object after the first `n` hands of one frame, in order. */
  function ApplyHands(m: Mesh, hands: seq<Gesture.HandSample>, n: nat): (r: Mesh)
    requires ValidHands(hands) && n <= |hands|
    ensures r.shape == m.shape && r.material == m.material
    ensures r.position.z == m.position.z && r.rotation.z == m.rotation.z
  {
    if n == 0 then m
    else ApplyGesture(ApplyHands(m, hands, n - 1), hands[n - 1].pose[Gesture.INDEX_TIP],
                      Gesture.Estimate(hands[n - 1]))
  }

  /** How many of the first `n` hands grab. */
  function GrabCount(hands: seq<Gesture.HandSample>, n: nat): (c: nat)
    requires ValidHands(hands) && n <= |hands|
    ensures c <= n
  {
    if n == 0 then 0
    else GrabCount(hands, n - 1) + if Grabbing(Gesture.Estimate(hands[n - 1])) then 1 else 0
  }

  /** No hand among the first `n` grabs exactly when the count is zero. */
  lemma {:induction false} GrabCountZero(hands: seq<Gesture.HandSample>, n: nat)
    requires ValidHands(hands) && n <= |hands|
    ensures GrabCount(hands, n) == 0 <==> forall j :: 0 <= j < n ==> !Grabbing(Gesture.Estimate(hands[j]))
  {
    if n > 0 {
      GrabCountZero(hands, n - 1);
    }
  }

  /** The index of the last pinching hand among the first `n`, or -1 if
      none of them pinches. */
  function LastPinch(hands: seq<Gesture.HandSample>, n: nat): (k: int)
    requires ValidHands(hands) && n <= |hands|
    ensures -1 <= k < n
    ensures k >= 0 ==> Pinching(Gesture.Estimate(hands[k]))
    ensures forall j :: k < j < n ==> !Pinching(Gesture.Estimate(hands[j]))
  {
    if n == 0 then -1
    else if Pinching(Gesture.Estimate(hands[n - 1])) then n - 1
    else LastPinch(hands, n - 1)
  }

  /** After the first `n` hands: the last pinching hand decides the
      position (z is never touched), each grabbing hand adds one rotation
      step, and shape and material are kept. */
  lemma {:induction false} ApplyHandsEffect(m: Mesh, hands: seq<Gesture.HandSample>, n: nat)
    requires ValidHands(hands) && n <= |hands|
    ensures ApplyHands(m, hands, n).shape == m.shape
    ensures ApplyHands(m, hands, n).material == m.material
    ensures ApplyHands(m, hands, n).position
         == if LastPinch(hands, n) >= 0
            then HandTarget(hands[LastPinch(hands, n)].pose[Gesture.INDEX_TIP], m.position.z)
            else m.position
    ensures ApplyHands(m, hands, n).rotation
         == Vec3(m.rotation.x + GrabCount(hands, n) as real * ROTATE_STEP_X,
                 m.rotation.y + GrabCount(hands, n) as real * ROTATE_STEP_Y,
                 m.rotation.z)
  {
    if n > 0 {
      ApplyHandsEffect(m, hands, n - 1);
      var c := GrabCount(hands, n - 1) as real;
      if Grabbing(Gesture.Estimate(hands[n - 1])) {
        assert GrabCount(hands, n) as real == c + 1.0;
        assert (c + 1.0) * ROTATE_STEP_X == c * ROTATE_STEP_X + ROTATE_STEP_X;
        assert (c + 1.0) * ROTATE_STEP_Y == c * ROTATE_STEP_Y + ROTATE_STEP_Y;
      } else {
        assert GrabCount(hands, n) as real == c;
      }
    }
  }
}
