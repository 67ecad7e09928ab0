/**
 * The viewer window itself: the fields the event handlers update (the loaded model and its
 * transforms, the selection, the light list and the state of a gizmo drag or rotation), and
 * the handlers that load a model, select in the tree, the light list and the viewport, drag
 * along a gizmo axis and turn about one. Each handler is specified by the functions of
 * `Transforms` and `Selection` and by the step functions below.
 */
module Viewer {
  import opened Wrappers
  import opened Geometry
  import opened SceneTree
  import opened Transforms
  import opened Selection

  /** A point of the viewport, in device-independent pixels. */
  datatype Point2 = Point2(x: real, y: real)

  /** The perspective camera: where it is and where it looks. */
  datatype Camera = Camera(position: Vec3, look: Vec3, up: Vec3)

  /** The `Rect3D` GetSelectedModelBounds reports: a corner and the sizes along the axes. */
  datatype Bounds = Bounds(corner: Vec3, size: Vec3)

  /** The state of a gizmo drag or rotation. */
  datatype Gesture = Gesture(
    isDragging: bool,
    draggedAxis: Option<Axis>,
    lastMouse: Point2,
    dragStart: Vec3,
    offset: Vec3,
    isRotating: bool,
    rotatedAxis: Option<Axis>,
    accumulatedRotation: real,
    initialLightDirection: Vec3)

  /** The light AddLightSource appends: at (5, 5, 5), pointing down, with 10 rays of length 100. */
  function NewLight(kind: LightKind): Light {
    Light(kind, Vec3(5.0, 5.0, 5.0), Vec3(0.0, -1.0, 0.0), 10, 100.0)
  }

  function Sum(s: seq<real>): real {
    if |s| == 0 then 0.0 else s[0] + Sum(s[1..])
  }

  lemma {:induction false} SumAppend(s: seq<real>, x: real)
    ensures Sum(s + [x]) == Sum(s) + x
  {
    if |s| > 0 {
      assert (s + [x])[1..] == s[1..] + [x];
      SumAppend(s[1..], x);
    }
  }

  /** A vector with no component off axis `a`: what a drag along `a` accumulates. */
  predicate OnAxis(v: Vec3, a: Axis) {
    forall b :: b != a ==> Component(v, b) == 0.0
  }

  /** Every hit tagged with a light names one of the `n` lights. */
  predicate IndicatorsInRange(hits: seq<Hit>, n: nat) {
    forall k :: 0 <= k < |hits| && hits[k].indicator.Some? && hits[k].indicator.value.Some? ==> hits[k].indicator.value.value < n
  }

  // ---------------------------------------------------------------- tree selection

  /** The model SelectModelNode selects for a tree node holding `m`: for a geometry inside a
      loaded group, the direct child of the root holding it when that child has its own
      transform; otherwise `m` itself. */
  function NodeSelection(m: Model, original: Option<Model>, parts: map<NodeId, PartTransform>): (r: NodeId)
    ensures r == m.id || r in parts
  {
    if m.Geometry? && original.Some? && original.value.Group? then
      var parent := FindParentGroup(m.id, original.value);
      if parent.Some? && parent.value.id in parts then parent.value.id else m.id
    else m.id
  }

  /** Picking a face in the tree of a model of several parts selects the part holding it:
      the first direct child of the root whose subtree holds that face. */
  lemma FaceSelectsItsPart(m: Model, root: Model, k: nat)
    requires m.Geometry? && MultiPart(root)
    requires k < |root.children| && HoldsAt(m.id, root, k)
    requires forall j :: 0 <= j < k ==> !HoldsAt(m.id, root, j)
    ensures NodeSelection(m, Some(root), SetupParts(root)) == root.children[k].id
  {
    FindParentGroupSpec(m.id, root);
    ChildIdsMember(m.id, root, 0);
    var parent := FindParentGroup(m.id, root);
    assert parent.Some?;
    var k' :| 0 <= k' < |Children(root)| && parent.value == Children(root)[k'] &&
              HoldsAt(m.id, root, k') && forall j :: 0 <= j < k' ==> !HoldsAt(m.id, root, j);
    assert k' == k;
    assert parent.value.id in ChildKeys(root);
  }

  /** A face that lies in no part with its own transform is selected on its own. */
  lemma LooseFaceSelectsItself(m: Model, root: Model)
    requires m.Geometry? && root.Group? && m.id !in ChildIds(root, 0)
    ensures NodeSelection(m, Some(root), SetupParts(root)) == m.id
  {
    FindParentGroupSpec(m.id, root);
  }

  // ---------------------------------------------------------------- clicks in the viewport

  /** The scene a left click leaves, given how the scan of its hits ended: a drag start
      changes no selection, a light indicator selects its light, and otherwise the click
      clears the selection when no model is loaded or nothing was hit, keeps it when only a
      gizmo or an indicator was hit, and selects the next part (or the whole model) when the
      model was hit. */
  function ClickScene(s: Scene, original: Option<Model>, r: ScanResult): Scene {
    match r
    case StartRotate(_) => s
    case StartTranslate(_) => s
    case PickLight(i) => s.(selectedLight := Some(i), selectedModel := None)
    case Flags(hitModel, hitGizmo, hitIndicator) =>
      if original.None? || !(hitModel || hitGizmo || hitIndicator) then s.(selectedModel := None, selectedLight := None)
      else if !hitModel then s
      else s.(selectedModel := ClickedSelection(original.value, s.selectedModel), selectedLight := None)
  }

  /** The gesture a left click leaves: a rotation handle starts a rotation from angle 0,
      remembering the normalised direction of a selected directional or spot light, and a
      translation handle starts a drag from the current position with no offset. */
  function ClickGesture(g: Gesture, s: Scene, r: ScanResult, pos: Point2, trig: Trig): Gesture
    requires LightInRange(s)
  {
    match r
    case StartRotate(a) =>
      var dir := if s.selectedLight.Some? && s.lights[s.selectedLight.value].kind != Point
                 then trig.unit(s.lights[s.selectedLight.value].direction) else g.initialLightDirection;
      g.(isRotating := true, rotatedAxis := Some(a), accumulatedRotation := 0.0, initialLightDirection := dir, lastMouse := pos)
    case StartTranslate(a) =>
      g.(isDragging := true, draggedAxis := Some(a), lastMouse := pos, dragStart := CurrentPosition(s), offset := Origin)
    case _ => g
  }

  /** The scene after `n` clicks that hit the loaded model. */
  function ModelClicks(s: Scene, original: Model, n: nat): Scene {
    if n == 0 then s else ClickScene(ModelClicks(s, original, n - 1), Some(original), Flags(true, false, false))
  }

  /** On a model of several parts, n clicks on the model step the selection n times through
      the part cycle. */
  lemma {:induction false} ModelClicksCycle(s: Scene, root: Model, n: nat)
    requires MultiPart(root)
    ensures ModelClicks(s, root, n).selectedModel == AfterClicks(n, s.selectedModel, root.id, ChildHandles(root))
    ensures n > 0 ==> ModelClicks(s, root, n).selectedLight.None?
  {
    if n > 0 {
      ModelClicksCycle(s, root, n - 1);
    }
  }

  /** With the whole model selected, click k on a model of distinct parts selects part k,
      and one click more than there are parts selects the whole model again. */
  lemma ModelClicksVisitEveryPart(s: Scene, root: Model, k: nat)
    requires MultiPart(root) && Distinct(ChildHandles(root)) && root.id !in ChildHandles(root)
    requires s.selectedModel == Some(root.id)
    ensures 1 <= k <= |root.children| ==> ModelClicks(s, root, k).selectedModel == Some(root.children[k - 1].id)
    ensures ModelClicks(s, root, |root.children| + 1).selectedModel == Some(root.id)
  {
    ModelClicksCycle(s, root, k);
    ModelClicksCycle(s, root, |root.children| + 1);
    if 1 <= k <= |root.children| {
      CycleVisitsEveryPart(root.id, ChildHandles(root), k);
    }
    FullCycle(root.id, ChildHandles(root));
  }

  /** A click that hits nothing clears both selections. */
  lemma EmptyClickClears(s: Scene, original: Option<Model>, canGrab: bool)
    ensures ClickScene(s, original, Scan([], canGrab)).selectedModel.None?
    ensures ClickScene(s, original, Scan([], canGrab)).selectedLight.None?
  {
    EmptyScanClears(canGrab);
  }

  /** A click on a gizmo handle that cannot be grabbed, with a model loaded, keeps the
      selection and the transforms as they are. */
  lemma GizmoOnlyClickKeeps(s: Scene, original: Model, hitIndicator: bool)
    ensures ClickScene(s, Some(original), Flags(false, true, hitIndicator)) == s
  {
  }

  // ---------------------------------------------------------------- dragging

  function Max(a: real, b: real): real { if a > b then a else b }

  /** The length along the dragged axis of a mouse move (dx, dy): the axis projected on the
      screen through the camera's right = look x up and its up direction, with the screen's y
      pointing down. */
  function AxisMovement(axis: Axis, camera: Camera, dx: real, dy: real, trig: Trig): real {
    var look := trig.unit(camera.look);
    var up := trig.unit(camera.up);
    var right := trig.unit(Cross(look, up));
    dx * Dot(AxisVector(axis), right) + (-dy) * Dot(AxisVector(axis), up)
  }

  /** The scale from pixels to world units: 0.00005 per unit of distance from the camera to
      the light, or to the centre of the selected model's bounds times a tenth of their
      largest extent, never below 0.0005; 0.005 when no bounds are known. */
  function DragScale(s: Scene, camera: Camera, bounds: Option<Bounds>, trig: Trig): (k: real)
    requires LightInRange(s)
    ensures k >= 0.0005
  {
    if s.selectedLight.Some? then
      Max(0.0005, trig.length(Sub(camera.position, s.lights[s.selectedLight.value].position)) * 0.00005)
    else if bounds.Some? then
      var b := bounds.value;
      var maxSize := Max(Max(b.size.x, b.size.y), b.size.z);
      var centre := Vec3(b.corner.x + b.size.x / 2.0, b.corner.y + b.size.y / 2.0, b.corner.z + b.size.z / 2.0);
      Max(0.0005, trig.length(Sub(camera.position, centre)) * 0.00005 * (maxSize / 10.0))
    else 0.005
  }

  /** The movement of one drag step: the axis vector times the distance along it times the scale. */
  function DragMovement(axis: Axis, along: real, scale: real): Vec3 {
    Scale(Scale(AxisVector(axis), along), scale)
  }

  /** A drag step moves along the dragged axis only. */
  lemma DragMovementIsOnAxis(axis: Axis, along: real, scale: real)
    ensures OnAxis(DragMovement(axis, along, scale), axis)
    ensures Component(DragMovement(axis, along, scale), axis) == along * scale
  {
    forall b | b != axis
      ensures Component(DragMovement(axis, along, scale), b) == 0.0
    {
    }
  }

  /** The offset after one mouse move of a translation drag: the movement is added. */
  function DragOffset(s: Scene, g: Gesture, pos: Point2, camera: Camera, bounds: Option<Bounds>, trig: Trig): Vec3
    requires LightInRange(s) && g.draggedAxis.Some?
  {
    Add(g.offset, DragMovement(g.draggedAxis.value,
                               AxisMovement(g.draggedAxis.value, camera, pos.x - g.lastMouse.x, pos.y - g.lastMouse.y, trig),
                               DragScale(s, camera, bounds, trig)))
  }

  /** One mouse move of a translation drag: the selection is placed at the drag's start
      plus the whole offset. */
  function DragStep(s: Scene, g: Gesture, pos: Point2, camera: Camera, bounds: Option<Bounds>, trig: Trig): (Scene, Gesture)
    requires LightInRange(s) && g.draggedAxis.Some?
  {
    (WithPosition(s, Add(g.dragStart, DragOffset(s, g, pos, camera, bounds, trig))),
     g.(offset := DragOffset(s, g, pos, camera, bounds, trig), lastMouse := pos))
  }

  /** The offset of a drag stays on the dragged axis. */
  lemma DragOffsetIsOnAxis(s: Scene, g: Gesture, pos: Point2, camera: Camera, bounds: Option<Bounds>, trig: Trig)
    requires LightInRange(s) && g.draggedAxis.Some? && OnAxis(g.offset, g.draggedAxis.value)
    ensures OnAxis(DragOffset(s, g, pos, camera, bounds, trig), g.draggedAxis.value)
  {
    var a := g.draggedAxis.value;
    var along := AxisMovement(a, camera, pos.x - g.lastMouse.x, pos.y - g.lastMouse.y, trig);
    var m := DragMovement(a, along, DragScale(s, camera, bounds, trig));
    DragMovementIsOnAxis(a, along, DragScale(s, camera, bounds, trig));
    forall b | b != a
      ensures Component(DragOffset(s, g, pos, camera, bounds, trig), b) == 0.0
    {
      assert Component(Add(g.offset, m), b) == Component(g.offset, b) + Component(m, b);
    }
  }

  /** After a drag step the selection reads back at the drag's start plus the accumulated
      offset, so its coordinates off the dragged axis stay those of the start. */
  lemma DragStaysOnAxis(s: Scene, g: Gesture, pos: Point2, camera: Camera, bounds: Option<Bounds>, trig: Trig)
    requires LightInRange(s) && g.draggedAxis.Some? && OnAxis(g.offset, g.draggedAxis.value)
    requires PositionTarget(s) != NoTarget
    ensures LightInRange(DragStep(s, g, pos, camera, bounds, trig).0)
    ensures CurrentPosition(DragStep(s, g, pos, camera, bounds, trig).0) == Add(g.dragStart, DragOffset(s, g, pos, camera, bounds, trig))
    ensures forall b :: b != g.draggedAxis.value ==>
      Component(CurrentPosition(DragStep(s, g, pos, camera, bounds, trig).0), b) == Component(g.dragStart, b)
  {
    var offset := DragOffset(s, g, pos, camera, bounds, trig);
    DragOffsetIsOnAxis(s, g, pos, camera, bounds, trig);
    PositionRoundTrip(s, Add(g.dragStart, offset));
    forall b | b != g.draggedAxis.value
      ensures Component(Add(g.dragStart, offset), b) == Component(g.dragStart, b)
    {
      assert Component(Add(g.dragStart, offset), b) == Component(g.dragStart, b) + Component(offset, b);
    }
  }

  // ---------------------------------------------------------------- rotating

  /** The total angle after one mouse move of a rotation: half of dx + dy more. */
  function RotationTotal(g: Gesture, pos: Point2): real {
    g.accumulatedRotation + ((pos.x - g.lastMouse.x) + (pos.y - g.lastMouse.y)) * 0.5
  }

  /** One mouse move of a rotation: the total, not the step, is applied to the selected
      light or model. */
  function RotateStep(s: Scene, g: Gesture, pos: Point2, trig: Trig): (Scene, Gesture)
    requires LightInRange(s) && g.rotatedAxis.Some?
  {
    (if s.selectedLight.Some? then WithLightRotation(s, g.initialLightDirection, g.rotatedAxis.value, RotationTotal(g, pos), trig)
     else WithRotation(s, g.rotatedAxis.value, RotationTotal(g, pos)),
     g.(accumulatedRotation := RotationTotal(g, pos), lastMouse := pos))
  }

  /** The rotation a step writes is the total of the rotation so far: half of all mouse
      travel dx + dy since the handle was grabbed, about the model centre, with the
      translation kept. */
  lemma RotateStepSetsTotal(s: Scene, g: Gesture, steps: seq<real>, pos: Point2, trig: Trig)
    requires LightInRange(s) && GestureValid(g, steps) && g.isRotating && s.selectedLight.None?
    ensures RotationTotal(g, pos) == 0.5 * Sum(steps + [(pos.x - g.lastMouse.x) + (pos.y - g.lastMouse.y)])
    ensures RotationTarget(s).WholeTarget? ==>
      RotateStep(s, g, pos, trig).0.whole == Some(PartTransform(g.rotatedAxis.value, RotationTotal(g, pos), s.modelCenter, s.whole.value.offset))
    ensures RotationTarget(s).PartTarget? ==>
      RotateStep(s, g, pos, trig).0.parts[RotationTarget(s).id] ==
        PartTransform(g.rotatedAxis.value, RotationTotal(g, pos), s.modelCenter, s.parts[RotationTarget(s).id].offset)
  {
    SumAppend(steps, (pos.x - g.lastMouse.x) + (pos.y - g.lastMouse.y));
    RotationSetsTarget(s, g.rotatedAxis.value, RotationTotal(g, pos));
  }

  // ---------------------------------------------------------------- invariants

  /** The invariant of the selection and the transforms: the selected light is in the list
      and excludes a model selection; a loaded model has a whole-model transform and the
      part transforms SetupModelTransforms gave it, and nothing loaded has neither. */
  predicate SceneValid(s: Scene, original: Option<Model>) {
    LightInRange(s) &&
    !(s.selectedModel.Some? && s.selectedLight.Some?) &&
    s.root == RefOf(original) &&
    (s.whole.Some? <==> original.Some?) &&
    s.parts.Keys == (if original.Some? then SetupParts(original.value).Keys else {})
  }

  /** The invariant of a gesture: a drag has an axis and has moved only along it; a rotation
      has an axis, and its total angle is half the mouse travel `steps` since it began. */
  predicate GestureValid(g: Gesture, steps: seq<real>) {
    (g.isDragging <==> g.draggedAxis.Some?) &&
    (g.isDragging ==> OnAxis(g.offset, g.draggedAxis.value)) &&
    (g.isRotating <==> g.rotatedAxis.Some?) &&
    (!g.isRotating ==> steps == []) &&
    g.accumulatedRotation == 0.5 * Sum(steps)
  }

  lemma PositionKeepsValid(s: Scene, original: Option<Model>, p: Vec3)
    requires SceneValid(s, original)
    ensures SceneValid(WithPosition(s, p), original)
  {
  }

  lemma RotationKeepsValid(s: Scene, original: Option<Model>, axis: Axis, angle: real)
    requires SceneValid(s, original)
    ensures SceneValid(WithRotation(s, axis, angle), original)
  {
  }

  lemma LightRotationKeepsValid(s: Scene, original: Option<Model>, initial: Vec3, axis: Axis, angle: real, trig: Trig)
    requires SceneValid(s, original)
    ensures SceneValid(WithLightRotation(s, initial, axis, angle, trig), original)
  {
  }

  /** Loading a model and selecting it whole establishes the invariant. */
  lemma LoadIsValid(s: Scene, model: Model)
    ensures SceneValid(s.(root := Some(model.id), whole := Some(Identity), parts := SetupParts(model),
                          selectedModel := Some(model.id), selectedLight := None), Some(model))
  {
  }

  /** Every click keeps the invariant, provided a picked light is one of the lights. */
  lemma ClickKeepsValid(s: Scene, original: Option<Model>, r: ScanResult)
    requires SceneValid(s, original) && (r.PickLight? ==> r.light < |s.lights|)
    ensures SceneValid(ClickScene(s, original, r), original)
  {
  }

  /** Grabbing a handle starts a gesture that satisfies its invariant, a rotation with no
      travel yet. */
  lemma ClickGestureKeepsValid(g: Gesture, steps: seq<real>, s: Scene, r: ScanResult, pos: Point2, trig: Trig)
    requires GestureValid(g, steps) && LightInRange(s)
    ensures GestureValid(ClickGesture(g, s, r, pos, trig), if r.StartRotate? then [] else steps)
  {
    if r.StartTranslate? {
      assert forall b :: Component(Origin, b) == 0.0;
    }
  }

  /** A drag step keeps both invariants. */
  lemma DragStepKeepsValid(s: Scene, original: Option<Model>, g: Gesture, steps: seq<real>, pos: Point2, camera: Camera,
                           bounds: Option<Bounds>, trig: Trig)
    requires SceneValid(s, original) && GestureValid(g, steps) && g.isDragging
    ensures SceneValid(DragStep(s, g, pos, camera, bounds, trig).0, original)
    ensures GestureValid(DragStep(s, g, pos, camera, bounds, trig).1, steps)
  {
    DragOffsetIsOnAxis(s, g, pos, camera, bounds, trig);
    PositionKeepsValid(s, original, Add(g.dragStart, DragOffset(s, g, pos, camera, bounds, trig)));
  }

  /** A rotation step keeps both invariants, its mouse travel joining the steps. */
  lemma RotateStepKeepsValid(s: Scene, original: Option<Model>, g: Gesture, steps: seq<real>, pos: Point2, trig: Trig)
    requires SceneValid(s, original) && GestureValid(g, steps) && g.isRotating
    ensures SceneValid(RotateStep(s, g, pos, trig).0, original)
    ensures GestureValid(RotateStep(s, g, pos, trig).1, steps + [(pos.x - g.lastMouse.x) + (pos.y - g.lastMouse.y)])
  {
    SumAppend(steps, (pos.x - g.lastMouse.x) + (pos.y - g.lastMouse.y));
    if s.selectedLight.Some? {
      LightRotationKeepsValid(s, original, g.initialLightDirection, g.rotatedAxis.value, RotationTotal(g, pos), trig);
    } else {
      RotationKeepsValid(s, original, g.rotatedAxis.value, RotationTotal(g, pos));
    }
  }

  // ---------------------------------------------------------------- the window

  class MainWindow {
    var original: Option<Model>
    var wholeTransform: Option<PartTransform>
    var partTransforms: map<NodeId, PartTransform>
    var selectedModel: Option<NodeId>
    var lights: seq<Light>
    var selectedLight: Option<nat>
    var initialModelCenter: Vec3

    /** The drag and rotation fields of the window, as one record. */
    var gesture: Gesture

    /** The dx + dy of every mouse move of the current rotation. */
    ghost var rotationSteps: seq<real>

    function SceneState(): Scene
      reads this
    {
      Scene(RefOf(original), wholeTransform, partTransforms, selectedModel, selectedLight, lights, initialModelCenter)
    }

    ghost predicate Valid()
      reads this
    {
      SceneValid(SceneState(), original) && GestureValid(gesture, rotationSteps)
    }

    /** An empty window: no model, no lights, no gesture, the light rotation starting from (0, -1, 0). */
    constructor ()
      ensures Valid()
      ensures original.None? && partTransforms == map[] && selectedModel.None? && selectedLight.None? && lights == []
      ensures !gesture.isDragging && !gesture.isRotating && gesture.initialLightDirection == Vec3(0.0, -1.0, 0.0)
    {
      original := None;
      wholeTransform := None;
      partTransforms := map[];
      selectedModel := None;
      lights := [];
      selectedLight := None;
      initialModelCenter := Origin;
      gesture := Gesture(false, None, Point2(0.0, 0.0), Origin, Origin, false, None, 0.0, Vec3(0.0, -1.0, 0.0));
      rotationSteps := [];
    }

    /** A fresh identity transform for the whole model and, when the model is a group of
        several children, one for each child. */
    method SetupModelTransforms(model: Model)
      modifies this
      ensures SceneState() == old(SceneState()).(whole := Some(Identity), parts := SetupParts(model))
      ensures original == old(original) && gesture == old(gesture) && rotationSteps == old(rotationSteps)
    {
      var parts: map<NodeId, PartTransform> := map[];
      if model.Group? && |model.children| > 1 {
        var i := 0;
        while i < |model.children|
          invariant 0 <= i <= |model.children|
          invariant parts.Keys == set k | 0 <= k < i :: model.children[k].id
          invariant forall id :: id in parts ==> parts[id] == Identity
        {
          parts := parts[model.children[i].id := Identity];
          i := i + 1;
        }
        assert Children(model) == model.children;
        assert parts.Keys == SetupParts(model).Keys;
      }
      partTransforms := parts;
      wholeTransform := Some(Identity);
    }

    /** Loading a model: it becomes the original, gets fresh transforms and is selected whole. */
    method LoadModel(model: Model)
      requires Valid()
      modifies this
      ensures Valid()
      ensures original == Some(model)
      ensures SceneState() == old(SceneState()).(root := Some(model.id), whole := Some(Identity), parts := SetupParts(model),
                                                 selectedModel := Some(model.id), selectedLight := None)
      ensures gesture == old(gesture) && rotationSteps == old(rotationSteps)
    {
      LoadIsValid(SceneState(), model);
      original := Some(model);
      SetupModelTransforms(model);
      selectedModel := Some(model.id);
      selectedLight := None;
    }

    /** SelectModelNode: nothing happens for no node or a node without a model; otherwise the
        node's model (or the part holding it) is selected and the light is deselected. */
    method SelectModelNode(node: Option<TreeNode>)
      requires Valid()
      modifies this
      ensures Valid()
      ensures node.None? || node.value.model.None? ==> SceneState() == old(SceneState())
      ensures node.Some? && node.value.model.Some? ==>
        SceneState() == old(SceneState()).(selectedModel := Some(NodeSelection(node.value.model.value, original, partTransforms)),
                                           selectedLight := None)
      ensures original == old(original) && gesture == old(gesture) && rotationSteps == old(rotationSteps)
    {
      if node.None? || node.value.model.None? {
        return;
      }
      var m := node.value.model.value;
      if m.Geometry? && original.Some? && original.value.Group? {
        var parentGroup := FindParentGroup(m.id, original.value);
        if parentGroup.Some? && parentGroup.value.id in partTransforms {
          selectedModel := Some(parentGroup.value.id);
        } else {
          selectedModel := Some(m.id);
        }
      } else {
        selectedModel := Some(m.id);
      }
      selectedLight := None;
    }

    method ClearSelection()
      requires Valid()
      modifies this
      ensures Valid()
      ensures SceneState() == old(SceneState()).(selectedModel := None, selectedLight := None)
      ensures original == old(original) && gesture == old(gesture) && rotationSteps == old(rotationSteps)
    {
      selectedModel := None;
      selectedLight := None;
    }

    /** The light list's selection changed to `item`: that light is selected, and a light
        replaces any model selection. */
    method LightsListBoxSelectionChanged(item: Option<nat>)
      requires Valid() && (item.Some? ==> item.value < |lights|)
      modifies this
      ensures Valid()
      ensures SceneState() == old(SceneState()).(selectedLight := item,
                                                 selectedModel := if item.Some? then None else old(selectedModel))
      ensures original == old(original) && gesture == old(gesture) && rotationSteps == old(rotationSteps)
    {
      selectedLight := item;
      if item.Some? {
        selectedModel := None;
      }
    }

    /** A new light at the end of the list, selected through the list box. */
    method AddLightSource(kind: LightKind)
      requires Valid()
      modifies this
      ensures Valid()
      ensures SceneState() == old(SceneState()).(lights := old(lights) + [NewLight(kind)],
                                                 selectedLight := Some(|old(lights)|), selectedModel := None)
      ensures original == old(original) && gesture == old(gesture) && rotationSteps == old(rotationSteps)
    {
      lights := lights + [NewLight(kind)];
      LightsListBoxSelectionChanged(Some(|lights| - 1));
    }

    /** Removing the selected light, if there is one; the others keep their order. */
    method DeleteLightSource()
      requires Valid()
      modifies this
      ensures Valid()
      ensures old(selectedLight).None? ==> SceneState() == old(SceneState())
      ensures old(selectedLight).Some? ==>
        var i := old(selectedLight).value;
        SceneState() == old(SceneState()).(lights := old(lights)[..i] + old(lights)[i + 1..], selectedLight := None)
      ensures original == old(original) && gesture == old(gesture) && rotationSteps == old(rotationSteps)
    {
      if selectedLight.None? {
        return;
      }
      var i := selectedLight.value;
      selectedLight := None;
      lights := lights[..i] + lights[i + 1..];
    }

    /** SetPosition: the position is written where PositionTarget routes it. */
    method SetPosition(p: Vec3)
      requires Valid()
      modifies this
      ensures Valid()
      ensures SceneState() == WithPosition(old(SceneState()), p)
      ensures original == old(original) && gesture == old(gesture) && rotationSteps == old(rotationSteps)
    {
      PositionKeepsValid(SceneState(), original, p);
      match PositionTarget(SceneState())
      case LightTarget(i) =>
        lights := lights[i := lights[i].(position := p)];
      case WholeTarget =>
        wholeTransform := Some(wholeTransform.value.(offset := p));
      case PartTarget(id) =>
        partTransforms := partTransforms[id := partTransforms[id].(offset := p)];
      case NoTarget =>
    }

    /** ApplyRotation: the rotation is written where RotationTarget routes it, about the
        model centre. */
    method ApplyRotation(axis: Axis, angle: real)
      requires Valid()
      modifies this
      ensures Valid()
      ensures SceneState() == WithRotation(old(SceneState()), axis, angle)
      ensures original == old(original) && gesture == old(gesture) && rotationSteps == old(rotationSteps)
    {
      RotationKeepsValid(SceneState(), original, axis, angle);
      if selectedModel.None? {
        return;
      }
      if selectedModel == RefOf(original) && wholeTransform.Some? {
        wholeTransform := Some(Rotated(wholeTransform.value, axis, angle, initialModelCenter));
      } else if selectedModel.value in partTransforms {
        var id := selectedModel.value;
        partTransforms := partTransforms[id := Rotated(partTransforms[id], axis, angle, initialModelCenter)];
      }
    }

    /** ApplyLightRotation: the selected directional or spot light turns to `angle` degrees
        from the direction it had when the rotation began. */
    method ApplyLightRotation(axis: Axis, angle: real, trig: Trig)
      requires Valid()
      modifies this
      ensures Valid()
      ensures SceneState() == WithLightRotation(old(SceneState()), gesture.initialLightDirection, axis, angle, trig)
      ensures original == old(original) && gesture == old(gesture) && rotationSteps == old(rotationSteps)
    {
      LightRotationKeepsValid(SceneState(), original, gesture.initialLightDirection, axis, angle, trig);
      if selectedLight.None? {
        return;
      }
      var i := selectedLight.value;
      if lights[i].kind == Point {
        return;
      }
      var initialDir := gesture.initialLightDirection;
      if trig.length(initialDir) < 0.01 {
        initialDir := trig.unit(lights[i].direction);
      }
      var rotatedDir := trig.unit(Rodrigues(initialDir, AxisVector(axis), trig.cosDegrees(angle), trig.sinDegrees(angle)));
      lights := lights[i := lights[i].(direction := rotatedDir)];
    }

    /** The left button goes down over `hits`: a grabbed handle starts a drag or a rotation,
        a light indicator selects its light, and otherwise the click selects as ClickScene
        says. `gizmoShown` says whether the gizmo container exists. */
    method MouseLeftButtonDown(hits: seq<Hit>, pos: Point2, gizmoShown: bool, trig: Trig)
      requires Valid() && IndicatorsInRange(hits, |lights|)
      modifies this
      ensures Valid()
      ensures var r := Scan(hits, (old(selectedModel).Some? || old(selectedLight).Some?) && gizmoShown);
        SceneState() == ClickScene(old(SceneState()), old(original), r) &&
        gesture == ClickGesture(old(gesture), old(SceneState()), r, pos, trig) &&
        rotationSteps == if r.StartRotate? then [] else old(rotationSteps)
      ensures original == old(original)
    {
      var canGrab := (selectedModel.Some? || selectedLight.Some?) && gizmoShown;
      var r := ScanHits(hits, canGrab);
      match r {
        case StartRotate(a) =>
          BeginRotation(a, pos, trig);
        case StartTranslate(a) =>
          BeginTranslation(a, pos, trig);
        case PickLight(i) =>
          PickedLightIsTagged(hits, 0, canGrab, false, false, false);
          selectedLight := Some(i);
          selectedModel := None;
        case Flags(hitModel, hitGizmo, hitIndicator) =>
          if original.None? || (!hitModel && !hitGizmo && !hitIndicator) {
            ClearSelection();
          } else if hitModel {
            SelectClickedModel();
          }
      }
    }

    /** A rotation handle was grabbed: the rotation starts from angle 0, remembering the
        normalised direction of a selected directional or spot light. */
    method BeginRotation(a: Axis, pos: Point2, trig: Trig)
      requires Valid()
      modifies this
      ensures Valid()
      ensures SceneState() == old(SceneState()) && original == old(original) && rotationSteps == []
      ensures gesture == ClickGesture(old(gesture), old(SceneState()), StartRotate(a), pos, trig)
    {
      ClickGestureKeepsValid(gesture, rotationSteps, SceneState(), StartRotate(a), pos, trig);
      gesture := gesture.(isRotating := true, rotatedAxis := Some(a), accumulatedRotation := 0.0);
      rotationSteps := [];
      if selectedLight.Some? && (lights[selectedLight.value].kind == Directional || lights[selectedLight.value].kind == Spot) {
        gesture := gesture.(initialLightDirection := trig.unit(lights[selectedLight.value].direction));
      }
      gesture := gesture.(lastMouse := pos);
    }

    /** A translation handle was grabbed: the drag starts from the current position. */
    method BeginTranslation(a: Axis, pos: Point2, trig: Trig)
      requires Valid()
      modifies this
      ensures Valid()
      ensures SceneState() == old(SceneState()) && original == old(original) && rotationSteps == old(rotationSteps)
      ensures gesture == old(gesture).(isDragging := true, draggedAxis := Some(a), lastMouse := pos,
                                                     dragStart := CurrentPosition(old(SceneState())), offset := Origin)
    {
      ClickGestureKeepsValid(gesture, rotationSteps, SceneState(), StartTranslate(a), pos, trig);
      gesture := gesture.(isDragging := true, draggedAxis := Some(a), lastMouse := pos);
      gesture := gesture.(dragStart := CurrentPosition(SceneState()), offset := Origin);
    }

    /** The loaded model was clicked: the next part of a model of several parts, found by
        searching the parts for the selection, or else the whole model, is selected. */
    method SelectClickedModel()
      requires Valid() && original.Some?
      modifies this
      ensures Valid()
      ensures original == old(original) && gesture == old(gesture) && rotationSteps == old(rotationSteps)
      ensures SceneState() == old(SceneState()).(selectedModel := ClickedSelection(original.value, old(selectedModel)), selectedLight := None)
    {
      ClickKeepsValid(SceneState(), original, Flags(true, false, false));
      var root := original.value;
      if MultiPart(root) {
        var parts := ChildHandles(root);
        var nextPart: NodeId;
        if selectedModel.None? || selectedModel == Some(root.id) {
          nextPart := parts[0];
        } else {
          var currentIndex := FindPartIndex(parts, selectedModel.value);
          if 0 <= currentIndex < |parts| - 1 {
            nextPart := parts[currentIndex + 1];
          } else {
            nextPart := root.id;
          }
        }
        selectedModel := Some(nextPart);
      } else {
        selectedModel := Some(root.id);
      }
      selectedLight := None;
    }

    /** The turn of one mouse move of a rotation; without a rotation under way or without a
        selection it returns at once. */
    method HandleRotationGizmoDrag(pos: Point2, trig: Trig)
      requires Valid()
      modifies this
      ensures Valid()
      ensures original == old(original)
      ensures old(gesture.isRotating && (selectedModel.Some? || selectedLight.Some?)) ==>
        (SceneState(), gesture) == RotateStep(old(SceneState()), old(gesture), pos, trig) &&
        rotationSteps == old(rotationSteps) + [(pos.x - old(gesture).lastMouse.x) + (pos.y - old(gesture).lastMouse.y)]
      ensures !old(gesture.isRotating && (selectedModel.Some? || selectedLight.Some?)) ==>
        SceneState() == old(SceneState()) && gesture == old(gesture) && rotationSteps == old(rotationSteps)
    {
      if !gesture.isRotating || gesture.rotatedAxis.None? || (selectedModel.None? && selectedLight.None?) {
        return;
      }
      RotateSelection(pos, trig);
    }

    /** The body of HandleRotationGizmoDrag past its guard: half of dx + dy joins the total
        angle, which is applied to the selected light or model. */
    method RotateSelection(pos: Point2, trig: Trig)
      requires Valid() && gesture.isRotating
      modifies this
      ensures Valid()
      ensures (SceneState(), gesture) == RotateStep(old(SceneState()), old(gesture), pos, trig)
      ensures rotationSteps == old(rotationSteps) + [(pos.x - old(gesture).lastMouse.x) + (pos.y - old(gesture).lastMouse.y)]
      ensures original == old(original)
    {
      RotateStepKeepsValid(SceneState(), original, gesture, rotationSteps, pos, trig);
      var step := (pos.x - gesture.lastMouse.x) + (pos.y - gesture.lastMouse.y);
      var angle := step * 0.5;
      gesture := gesture.(accumulatedRotation := gesture.accumulatedRotation + angle);
      rotationSteps := rotationSteps + [step];
      if selectedLight.Some? {
        ApplyLightRotation(gesture.rotatedAxis.value, gesture.accumulatedRotation, trig);
      } else {
        ApplyRotation(gesture.rotatedAxis.value, gesture.accumulatedRotation);
      }
      gesture := gesture.(lastMouse := pos);
    }

    /** The move of one mouse move of a translation drag. */
    method DragAlongAxis(pos: Point2, camera: Camera, bounds: Option<Bounds>, trig: Trig)
      requires Valid() && gesture.isDragging
      modifies this
      ensures Valid()
      ensures (SceneState(), gesture) == DragStep(old(SceneState()), old(gesture), pos, camera, bounds, trig)
      ensures original == old(original) && rotationSteps == old(rotationSteps)
    {
      DragStepKeepsValid(SceneState(), original, gesture, rotationSteps, pos, camera, bounds, trig);
      var axis := gesture.draggedAxis.value;
      var movementAlongAxis := AxisMovement(axis, camera, pos.x - gesture.lastMouse.x, pos.y - gesture.lastMouse.y, trig);
      var scaleFactor := DragScale(SceneState(), camera, bounds, trig);
      var movement := DragMovement(axis, movementAlongAxis, scaleFactor);
      gesture := gesture.(offset := Add(gesture.offset, movement));
      SetPosition(Add(gesture.dragStart, gesture.offset));
      gesture := gesture.(lastMouse := pos);
    }

    /** A mouse move: it turns while a rotation with a selection is under way, otherwise
        it moves while a drag with a selection is under way and the camera is a perspective
        one, and otherwise does nothing. */
    method MouseMove(pos: Point2, camera: Option<Camera>, bounds: Option<Bounds>, trig: Trig)
      requires Valid()
      modifies this
      ensures Valid()
      ensures original == old(original)
      ensures old(gesture.isRotating && (selectedModel.Some? || selectedLight.Some?)) ==>
        (SceneState(), gesture) == RotateStep(old(SceneState()), old(gesture), pos, trig)
      ensures !old(gesture.isRotating && (selectedModel.Some? || selectedLight.Some?)) &&
              old(gesture.isDragging && (selectedModel.Some? || selectedLight.Some?)) && camera.Some? ==>
        (SceneState(), gesture) == DragStep(old(SceneState()), old(gesture), pos, camera.value, bounds, trig)
      ensures !old(gesture.isRotating && (selectedModel.Some? || selectedLight.Some?)) &&
              !(old(gesture.isDragging && (selectedModel.Some? || selectedLight.Some?)) && camera.Some?) ==>
        SceneState() == old(SceneState()) && gesture == old(gesture) && rotationSteps == old(rotationSteps)
    {
      if gesture.isRotating && gesture.rotatedAxis.Some? && (selectedModel.Some? || selectedLight.Some?) {
        HandleRotationGizmoDrag(pos, trig);
        return;
      }
      if !gesture.isDragging || gesture.draggedAxis.None? || (selectedModel.None? && selectedLight.None?) {
        return;
      }
      if camera.None? {
        return;
      }
      DragAlongAxis(pos, camera.value, bounds, trig);
    }

    /** The left button goes up: any drag and any rotation end, the rotation's total angle
        going back to 0; what they moved stays where it is. */
    method MouseLeftButtonUp()
      requires Valid()
      modifies this
      ensures Valid()
      ensures SceneState() == old(SceneState()) && original == old(original)
      ensures gesture == old(gesture).(isDragging := false, draggedAxis := None,
                                                     isRotating := false, rotatedAxis := None, accumulatedRotation := 0.0)
      ensures rotationSteps == []
    {
      if gesture.isDragging {
        gesture := gesture.(isDragging := false, draggedAxis := None);
      }
      if gesture.isRotating {
        gesture := gesture.(isRotating := false, rotatedAxis := None, accumulatedRotation := 0.0);
        rotationSteps := [];
      }
    }
  }
}
