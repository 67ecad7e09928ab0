/**
 * Transform bookkeeping of the viewer as values: the rotate-then-translate transform held
 * by the whole model and by each part, the light sources, and the routing by which the
 * current selection decides which of them a position or a rotation is read from and
 * written to. The `Viewer` class mutates fields that mirror this value; its methods are
 * specified by the functions here.
 */
module Transforms {
  import opened Wrappers
  import opened Geometry
  import opened SceneTree

  datatype LightKind = Directional | Point | Spot

  /** A `LightSource`: its kind, position, direction and ray settings. */
  datatype Light = Light(kind: LightKind, position: Vec3, direction: Vec3, rayCount: int, rayLength: real)

  /** A `Transform3DGroup` of an `AxisAngleRotation3D` about one of the three axes around
      `center`, followed by a `TranslateTransform3D` by `offset`. */
  datatype PartTransform = PartTransform(axis: Axis, angle: real, center: Vec3, offset: Vec3)

  /** The transform every model and part starts with: angle 0 about Y around the origin,
      no translation. */
  const Identity: PartTransform := PartTransform(Y, 0.0, Origin, Origin)

  /**
   * The part of the window's state that position and rotation routing depend on.
   * `root` is the loaded model's handle, `selectedLight` an index into `lights`.
   */
  datatype Scene = Scene(
    root: Option<NodeId>,
    whole: Option<PartTransform>,
    parts: map<NodeId, PartTransform>,
    selectedModel: Option<NodeId>,
    selectedLight: Option<nat>,
    lights: seq<Light>,
    modelCenter: Vec3)

  /** The selected light, when there is one, is one of the lights. */
  predicate LightInRange(s: Scene) {
    s.selectedLight.Some? ==> s.selectedLight.value < |s.lights|
  }

  /** What a position or rotation is read from and written to. */
  datatype Target = LightTarget(index: nat) | WholeTarget | PartTarget(id: NodeId) | NoTarget

  /** The routing of GetCurrentPosition and SetPosition: the selected light first, then the
      whole model when the root is selected, then a part with its own transform, and
      otherwise the whole-model transform as a fallback. */
  function PositionTarget(s: Scene): Target {
    if s.selectedLight.Some? then LightTarget(s.selectedLight.value)
    else if s.selectedModel.None? then NoTarget
    else if s.selectedModel == s.root && s.whole.Some? then WholeTarget
    else if s.selectedModel.value in s.parts then PartTarget(s.selectedModel.value)
    else if s.whole.Some? then WholeTarget
    else NoTarget
  }

  /** The routing of ApplyRotation: the whole model when the root is selected, or a part with
      its own transform; there is no fallback and no light. */
  function RotationTarget(s: Scene): Target {
    if s.selectedModel.None? then NoTarget
    else if s.selectedModel == s.root && s.whole.Some? then WholeTarget
    else if s.selectedModel.value in s.parts then PartTarget(s.selectedModel.value)
    else NoTarget
  }

  /** GetCurrentPosition. */
  function CurrentPosition(s: Scene): Vec3
    requires LightInRange(s)
  {
    match PositionTarget(s)
    case LightTarget(i) => s.lights[i].position
    case WholeTarget => s.whole.value.offset
    case PartTarget(id) => s.parts[id].offset
    case NoTarget => Origin
  }

  /** The scene after SetPosition(p). */
  function WithPosition(s: Scene, p: Vec3): Scene
    requires LightInRange(s)
  {
    match PositionTarget(s)
    case LightTarget(i) => s.(lights := s.lights[i := s.lights[i].(position := p)])
    case WholeTarget => s.(whole := Some(s.whole.value.(offset := p)))
    case PartTarget(id) => s.(parts := s.parts[id := s.parts[id].(offset := p)])
    case NoTarget => s
  }

  /** The update of one transform by ApplyRotation: keep the axis when the stored axis passes
      the |axis . axis' - 1| < 0.01 test, replace it otherwise; set the angle and the centre. */
  function Rotated(t: PartTransform, axis: Axis, angle: real, center: Vec3): PartTransform {
    if SameAxis(t.axis, axis) then t.(angle := angle, center := center)
    else t.(axis := axis, angle := angle, center := center)
  }

  /** The scene after ApplyRotation(axis, angle), rotating about the model centre. */
  function WithRotation(s: Scene, axis: Axis, angle: real): Scene {
    match RotationTarget(s)
    case WholeTarget => s.(whole := Some(Rotated(s.whole.value, axis, angle, s.modelCenter)))
    case PartTarget(id) => s.(parts := s.parts[id := Rotated(s.parts[id], axis, angle, s.modelCenter)])
    case _ => s
  }

  // ---------------------------------------------------------------- position lemmas

  /** SetPosition followed by GetCurrentPosition returns the position written, whenever
      something is selected, and the selection itself is untouched. */
  lemma PositionRoundTrip(s: Scene, p: Vec3)
    requires LightInRange(s) && PositionTarget(s) != NoTarget
    ensures LightInRange(WithPosition(s, p))
    ensures PositionTarget(WithPosition(s, p)) == PositionTarget(s)
    ensures CurrentPosition(WithPosition(s, p)) == p
  {
  }

  /** Moving a part with its own transform changes that part's translation only: every other
      part, the whole model and the lights keep theirs. */
  lemma PartMoveIsLocal(s: Scene, p: Vec3, other: NodeId)
    requires LightInRange(s) && PositionTarget(s).PartTarget?
    requires other in s.parts && other != PositionTarget(s).id
    ensures WithPosition(s, p).parts[other] == s.parts[other]
    ensures WithPosition(s, p).whole == s.whole && WithPosition(s, p).lights == s.lights
    ensures WithPosition(s, p).parts[PositionTarget(s).id] == s.parts[PositionTarget(s).id].(offset := p)
  {
  }

  /** A selected model that is neither the root nor a part reads and writes the whole-model
      translation. */
  lemma UnmappedSelectionUsesWhole(s: Scene, p: Vec3)
    requires LightInRange(s) && s.selectedLight.None? && s.selectedModel.Some?
    requires s.selectedModel != s.root && s.selectedModel.value !in s.parts && s.whole.Some?
    ensures CurrentPosition(s) == s.whole.value.offset
    ensures WithPosition(s, p) == s.(whole := Some(s.whole.value.(offset := p)))
  {
  }

  /** With nothing selected SetPosition changes nothing and the current position is the origin. */
  lemma NoSelectionIsInert(s: Scene, p: Vec3)
    requires s.selectedLight.None? && s.selectedModel.None?
    ensures CurrentPosition(s) == Origin
    ensures WithPosition(s, p) == s
  {
  }

  /** A selected light takes precedence over any model selection: only its position moves. */
  lemma LightTakesPrecedence(s: Scene, p: Vec3)
    requires LightInRange(s) && s.selectedLight.Some?
    ensures CurrentPosition(s) == s.lights[s.selectedLight.value].position
    ensures WithPosition(s, p).whole == s.whole && WithPosition(s, p).parts == s.parts
    ensures WithPosition(s, p).lights == s.lights[s.selectedLight.value := s.lights[s.selectedLight.value].(position := p)]
  {
  }

  // ---------------------------------------------------------------- rotation lemmas

  /** Because stored axes are always one of the three axis vectors, the axis test in
      ApplyRotation makes the update absolute: the result is the requested axis, angle and
      centre, whatever rotation was there before, with the translation kept. */
  lemma RotatedIsAbsolute(t: PartTransform, axis: Axis, angle: real, center: Vec3)
    ensures Rotated(t, axis, angle, center) == PartTransform(axis, angle, center, t.offset)
  {
    if SameAxis(t.axis, axis) {
      SameAxisTest(t.axis, axis);
    }
  }

  /** Applying the same rotation twice leaves the angle given, not twice it. */
  lemma RotationIsIdempotent(s: Scene, axis: Axis, angle: real)
    ensures WithRotation(WithRotation(s, axis, angle), axis, angle) == WithRotation(s, axis, angle)
  {
    var r := WithRotation(s, axis, angle);
    RotationSetsTarget(s, axis, angle);
    assert RotationTarget(r) == RotationTarget(s);
    RotationSetsTarget(r, axis, angle);
    match RotationTarget(s)
    case WholeTarget =>
      assert r.whole == Some(PartTransform(axis, angle, s.modelCenter, s.whole.value.offset));
    case PartTarget(id) =>
      assert r.parts[id] == PartTransform(axis, angle, s.modelCenter, s.parts[id].offset);
      assert r.parts[id := r.parts[id]] == r.parts;
    case _ =>
  }

  /** ApplyRotation sets the target's axis, angle and centre outright, replacing a
      different stored axis, and keeps its translation; nothing else changes. */
  lemma RotationSetsTarget(s: Scene, axis: Axis, angle: real)
    ensures RotationTarget(s).WholeTarget? ==>
      WithRotation(s, axis, angle) == s.(whole := Some(PartTransform(axis, angle, s.modelCenter, s.whole.value.offset)))
    ensures RotationTarget(s).PartTarget? ==>
      var id := RotationTarget(s).id;
      WithRotation(s, axis, angle) == s.(parts := s.parts[id := PartTransform(axis, angle, s.modelCenter, s.parts[id].offset)])
  {
    match RotationTarget(s)
    case WholeTarget => RotatedIsAbsolute(s.whole.value, axis, angle, s.modelCenter);
    case PartTarget(id) => RotatedIsAbsolute(s.parts[id], axis, angle, s.modelCenter);
    case _ =>
  }

  /** Unlike SetPosition, ApplyRotation has no fallback: with a selection that is neither the
      root nor a part nothing changes, even though a whole-model transform exists. */
  lemma RotationHasNoFallback(s: Scene, axis: Axis, angle: real)
    requires s.selectedModel.Some? && s.selectedModel != s.root && s.selectedModel.value !in s.parts
    ensures WithRotation(s, axis, angle) == s
  {
  }

  /** Rotating never moves what GetCurrentPosition reports. */
  lemma RotationKeepsPosition(s: Scene, axis: Axis, angle: real)
    requires LightInRange(s)
    ensures LightInRange(WithRotation(s, axis, angle))
    ensures CurrentPosition(WithRotation(s, axis, angle)) == CurrentPosition(s)
  {
  }

  // ---------------------------------------------------------------- setup

  /** The handles of the root's direct children, which get their own transforms. */
  function ChildKeys(root: Model): set<NodeId> {
    set k | 0 <= k < |Children(root)| :: Children(root)[k].id
  }

  /** The part map SetupModelTransforms builds: one identity transform per direct child when
      the root is a group of more than one child, and no entries otherwise. */
  function SetupParts(root: Model): (parts: map<NodeId, PartTransform>)
    ensures root.Group? && |root.children| > 1 ==> parts.Keys == ChildKeys(root)
    ensures !(root.Group? && |root.children| > 1) ==> parts == map[]
    ensures forall id :: id in parts ==> parts[id] == Identity
  {
    if root.Group? && |root.children| > 1 then map id | id in ChildKeys(root) :: Identity else map[]
  }

  // ---------------------------------------------------------------- light rotation

  /** Rodrigues' formula: d rotated about the unit axis k by the angle whose cosine and sine
      are c and s, d c + (k x d) s + k (k . d) (1 - c). */
  function Rodrigues(d: Vec3, k: Vec3, c: real, s: real): Vec3 {
    Add(Add(Scale(d, c), Scale(Cross(k, d), s)), Scale(Scale(k, Dot(k, d)), 1.0 - c))
  }

  /** The direction ApplyLightRotation gives a light: the direction held when the rotation
      began, or the light's own normalised direction when that is shorter than 0.01, turned
      by `angle` degrees about the axis and normalised. */
  function RotatedLightDirection(initial: Vec3, current: Vec3, axis: Axis, angle: real, trig: Trig): Vec3 {
    var d := if trig.length(initial) < 0.01 then trig.unit(current) else initial;
    trig.unit(Rodrigues(d, AxisVector(axis), trig.cosDegrees(angle), trig.sinDegrees(angle)))
  }

  /** The scene after ApplyLightRotation(axis, angle): the selected light's direction, when
      the light is directional or a spot; a point light has no direction to turn. */
  function WithLightRotation(s: Scene, initial: Vec3, axis: Axis, angle: real, trig: Trig): Scene
    requires LightInRange(s)
  {
    if s.selectedLight.None? then s
    else
      var i := s.selectedLight.value;
      if s.lights[i].kind == Point then s
      else s.(lights := s.lights[i := s.lights[i].(direction := RotatedLightDirection(initial, s.lights[i].direction, axis, angle, trig))])
  }

  /** The turn keeps the component along the rotation axis. */
  lemma RodriguesKeepsAxisComponent(d: Vec3, axis: Axis, c: real, s: real)
    ensures Component(Rodrigues(d, AxisVector(axis), c, s), axis) == Component(d, axis)
  {
  }

  /** The turn keeps the length of the direction whenever (c, s) is a point of the unit
      circle, as a cosine and a sine are: it is a rotation. */
  lemma RodriguesKeepsLength(d: Vec3, axis: Axis, c: real, s: real)
    requires c * c + s * s == 1.0
    ensures Dot(Rodrigues(d, AxisVector(axis), c, s), Rodrigues(d, AxisVector(axis), c, s)) == Dot(d, d)
  {
    match axis
    case X => PlaneTurnKeepsLength(d.y, d.z, c, s);
    case Y => PlaneTurnKeepsLength(d.z, d.x, c, s);
    case Z => PlaneTurnKeepsLength(d.x, d.y, c, s);
  }

  /** Turning (a, b) in its plane: (a c - b s)^2 + (b c + a s)^2 = a^2 + b^2. */
  lemma PlaneTurnKeepsLength(a: real, b: real, c: real, s: real)
    requires c * c + s * s == 1.0
    ensures (a * c - b * s) * (a * c - b * s) + (b * c + a * s) * (b * c + a * s) == a * a + b * b
  {
    calc {
      (a * c - b * s) * (a * c - b * s) + (b * c + a * s) * (b * c + a * s);
      a * a * (c * c + s * s) + b * b * (c * c + s * s);
      a * a + b * b;
    }
  }

  /** A turn by angle 0 (cosine 1, sine 0) leaves the direction as it is. */
  lemma RodriguesAtZero(d: Vec3, axis: Axis)
    ensures Rodrigues(d, AxisVector(axis), 1.0, 0.0) == d
  {
  }

  /** Turning a light changes that light's direction only: its position, the other lights,
      the model transforms and the selection stay, and a point light does not change. */
  lemma LightRotationIsLocal(s: Scene, initial: Vec3, axis: Axis, angle: real, trig: Trig, j: nat)
    requires LightInRange(s) && j < |s.lights|
    ensures var r := WithLightRotation(s, initial, axis, angle, trig);
      |r.lights| == |s.lights| && r.lights[j].position == s.lights[j].position &&
      (s.selectedLight != Some(j) || s.lights[j].kind == Point ==> r.lights[j] == s.lights[j]) &&
      r == s.(lights := r.lights)
  {
  }

  /** While the start direction is usable, the new direction depends on the start and the
      total angle only, so applying the same total angle twice changes nothing further. */
  lemma LightRotationIsIdempotent(s: Scene, initial: Vec3, axis: Axis, angle: real, trig: Trig)
    requires LightInRange(s) && trig.length(initial) >= 0.01
    ensures LightInRange(WithLightRotation(s, initial, axis, angle, trig))
    ensures WithLightRotation(WithLightRotation(s, initial, axis, angle, trig), initial, axis, angle, trig)
         == WithLightRotation(s, initial, axis, angle, trig)
  {
    var r := WithLightRotation(s, initial, axis, angle, trig);
    if s.selectedLight.Some? && s.lights[s.selectedLight.value].kind != Point {
      var i := s.selectedLight.value;
      assert r.lights[i := r.lights[i].(direction := RotatedLightDirection(initial, r.lights[i].direction, axis, angle, trig))] == r.lights;
    }
  }
}
