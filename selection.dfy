/**
 * The decisions of a left click in the viewport: which of the hits under the mouse
 * starts a gizmo drag or picks a light, and, when the model itself was clicked, which
 * model or part becomes selected next.
 */
module Selection {
  import opened Wrappers
  import opened Geometry
  import opened SceneTree

  // ---------------------------------------------------------------- part cycling

  /** The first position of `x` in `parts`, or -1: the index an unsuccessful search leaves. */
  function FirstIndex(parts: seq<NodeId>, x: NodeId): (r: int)
    ensures -1 <= r < |parts|
    ensures r == -1 <==> x !in parts
    ensures r >= 0 ==> parts[r] == x && forall j :: 0 <= j < r ==> parts[j] != x
  {
    if |parts| == 0 then -1
    else if parts[0] == x then 0
    else
      var r := FirstIndex(parts[1..], x);
      assert forall j :: 1 <= j < |parts| ==> parts[j] == parts[1..][j - 1];
      if r == -1 then -1 else r + 1
  }

  /** The search loop of the click handler: the first part that is the selected model. */
  method FindPartIndex(parts: seq<NodeId>, selected: NodeId) returns (currentIndex: int)
    ensures currentIndex == FirstIndex(parts, selected)
  {
    currentIndex := -1;
    var i := 0;
    while i < |parts|
      invariant 0 <= i <= |parts|
      invariant forall j :: 0 <= j < i ==> parts[j] != selected
    {
      if parts[i] == selected {
        currentIndex := i;
        return;
      }
      i := i + 1;
    }
  }

  /** The part chosen by a click on a model whose root has the direct children `parts`:
      the first part from nothing or the whole model, the following part from a part, and the
      whole model from the last part or from anything else; nothing when there are no parts. */
  function NextSelection(selected: Option<NodeId>, root: NodeId, parts: seq<NodeId>): Option<NodeId> {
    if |parts| == 0 then None
    else if selected.None? || selected == Some(root) then Some(parts[0])
    else
      var currentIndex := FirstIndex(parts, selected.value);
      if 0 <= currentIndex < |parts| - 1 then Some(parts[currentIndex + 1]) else Some(root)
  }

  function ChildHandles(root: Model): seq<NodeId> {
    seq(|Children(root)|, k requires 0 <= k < |Children(root)| => Children(root)[k].id)
  }

  /** Whether the loaded model is a group of more than one part, so that a click cycles. */
  predicate MultiPart(root: Model) {
    root.Group? && |root.children| > 1
  }

  /** The selection a click on the loaded model leads to. */
  function ClickedSelection(root: Model, selected: Option<NodeId>): Option<NodeId> {
    if MultiPart(root) then NextSelection(selected, root.id, ChildHandles(root)) else Some(root.id)
  }

  predicate Distinct(parts: seq<NodeId>) {
    forall i, j :: 0 <= i < j < |parts| ==> parts[i] != parts[j]
  }

  /** From nothing or the whole model a click selects the first part. */
  lemma CycleStartsAtFirstPart(selected: Option<NodeId>, root: NodeId, parts: seq<NodeId>)
    requires |parts| > 0 && (selected.None? || selected == Some(root))
    ensures NextSelection(selected, root, parts) == Some(parts[0])
  {
  }

  /** From a part that is not the last, a click selects the next part. */
  lemma CycleAdvances(root: NodeId, parts: seq<NodeId>, i: nat)
    requires Distinct(parts) && root !in parts && i + 1 < |parts|
    ensures NextSelection(Some(parts[i]), root, parts) == Some(parts[i + 1])
  {
    assert FirstIndex(parts, parts[i]) == i;
  }

  /** From the last part, or from a model that is neither the root nor a part, a click goes
      back to the whole model. */
  lemma CycleReturnsToRoot(selected: NodeId, root: NodeId, parts: seq<NodeId>)
    requires Distinct(parts) && |parts| > 0 && selected != root
    requires selected !in parts || selected == parts[|parts| - 1]
    ensures NextSelection(Some(selected), root, parts) == Some(root)
  {
    if selected in parts {
      assert FirstIndex(parts, selected) == |parts| - 1;
    }
  }

  /** The selection after `clicks` clicks on the model, starting from `selected`. */
  function AfterClicks(clicks: nat, selected: Option<NodeId>, root: NodeId, parts: seq<NodeId>): Option<NodeId> {
    if clicks == 0 then selected else NextSelection(AfterClicks(clicks - 1, selected, root, parts), root, parts)
  }

  /** Starting from the whole model, click k selects part k - 1 for k = 1 .. n, so n + 1 clicks
      come back to the whole model. */
  lemma {:induction false} CycleVisitsEveryPart(root: NodeId, parts: seq<NodeId>, clicks: nat)
    requires Distinct(parts) && root !in parts && 1 <= clicks <= |parts|
    ensures AfterClicks(clicks, Some(root), root, parts) == Some(parts[clicks - 1])
  {
    if clicks == 1 {
      CycleStartsAtFirstPart(Some(root), root, parts);
    } else {
      CycleVisitsEveryPart(root, parts, clicks - 1);
      CycleAdvances(root, parts, clicks - 2);
    }
  }

  lemma FullCycle(root: NodeId, parts: seq<NodeId>)
    requires Distinct(parts) && root !in parts && |parts| > 0
    ensures AfterClicks(|parts| + 1, Some(root), root, parts) == Some(root)
  {
    CycleVisitsEveryPart(root, parts, |parts|);
    CycleReturnsToRoot(parts[|parts| - 1], root, parts);
  }

  /** A model that is not a group of several parts is always selected whole. */
  lemma SinglePartSelectsRoot(root: Model, selected: Option<NodeId>)
    requires !MultiPart(root)
    ensures ClickedSelection(root, selected) == Some(root.id)
  {
  }

  // ---------------------------------------------------------------- hit scan

  /** The kind of gizmo handle under the mouse and the axis read from its tag, if any. */
  datatype Handle = RotationHandle(axis: Option<Axis>) | TranslationHandle(axis: Option<Axis>)

  /**
   * A hit test result as the click handler classifies it: whether it hit a model, whether
   * that model is a gizmo handle, whether it lies inside the loaded model's wrapper, and
   * whether its visual sits in the light-indicator container (with the index of the light
   * when its tag is a light source).
   */
  datatype Hit = Hit(hasModel: bool, gizmo: Option<Handle>, inModel: bool, indicator: Option<Option<nat>>)

  /** How the scan of the hits ends: a drag begins, a light is picked, or the loop runs out
      with the three flags it collected. */
  datatype ScanResult =
    | StartRotate(axis: Axis)
    | StartTranslate(axis: Axis)
    | PickLight(light: nat)
    | Flags(hitModel: bool, hitGizmo: bool, hitIndicator: bool)

  predicate GizmoHit(h: Hit) { h.hasModel && h.gizmo.Some? }
  predicate ModelHit(h: Hit) { h.hasModel && h.gizmo.None? && h.inModel }
  predicate IndicatorHit(h: Hit) { !GizmoHit(h) && h.indicator.Some? }

  /** The scan from hit i on, with the flags collected so far. `canGrab` says that something
      is selected and the gizmo container exists, so a handle may be grabbed. */
  function ScanFrom(hits: seq<Hit>, i: nat, canGrab: bool, hitModel: bool, hitGizmo: bool, hitIndicator: bool): ScanResult
    requires i <= |hits|
    decreases |hits| - i
  {
    if i == |hits| then Flags(hitModel, hitGizmo, hitIndicator)
    else
      var h := hits[i];
      if GizmoHit(h) then
        match h.gizmo.value
        case RotationHandle(a) =>
          if canGrab && a.Some? then StartRotate(a.value) else ScanFrom(hits, i + 1, canGrab, hitModel, true, hitIndicator)
        case TranslationHandle(a) =>
          if canGrab && a.Some? then StartTranslate(a.value) else ScanFrom(hits, i + 1, canGrab, hitModel, true, hitIndicator)
      else
        var model := hitModel || ModelHit(h);
        if h.indicator.Some? then
          if h.indicator.value.Some? then PickLight(h.indicator.value.value)
          else ScanFrom(hits, i + 1, canGrab, model, hitGizmo, true)
        else ScanFrom(hits, i + 1, canGrab, model, hitGizmo, hitIndicator)
  }

  function Scan(hits: seq<Hit>, canGrab: bool): ScanResult {
    ScanFrom(hits, 0, canGrab, false, false, false)
  }

  /** The `foreach` over the hits, with its three flags and its early returns. */
  method ScanHits(hits: seq<Hit>, canGrab: bool) returns (result: ScanResult)
    ensures result == Scan(hits, canGrab)
  {
    var hitModel, hitGizmo, hitIndicator := false, false, false;
    var i := 0;
    while i < |hits|
      invariant 0 <= i <= |hits|
      invariant ScanFrom(hits, i, canGrab, hitModel, hitGizmo, hitIndicator) == Scan(hits, canGrab)
    {
      var hit := hits[i];
      if hit.hasModel {
        if hit.gizmo.Some? {
          hitGizmo := true;
          if canGrab {
            match hit.gizmo.value {
              case RotationHandle(a) =>
                if a.Some? { return StartRotate(a.value); }
              case TranslationHandle(a) =>
                if a.Some? { return StartTranslate(a.value); }
            }
          }
          i := i + 1;
          continue;
        }
        if hit.inModel {
          hitModel := true;
        }
      }
      if hit.indicator.Some? {
        hitIndicator := true;
        if hit.indicator.value.Some? {
          return PickLight(hit.indicator.value.value);
        }
      }
      i := i + 1;
    }
    result := Flags(hitModel, hitGizmo, hitIndicator);
  }

  /** When the scan runs to the end, each flag says exactly whether some hit was of its kind. */
  lemma {:induction false} ScanFlagsMeaning(hits: seq<Hit>, i: nat, canGrab: bool, hitModel: bool, hitGizmo: bool, hitIndicator: bool)
    requires i <= |hits|
    ensures var r := ScanFrom(hits, i, canGrab, hitModel, hitGizmo, hitIndicator);
      r.Flags? ==>
        (r.hitModel <==> hitModel || exists k :: i <= k < |hits| && ModelHit(hits[k])) &&
        (r.hitGizmo <==> hitGizmo || exists k :: i <= k < |hits| && GizmoHit(hits[k])) &&
        (r.hitIndicator <==> hitIndicator || exists k :: i <= k < |hits| && IndicatorHit(hits[k]))
    decreases |hits| - i
  {
    if i < |hits| {
      var h := hits[i];
      var model := hitModel || ModelHit(h);
      ScanFlagsMeaning(hits, i + 1, canGrab, model, hitGizmo || GizmoHit(h), hitIndicator || IndicatorHit(h));
      if GizmoHit(h) {
        assert !ModelHit(h) && !IndicatorHit(h);
      }
    }
  }

  /** A click that hits nothing ends the scan with all three flags down. */
  lemma EmptyScanClears(canGrab: bool)
    ensures Scan([], canGrab) == Flags(false, false, false)
  {
  }

  /** Without a selection (or without a gizmo) no drag can begin. */
  lemma NoGrabWithoutSelection(hits: seq<Hit>, i: nat, hitModel: bool, hitGizmo: bool, hitIndicator: bool)
    requires i <= |hits|
    ensures !ScanFrom(hits, i, false, hitModel, hitGizmo, hitIndicator).StartRotate?
    ensures !ScanFrom(hits, i, false, hitModel, hitGizmo, hitIndicator).StartTranslate?
    decreases |hits| - i
  {
    if i < |hits| {
      var h := hits[i];
      NoGrabWithoutSelection(hits, i + 1, hitModel || ModelHit(h), true, hitIndicator);
      NoGrabWithoutSelection(hits, i + 1, hitModel || ModelHit(h), hitGizmo, true);
      NoGrabWithoutSelection(hits, i + 1, hitModel || ModelHit(h), hitGizmo, hitIndicator);
    }
  }

  /** A light is picked only from the tag of a light indicator that was hit. */
  lemma {:induction false} PickedLightIsTagged(hits: seq<Hit>, i: nat, canGrab: bool, hitModel: bool, hitGizmo: bool, hitIndicator: bool)
    requires i <= |hits|
    ensures var r := ScanFrom(hits, i, canGrab, hitModel, hitGizmo, hitIndicator);
      r.PickLight? ==> exists k :: i <= k < |hits| && hits[k].indicator == Some(Some(r.light))
    decreases |hits| - i
  {
    if i < |hits| {
      var h := hits[i];
      var model := hitModel || ModelHit(h);
      PickedLightIsTagged(hits, i + 1, canGrab, hitModel, true, hitIndicator);
      PickedLightIsTagged(hits, i + 1, canGrab, model, hitGizmo, true);
      PickedLightIsTagged(hits, i + 1, canGrab, model, hitGizmo, hitIndicator);
    }
  }
}
