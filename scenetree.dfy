/**
 * The loaded model hierarchy and the tree of nodes shown beside it, with the three
 * recursive queries the viewer runs over them. A `Model3D` is identified by a handle, so
 * the reference comparisons of the viewer become comparisons of handles. Each query is
 * proved against an independent pre-order listing of the tree.
 */
module SceneTree {
  import opened Wrappers

  /** The identity of a `Model3D` object. */
  type NodeId = nat

  /** A `GeometryModel3D` (a leaf) or a `Model3DGroup` with its ordered children. */
  datatype Model = Geometry(id: NodeId) | Group(id: NodeId, children: seq<Model>)

  /** A `ModelTreeNode`: a display name, the model it stands for (possibly none) and its children. */
  datatype TreeNode = TreeNode(name: string, model: Option<Model>, children: seq<TreeNode>)

  function Children(m: Model): seq<Model> {
    if m.Group? then m.children else []
  }

  /** The handle of an optional model: the reference a node holds. */
  function RefOf(m: Option<Model>): Option<NodeId> {
    if m.Some? then Some(m.value.id) else None
  }

  // ---------------------------------------------------------------- reference listings

  /** The handles of every model in the subtree of `m`, in pre-order. */
  function AllIds(m: Model): seq<NodeId>
    decreases m, 1
  {
    [m.id] + ChildIds(m, 0)
  }

  /** The pre-order handles of the subtrees of children i .. of `m`. */
  function ChildIds(m: Model, i: nat): seq<NodeId>
    requires i <= |Children(m)|
    decreases m, 0, |Children(m)| - i
  {
    if i == |Children(m)| then [] else AllIds(Children(m)[i]) + ChildIds(m, i + 1)
  }

  lemma {:induction false} ChildIdsMember(id: NodeId, m: Model, i: nat)
    requires i <= |Children(m)|
    ensures id in ChildIds(m, i) <==> exists k :: i <= k < |Children(m)| && id in AllIds(Children(m)[k])
    decreases |Children(m)| - i
  {
    if i < |Children(m)| {
      ChildIdsMember(id, m, i + 1);
      if id in ChildIds(m, i + 1) {
        var k :| i + 1 <= k < |Children(m)| && id in AllIds(Children(m)[k]);
        assert i <= k;
      }
    }
  }

  /** Every node of the tree under `n`, in pre-order. */
  function Flatten(n: TreeNode): seq<TreeNode>
    decreases n, 1
  {
    [n] + FlattenChildren(n, 0)
  }

  function FlattenChildren(n: TreeNode, i: nat): seq<TreeNode>
    requires i <= |n.children|
    decreases n, 0, |n.children| - i
  {
    if i == |n.children| then [] else Flatten(n.children[i]) + FlattenChildren(n, i + 1)
  }

  /** The first node of a listing that holds `model`. */
  function FirstWith(s: seq<TreeNode>, model: Option<NodeId>): Option<TreeNode> {
    if |s| == 0 then None
    else if RefOf(s[0].model) == model then Some(s[0])
    else FirstWith(s[1..], model)
  }

  /** FirstWith finds nothing exactly when no node holds `model`, and otherwise the one at
      the first position that holds it. */
  lemma {:induction false} FirstWithSpec(s: seq<TreeNode>, model: Option<NodeId>)
    ensures FirstWith(s, model).None? <==> forall k :: 0 <= k < |s| ==> RefOf(s[k].model) != model
    ensures FirstWith(s, model).Some? ==>
      exists k :: 0 <= k < |s| && FirstWith(s, model).value == s[k] && RefOf(s[k].model) == model &&
                  forall j :: 0 <= j < k ==> RefOf(s[j].model) != model
  {
    if |s| > 0 && RefOf(s[0].model) != model {
      var t := s[1..];
      FirstWithSpec(t, model);
      assert forall k :: 1 <= k < |s| ==> s[k] == t[k - 1];
      if FirstWith(t, model).Some? {
        var k :| 0 <= k < |t| && FirstWith(t, model).value == t[k] && RefOf(t[k].model) == model &&
                 forall j :: 0 <= j < k ==> RefOf(t[j].model) != model;
        assert FirstWith(s, model).value == s[k + 1];
        forall j | 0 <= j < k + 1 ensures RefOf(s[j].model) != model {
          if j > 0 { assert s[j] == t[j - 1]; }
        }
      } else {
        forall k | 0 <= k < |s| ensures RefOf(s[k].model) != model {
          if k > 0 { assert s[k] == t[k - 1]; }
        }
      }
    }
  }

  lemma {:induction false} FirstWithAppend(a: seq<TreeNode>, b: seq<TreeNode>, model: Option<NodeId>)
    ensures FirstWith(a + b, model) == if FirstWith(a, model).Some? then FirstWith(a, model) else FirstWith(b, model)
  {
    if |a| > 0 {
      assert (a + b)[0] == a[0];
      assert (a + b)[1..] == a[1..] + b;
      FirstWithAppend(a[1..], b, model);
    } else {
      assert a + b == b;
    }
  }

  // ---------------------------------------------------------------- IsPartOfModel

  /** IsPartOfModel: whether `part` is `model` itself or lies anywhere below it. */
  function IsPartOfModel(part: Option<NodeId>, model: Model): bool
    decreases model, 1
  {
    if part.None? then false
    else if part.value == model.id then true
    else AnyChildHolds(part.value, model, 0)
  }

  /** The `foreach` over the children of a group, stopping at the first that holds `part`. */
  function AnyChildHolds(part: NodeId, model: Model, i: nat): bool
    requires i <= |Children(model)|
    decreases model, 0, |Children(model)| - i
  {
    if i == |Children(model)| then false
    else if IsPartOfModel(Some(part), Children(model)[i]) then true
    else AnyChildHolds(part, model, i + 1)
  }

  /** `IsPartOfModel` is membership in the pre-order listing, in both directions. */
  lemma {:induction false} IsPartOfModelIsMembership(part: Option<NodeId>, model: Model)
    ensures IsPartOfModel(part, model) <==> part.Some? && part.value in AllIds(model)
    decreases model, 1
  {
    if part.Some? {
      AnyChildHoldsIsMembership(part.value, model, 0);
    }
  }

  lemma {:induction false} AnyChildHoldsIsMembership(part: NodeId, model: Model, i: nat)
    requires i <= |Children(model)|
    ensures AnyChildHolds(part, model, i) <==> part in ChildIds(model, i)
    decreases model, 0, |Children(model)| - i
  {
    if i < |Children(model)| {
      IsPartOfModelIsMembership(Some(part), Children(model)[i]);
      AnyChildHoldsIsMembership(part, model, i + 1);
    }
  }

  // ---------------------------------------------------------------- FindParentGroup

  /** FindParentGroup: the first direct child of `root` that is the geometry itself or a
      group containing it somewhere below. */
  function FindParentGroup(geometry: NodeId, root: Model): Option<Model>
    decreases root, 1
  {
    ParentFrom(geometry, root, 0)
  }

  function ParentFrom(geometry: NodeId, root: Model, i: nat): Option<Model>
    requires i <= |Children(root)|
    decreases root, 0, |Children(root)| - i
  {
    if i == |Children(root)| then None
    else
      var child := Children(root)[i];
      if child.id == geometry then Some(child)
      else if child.Group? && FindParentGroup(geometry, child).Some? then Some(child)
      else ParentFrom(geometry, root, i + 1)
  }

  /** Whether a direct child holds the geometry in its subtree. */
  predicate HoldsAt(geometry: NodeId, root: Model, k: int)
    requires 0 <= k < |Children(root)|
  {
    geometry in AllIds(Children(root)[k])
  }

  /** FindParentGroup finds nothing exactly when the geometry is not below `root`, and
      otherwise returns the first direct child whose subtree holds it. */
  lemma {:induction false} FindParentGroupSpec(geometry: NodeId, root: Model)
    ensures FindParentGroup(geometry, root).None? <==> geometry !in ChildIds(root, 0)
    ensures FindParentGroup(geometry, root).Some? ==>
      exists k :: 0 <= k < |Children(root)| && FindParentGroup(geometry, root).value == Children(root)[k] &&
                  HoldsAt(geometry, root, k) && forall j :: 0 <= j < k ==> !HoldsAt(geometry, root, j)
    decreases root, 1
  {
    ParentFromSpec(geometry, root, 0);
  }

  lemma {:induction false} ParentFromSpec(geometry: NodeId, root: Model, i: nat)
    requires i <= |Children(root)|
    ensures ParentFrom(geometry, root, i).None? <==> geometry !in ChildIds(root, i)
    ensures ParentFrom(geometry, root, i).Some? ==>
      exists k :: i <= k < |Children(root)| && ParentFrom(geometry, root, i).value == Children(root)[k] &&
                  HoldsAt(geometry, root, k) && forall j :: i <= j < k ==> !HoldsAt(geometry, root, j)
    decreases root, 0, |Children(root)| - i
  {
    if i < |Children(root)| {
      var child := Children(root)[i];
      ChildIdsMember(geometry, child, 0);
      if child.Group? {
        FindParentGroupSpec(geometry, child);
      } else {
        assert ChildIds(child, 0) == [];
      }
      // The child holds the geometry exactly when it is the geometry or the recursive call finds it.
      assert HoldsAt(geometry, root, i) <==> child.id == geometry || (child.Group? && FindParentGroup(geometry, child).Some?);
      ParentFromSpec(geometry, root, i + 1);
      if ParentFrom(geometry, root, i + 1).Some? && !HoldsAt(geometry, root, i) {
        var k :| i + 1 <= k < |Children(root)| && ParentFrom(geometry, root, i + 1).value == Children(root)[k] &&
                 HoldsAt(geometry, root, k) && forall j :: i + 1 <= j < k ==> !HoldsAt(geometry, root, j);
        assert forall j :: i <= j < k ==> !HoldsAt(geometry, root, j);
      }
    }
  }

  // ---------------------------------------------------------------- FindTreeNode

  /** FindTreeNode: the node itself when it holds `model`, otherwise the first hit among
      its children's subtrees. */
  function FindTreeNode(node: TreeNode, model: Option<NodeId>): Option<TreeNode>
    decreases node, 1
  {
    if RefOf(node.model) == model then Some(node) else FindInChildren(node, model, 0)
  }

  function FindInChildren(node: TreeNode, model: Option<NodeId>, i: nat): Option<TreeNode>
    requires i <= |node.children|
    decreases node, 0, |node.children| - i
  {
    if i == |node.children| then None
    else
      var found := FindTreeNode(node.children[i], model);
      if found.Some? then found else FindInChildren(node, model, i + 1)
  }

  /** FindTreeNode returns the first node in pre-order that holds `model`, and nothing
      exactly when no node of the tree holds it. */
  lemma {:induction false} FindTreeNodeIsPreorderFirst(node: TreeNode, model: Option<NodeId>)
    ensures FindTreeNode(node, model) == FirstWith(Flatten(node), model)
    decreases node, 1
  {
    var s := Flatten(node);
    FindInChildrenIsPreorderFirst(node, model, 0);
    FirstWithAppend([node], FlattenChildren(node, 0), model);
    assert [node][1..] == [];
  }

  lemma {:induction false} FindInChildrenIsPreorderFirst(node: TreeNode, model: Option<NodeId>, i: nat)
    requires i <= |node.children|
    ensures FindInChildren(node, model, i) == FirstWith(FlattenChildren(node, i), model)
    decreases node, 0, |node.children| - i
  {
    if i < |node.children| {
      FindTreeNodeIsPreorderFirst(node.children[i], model);
      FindInChildrenIsPreorderFirst(node, model, i + 1);
      FirstWithAppend(Flatten(node.children[i]), FlattenChildren(node, i + 1), model);
    }
  }
}
