# LightModelling viewer core in Dafny

A model of the logic inside the WPF viewer window of LightModelling
(`LightAddonApp/MainWindow.xaml.cs`): an STL model viewer that lets the user select the
whole model or one of its parts, move and turn it with an on-screen gizmo, add light
sources and draw their rays bouncing off the model. The widgets are left out; what remains
is modelled and proved:

- **Procedural meshes** (`meshes.dfy`, module `Meshes`): the cylinder, cone, sphere and
  rotation-ring builders, the tube drawn for a light ray, the arrow gizmo and
  `CombineGeometries`. Each builder appends to position, normal and index buffers in loops,
  so each is a method whose loops carry invariants. Its contract gives every buffer element
  and proves the buffer lengths, whole triangles and in-range indices. Vertex coordinates go
  through sine, cosine and normalisation, which are uninterpreted parameters (`Trig` in
  `geometry.dfy`).
- **Scene tree queries** (`scenetree.dfy`, module `SceneTree`): `FindParentGroup`,
  `IsPartOfModel` and `FindTreeNode` over a datatype tree whose nodes carry integer handles.
  A handle stands for the identity of a `Model3D`. Each query is proved against an
  independent pre-order listing.
- **Transform routing** (`transforms.dfy`, module `Transforms`): the whole-model and per-part
  transforms, the part map built by `SetupModelTransforms`, and the routing of
  `GetCurrentPosition`, `SetPosition`, `ApplyRotation` and `ApplyLightRotation`. These are
  functions over a `Scene` value, with lemmas for the round trip, locality, precedence and
  absolute rotation.
- **Selection** (`selection.dfy`, module `Selection`): the part cycling of a model click and
  the scan over the hits under the mouse.
- **The window** (`viewer.dfy`, module `Viewer`): the class `MainWindow`. Its fields are the
  loaded model, the transforms, the selection, the light list and the gizmo drag state. Its
  methods are the event handlers, each specified by the functions above. Two invariants are
  kept by every handler. First, model and light selection exclude each other. Second, the
  part map's keys are those `SetupModelTransforms` gives the loaded model.
- **Ray tracing** (`raytrace.dfy`, module `RayTracing`): the Möller–Trumbore test modelled
  exactly over `real`, the closest-hit scan and the bounded bounce loop. The bounce loop
  runs against an intersection oracle.
- **Ray sampling** (`sampling.dfy`, module `Sampling`): the directional grid, laid out with
  `%` and `/` on the grid size, and the rings of a spot light. A spot light asked for n rays fills ring r with p − r rays, where
  p = ceil(√n). Its rings hold only p(p+1)/2 slots, so it draws min(n, p(p+1)/2) rays. For
  example, a request for 4 rays draws 3, one for 7 to 9 draws 6, and one for 11 to 16 draws 10.

Numbers are exact `real`s and unbounded integers. Two things are parameters rather than
computed: the sine, cosine, normalisation and length of the .NET runtime, and the
intersection query of the bounce loop.

## Model

| member | source | states |
|---|---|---|
| Geometry.SameAxisTest | LightAddonApp/MainWindow.xaml.cs:1275 | On the three axis vectors, the `|a·b − 1| < 0.01` test holds exactly when the axes are equal. |
| Geometry.ReferenceUpIsStable | LightAddonApp/MainWindow.xaml.cs:3350-3357 | For a unit direction, the chosen reference is never within the 0.9 threshold, so the frame's cross product is not degenerate. |
| Meshes.CreateCylinderGeometry | LightAddonApp/MainWindow.xaml.cs:3340-3389 | 2(s+1) positions and normals and 6s indices. Vertex k is start or end (by parity) plus the radial offset of ring vertex k/2, and its normal is that offset normalised. Index k follows the (0,2,1),(1,2,3) quad pattern. The mesh is valid. |
| Meshes.CreateConeGeometry | LightAddonApp/MainWindow.xaml.cs:3391-3438 | Apex first with the axis as its normal, then s+1 base-ring vertices with smoothed side normals. 3s indices fan from vertex 0 as (0, i+1, i+2). The mesh is valid. |
| Meshes.ConeIndexBound | LightAddonApp/MainWindow.xaml.cs:3425-3430 | Every cone index is below s+2. |
| Meshes.CreateSphereGeometry | LightAddonApp/MainWindow.xaml.cs:3048-3099 | (θ+1)(φ+1) positions and normals and 6θφ indices. Vertex k is grid point (k/(φ+1), k%(φ+1)) and its normal is the radial direction. Index k is the cell split (i0,i2,i1),(i1,i2,i3). The mesh is valid. |
| Meshes.SphereVertexGrid | LightAddonApp/MainWindow.xaml.cs:3055-3078 | The nested vertex loops emit the grid row by row: entry k is the point and the normal at row k/(φ+1), column k%(φ+1). |
| Meshes.SphereTriangles | LightAddonApp/MainWindow.xaml.cs:3080-3092 | The nested index loops emit 6θφ indices, entry k being `SphereIndex(k)`. |
| Meshes.SphereIndexBound | LightAddonApp/MainWindow.xaml.cs:3084-3090 | Every sphere index is below (θ+1)(φ+1). |
| Meshes.CreateRotationRing | LightAddonApp/MainWindow.xaml.cs:3440-3516 | 65·9 = 585 positions and normals and 6·64·8 = 3072 indices. Vertex k lies on cross-section k/9 at tube step k%9. The ring carries the tag it is given and is valid; the window gives all three rings the ring tag 'r' (`RingTag`), and which axis a ring turns follows from the ring's identity (`Selection.Handle.RotationHandle`). |
| Meshes.RingIndexBound | LightAddonApp/MainWindow.xaml.cs:3486-3501 | Every ring index is below 585. |
| Meshes.CreateRayModel | LightAddonApp/MainWindow.xaml.cs:2676-2721 | 34 positions and normals and 96 indices. The normals are the un-normalised radial offsets. The indices follow the opposite winding (0,1,2),(2,1,3). The mesh is valid. |
| Meshes.RayTubeVertices | LightAddonApp/MainWindow.xaml.cs:2700-2709 | The vertex loop emits s+1 start/end pairs around the segment. Their normals are the radial offsets, not normalised. |
| Meshes.RayTubeIndices | LightAddonApp/MainWindow.xaml.cs:2711-2721 | The index loop emits 6s indices in the (0,1,2),(2,1,3) winding, all below 2s+2. |
| Meshes.StripAt | LightAddonApp/MainWindow.xaml.cs:3372-3382 | n quads of a vertex-pair strip give 6n indices, all below 2n+2. |
| Meshes.CombineGeometries | LightAddonApp/MainWindow.xaml.cs:3518-3548 | The result is the reference `Combined`: inputs with any null buffer are skipped, and each accepted input's indices are shifted by the positions before it. |
| Meshes.CombinedCounts | LightAddonApp/MainWindow.xaml.cs:3526-3540 | Combined position and index counts are the sums over the accepted inputs. |
| Meshes.CombinedValid | LightAddonApp/MainWindow.xaml.cs:3526-3540 | Combining valid meshes gives a valid mesh. |
| Meshes.CombinedPair | LightAddonApp/MainWindow.xaml.cs:3325 | Two meshes combine into their concatenation, with the second's indices shifted by the first's position count. |
| Meshes.CreateArrowGizmo | LightAddonApp/MainWindow.xaml.cs:3310-3338 | 52 positions and normals, 144 indices, valid and tagged with its axis character (`AxisTag`). Entries 0-33 are the 16-segment shaft cylinder from start to 0.85·L along the unit direction, with radius 0.02·L. Entry 34 is the cone apex at L, with the axis as its normal. Entries 35-51 are the cone's base ring at the shaft end, with radius 0.05·L and smoothed side normals. Indices 0-95 are the cylinder's strip; indices 96-143 are the cone's fan shifted by 34. |
| Meshes.ArrowElements | LightAddonApp/MainWindow.xaml.cs:3321-3325 | In the combined arrow, the first 34 positions, normals and 96 indices are the shaft's. The rest are the cone's, its indices moved past the shaft's 34 positions. |
| RayTracing.RayTriangleAccepts | LightAddonApp/MainWindow.xaml.cs:2956-2983 | A point is returned exactly when `|a| ≥ 1e-4`, `0 ≤ u ≤ 1`, `v ≥ 0`, `u+v ≤ 1` and `1e-4 < t ≤ maxDistance`. The point is rayStart + rayDir·t. |
| RayTracing.HitIsOnTriangle | LightAddonApp/MainWindow.xaml.cs:2956-2980 | A returned point equals v0 + u·e1 + v·e2, the barycentric point of the triangle (Cramer's rule). |
| RayTracing.BarycentricPoint | LightAddonApp/MainWindow.xaml.cs:2965-2980 | Any solution of the linear system, divided by the determinant, puts the ray point at the barycentric point. |
| RayTracing.CramerSolved | LightAddonApp/MainWindow.xaml.cs:2958-2976 | The determinant and numerators computed by the test solve the 3×3 system along every axis. |
| RayTracing.DegenerateTriangleMisses | LightAddonApp/MainWindow.xaml.cs:2958-2963 | A triangle with v1 = v0 is never hit. |
| RayTracing.FacingNormalFacesRay | LightAddonApp/MainWindow.xaml.cs:2831-2839 | The reported normal never points along the ray. |
| RayTracing.ScanTriangles | LightAddonApp/MainWindow.xaml.cs:2802-2847 | The triangle loop of one leaf mesh equals the reference fold over its whole triangles. It skips a mesh with a null buffer, an incomplete last triple and out-of-range indices. |
| RayTracing.TestTriangle | LightAddonApp/MainWindow.xaml.cs:2810-2842 | One loop step replaces the closest hit only for a hit strictly closer than the best so far and farther than 1e-4. |
| RayTracing.FoldIsMinimal | LightAddonApp/MainWindow.xaml.cs:2826 | The scan ends no farther than its start and no farther than any candidate. |
| RayTracing.FoldWitness | LightAddonApp/MainWindow.xaml.cs:2823-2842 | The scan either keeps its start or ends on the first candidate at the final distance. Every earlier candidate is strictly farther, and the point and normal are that triangle's. |
| RayTracing.FoldAppend | LightAddonApp/MainWindow.xaml.cs:2849-2854 | Scanning leaf after leaf is scanning the concatenated triangles. |
| RayTracing.FindRayIntersection | LightAddonApp/MainWindow.xaml.cs:2781-2797 | Without a model there is no hit. Otherwise the result is the fold over all leaves starting from `double.MaxValue`. |
| RayTracing.ClosestHitMeaning | LightAddonApp/MainWindow.xaml.cs:2781-2843 | A reported hit is some triangle's hit, no candidate is closer, and its normal faces the ray. There is no hit exactly when no candidate is closer than `double.MaxValue`. |
| RayTracing.GenerateRayWithReflections | LightAddonApp/MainWindow.xaml.cs:2738-2779 | Without a model there are no segments. Otherwise the loop emits exactly the reference `Trace` of the normalised direction at full colour. |
| RayTracing.TraceIsBounded | LightAddonApp/MainWindow.xaml.cs:2748 | At most maxReflections + 1 segments. |
| RayTracing.TraceAttenuation | LightAddonApp/MainWindow.xaml.cs:2771 | Segment k carries the colour factor faded k times by 0.7. |
| RayTracing.FadedIsPower | LightAddonApp/MainWindow.xaml.cs:2771 | Fading k times is multiplying by 0.7^k. |
| RayTracing.FirstMissIsOneSegment | LightAddonApp/MainWindow.xaml.cs:2748-2777 | If the first query misses, there is exactly one segment, from start to start + dir·maxLength. |
| RayTracing.TraceContinues | LightAddonApp/MainWindow.xaml.cs:2754-2771 | A hit emits the segment up to the hit point. The next segment starts 0.01 along the normal, in the reflected direction, with the travelled distance taken off the length. |
| Sampling.CeilSqrt | LightAddonApp/MainWindow.xaml.cs:2584 | The grid size is the least g with g·g ≥ n. |
| Sampling.GridCellInRange | LightAddonApp/MainWindow.xaml.cs:2600-2603 | Ray i < n falls in column i % g and row i / g, both inside the g×g grid. |
| Sampling.GridCellInjective | LightAddonApp/MainWindow.xaml.cs:2602-2603 | No two rays share a grid cell. |
| Sampling.GridIsCentred | LightAddonApp/MainWindow.xaml.cs:2585-2586 | With spacing 2 and start offset −(g−1), columns c and g−1−c lie at opposite offsets, within g−1 of the centre. |
| Sampling.DirectionalRays | LightAddonApp/MainWindow.xaml.cs:2583-2609 | One ray per requested count. Ray i starts at its grid cell in the (right, forward) frame and is traced with two reflections. |
| Sampling.SpotRays | LightAddonApp/MainWindow.xaml.cs:2637-2668 | The ring loops emit the slots of the reference layout: ring r holds p − r rays, and both loops stop at the ray count. |
| Sampling.SpotRingLoops | LightAddonApp/MainWindow.xaml.cs:2641-2667 | The two ring loops emit the first `rayCount` slots of the rings, or all of them when there are fewer. |
| Sampling.SlotsFromCount | LightAddonApp/MainWindow.xaml.cs:2642-2647 | The rings from r on hold 1 + … + (p − r) slots. |
| Sampling.SpotRayCount | LightAddonApp/MainWindow.xaml.cs:2637-2668 | A spot light emits min(n, p(p+1)/2) rays with p = ceil(sqrt n). Every slot lies in a ring below p, with the ring size p − ring. |
| Sampling.SpotShortfall | LightAddonApp/MainWindow.xaml.cs:2639-2647 | Asked for 4 rays, a spot light draws 3: one ring of 2 and one of 1. |
| Sampling.SpotTenRays | LightAddonApp/MainWindow.xaml.cs:2639-2647 | The default 10 rays are the whole 4-ring layout, exactly rings 0 to 3 of 4, 3, 2 and 1 rays in order; none is lost. |
| SceneTree.IsPartOfModelIsMembership | LightAddonApp/MainWindow.xaml.cs:1447-1461 | `IsPartOfModel` holds exactly when the part is not null and lies in the pre-order listing of the model. |
| SceneTree.FindParentGroupSpec | LightAddonApp/MainWindow.xaml.cs:1463-1482 | It finds nothing exactly when the geometry is below no direct child. Otherwise it returns the first direct child whose subtree holds the geometry. |
| SceneTree.FindTreeNodeIsPreorderFirst | LightAddonApp/MainWindow.xaml.cs:1434-1445 | `FindTreeNode` returns the first node in pre-order that holds the model. |
| SceneTree.FirstWithSpec | LightAddonApp/MainWindow.xaml.cs:1434-1445 | The pre-order search returns nothing exactly when no node holds the model. Otherwise it returns the first node that does. |
| Transforms.SetupParts | LightAddonApp/MainWindow.xaml.cs:626-665 | The part map's keys are the root's children when the root is a group of more than one child, and empty otherwise. Every entry is the identity: angle 0 about Y, no translation. |
| Transforms.PositionRoundTrip | LightAddonApp/MainWindow.xaml.cs:1567-1691 | With something selected, `SetPosition(p)` then `GetCurrentPosition()` returns p and the routing is unchanged. |
| Transforms.PartMoveIsLocal | LightAddonApp/MainWindow.xaml.cs:1657-1671 | Moving a mapped part changes only its offset. Other parts, the whole model and the lights keep theirs. |
| Transforms.UnmappedSelectionUsesWhole | LightAddonApp/MainWindow.xaml.cs:1605-1617 | A model node that is neither the root nor mapped reads and writes the whole-model translation. |
| Transforms.NoSelectionIsInert | LightAddonApp/MainWindow.xaml.cs:1576-1580 | With no selection, the position is (0,0,0) and `SetPosition` is a no-op. |
| Transforms.LightTakesPrecedence | LightAddonApp/MainWindow.xaml.cs:1569-1574 | A selected light is read and written before any model selection. |
| Transforms.RotatedIsAbsolute | LightAddonApp/MainWindow.xaml.cs:1274-1284 | Updating a transform gives exactly the requested axis, angle and centre and keeps the translation, whether the axis is kept or replaced. |
| Transforms.RotationIsIdempotent | LightAddonApp/MainWindow.xaml.cs:1245-1289 | Applying the same axis and angle twice equals applying it once. |
| Transforms.RotationSetsTarget | LightAddonApp/MainWindow.xaml.cs:1259-1284 | The routed transform gets the axis, the angle and `_initialModelCenter` as centre. Nothing else changes. |
| Transforms.RotationHasNoFallback | LightAddonApp/MainWindow.xaml.cs:1261-1269 | A selection that is neither the root nor mapped leaves the scene unchanged. |
| Transforms.RotationKeepsPosition | LightAddonApp/MainWindow.xaml.cs:1245-1289 | Rotating never changes the reported position. |
| Transforms.RodriguesKeepsAxisComponent | LightAddonApp/MainWindow.xaml.cs:1316-1322 | The light-direction turn keeps the component along the rotation axis. |
| Transforms.RodriguesKeepsLength | LightAddonApp/MainWindow.xaml.cs:1316-1322 | For a cosine/sine pair on the unit circle, the turn keeps the direction's length. |
| Transforms.RodriguesAtZero | LightAddonApp/MainWindow.xaml.cs:1316-1322 | A turn by angle 0 leaves the direction unchanged. |
| Transforms.LightRotationIsLocal | LightAddonApp/MainWindow.xaml.cs:1291-1328 | Only the selected non-point light's direction changes. A point light is not turned. |
| Transforms.LightRotationIsIdempotent | LightAddonApp/MainWindow.xaml.cs:1306-1326 | Because the turn starts from the recorded initial direction, applying the same total angle again changes nothing. |
| Selection.FirstIndex | LightAddonApp/MainWindow.xaml.cs:979-987 | The result is −1 exactly when the node is not a part. Otherwise it is the first position holding the node. |
| Selection.FindPartIndex | LightAddonApp/MainWindow.xaml.cs:979-987 | The search loop returns `FirstIndex`. |
| Selection.CycleStartsAtFirstPart | LightAddonApp/MainWindow.xaml.cs:973-976 | From nothing or the whole model, a click selects `parts[0]`. |
| Selection.CycleAdvances | LightAddonApp/MainWindow.xaml.cs:989-992 | From `parts[i]` with i < n−1, a click selects `parts[i+1]`. |
| Selection.CycleReturnsToRoot | LightAddonApp/MainWindow.xaml.cs:993-996 | From the last part or a non-part, a click selects the whole model. |
| Selection.CycleVisitsEveryPart | LightAddonApp/MainWindow.xaml.cs:962-1004 | Starting from the whole model, click k selects part k−1. |
| Selection.FullCycle | LightAddonApp/MainWindow.xaml.cs:962-1004 | n+1 clicks from the whole model return to the whole model. |
| Selection.SinglePartSelectsRoot | LightAddonApp/MainWindow.xaml.cs:1037-1041 | On a model that is not a multi-part group, a click always selects the whole model. |
| Selection.ScanHits | LightAddonApp/MainWindow.xaml.cs:863-941 | The `foreach` over the hits equals the reference scan: a grabbable handle starts a drag, a tagged indicator picks its light, and otherwise the three flags are collected. |
| Selection.ScanFlagsMeaning | LightAddonApp/MainWindow.xaml.cs:863-941 | When the scan runs to the end, each flag holds exactly when some hit was of its kind. |
| Selection.EmptyScanClears | LightAddonApp/MainWindow.xaml.cs:943-955 | With no hits, the scan reports no model, gizmo or indicator hit, so the click clears the selection. |
| Selection.NoGrabWithoutSelection | LightAddonApp/MainWindow.xaml.cs:870 | Without a selection or a gizmo container, no drag or rotation can begin. |
| Selection.PickedLightIsTagged | LightAddonApp/MainWindow.xaml.cs:919-936 | A picked light is the tag of some indicator that was hit. |
| Viewer.NodeSelection | LightAddonApp/MainWindow.xaml.cs:576-590 | Selecting a tree node selects its model or a mapped part. |
| Viewer.FaceSelectsItsPart | LightAddonApp/MainWindow.xaml.cs:576-584 | In a multi-part model, selecting a face selects the first direct child that holds it. |
| Viewer.LooseFaceSelectsItself | LightAddonApp/MainWindow.xaml.cs:585-589 | A face under no direct child is selected on its own. |
| Viewer.ModelClicksCycle | LightAddonApp/MainWindow.xaml.cs:962-1006 | n clicks on a multi-part model step the selection n times through the cycle and clear the light selection. |
| Viewer.ModelClicksVisitEveryPart | LightAddonApp/MainWindow.xaml.cs:962-1006 | In the window, click k selects part k and click n+1 returns to the whole model. |
| Viewer.EmptyClickClears | LightAddonApp/MainWindow.xaml.cs:943-955 | A click that hits nothing clears both selections. |
| Viewer.GizmoOnlyClickKeeps | LightAddonApp/MainWindow.xaml.cs:957-960 | A click on an ungrabbable handle with a model loaded changes nothing. |
| Viewer.DragScale | LightAddonApp/MainWindow.xaml.cs:1110-1129 | The drag scale is never below 0.0005. |
| Viewer.DragMovementIsOnAxis | LightAddonApp/MainWindow.xaml.cs:1131 | One drag movement lies on the dragged axis, with length `along·scale`. |
| Viewer.DragOffsetIsOnAxis | LightAddonApp/MainWindow.xaml.cs:1133-1137 | The accumulated offset stays on the dragged axis. |
| Viewer.DragStaysOnAxis | LightAddonApp/MainWindow.xaml.cs:1133-1147 | After a drag step, the selection reads back as start + offset, and its off-axis coordinates equal the start's. |
| Viewer.RotateStepSetsTotal | LightAddonApp/MainWindow.xaml.cs:1223-1234 | The applied angle is 0.5·Σ(dx+dy) over the whole rotation. It is written absolutely to the routed transform about the model centre. |
| Viewer.PositionKeepsValid | LightAddonApp/MainWindow.xaml.cs:1624-1691 | Setting a position keeps the scene invariant. |
| Viewer.RotationKeepsValid | LightAddonApp/MainWindow.xaml.cs:1245-1289 | Rotating the model or a part keeps the scene invariant. |
| Viewer.LightRotationKeepsValid | LightAddonApp/MainWindow.xaml.cs:1291-1328 | Turning a light keeps the scene invariant. |
| Viewer.ClickGestureKeepsValid | LightAddonApp/MainWindow.xaml.cs:870-906 | A click keeps the gesture invariant. The drag flag matches its axis, the offset is on that axis, and the rotation total is half the summed travel; a new rotation restarts the sum. |
| Viewer.ClickKeepsValid | LightAddonApp/MainWindow.xaml.cs:854-1059 | Every click keeps the selection invariant: light and model selection stay mutually exclusive. |
| Viewer.DragStepKeepsValid | LightAddonApp/MainWindow.xaml.cs:1087-1147 | A drag step keeps the scene invariant and the on-axis offset. |
| Viewer.RotateStepKeepsValid | LightAddonApp/MainWindow.xaml.cs:1223-1234 | A rotation step keeps the invariants, its travel joining the sum. |
| Viewer.LoadIsValid | LightAddonApp/MainWindow.xaml.cs:437-446 | Loading a model and selecting it whole establishes the invariant. |
| Viewer.MainWindow.constructor | LightAddonApp/MainWindow.xaml.cs:52-85 | An empty window: no model, no lights, no gesture, initial light direction (0,−1,0). |
| Viewer.MainWindow.SetupModelTransforms | LightAddonApp/MainWindow.xaml.cs:626-665 | The whole-model transform and the part map are rebuilt as `SetupParts`. |
| Viewer.MainWindow.LoadModel | LightAddonApp/MainWindow.xaml.cs:437-446 | The model becomes the original, gets fresh transforms and is selected whole, with no light selected. |
| Viewer.MainWindow.SelectModelNode | LightAddonApp/MainWindow.xaml.cs:555-595 | A null node or a node without a model changes nothing. Otherwise `NodeSelection` is selected and the light deselected. |
| Viewer.MainWindow.ClearSelection | LightAddonApp/MainWindow.xaml.cs:1484-1491 | Both selections become null. |
| Viewer.MainWindow.LightsListBoxSelectionChanged | LightAddonApp/MainWindow.xaml.cs:1928-1938 | The light is selected and a non-null light clears the model selection. |
| Viewer.MainWindow.AddLightSource | LightAddonApp/MainWindow.xaml.cs:1823-1845 | The default light is appended and selected. |
| Viewer.MainWindow.DeleteLightSource | LightAddonApp/MainWindow.xaml.cs:2322-2337 | The selected light is removed, the others keep their order, and nothing is selected. |
| Viewer.MainWindow.SetPosition | LightAddonApp/MainWindow.xaml.cs:1624-1691 | The new scene is `WithPosition` of the old one. |
| Viewer.MainWindow.ApplyRotation | LightAddonApp/MainWindow.xaml.cs:1245-1289 | The new scene is `WithRotation` of the old one. |
| Viewer.MainWindow.ApplyLightRotation | LightAddonApp/MainWindow.xaml.cs:1291-1328 | The new scene is `WithLightRotation` from the recorded initial direction. |
| Viewer.MainWindow.MouseLeftButtonDown | LightAddonApp/MainWindow.xaml.cs:854-1059 | The scan of the hits decides the new selection (`ClickScene`) and gesture (`ClickGesture`). |
| Viewer.MainWindow.BeginRotation | LightAddonApp/MainWindow.xaml.cs:872-889 | A rotation starts at angle 0, recording the normalised direction of a directional or spot light. |
| Viewer.MainWindow.BeginTranslation | LightAddonApp/MainWindow.xaml.cs:894-906 | A drag starts from the current position with a zero offset. |
| Viewer.MainWindow.SelectClickedModel | LightAddonApp/MainWindow.xaml.cs:962-1041 | The next part, or the whole model, is selected as `ClickedSelection`, and the light is deselected. |
| Viewer.MainWindow.HandleRotationGizmoDrag | LightAddonApp/MainWindow.xaml.cs:1214-1243 | Without a rotation under way or without a selection nothing changes. Otherwise one rotation step, `RotateStep`, adds half of dx+dy to the total and applies the total. |
| Viewer.MainWindow.RotateSelection | LightAddonApp/MainWindow.xaml.cs:1220-1236 | Past the guard, the new scene and gesture are `RotateStep`: half of dx+dy joins the total, which is applied absolutely to the selected light or model. The step joins the recorded travel. |
| Viewer.MainWindow.DragAlongAxis | LightAddonApp/MainWindow.xaml.cs:1078-1147 | One drag step, `DragStep`, writes start + accumulated offset. |
| Viewer.MainWindow.MouseMove | LightAddonApp/MainWindow.xaml.cs:1070-1085 | A rotation takes precedence over a drag. A drag needs a perspective camera. Otherwise nothing changes. |
| Viewer.MainWindow.MouseLeftButtonUp | LightAddonApp/MainWindow.xaml.cs:1330-1350 | Both drag flags and axes are cleared, the accumulated rotation is reset to 0, and the scene is unchanged. |

## Left out

- Widgets, panels, sliders, text boxes, dialogs, status strings and `double.TryParse`. These are UI only.
- Building the `TreeView`. `BuildModelTree` is not part of this model; tree nodes are an input datatype.
- STL loading with `StLReader`, the console and its `AllocConsole` call, and the ViewCube lookups. These are foreign calls and I/O. `LoadModel` takes the loaded tree as input.
- Materials and highlighting: `ApplyFlatMaterial`, `HighlightModel`, `ResetMaterial`, `UpdateVisualSelection`. They are renderer state.
- Vertex coordinates and normals are built from uninterpreted sine, cosine, normalisation and length (`Trig`). No numeric property of those values is proved, and floating-point rounding is not modelled.
- Point-light sampling steps through angles held in doubles, and spot-light jitter uses an unseeded `System.Random`. Only the spot ring layout (ring, index in ring, ring size) is modelled, not the ray directions.
- Composing and inverting `Transform3D` in `FindIntersectionsInModel` / `FindIntersectionsInModelWithTransform`. These are foreign WPF matrix operations. `FindRayIntersection` takes the model's leaf meshes with their positions already placed in world space.
- `Color.Multiply` and colour clamping. The colour is modelled as a real attenuation factor multiplied by 0.7 per bounce.
- The keyboard fly-camera timer, `CalculateBounds` and `CalculateModelScale`. The camera and the selected bounds are inputs to the drag step.
- `UpdateGizmos`, which sets `_initialModelCenter`. The model centre is a field that no modelled handler changes.
- Rebuilding the light indicators and ray visuals after a change (`UpdateLightPosition`, `UpdateLightDirection`, `UpdateRayVisualization`).
- Meshes.CombineGeometries: the running offset is a 32-bit `int` in the source; the model uses unbounded integers, so overflow past 2^31 positions is not modelled.
- Meshes.CreateCylinderGeometry: tessellation counts are `nat`. The source never passes a negative count, and the modelled angles for a zero count are opaque values, not the NaN a division by zero gives.
- Sampling.CeilSqrt: this is the exact integer ceiling of the square root. `Math.Ceiling(Math.Sqrt(n))` in doubles can differ only for counts far beyond any real ray count.
- RayTracing.ScanTriangles: mesh indices are required to be non-negative, because a negative index throws in the source's collection indexer.
