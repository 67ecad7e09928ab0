/**
 * The procedural mesh builders of the viewer: cylinder, cone, sphere, rotation ring, the
 * tube that draws a light ray, and the concatenation of meshes into one. Each builder
 * appends to position, normal and index buffers in loops; the contracts give every buffer
 * element, so the index layout and the buffer lengths are exact, while the coordinates
 * themselves go through the uninterpreted sine, cosine and normalisation of `Trig`.
 */
module Meshes {
  import opened Wrappers
  import opened Geometry
  import opened IntArith

  /** A `MeshGeometry3D` whose three buffers are present. */
  datatype Mesh = Mesh(positions: seq<Vec3>, normals: seq<Vec3>, indices: seq<int>)

  predicate IndicesBelow(indices: seq<int>, n: int) {
    forall k :: 0 <= k < |indices| ==> 0 <= indices[k] < n
  }

  /** One normal per position, whole triangles, and every index names a position. */
  predicate ValidMesh(m: Mesh) {
    |m.normals| == |m.positions| && |m.indices| % 3 == 0 && IndicesBelow(m.indices, |m.positions|)
  }

  // ---------------------------------------------------------------- cylinder

  /** The radial offset of ring vertex i of a cylinder from start to end. */
  function CylinderOffset(start: Vec3, end: Vec3, radius: real, i: int, segments: int, trig: Trig): Vec3 {
    CircleOffset(FrameAround(trig.unit(Sub(end, start)), trig), radius, i, segments, trig)
  }

  /** The first n vertex pairs of a tube from start to end: ring vertex i contributes
      start + o(i) and end + o(i), o(i) its radial offset. */
  function TubeVertices(start: Vec3, end: Vec3, radius: real, segments: int, trig: Trig, n: nat): seq<Vec3> {
    if n == 0 then []
    else TubeVertices(start, end, radius, segments, trig, n - 1) +
         [Add(start, CylinderOffset(start, end, radius, n - 1, segments, trig)),
          Add(end, CylinderOffset(start, end, radius, n - 1, segments, trig))]
  }

  /** The normal shared by both vertices of ring vertex i: the radial offset, normalised
      or as it is. */
  function TubeNormal(start: Vec3, end: Vec3, radius: real, i: int, segments: int, normalised: bool, trig: Trig): Vec3 {
    if normalised then trig.unit(CylinderOffset(start, end, radius, i, segments, trig))
    else CylinderOffset(start, end, radius, i, segments, trig)
  }

  function TubeNormals(start: Vec3, end: Vec3, radius: real, segments: int, normalised: bool, trig: Trig, n: nat): seq<Vec3> {
    if n == 0 then []
    else TubeNormals(start, end, radius, segments, normalised, trig, n - 1) +
         [TubeNormal(start, end, radius, n - 1, segments, normalised, trig),
          TubeNormal(start, end, radius, n - 1, segments, normalised, trig)]
  }

  /** Vertex k of a tube is the start (k even) or end (k odd) of ring vertex k / 2. */
  lemma {:induction false} TubeVerticesAt(start: Vec3, end: Vec3, radius: real, segments: int, trig: Trig, n: nat)
    ensures |TubeVertices(start, end, radius, segments, trig, n)| == 2 * n
    ensures forall k :: 0 <= k < 2 * n ==>
      TubeVertices(start, end, radius, segments, trig, n)[k] == Add(if k % 2 == 0 then start else end, CylinderOffset(start, end, radius, k / 2, segments, trig))
  {
    if n > 0 {
      TubeVerticesAt(start, end, radius, segments, trig, n - 1);
      forall k | 2 * (n - 1) <= k < 2 * n ensures k / 2 == n - 1 && (k % 2 == 0 <==> k == 2 * (n - 1)) {
        DivModOf(n - 1, k - 2 * (n - 1), 2);
      }
    }
  }

  /** Normal k of a tube is the normal of ring vertex k / 2. */
  lemma {:induction false} TubeNormalsAt(start: Vec3, end: Vec3, radius: real, segments: int, normalised: bool, trig: Trig, n: nat)
    ensures |TubeNormals(start, end, radius, segments, normalised, trig, n)| == 2 * n
    ensures forall k :: 0 <= k < 2 * n ==>
      TubeNormals(start, end, radius, segments, normalised, trig, n)[k] == TubeNormal(start, end, radius, k / 2, segments, normalised, trig)
  {
    if n > 0 {
      TubeNormalsAt(start, end, radius, segments, normalised, trig, n - 1);
      forall k | 2 * (n - 1) <= k < 2 * n ensures k / 2 == n - 1 {
        DivModOf(n - 1, k - 2 * (n - 1), 2);
      }
    }
  }

  /** The six index entries of quad q of a strip of vertex pairs: it joins vertices
      2q .. 2q + 3 as the triangles (0, 2, 1), (1, 2, 3) or, wound the other way,
      (0, 1, 2), (2, 1, 3). */
  function StripQuad(q: int, flipped: bool): seq<int> {
    var b := 2 * q;
    if flipped then [b, b + 1, b + 2, b + 2, b + 1, b + 3] else [b, b + 2, b + 1, b + 1, b + 2, b + 3]
  }

  /** The index buffer of the first n quads of a strip. */
  function Strip(n: nat, flipped: bool): seq<int> {
    if n == 0 then [] else Strip(n - 1, flipped) + StripQuad(n - 1, flipped)
  }

  /** Entry k of a strip is entry k % 6 of quad k / 6, and n quads only name the first
      2 n + 2 vertices. */
  lemma {:induction false} StripAt(n: nat, flipped: bool)
    ensures |Strip(n, flipped)| == 6 * n
    ensures forall k :: 0 <= k < 6 * n ==> Strip(n, flipped)[k] == StripQuad(k / 6, flipped)[k % 6]
    ensures IndicesBelow(Strip(n, flipped), 2 * n + 2)
  {
    if n > 0 {
      StripAt(n - 1, flipped);
      forall k | 6 * (n - 1) <= k < 6 * n ensures k / 6 == n - 1 && k % 6 == k - 6 * (n - 1) {
        DivModOf(n - 1, k - 6 * (n - 1), 6);
      }
    }
  }

  /** Entry k of the cylinder's index buffer: quad k / 6 joins ring vertices 2q .. 2q + 3
      as the triangles (0, 2, 1) and (1, 2, 3). */
  function CylinderIndex(k: int): int {
    StripQuad(k / 6, false)[k % 6]
  }

  /** CreateCylinderGeometry: the lateral surface, vertices in start/end pairs around the axis. */
  method CreateCylinderGeometry(start: Vec3, end: Vec3, radius: real, segments: nat, trig: Trig)
    returns (mesh: Mesh)
    ensures |mesh.positions| == 2 * (segments + 1)
    ensures |mesh.indices| == 6 * segments
    ensures ValidMesh(mesh)
    ensures forall k :: 0 <= k < |mesh.positions| ==>
      mesh.positions[k] == Add(if k % 2 == 0 then start else end, CylinderOffset(start, end, radius, k / 2, segments, trig))
    ensures forall k :: 0 <= k < |mesh.normals| ==>
      mesh.normals[k] == trig.unit(CylinderOffset(start, end, radius, k / 2, segments, trig))
    ensures forall k :: 0 <= k < |mesh.indices| ==> mesh.indices[k] == CylinderIndex(k)
  {
    var frame := FrameAround(trig.unit(Sub(end, start)), trig);
    var positions: seq<Vec3> := [];
    var normals: seq<Vec3> := [];
    var indices: seq<int> := [];

    var i := 0;
    while i <= segments
      invariant 0 <= i <= segments + 1
      invariant positions == TubeVertices(start, end, radius, segments, trig, i)
      invariant normals == TubeNormals(start, end, radius, segments, true, trig, i)
    {
      var offset := CircleOffset(frame, radius, i, segments, trig);
      var normal := trig.unit(offset);
      positions := positions + [Add(start, offset), Add(end, offset)];
      normals := normals + [normal, normal];
      i := i + 1;
    }
    TubeVerticesAt(start, end, radius, segments, trig, i);
    TubeNormalsAt(start, end, radius, segments, true, trig, i);

    i := 0;
    while i < segments
      invariant 0 <= i <= segments
      invariant indices == Strip(i, false)
    {
      var baseIdx := i * 2;
      indices := indices + [baseIdx, baseIdx + 2, baseIdx + 1, baseIdx + 1, baseIdx + 2, baseIdx + 3];
      i := i + 1;
    }
    StripAt(i, false);
    mesh := Mesh(positions, normals, indices);
  }

  // ---------------------------------------------------------------- cone

  /** The radial offset of base vertex i of a cone from baseCenter to tip. */
  function ConeOffset(baseCenter: Vec3, tip: Vec3, baseRadius: real, i: int, segments: int, trig: Trig): Vec3 {
    CircleOffset(FrameAround(trig.unit(Sub(tip, baseCenter)), trig), baseRadius, i, segments, trig)
  }

  /** The smoothed side normal at base vertex i: unit((unit(tip - vertex) + axis) / 2). */
  function ConeSideNormal(baseCenter: Vec3, tip: Vec3, baseRadius: real, i: int, segments: int, trig: Trig): Vec3 {
    var direction := trig.unit(Sub(tip, baseCenter));
    var toTip := trig.unit(Sub(tip, Add(baseCenter, ConeOffset(baseCenter, tip, baseRadius, i, segments, trig))));
    trig.unit(Scale(Add(toTip, direction), 0.5))
  }

  /** Entry k of the cone's index buffer: triangle k / 3 is the fan (0, i + 1, i + 2). */
  function ConeIndex(k: int): int {
    if k % 3 == 0 then 0 else k / 3 + k % 3
  }

  lemma ConeIndexBound(segments: nat, k: int)
    requires 0 <= k < 3 * segments
    ensures 0 <= ConeIndex(k) < segments + 2
  {
    QuotientBelow(k, segments, 3);
  }

  /** CreateConeGeometry: the apex first, then segments + 1 base-ring vertices, fanned from vertex 0. */
  method CreateConeGeometry(baseCenter: Vec3, tip: Vec3, baseRadius: real, segments: nat, trig: Trig)
    returns (mesh: Mesh)
    ensures |mesh.positions| == segments + 2
    ensures |mesh.indices| == 3 * segments
    ensures ValidMesh(mesh)
    ensures mesh.positions[0] == tip && mesh.normals[0] == trig.unit(Sub(tip, baseCenter))
    ensures forall k :: 1 <= k < |mesh.positions| ==>
      mesh.positions[k] == Add(baseCenter, ConeOffset(baseCenter, tip, baseRadius, k - 1, segments, trig))
    ensures forall k :: 1 <= k < |mesh.normals| ==>
      mesh.normals[k] == ConeSideNormal(baseCenter, tip, baseRadius, k - 1, segments, trig)
    ensures forall k :: 0 <= k < |mesh.indices| ==> mesh.indices[k] == ConeIndex(k)
  {
    var direction := trig.unit(Sub(tip, baseCenter));
    var frame := FrameAround(direction, trig);
    var positions: seq<Vec3> := [tip];
    var normals: seq<Vec3> := [direction];
    var indices: seq<int> := [];

    var i := 0;
    while i <= segments
      invariant 0 <= i <= segments + 1
      invariant |positions| == i + 1 && |normals| == i + 1
      invariant positions[0] == tip && normals[0] == direction
      invariant forall k :: 1 <= k < |positions| ==>
        positions[k] == Add(baseCenter, ConeOffset(baseCenter, tip, baseRadius, k - 1, segments, trig))
      invariant forall k :: 1 <= k < |normals| ==>
        normals[k] == ConeSideNormal(baseCenter, tip, baseRadius, k - 1, segments, trig)
    {
      var offset := CircleOffset(frame, baseRadius, i, segments, trig);
      positions := positions + [Add(baseCenter, offset)];
      var toTip := trig.unit(Sub(tip, Add(baseCenter, offset)));
      var sideNormal := trig.unit(Scale(Add(toTip, direction), 0.5));
      normals := normals + [sideNormal];
      i := i + 1;
    }

    i := 0;
    while i < segments
      invariant 0 <= i <= segments
      invariant |indices| == 3 * i
      invariant forall k :: 0 <= k < |indices| ==> indices[k] == ConeIndex(k)
    {
      indices := indices + [0, i + 1, i + 2];
      i := i + 1;
    }

    mesh := Mesh(positions, normals, indices);
    forall k | 0 <= k < |indices| ensures 0 <= indices[k] < |positions| {
      ConeIndexBound(segments, k);
    }
  }

  // ---------------------------------------------------------------- sphere

  /** The radial direction of grid vertex (i, j): theta = i * pi / thetaDiv (step i of
      2 * thetaDiv around the circle) and phi = j * 2 * pi / phiDiv. */
  function SphereDirection(i: int, j: int, thetaDiv: int, phiDiv: int, trig: Trig): Vec3 {
    var sinTheta, cosTheta := trig.sinStep(i, 2 * thetaDiv), trig.cosStep(i, 2 * thetaDiv);
    var sinPhi, cosPhi := trig.sinStep(j, phiDiv), trig.cosStep(j, phiDiv);
    Vec3(sinTheta * cosPhi, cosTheta, sinTheta * sinPhi)
  }

  /** Vertex k of the sphere lies in row k / (phiDiv + 1), column k % (phiDiv + 1). */
  function SphereVertex(center: Vec3, radius: real, k: int, thetaDiv: nat, phiDiv: nat, trig: Trig): Vec3 {
    SpherePoint(center, radius, k / (phiDiv + 1), k % (phiDiv + 1), thetaDiv, phiDiv, trig)
  }

  /** Grid point (i, j): the centre moved radius along the radial direction of (i, j). */
  function SpherePoint(center: Vec3, radius: real, i: int, j: int, thetaDiv: nat, phiDiv: nat, trig: Trig): Vec3 {
    var d := SphereDirection(i, j, thetaDiv, phiDiv, trig);
    Vec3(center.x + radius * d.x, center.y + radius * d.y, center.z + radius * d.z)
  }

  function SphereNormal(k: int, thetaDiv: nat, phiDiv: nat, trig: Trig): Vec3 {
    SphereDirection(k / (phiDiv + 1), k % (phiDiv + 1), thetaDiv, phiDiv, trig)
  }

  /** Entry k of the sphere's index buffer: quad q = k / 6 is cell (q / phiDiv, q % phiDiv),
      with i0 = i * (phiDiv + 1) + j, i2 = i0 + phiDiv + 1, split as (i0, i2, i1), (i1, i2, i3). */
  function SphereIndex(k: int, phiDiv: nat): int {
    if phiDiv == 0 then 0
    else
      var q := k / 6;
      var c := k % 6;
      var i, j := q / phiDiv, q % phiDiv;
      var i0 := i * (phiDiv + 1) + j;
      var i2 := (i + 1) * (phiDiv + 1) + j;
      if c == 0 then i0
      else if c == 1 || c == 4 then i2
      else if c == 2 || c == 3 then i0 + 1
      else i2 + 1
  }

  lemma SphereIndexBound(thetaDiv: nat, phiDiv: nat, k: int)
    requires 0 <= k < 6 * (thetaDiv * phiDiv)
    ensures 0 <= SphereIndex(k, phiDiv) < (thetaDiv + 1) * (phiDiv + 1)
  {
    var q := k / 6;
    QuotientBelow(k, thetaDiv * phiDiv, 6);
    assert phiDiv > 0;
    var i, j := q / phiDiv, q % phiDiv;
    QuotientBelow(q, thetaDiv, phiDiv);
    MulMonotone(i + 1, thetaDiv, phiDiv + 1);
    assert (i + 1) * (phiDiv + 1) + j + 1 <= thetaDiv * (phiDiv + 1) + phiDiv;
    assert (thetaDiv + 1) * (phiDiv + 1) == thetaDiv * (phiDiv + 1) + phiDiv + 1;
    assert i * (phiDiv + 1) >= 0;
  }

  /** CreateSphereGeometry: a latitude/longitude grid of (thetaDiv + 1) x (phiDiv + 1) vertices. */
  method CreateSphereGeometry(center: Vec3, radius: real, thetaDiv: nat, phiDiv: nat, trig: Trig)
    returns (mesh: Mesh)
    ensures |mesh.positions| == (thetaDiv + 1) * (phiDiv + 1)
    ensures |mesh.indices| == 6 * (thetaDiv * phiDiv)
    ensures ValidMesh(mesh)
    ensures forall k :: 0 <= k < |mesh.positions| ==>
      mesh.positions[k] == SphereVertex(center, radius, k, thetaDiv, phiDiv, trig)
    ensures forall k :: 0 <= k < |mesh.normals| ==> mesh.normals[k] == SphereNormal(k, thetaDiv, phiDiv, trig)
    ensures forall k :: 0 <= k < |mesh.indices| ==> mesh.indices[k] == SphereIndex(k, phiDiv)
  {
    var positions, normals := SphereVertexGrid(center, radius, thetaDiv, phiDiv, trig);
    var indices := SphereTriangles(thetaDiv, phiDiv);
    mesh := Mesh(positions, normals, indices);
    forall k | 0 <= k < |indices| ensures 0 <= indices[k] < |positions| {
      SphereIndexBound(thetaDiv, phiDiv, k);
    }
  }

  /** The vertex loops of CreateSphereGeometry: row i, column j holds the point at
      theta step i and phi step j, and its radial direction as normal. */
  method SphereVertexGrid(center: Vec3, radius: real, thetaDiv: nat, phiDiv: nat, trig: Trig)
    returns (positions: seq<Vec3>, normals: seq<Vec3>)
    ensures |positions| == (thetaDiv + 1) * (phiDiv + 1) && |normals| == |positions|
    ensures forall k :: 0 <= k < |positions| ==> positions[k] == SphereVertex(center, radius, k, thetaDiv, phiDiv, trig)
    ensures forall k :: 0 <= k < |normals| ==> normals[k] == SphereNormal(k, thetaDiv, phiDiv, trig)
  {
    positions, normals := [], [];
    var width := phiDiv + 1;

    var i := 0;
    while i <= thetaDiv
      invariant 0 <= i <= thetaDiv + 1
      invariant positions == SphereRows(center, radius, thetaDiv, phiDiv, trig, false, i)
      invariant normals == SphereRows(center, radius, thetaDiv, phiDiv, trig, true, i)
    {
      ghost var rows, rowNormals := positions, normals;
      var j := 0;
      while j <= phiDiv
        invariant 0 <= j <= width
        invariant positions == rows + SphereRow(center, radius, thetaDiv, phiDiv, trig, false, i, j)
        invariant normals == rowNormals + SphereRow(center, radius, thetaDiv, phiDiv, trig, true, i, j)
      {
        var normal := SphereDirection(i, j, thetaDiv, phiDiv, trig);
        var position := SpherePoint(center, radius, i, j, thetaDiv, phiDiv, trig);
        positions := positions + [position];
        normals := normals + [normal];
        j := j + 1;
      }
      i := i + 1;
    }
    SphereRowsAt(center, radius, thetaDiv, phiDiv, trig, false, i);
    SphereRowsAt(center, radius, thetaDiv, phiDiv, trig, true, i);
  }

  /** The index loops of CreateSphereGeometry: two triangles per grid cell, row by row. */
  method SphereTriangles(thetaDiv: nat, phiDiv: nat) returns (indices: seq<int>)
    ensures |indices| == 6 * (thetaDiv * phiDiv)
    ensures forall k :: 0 <= k < |indices| ==> indices[k] == SphereIndex(k, phiDiv)
  {
    indices := [];
    var width := phiDiv + 1;
    var i := 0;
    while i < thetaDiv
      invariant 0 <= i <= thetaDiv
      invariant |indices| == 6 * (i * phiDiv)
      invariant SphereIndicesUpTo(indices, phiDiv)
    {
      var j := 0;
      while j < phiDiv
        invariant 0 <= j <= phiDiv
        invariant |indices| == 6 * (i * phiDiv + j)
        invariant SphereIndicesUpTo(indices, phiDiv)
      {
        var i0 := i * width + j;
        var i1 := i0 + 1;
        var i2 := (i + 1) * width + j;
        var i3 := i2 + 1;
        SphereQuadStep(indices, i, j, phiDiv);
        indices := indices + [i0, i2, i1, i1, i2, i3];
        j := j + 1;
      }
      assert i * phiDiv + phiDiv == (i + 1) * phiDiv;
      i := i + 1;
    }
  }

  /** Entry (i, j) of the sphere's position buffer or, with `normal`, of its normal buffer. */
  function SphereEntry(center: Vec3, radius: real, thetaDiv: nat, phiDiv: nat, trig: Trig, normal: bool, i: int, j: int): Vec3 {
    if normal then SphereDirection(i, j, thetaDiv, phiDiv, trig) else SpherePoint(center, radius, i, j, thetaDiv, phiDiv, trig)
  }

  /** The first j entries of grid row i. */
  function SphereRow(center: Vec3, radius: real, thetaDiv: nat, phiDiv: nat, trig: Trig, normal: bool, i: int, j: nat): seq<Vec3> {
    if j == 0 then []
    else SphereRow(center, radius, thetaDiv, phiDiv, trig, normal, i, j - 1) + [SphereEntry(center, radius, thetaDiv, phiDiv, trig, normal, i, j - 1)]
  }

  /** The first i grid rows, each phiDiv + 1 entries long. */
  function SphereRows(center: Vec3, radius: real, thetaDiv: nat, phiDiv: nat, trig: Trig, normal: bool, i: nat): seq<Vec3> {
    if i == 0 then []
    else SphereRows(center, radius, thetaDiv, phiDiv, trig, normal, i - 1) + SphereRow(center, radius, thetaDiv, phiDiv, trig, normal, i - 1, phiDiv + 1)
  }

  lemma {:induction false} SphereRowAt(center: Vec3, radius: real, thetaDiv: nat, phiDiv: nat, trig: Trig, normal: bool, i: int, j: nat)
    ensures |SphereRow(center, radius, thetaDiv, phiDiv, trig, normal, i, j)| == j
    ensures forall c :: 0 <= c < j ==>
      SphereRow(center, radius, thetaDiv, phiDiv, trig, normal, i, j)[c] == SphereEntry(center, radius, thetaDiv, phiDiv, trig, normal, i, c)
  {
    if j > 0 {
      SphereRowAt(center, radius, thetaDiv, phiDiv, trig, normal, i, j - 1);
    }
  }

  /** Entry k of the first i rows is vertex (or normal) k of the sphere. */
  lemma {:induction false} SphereRowsAt(center: Vec3, radius: real, thetaDiv: nat, phiDiv: nat, trig: Trig, normal: bool, i: nat)
    ensures |SphereRows(center, radius, thetaDiv, phiDiv, trig, normal, i)| == i * (phiDiv + 1)
    ensures forall k :: 0 <= k < i * (phiDiv + 1) ==>
      SphereRows(center, radius, thetaDiv, phiDiv, trig, normal, i)[k] ==
      if normal then SphereNormal(k, thetaDiv, phiDiv, trig) else SphereVertex(center, radius, k, thetaDiv, phiDiv, trig)
  {
    if i > 0 {
      var w := phiDiv + 1;
      SphereRowsAt(center, radius, thetaDiv, phiDiv, trig, normal, i - 1);
      SphereRowAt(center, radius, thetaDiv, phiDiv, trig, normal, i - 1, w);
      assert (i - 1) * w + w == i * w;
      forall k | (i - 1) * w <= k < i * w ensures k / w == i - 1 && k % w == k - (i - 1) * w {
        DivModOf(i - 1, k - (i - 1) * w, w);
      }
    }
  }

  ghost predicate SphereIndicesUpTo(indices: seq<int>, phiDiv: nat) {
    forall k :: 0 <= k < |indices| ==> indices[k] == SphereIndex(k, phiDiv)
  }

  /** Appending the two triangles of quad (i, j) at 6 * (i * phiDiv + j) keeps the index buffer in step. */
  lemma SphereQuadStep(indices: seq<int>, i: nat, j: nat, phiDiv: nat)
    requires j < phiDiv && |indices| == 6 * (i * phiDiv + j)
    requires SphereIndicesUpTo(indices, phiDiv)
    ensures
      var i0 := i * (phiDiv + 1) + j;
      var i2 := (i + 1) * (phiDiv + 1) + j;
      SphereIndicesUpTo(indices + [i0, i2, i0 + 1, i0 + 1, i2, i2 + 1], phiDiv)
  {
    var q := i * phiDiv + j;
    DivModOf(i, j, phiDiv);
    var i0 := i * (phiDiv + 1) + j;
    var i2 := (i + 1) * (phiDiv + 1) + j;
    var quad := [i0, i2, i0 + 1, i0 + 1, i2, i2 + 1];
    forall c | 0 <= c < 6
      ensures SphereIndex(6 * q + c, phiDiv) == quad[c]
    {
      DivModOf(q, c, 6);
      assert q * 6 == 6 * q;
    }
    var next := indices + quad;
    forall k | 0 <= k < |next| ensures next[k] == SphereIndex(k, phiDiv) {
      if k >= |indices| {
        assert next[k] == quad[k - 6 * q];
        assert SphereIndex(6 * q + (k - 6 * q), phiDiv) == quad[k - 6 * q];
      }
    }
  }

  // ---------------------------------------------------------------- rotation ring

  const RingSegments: nat := 64
  const RingTubeSegments: nat := 8

  /** The character a gizmo visual stores in its `Tag`: an arrow carries its axis
      ('X', 'Y' or 'Z'), a rotation ring the ring character 'r'. */
  datatype GizmoTag = AxisTag(axis: Axis) | RingTag

  /** A gizmo visual: its mesh and its tag. */
  datatype GizmoModel = GizmoModel(mesh: Mesh, tag: GizmoTag)

  /** Centre of tube cross-section i of a ring of the given radius in the plane of `frame`. */
  function RingCenter(frame: Frame, radius: real, i: int, trig: Trig): Vec3 {
    CircleOffset(frame, radius, i, RingSegments, trig)
  }

  /** The frame (tubeRight, tubeUp) of cross-section i: built from the unit tangent of the
      ring at i and the ring axis. */
  function TubeFrame(frame: Frame, axis: Vec3, i: int, trig: Trig): Frame {
    var tangent := trig.unit(Add(Scale(Neg(frame.right), trig.sinStep(i, RingSegments)),
                                 Scale(frame.up, trig.cosStep(i, RingSegments))));
    var tubeUp := trig.unit(Cross(tangent, axis));
    Frame(trig.unit(Cross(tubeUp, tangent)), tubeUp)
  }

  /** Offset of vertex j of cross-section i from the cross-section centre. */
  function TubeOffset(frame: Frame, axis: Vec3, thickness: real, i: int, j: int, trig: Trig): Vec3 {
    CircleOffset(TubeFrame(frame, axis, i, trig), thickness, j, RingTubeSegments, trig)
  }

  /** Vertex k of the ring is vertex k % 9 of cross-section k / 9. */
  function RingVertex(frame: Frame, axis: Vec3, radius: real, thickness: real, k: int, trig: Trig): Vec3 {
    var i, j := k / (RingTubeSegments + 1), k % (RingTubeSegments + 1);
    Add(RingCenter(frame, radius, i, trig), TubeOffset(frame, axis, thickness, i, j, trig))
  }

  function RingNormal(frame: Frame, axis: Vec3, thickness: real, k: int, trig: Trig): Vec3 {
    var i, j := k / (RingTubeSegments + 1), k % (RingTubeSegments + 1);
    trig.unit(TubeOffset(frame, axis, thickness, i, j, trig))
  }

  /** Entry k of the ring's index buffer: quad q = k / 6 is cell (q / 8, q % 8) with
      base = 9 i + j, next = 9 (i + 1) + j, split as (base, base + 1, next), (base + 1, next + 1, next). */
  function RingIndex(k: int): int {
    var q, c := k / 6, k % 6;
    var i, j := q / RingTubeSegments, q % RingTubeSegments;
    var b := i * (RingTubeSegments + 1) + j;
    var n := (i + 1) * (RingTubeSegments + 1) + j;
    if c == 0 then b
    else if c == 1 || c == 3 then b + 1
    else if c == 2 || c == 5 then n
    else n + 1
  }

  lemma RingIndexBound(k: int)
    requires 0 <= k < 6 * (RingSegments * RingTubeSegments)
    ensures 0 <= RingIndex(k) < (RingSegments + 1) * (RingTubeSegments + 1)
  {
    var q := k / 6;
    QuotientBelow(k, RingSegments * RingTubeSegments, 6);
    QuotientBelow(q, RingSegments, RingTubeSegments);
  }

  ghost predicate RingVerticesUpTo(positions: seq<Vec3>, normals: seq<Vec3>, frame: Frame, axis: Vec3,
                                   radius: real, thickness: real, trig: Trig)
  {
    |normals| == |positions| &&
    (forall k :: 0 <= k < |positions| ==> positions[k] == RingVertex(frame, axis, radius, thickness, k, trig)) &&
    (forall k :: 0 <= k < |normals| ==> normals[k] == RingNormal(frame, axis, thickness, k, trig))
  }

  lemma RingVertexStep(positions: seq<Vec3>, normals: seq<Vec3>, frame: Frame, axis: Vec3,
                       radius: real, thickness: real, trig: Trig, i: nat, j: nat)
    requires j <= RingTubeSegments && |positions| == i * (RingTubeSegments + 1) + j
    requires RingVerticesUpTo(positions, normals, frame, axis, radius, thickness, trig)
    ensures
      var offset := TubeOffset(frame, axis, thickness, i, j, trig);
      RingVerticesUpTo(positions + [Add(RingCenter(frame, radius, i, trig), offset)], normals + [trig.unit(offset)],
                       frame, axis, radius, thickness, trig)
  {
    DivModOf(i, j, RingTubeSegments + 1);
  }

  ghost predicate RingIndicesUpTo(indices: seq<int>) {
    forall k :: 0 <= k < |indices| ==> indices[k] == RingIndex(k)
  }

  lemma RingQuadStep(indices: seq<int>, i: nat, j: nat)
    requires j < RingTubeSegments && |indices| == 6 * (i * RingTubeSegments + j)
    requires RingIndicesUpTo(indices)
    ensures
      var b := i * (RingTubeSegments + 1) + j;
      var n := (i + 1) * (RingTubeSegments + 1) + j;
      RingIndicesUpTo(indices + [b, b + 1, n, b + 1, n + 1, n])
  {
    var q := i * RingTubeSegments + j;
    DivModOf(i, j, RingTubeSegments);
    var b := i * (RingTubeSegments + 1) + j;
    var n := (i + 1) * (RingTubeSegments + 1) + j;
    var quad := [b, b + 1, n, b + 1, n + 1, n];
    forall c | 0 <= c < 6
      ensures RingIndex(6 * q + c) == quad[c]
    {
      DivModOf(q, c, 6);
      assert q * 6 == 6 * q;
    }
    var next := indices + quad;
    forall k | 0 <= k < |next| ensures next[k] == RingIndex(k) {
      if k >= |indices| {
        assert next[k] == quad[k - 6 * q];
        assert RingIndex(6 * q + (k - 6 * q)) == quad[k - 6 * q];
      }
    }
  }

  /** CreateRotationRing: a torus of 64 cross-sections of 8 segments around the unit axis,
      tagged with the character it is given. The window passes `RingTag` for all three rings;
      which axis a ring turns is told by the ring's identity, not by its tag. */
  method CreateRotationRing(axis: Vec3, rotationAxis: GizmoTag, radius: real, thickness: real, trig: Trig)
    returns (model: GizmoModel)
    ensures model.tag == rotationAxis
    ensures |model.mesh.positions| == 585 && |model.mesh.indices| == 3072
    ensures ValidMesh(model.mesh)
    ensures forall k :: 0 <= k < |model.mesh.positions| ==>
      model.mesh.positions[k] == RingVertex(FrameAround(trig.unit(axis), trig), trig.unit(axis), radius, thickness, k, trig)
    ensures forall k :: 0 <= k < |model.mesh.normals| ==>
      model.mesh.normals[k] == RingNormal(FrameAround(trig.unit(axis), trig), trig.unit(axis), thickness, k, trig)
    ensures forall k :: 0 <= k < |model.mesh.indices| ==> model.mesh.indices[k] == RingIndex(k)
  {
    var unitAxis := trig.unit(axis);
    var frame := FrameAround(unitAxis, trig);
    var positions: seq<Vec3> := [];
    var normals: seq<Vec3> := [];
    var indices: seq<int> := [];
    var width := RingTubeSegments + 1;

    var i := 0;
    while i <= RingSegments
      invariant 0 <= i <= RingSegments + 1
      invariant |positions| == i * width
      invariant RingVerticesUpTo(positions, normals, frame, unitAxis, radius, thickness, trig)
    {
      var center := RingCenter(frame, radius, i, trig);
      var j := 0;
      while j <= RingTubeSegments
        invariant 0 <= j <= width
        invariant |positions| == i * width + j
        invariant RingVerticesUpTo(positions, normals, frame, unitAxis, radius, thickness, trig)
      {
        var offset := TubeOffset(frame, unitAxis, thickness, i, j, trig);
        RingVertexStep(positions, normals, frame, unitAxis, radius, thickness, trig, i, j);
        positions := positions + [Add(center, offset)];
        normals := normals + [trig.unit(offset)];
        j := j + 1;
      }
      i := i + 1;
    }

    i := 0;
    while i < RingSegments
      invariant 0 <= i <= RingSegments
      invariant |indices| == 6 * (i * RingTubeSegments)
      invariant RingIndicesUpTo(indices)
    {
      var j := 0;
      while j < RingTubeSegments
        invariant 0 <= j <= RingTubeSegments
        invariant |indices| == 6 * (i * RingTubeSegments + j)
        invariant RingIndicesUpTo(indices)
      {
        var baseIdx := i * width + j;
        var nextBaseIdx := (i + 1) * width + j;
        RingQuadStep(indices, i, j);
        indices := indices + [baseIdx, baseIdx + 1, nextBaseIdx, baseIdx + 1, nextBaseIdx + 1, nextBaseIdx];
        j := j + 1;
      }
      i := i + 1;
    }

    forall k | 0 <= k < |indices| ensures 0 <= indices[k] < |positions| {
      RingIndexBound(k);
    }
    model := GizmoModel(Mesh(positions, normals, indices), rotationAxis);
  }

  // ---------------------------------------------------------------- ray tube

  const RayRadius: real := 0.08
  const RaySegments: nat := 16

  /** The radial offset of ring vertex i of the tube drawn for a ray from start to end. */
  function RayOffset(start: Vec3, end: Vec3, i: int, trig: Trig): Vec3 {
    CylinderOffset(start, end, RayRadius, i, RaySegments, trig)
  }

  /** Entry k of the ray tube's index buffer: quad k / 6 joins vertices 2q .. 2q + 3 as
      (0, 1, 2), (2, 1, 3) — the opposite winding to the cylinder's. */
  function RayTubeIndex(k: int): int {
    StripQuad(k / 6, true)[k % 6]
  }

  /** The geometry of CreateRayModel: 17 start/end vertex pairs around the segment, whose
      normals are the radial offsets themselves (not normalised). */
  method CreateRayModel(start: Vec3, end: Vec3, trig: Trig) returns (mesh: Mesh)
    ensures |mesh.positions| == 34 && |mesh.indices| == 96
    ensures ValidMesh(mesh)
    ensures forall k :: 0 <= k < |mesh.positions| ==>
      mesh.positions[k] == Add(if k % 2 == 0 then start else end, RayOffset(start, end, k / 2, trig))
    ensures forall k :: 0 <= k < |mesh.normals| ==> mesh.normals[k] == RayOffset(start, end, k / 2, trig)
    ensures forall k :: 0 <= k < |mesh.indices| ==> mesh.indices[k] == RayTubeIndex(k)
  {
    var positions, normals := RayTubeVertices(start, end, RayRadius, RaySegments, trig);
    var indices := RayTubeIndices(RaySegments);
    mesh := Mesh(positions, normals, indices);
  }

  /** The vertex loop of CreateRayModel: segments + 1 vertex pairs whose normals are the
      radial offsets themselves. */
  method RayTubeVertices(start: Vec3, end: Vec3, radius: real, segments: nat, trig: Trig)
    returns (positions: seq<Vec3>, normals: seq<Vec3>)
    ensures |positions| == 2 * (segments + 1) && |normals| == |positions|
    ensures forall k :: 0 <= k < |positions| ==>
      positions[k] == Add(if k % 2 == 0 then start else end, CylinderOffset(start, end, radius, k / 2, segments, trig))
    ensures forall k :: 0 <= k < |normals| ==> normals[k] == CylinderOffset(start, end, radius, k / 2, segments, trig)
  {
    var frame := FrameAround(trig.unit(Sub(end, start)), trig);
    positions := [];
    normals := [];
    var i := 0;
    while i <= segments
      invariant 0 <= i <= segments + 1
      invariant positions == TubeVertices(start, end, radius, segments, trig, i)
      invariant normals == TubeNormals(start, end, radius, segments, false, trig, i)
    {
      var offset := CircleOffset(frame, radius, i, segments, trig);
      positions := positions + [Add(start, offset), Add(end, offset)];
      normals := normals + [offset, offset];
      i := i + 1;
    }
    TubeVerticesAt(start, end, radius, segments, trig, i);
    TubeNormalsAt(start, end, radius, segments, false, trig, i);
  }

  /** The index loop of CreateRayModel: quad i joins vertices 2i .. 2i + 3, wound
      (0, 1, 2), (2, 1, 3). */
  method RayTubeIndices(segments: nat) returns (indices: seq<int>)
    ensures |indices| == 6 * segments && IndicesBelow(indices, 2 * segments + 2)
    ensures forall k :: 0 <= k < |indices| ==> indices[k] == RayTubeIndex(k)
  {
    indices := [];
    var i := 0;
    while i < segments
      invariant 0 <= i <= segments
      invariant indices == Strip(i, true)
    {
      var baseIdx := i * 2;
      indices := indices + [baseIdx, baseIdx + 1, baseIdx + 2, baseIdx + 2, baseIdx + 1, baseIdx + 3];
      i := i + 1;
    }
    StripAt(i, true);
  }

  // ---------------------------------------------------------------- combining

  /** A `MeshGeometry3D` as CombineGeometries sees it: any of its buffers may be null. */
  datatype MeshGeometry = MeshGeometry(positions: Option<seq<Vec3>>, normals: Option<seq<Vec3>>, indices: Option<seq<int>>)

  function AsGeometry(m: Mesh): MeshGeometry {
    MeshGeometry(Some(m.positions), Some(m.normals), Some(m.indices))
  }

  predicate Complete(g: MeshGeometry) {
    g.positions.Some? && g.normals.Some? && g.indices.Some?
  }

  /** Every index raised by `offset`. */
  function Shifted(indices: seq<int>, offset: int): (r: seq<int>)
    ensures |r| == |indices|
    ensures forall k :: 0 <= k < |r| ==> r[k] == indices[k] + offset
  {
    if |indices| == 0 then [] else Shifted(indices[..|indices| - 1], offset) + [indices[|indices| - 1] + offset]
  }

  /** The reference definition of combining: geometries are taken in order, a geometry
      with a null buffer is skipped, and the indices of each geometry are moved past the
      positions of everything before it. */
  function Combined(gs: seq<MeshGeometry>): Mesh {
    if |gs| == 0 then Mesh([], [], [])
    else
      var m := Combined(gs[..|gs| - 1]);
      var g := gs[|gs| - 1];
      if Complete(g) then
        Mesh(m.positions + g.positions.value, m.normals + g.normals.value,
             m.indices + Shifted(g.indices.value, |m.positions|))
      else m
  }

  /** CombineGeometries: concatenates the buffers, keeping a running position offset. */
  method CombineGeometries(geometries: seq<MeshGeometry>) returns (combined: Mesh)
    ensures combined == Combined(geometries)
  {
    var positions: seq<Vec3> := [];
    var normals: seq<Vec3> := [];
    var indices: seq<int> := [];
    var offset := 0;

    var g := 0;
    while g < |geometries|
      invariant 0 <= g <= |geometries|
      invariant Mesh(positions, normals, indices) == Combined(geometries[..g])
      invariant offset == |positions|
    {
      assert geometries[..g + 1][..g] == geometries[..g];
      var geom := geometries[g];
      if geom.positions.Some? && geom.normals.Some? && geom.indices.Some? {
        positions := positions + geom.positions.value;
        normals := normals + geom.normals.value;
        var source := geom.indices.value;
        var before := indices;
        var t := 0;
        while t < |source|
          invariant 0 <= t <= |source|
          invariant indices == before + Shifted(source[..t], offset)
        {
          assert source[..t + 1][..t] == source[..t];
          indices := indices + [source[t] + offset];
          t := t + 1;
        }
        assert source[..t] == source;
        offset := offset + |geom.positions.value|;
      }
      g := g + 1;
    }
    assert geometries[..g] == geometries;
    combined := Mesh(positions, normals, indices);
  }

  /** Sum of the position counts of the complete geometries. */
  function CompletePositionCount(gs: seq<MeshGeometry>): nat {
    if |gs| == 0 then 0
    else CompletePositionCount(gs[..|gs| - 1]) + (if Complete(gs[|gs| - 1]) then |gs[|gs| - 1].positions.value| else 0)
  }

  function CompleteIndexCount(gs: seq<MeshGeometry>): nat {
    if |gs| == 0 then 0
    else CompleteIndexCount(gs[..|gs| - 1]) + (if Complete(gs[|gs| - 1]) then |gs[|gs| - 1].indices.value| else 0)
  }

  /** The combined buffers are exactly as long as the complete inputs' buffers together. */
  lemma {:induction false} CombinedCounts(gs: seq<MeshGeometry>)
    ensures |Combined(gs).positions| == CompletePositionCount(gs)
    ensures |Combined(gs).indices| == CompleteIndexCount(gs)
  {
    if |gs| > 0 {
      CombinedCounts(gs[..|gs| - 1]);
    }
  }

  /** Combining valid meshes gives a valid mesh: the offsets keep every index on a
      position of the geometry it came from. */
  lemma {:induction false} CombinedValid(gs: seq<MeshGeometry>)
    requires forall k :: 0 <= k < |gs| && Complete(gs[k]) ==>
      ValidMesh(Mesh(gs[k].positions.value, gs[k].normals.value, gs[k].indices.value))
    ensures ValidMesh(Combined(gs))
  {
    if |gs| > 0 {
      var prefix := gs[..|gs| - 1];
      assert forall k :: 0 <= k < |prefix| ==> prefix[k] == gs[k];
      CombinedValid(prefix);
      var m := Combined(prefix);
      var g := gs[|gs| - 1];
      if Complete(g) {
        var shifted := Shifted(g.indices.value, |m.positions|);
        var all := m.indices + shifted;
        var n := |m.positions| + |g.positions.value|;
        forall k | 0 <= k < |all| ensures 0 <= all[k] < n {
          if k >= |m.indices| {
            assert all[k] == shifted[k - |m.indices|];
          }
        }
      }
    }
  }

  /** Two meshes combine into their concatenation with the second's indices shifted. */
  lemma CombinedPair(a: Mesh, b: Mesh)
    ensures Combined([AsGeometry(a), AsGeometry(b)]) ==
      Mesh(a.positions + b.positions, a.normals + b.normals, a.indices + Shifted(b.indices, |a.positions|))
  {
    var gs := [AsGeometry(a), AsGeometry(b)];
    assert gs[..1][..0] == [];
    assert Combined(gs[..1]) == Mesh([] + a.positions, [] + a.normals, [] + Shifted(a.indices, 0));
    assert Shifted(a.indices, 0) == a.indices;
    assert [] + a.positions == a.positions && [] + a.normals == a.normals && [] + a.indices == a.indices;
  }

  // ---------------------------------------------------------------- arrow gizmo

  /** Where the shaft of an arrow of length `scale` along `direction` ends: 0.85 of the way. */
  function ShaftEnd(start: Vec3, direction: Vec3, scale: real, trig: Trig): Vec3 {
    Add(start, Scale(trig.unit(direction), scale - scale * 0.15))
  }

  /** The tip of an arrow of length `scale` along `direction`. */
  function ArrowTip(start: Vec3, direction: Vec3, scale: real, trig: Trig): Vec3 {
    Add(start, Scale(trig.unit(direction), scale))
  }

  /** CreateArrowGizmo: a shaft cylinder of radius 0.02 L over the first 0.85 L of the unit
      direction, and a cone of radius 0.05 L over the last 0.15 L, combined into one mesh
      tagged with its axis character. */
  method CreateArrowGizmo(start: Vec3, direction: Vec3, axis: Axis, scale: real, trig: Trig)
    returns (model: GizmoModel)
    ensures model.tag == AxisTag(axis)
    ensures ValidMesh(model.mesh)
    ensures |model.mesh.positions| == 52 && |model.mesh.indices| == 144
    ensures forall k :: 0 <= k < 34 ==>
      model.mesh.positions[k] ==
        Add(if k % 2 == 0 then start else ShaftEnd(start, direction, scale, trig),
            CylinderOffset(start, ShaftEnd(start, direction, scale, trig), scale * 0.02, k / 2, 16, trig)) &&
      model.mesh.normals[k] == trig.unit(CylinderOffset(start, ShaftEnd(start, direction, scale, trig), scale * 0.02, k / 2, 16, trig))
    ensures model.mesh.positions[34] == ArrowTip(start, direction, scale, trig)
    ensures model.mesh.normals[34] == trig.unit(Sub(ArrowTip(start, direction, scale, trig), ShaftEnd(start, direction, scale, trig)))
    ensures forall k :: 35 <= k < 52 ==>
      model.mesh.positions[k] ==
        Add(ShaftEnd(start, direction, scale, trig),
            ConeOffset(ShaftEnd(start, direction, scale, trig), ArrowTip(start, direction, scale, trig), scale * 0.05, k - 35, 16, trig)) &&
      model.mesh.normals[k] ==
        ConeSideNormal(ShaftEnd(start, direction, scale, trig), ArrowTip(start, direction, scale, trig), scale * 0.05, k - 35, 16, trig)
    ensures forall k :: 0 <= k < 96 ==> model.mesh.indices[k] == CylinderIndex(k)
    ensures forall k :: 96 <= k < 144 ==> model.mesh.indices[k] == ConeIndex(k - 96) + 34
  {
    var end := ShaftEnd(start, direction, scale, trig);
    var arrowEnd := ArrowTip(start, direction, scale, trig);
    var shaft := CreateCylinderGeometry(start, end, scale * 0.02, 16, trig);
    var cone := CreateConeGeometry(end, arrowEnd, scale * 0.05, 16, trig);
    var combinedMesh := CombineGeometries([AsGeometry(shaft), AsGeometry(cone)]);
    CombinedPair(shaft, cone);
    CombinedValid([AsGeometry(shaft), AsGeometry(cone)]);
    ArrowElements(shaft, cone, combinedMesh, start, end, arrowEnd, scale * 0.02, scale * 0.05, trig);
    model := GizmoModel(combinedMesh, AxisTag(axis));
  }

  /** Where each element of the arrow's combined buffers comes from: the shaft's first, then
      the cone's, the cone's indices moved past the shaft's 34 positions. */
  lemma ArrowElements(shaft: Mesh, cone: Mesh, m: Mesh, start: Vec3, end: Vec3, tip: Vec3, rs: real, rc: real, trig: Trig)
    requires m == Mesh(shaft.positions + cone.positions, shaft.normals + cone.normals,
                       shaft.indices + Shifted(cone.indices, |shaft.positions|))
    requires |shaft.positions| == 34 && |shaft.normals| == 34 && |shaft.indices| == 96
    requires |cone.positions| == 18 && |cone.normals| == 18 && |cone.indices| == 48
    requires forall k :: 0 <= k < |shaft.positions| ==>
      shaft.positions[k] == Add(if k % 2 == 0 then start else end, CylinderOffset(start, end, rs, k / 2, 16, trig))
    requires forall k :: 0 <= k < |shaft.normals| ==> shaft.normals[k] == trig.unit(CylinderOffset(start, end, rs, k / 2, 16, trig))
    requires forall k :: 0 <= k < |shaft.indices| ==> shaft.indices[k] == CylinderIndex(k)
    requires cone.positions[0] == tip && cone.normals[0] == trig.unit(Sub(tip, end))
    requires forall k :: 1 <= k < |cone.positions| ==> cone.positions[k] == Add(end, ConeOffset(end, tip, rc, k - 1, 16, trig))
    requires forall k :: 1 <= k < |cone.normals| ==> cone.normals[k] == ConeSideNormal(end, tip, rc, k - 1, 16, trig)
    requires forall k :: 0 <= k < |cone.indices| ==> cone.indices[k] == ConeIndex(k)
    ensures forall k :: 0 <= k < 34 ==>
      m.positions[k] == Add(if k % 2 == 0 then start else end, CylinderOffset(start, end, rs, k / 2, 16, trig)) &&
      m.normals[k] == trig.unit(CylinderOffset(start, end, rs, k / 2, 16, trig))
    ensures m.positions[34] == tip && m.normals[34] == trig.unit(Sub(tip, end))
    ensures forall k :: 35 <= k < 52 ==>
      m.positions[k] == Add(end, ConeOffset(end, tip, rc, k - 35, 16, trig)) &&
      m.normals[k] == ConeSideNormal(end, tip, rc, k - 35, 16, trig)
    ensures forall k :: 0 <= k < 96 ==> m.indices[k] == CylinderIndex(k)
    ensures forall k :: 96 <= k < 144 ==> m.indices[k] == ConeIndex(k - 96) + 34
  {
    PairAt(shaft, cone, m);
    forall k | 35 <= k < 52
      ensures m.positions[k] == Add(end, ConeOffset(end, tip, rc, k - 35, 16, trig))
      ensures m.normals[k] == ConeSideNormal(end, tip, rc, k - 35, 16, trig)
    {
      var j := k - 34;
      assert m.positions[k] == cone.positions[j] && m.normals[k] == cone.normals[j];
      assert j - 1 == k - 35;
    }
  }

  /** Where each buffer element of two combined meshes comes from. */
  lemma PairAt(a: Mesh, b: Mesh, m: Mesh)
    requires m == Mesh(a.positions + b.positions, a.normals + b.normals, a.indices + Shifted(b.indices, |a.positions|))
    requires |a.normals| == |a.positions|
    ensures forall k :: 0 <= k < |a.positions| ==> m.positions[k] == a.positions[k] && m.normals[k] == a.normals[k]
    ensures forall k :: |a.positions| <= k < |m.positions| ==>
      m.positions[k] == b.positions[k - |a.positions|] && (k < |m.normals| ==> m.normals[k] == b.normals[k - |a.positions|])
    ensures forall k :: 0 <= k < |a.indices| ==> m.indices[k] == a.indices[k]
    ensures forall k :: |a.indices| <= k < |m.indices| ==> m.indices[k] == b.indices[k - |a.indices|] + |a.positions|
  {
  }
}
