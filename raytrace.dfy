/**
 * Ray tracing of the light rays: the Moller-Trumbore ray/triangle test, the closest-hit
 * scan over the triangles of the loaded model, and the bounded bounce loop that turns one
 * light ray into reflected segments.
 */
module RayTracing {
  import opened Wrappers
  import opened Geometry

  // ---------------------------------------------------------------- Moller-Trumbore

  /** The intermediate quantities of the test: the determinant `a` and the unscaled
      numerators of u, v and t. */
  datatype Solve = Solve(a: real, uNum: real, vNum: real, tNum: real)

  function Solved(rayStart: Vec3, rayDir: Vec3, v0: Vec3, v1: Vec3, v2: Vec3): Solve {
    var edge1, edge2 := Sub(v1, v0), Sub(v2, v0);
    var h := Cross(rayDir, edge2);
    var s := Sub(rayStart, v0);
    var q := Cross(s, edge1);
    Solve(Dot(edge1, h), Dot(s, h), Dot(rayDir, q), Dot(edge2, q))
  }

  /** The barycentric and ray parameters of a non-degenerate test, each f = 1 / a times its
      numerator. */
  function U(m: Solve): real requires m.a != 0.0 { 1.0 / m.a * m.uNum }
  function V(m: Solve): real requires m.a != 0.0 { 1.0 / m.a * m.vNum }
  function T(m: Solve): real requires m.a != 0.0 { 1.0 / m.a * m.tNum }

  /** RayTriangleIntersection, step by step as the viewer checks it: a near-zero determinant,
      u outside [0, 1], v negative or u + v above 1, and t outside (0.0001, maxDistance] all
      reject. */
  function RayTriangleIntersection(rayStart: Vec3, rayDir: Vec3, v0: Vec3, v1: Vec3, v2: Vec3, maxDistance: real): Option<Vec3> {
    var m := Solved(rayStart, rayDir, v0, v1, v2);
    if Abs(m.a) < 0.0001 then None
    else
      var u := U(m);
      if u < 0.0 || u > 1.0 then None
      else
        var v := V(m);
        if v < 0.0 || u + v > 1.0 then None
        else
          var t := T(m);
          if t > 0.0001 && t <= maxDistance then Some(Add(rayStart, Scale(rayDir, t))) else None
  }

  /** The test accepts exactly when the determinant is not near zero, the barycentric
      coordinates (1 - u - v, u, v) are all non-negative with u <= 1, and the ray parameter
      lies in (0.0001, maxDistance]; the point returned is rayStart + rayDir * t. */
  lemma RayTriangleAccepts(rayStart: Vec3, rayDir: Vec3, v0: Vec3, v1: Vec3, v2: Vec3, maxDistance: real)
    ensures var m := Solved(rayStart, rayDir, v0, v1, v2);
      RayTriangleIntersection(rayStart, rayDir, v0, v1, v2, maxDistance).Some? <==>
        Abs(m.a) >= 0.0001 && 0.0 <= U(m) <= 1.0 && V(m) >= 0.0 && U(m) + V(m) <= 1.0 &&
        0.0001 < T(m) <= maxDistance
    ensures var m := Solved(rayStart, rayDir, v0, v1, v2);
      RayTriangleIntersection(rayStart, rayDir, v0, v1, v2, maxDistance).Some? ==>
        RayTriangleIntersection(rayStart, rayDir, v0, v1, v2, maxDistance).value == Add(rayStart, Scale(rayDir, T(m)))
  {
    var m := Solved(rayStart, rayDir, v0, v1, v2);
    if Abs(m.a) >= 0.0001 {
      assert m.a != 0.0;
    }
  }

  /** The point the test returns lies in the triangle: it is v0 + u (v1 - v0) + v (v2 - v0),
      the same point the ray reaches at t (Cramer's rule for the 3 x 3 system). */
  lemma HitIsOnTriangle(rayStart: Vec3, rayDir: Vec3, v0: Vec3, v1: Vec3, v2: Vec3, maxDistance: real)
    requires RayTriangleIntersection(rayStart, rayDir, v0, v1, v2, maxDistance).Some?
    ensures var m := Solved(rayStart, rayDir, v0, v1, v2);
      RayTriangleIntersection(rayStart, rayDir, v0, v1, v2, maxDistance).value ==
        Add(v0, Add(Scale(Sub(v1, v0), U(m)), Scale(Sub(v2, v0), V(m))))
  {
    RayTriangleAccepts(rayStart, rayDir, v0, v1, v2, maxDistance);
    var m := Solved(rayStart, rayDir, v0, v1, v2);
    assert m.a != 0.0;
    CramerSolved(rayStart, rayDir, v0, v1, v2);
    BarycentricPoint(rayStart, rayDir, v0, v1, v2, m);
  }

  /** The linear system the test solves, a (rayStart - v0) + tNum rayDir = uNum e1 + vNum e2,
      one equation per axis. */
  predicate Cramer(rayStart: Vec3, rayDir: Vec3, v0: Vec3, v1: Vec3, v2: Vec3, m: Solve) {
    CramerAlong(rayStart, rayDir, v0, v1, v2, m, X) &&
    CramerAlong(rayStart, rayDir, v0, v1, v2, m, Y) &&
    CramerAlong(rayStart, rayDir, v0, v1, v2, m, Z)
  }

  predicate CramerAlong(rayStart: Vec3, rayDir: Vec3, v0: Vec3, v1: Vec3, v2: Vec3, m: Solve, ax: Axis) {
    m.a * Component(Sub(rayStart, v0), ax) + m.tNum * Component(rayDir, ax) ==
      m.uNum * Component(Sub(v1, v0), ax) + m.vNum * Component(Sub(v2, v0), ax)
  }

  /** Any solution of the system, divided through by a, puts rayStart + rayDir t at
      v0 + u e1 + v e2. */
  lemma BarycentricPoint(rayStart: Vec3, rayDir: Vec3, v0: Vec3, v1: Vec3, v2: Vec3, m: Solve)
    requires m.a != 0.0 && Cramer(rayStart, rayDir, v0, v1, v2, m)
    ensures Add(rayStart, Scale(rayDir, T(m))) == Add(v0, Add(Scale(Sub(v1, v0), U(m)), Scale(Sub(v2, v0), V(m))))
  {
    var s, e1, e2 := Sub(rayStart, v0), Sub(v1, v0), Sub(v2, v0);
    assert CramerAlong(rayStart, rayDir, v0, v1, v2, m, X) && CramerAlong(rayStart, rayDir, v0, v1, v2, m, Y) &&
           CramerAlong(rayStart, rayDir, v0, v1, v2, m, Z);
    BarycentricComponent(rayStart.x, s.x, rayDir.x, v0.x, e1.x, e2.x, m.a, m.uNum, m.vNum, m.tNum);
    BarycentricComponent(rayStart.y, s.y, rayDir.y, v0.y, e1.y, e2.y, m.a, m.uNum, m.vNum, m.tNum);
    BarycentricComponent(rayStart.z, s.z, rayDir.z, v0.z, e1.z, e2.z, m.a, m.uNum, m.vNum, m.tNum);
  }

  /** The quantities Solved computes solve the system. */
  lemma CramerSolved(rayStart: Vec3, rayDir: Vec3, v0: Vec3, v1: Vec3, v2: Vec3)
    ensures Cramer(rayStart, rayDir, v0, v1, v2, Solved(rayStart, rayDir, v0, v1, v2))
  {
    CramerSolvedAlong(rayStart, rayDir, v0, v1, v2, X);
    CramerSolvedAlong(rayStart, rayDir, v0, v1, v2, Y);
    CramerSolvedAlong(rayStart, rayDir, v0, v1, v2, Z);
  }

  // Cramer's rule along each axis for the determinant a = e1 . (d x e2) and the numerators
  // uNum = s . (d x e2), vNum = d . (s x e1) and tNum = e2 . (s x e1).

  lemma CramerSolvedAlong(rayStart: Vec3, rayDir: Vec3, v0: Vec3, v1: Vec3, v2: Vec3, ax: Axis)
    ensures CramerAlong(rayStart, rayDir, v0, v1, v2, Solved(rayStart, rayDir, v0, v1, v2), ax)
  {
    match ax
    case X => CramerX(rayStart, rayDir, v0, v1, v2);
    case Y => CramerY(rayStart, rayDir, v0, v1, v2);
    case Z => CramerZ(rayStart, rayDir, v0, v1, v2);
  }

  lemma CramerX(rayStart: Vec3, rayDir: Vec3, v0: Vec3, v1: Vec3, v2: Vec3)
    ensures CramerAlong(rayStart, rayDir, v0, v1, v2, Solved(rayStart, rayDir, v0, v1, v2), X)
  {
  }

  lemma CramerY(rayStart: Vec3, rayDir: Vec3, v0: Vec3, v1: Vec3, v2: Vec3)
    ensures CramerAlong(rayStart, rayDir, v0, v1, v2, Solved(rayStart, rayDir, v0, v1, v2), Y)
  {
  }

  lemma CramerZ(rayStart: Vec3, rayDir: Vec3, v0: Vec3, v1: Vec3, v2: Vec3)
    ensures CramerAlong(rayStart, rayDir, v0, v1, v2, Solved(rayStart, rayDir, v0, v1, v2), Z)
  {
  }

  /** One coordinate of Cramer's rule, divided through by the determinant. */
  lemma BarycentricComponent(r: real, s: real, d: real, v0: real, e1: real, e2: real, a: real, uN: real, vN: real, tN: real)
    requires a != 0.0 && s == r - v0 && a * s + tN * d == uN * e1 + vN * e2
    ensures r + d * (1.0 / a * tN) == v0 + (e1 * (1.0 / a * uN) + e2 * (1.0 / a * vN))
  {
    var f := 1.0 / a;
    assert f * a == 1.0;
    calc {
      r + d * (f * tN);
      == v0 + (f * (a * s) + f * (tN * d));
      == v0 + f * (a * s + tN * d);
      == v0 + f * (uN * e1 + vN * e2);
      == v0 + (e1 * (f * uN) + e2 * (f * vN));
    }
  }

  /** A triangle whose first two corners coincide is never hit. */
  lemma DegenerateTriangleMisses(rayStart: Vec3, rayDir: Vec3, v0: Vec3, v2: Vec3, maxDistance: real)
    ensures RayTriangleIntersection(rayStart, rayDir, v0, v0, v2, maxDistance).None?
  {
    assert Solved(rayStart, rayDir, v0, v0, v2).a == 0.0;
  }

  // ---------------------------------------------------------------- closest hit

  datatype Triangle = Triangle(p0: Vec3, p1: Vec3, p2: Vec3)

  /** A leaf mesh of the loaded model, its positions already placed in world space; either
      buffer may be null. */
  datatype PlacedMesh = PlacedMesh(positions: Option<seq<Vec3>>, indices: Option<seq<int>>)

  /** Triangle k of a mesh: indices 3k, 3k + 1, 3k + 2, or nothing when one of them is past
      the positions. */
  function TriangleAt(positions: seq<Vec3>, indices: seq<int>, k: nat): Option<Triangle>
    requires 3 * k + 2 < |indices|
  {
    var i0, i1, i2 := indices[3 * k], indices[3 * k + 1], indices[3 * k + 2];
    if 0 <= i0 < |positions| && 0 <= i1 < |positions| && 0 <= i2 < |positions| then
      Some(Triangle(positions[i0], positions[i1], positions[i2]))
    else None
  }

  /** The whole triangles a mesh contributes, in index-buffer order. */
  function TrianglesOf(mesh: PlacedMesh): seq<Option<Triangle>> {
    if mesh.positions.None? || mesh.indices.None? then []
    else
      var n := |mesh.indices.value| / 3;
      seq(n, k requires 0 <= k < n => TriangleAt(mesh.positions.value, mesh.indices.value, k))
  }

  /** The triangle's normal, unit(e1 x e2), turned to face against the ray. */
  function FacingNormal(tri: Triangle, rayDir: Vec3, trig: Trig): Vec3 {
    var normal := trig.unit(Cross(Sub(tri.p1, tri.p0), Sub(tri.p2, tri.p0)));
    if Dot(normal, rayDir) > 0.0 then Neg(normal) else normal
  }

  lemma FacingNormalFacesRay(tri: Triangle, rayDir: Vec3, trig: Trig)
    ensures Dot(FacingNormal(tri, rayDir, trig), rayDir) <= 0.0
  {
  }

  /** What an intersection query reports: the hit point and the normal facing the ray. */
  datatype HitRecord = HitRecord(point: Vec3, normal: Vec3)

  /** The ray query: start, unit direction and the longest distance that counts. */
  datatype Ray = Ray(start: Vec3, dir: Vec3, maxDistance: real)

  /** The closest hit found so far: its distance and, once one is found, point and normal. */
  datatype Closest = Closest(distance: real, hit: Option<Vec3>, normal: Option<Vec3>)

  /** `double.MaxValue`, the distance the search starts from. */
  const DoubleMax: real := 179769313486231570000000000000000000000000000000000000000000000000000000000000000000000000000000000000000000000000000000000000000000000000000000000000000000000000000000000000000000000000000000000000000000000000000000000000000000000000000000000000000000000000000000000000000000000000000000000000000000.0

  const NoHit: Closest := Closest(DoubleMax, None, None)

  /** The distance at which a triangle counts as a hit: the test accepts it and the hit is
      farther than 0.0001 from the ray start. */
  function CandidateDistance(ray: Ray, tri: Option<Triangle>, trig: Trig): Option<real> {
    if tri.None? then None
    else
      var hit := RayTriangleIntersection(ray.start, ray.dir, tri.value.p0, tri.value.p1, tri.value.p2, ray.maxDistance);
      if hit.None? then None
      else
        var distance := trig.length(Sub(hit.value, ray.start));
        if distance > 0.0001 then Some(distance) else None
  }

  /** One step of the scan: a candidate strictly closer than the best so far replaces it. */
  function Step(c: Closest, ray: Ray, tri: Option<Triangle>, trig: Trig): Closest {
    var d := CandidateDistance(ray, tri, trig);
    if d.Some? && d.value < c.distance then
      var t := tri.value;
      Closest(d.value, RayTriangleIntersection(ray.start, ray.dir, t.p0, t.p1, t.p2, ray.maxDistance),
              Some(FacingNormal(t, ray.dir, trig)))
    else c
  }

  /** The scan over a sequence of triangles, from the first. */
  function Fold(tris: seq<Option<Triangle>>, c: Closest, ray: Ray, trig: Trig): Closest
    decreases |tris|
  {
    if |tris| == 0 then c else Fold(tris[1..], Step(c, ray, tris[0], trig), ray, trig)
  }

  /** Scanning a prefix and then the rest is scanning the whole. */
  lemma {:induction false} FoldAppend(a: seq<Option<Triangle>>, b: seq<Option<Triangle>>, c: Closest, ray: Ray, trig: Trig)
    ensures Fold(a + b, c, ray, trig) == Fold(b, Fold(a, c, ray, trig), ray, trig)
    decreases |a|
  {
    if |a| > 0 {
      assert (a + b)[0] == a[0];
      assert (a + b)[1..] == a[1..] + b;
      FoldAppend(a[1..], b, Step(c, ray, a[0], trig), ray, trig);
    } else {
      assert a + b == b;
    }
  }

  /** The scan never ends farther than where it started, nor farther than any candidate. */
  lemma {:induction false} FoldIsMinimal(tris: seq<Option<Triangle>>, c: Closest, ray: Ray, trig: Trig)
    ensures Fold(tris, c, ray, trig).distance <= c.distance
    ensures forall k :: 0 <= k < |tris| && CandidateDistance(ray, tris[k], trig).Some? ==>
      Fold(tris, c, ray, trig).distance <= CandidateDistance(ray, tris[k], trig).value
    decreases |tris|
  {
    if |tris| > 0 {
      var next := Step(c, ray, tris[0], trig);
      FoldIsMinimal(tris[1..], next, ray, trig);
      assert forall k :: 1 <= k < |tris| ==> tris[k] == tris[1..][k - 1];
    }
  }

  /** The scan either keeps what it started with or ends on the first candidate at the final
      distance, every earlier candidate being strictly farther; the recorded point is that
      triangle's hit and the normal faces the ray. */
  lemma {:induction false} FoldWitness(tris: seq<Option<Triangle>>, c: Closest, ray: Ray, trig: Trig)
    ensures var r := Fold(tris, c, ray, trig);
      r == c ||
      exists k :: 0 <= k < |tris| && tris[k].Some? && CandidateDistance(ray, tris[k], trig) == Some(r.distance) &&
        r.distance < c.distance &&
        r.hit == RayTriangleIntersection(ray.start, ray.dir, tris[k].value.p0, tris[k].value.p1, tris[k].value.p2, ray.maxDistance) &&
        r.hit.Some? && r.normal == Some(FacingNormal(tris[k].value, ray.dir, trig)) &&
        forall j :: 0 <= j < k && CandidateDistance(ray, tris[j], trig).Some? ==>
          CandidateDistance(ray, tris[j], trig).value > r.distance
    decreases |tris|
  {
    if |tris| > 0 {
      var next := Step(c, ray, tris[0], trig);
      var t := tris[1..];
      FoldWitness(t, next, ray, trig);
      FoldIsMinimal(t, next, ray, trig);
      var r := Fold(tris, c, ray, trig);
      assert r == Fold(t, next, ray, trig);
      assert forall k :: 1 <= k < |tris| ==> tris[k] == t[k - 1];
      if r == next {
        if next != c {
          assert CandidateDistance(ray, tris[0], trig) == Some(r.distance);
        }
      } else {
        var k :| 0 <= k < |t| && t[k].Some? && CandidateDistance(ray, t[k], trig) == Some(r.distance) &&
          r.distance < next.distance &&
          r.hit == RayTriangleIntersection(ray.start, ray.dir, t[k].value.p0, t[k].value.p1, t[k].value.p2, ray.maxDistance) &&
          r.hit.Some? && r.normal == Some(FacingNormal(t[k].value, ray.dir, trig)) &&
          forall j :: 0 <= j < k && CandidateDistance(ray, t[j], trig).Some? ==>
            CandidateDistance(ray, t[j], trig).value > r.distance;
        assert tris[k + 1] == t[k];
        assert next.distance <= c.distance;
        forall j | 0 <= j < k + 1 && CandidateDistance(ray, tris[j], trig).Some?
          ensures CandidateDistance(ray, tris[j], trig).value > r.distance
        {
          if j > 0 { assert tris[j] == t[j - 1]; }
        }
      }
    }
  }

  predicate NonNegative(indices: seq<int>) {
    forall k :: 0 <= k < |indices| ==> indices[k] >= 0
  }

  /** The triangle loop of FindIntersectionsInModel over one leaf mesh, updating the closest
      hit passed by reference. A negative index would throw in the source, so none is
      allowed. */
  method ScanTriangles(mesh: PlacedMesh, ray: Ray, trig: Trig, closest: Closest) returns (result: Closest)
    requires mesh.indices.Some? ==> NonNegative(mesh.indices.value)
    ensures result == Fold(TrianglesOf(mesh), closest, ray, trig)
  {
    result := closest;
    if mesh.positions.Some? && mesh.indices.Some? {
      var positions, indices := mesh.positions.value, mesh.indices.value;
      ghost var tris := TrianglesOf(mesh);
      ghost var k := 0;
      var i := 0;
      while i < |indices|
        invariant i == 3 * k && 0 <= k <= |tris| + 1
        invariant k <= |tris| ==> Fold(tris, closest, ray, trig) == Fold(tris[k..], result, ray, trig)
        invariant k > |tris| ==> Fold(tris, closest, ray, trig) == result
        decreases |indices| - i
      {
        if i + 2 < |indices| {
          assert k < |tris| && tris[k] == TriangleAt(positions, indices, k);
          FoldOneStep(tris, k, result, ray, trig);
          assert i / 3 == k;
          result := TestTriangle(positions, indices, i, ray, trig, result);
        } else {
          assert k == |tris|;
        }
        i := i + 3;
        k := k + 1;
      }
      if k == |tris| {
        assert tris[k..] == [];
      }
    }
  }

  /** The body of the triangle loop for the triangle at indices i, i + 1, i + 2. */
  method TestTriangle(positions: seq<Vec3>, indices: seq<int>, i: nat, ray: Ray, trig: Trig, closest: Closest)
    returns (result: Closest)
    requires i % 3 == 0 && i + 2 < |indices| && NonNegative(indices)
    ensures result == Step(closest, ray, TriangleAt(positions, indices, i / 3), trig)
  {
    result := closest;
    var i0, i1, i2 := indices[i], indices[i + 1], indices[i + 2];
    if i0 < |positions| && i1 < |positions| && i2 < |positions| {
      var p0, p1, p2 := positions[i0], positions[i1], positions[i2];
      var hit := RayTriangleIntersection(ray.start, ray.dir, p0, p1, p2, ray.maxDistance);
      if hit.Some? {
        var distance := trig.length(Sub(hit.value, ray.start));
        if distance < result.distance && distance > 0.0001 {
          result := Closest(distance, hit, Some(FacingNormal(Triangle(p0, p1, p2), ray.dir, trig)));
        }
      }
    }
  }

  lemma FoldOneStep(tris: seq<Option<Triangle>>, k: nat, c: Closest, ray: Ray, trig: Trig)
    requires k < |tris|
    ensures Fold(tris[k..], c, ray, trig) == Fold(tris[k + 1..], Step(c, ray, tris[k], trig), ray, trig)
  {
    assert tris[k..][1..] == tris[k + 1..];
  }

  /** Every triangle of every leaf, leaf by leaf. */
  function AllTriangles(leaves: seq<PlacedMesh>): seq<Option<Triangle>> {
    if |leaves| == 0 then [] else AllTriangles(leaves[..|leaves| - 1]) + TrianglesOf(leaves[|leaves| - 1])
  }

  /** FindRayIntersection: nothing without a loaded model; otherwise the closest hit over all
      leaves, starting from `double.MaxValue`, with its normal. */
  method FindRayIntersection(loaded: bool, leaves: seq<PlacedMesh>, ray: Ray, trig: Trig)
    returns (result: Option<HitRecord>)
    requires forall l :: 0 <= l < |leaves| && leaves[l].indices.Some? ==> NonNegative(leaves[l].indices.value)
    ensures !loaded ==> result.None?
    ensures loaded ==> var c := Fold(AllTriangles(leaves), NoHit, ray, trig);
      result == if c.hit.Some? && c.normal.Some? then Some(HitRecord(c.hit.value, c.normal.value)) else None
  {
    if !loaded {
      return None;
    }
    var closest := NoHit;
    var l := 0;
    while l < |leaves|
      invariant 0 <= l <= |leaves|
      invariant closest == Fold(AllTriangles(leaves[..l]), NoHit, ray, trig)
    {
      assert leaves[..l + 1][..l] == leaves[..l];
      closest := ScanTriangles(leaves[l], ray, trig, closest);
      FoldAppend(AllTriangles(leaves[..l]), TrianglesOf(leaves[l]), NoHit, ray, trig);
      l := l + 1;
    }
    assert leaves[..l] == leaves;
    if closest.hit.Some? && closest.normal.Some? {
      result := Some(HitRecord(closest.hit.value, closest.normal.value));
    } else {
      result := None;
    }
  }

  /** A hit that FindRayIntersection reports is the hit of some triangle of the model, no
      candidate is closer, and its normal faces the ray; nothing is reported exactly when no
      triangle is a candidate closer than `double.MaxValue`. */
  lemma ClosestHitMeaning(leaves: seq<PlacedMesh>, ray: Ray, trig: Trig)
    ensures var tris, c := AllTriangles(leaves), Fold(AllTriangles(leaves), NoHit, ray, trig);
      (c.hit.None? <==> forall k :: 0 <= k < |tris| && CandidateDistance(ray, tris[k], trig).Some? ==>
                          CandidateDistance(ray, tris[k], trig).value >= DoubleMax) &&
      (c.hit.Some? ==>
         (c.normal.Some? && Dot(c.normal.value, ray.dir) <= 0.0 &&
          (forall k :: 0 <= k < |tris| && CandidateDistance(ray, tris[k], trig).Some? ==>
             c.distance <= CandidateDistance(ray, tris[k], trig).value) &&
          exists k :: 0 <= k < |tris| && tris[k].Some? &&
            c.hit == RayTriangleIntersection(ray.start, ray.dir, tris[k].value.p0, tris[k].value.p1, tris[k].value.p2, ray.maxDistance) &&
            CandidateDistance(ray, tris[k], trig) == Some(c.distance)))
  {
    var tris := AllTriangles(leaves);
    FoldWitness(tris, NoHit, ray, trig);
    FoldIsMinimal(tris, NoHit, ray, trig);
    var c := Fold(tris, NoHit, ray, trig);
    if c != NoHit {
      var k :| 0 <= k < |tris| && tris[k].Some? && CandidateDistance(ray, tris[k], trig) == Some(c.distance) &&
        c.distance < NoHit.distance &&
        c.hit == RayTriangleIntersection(ray.start, ray.dir, tris[k].value.p0, tris[k].value.p1, tris[k].value.p2, ray.maxDistance) &&
        c.hit.Some? && c.normal == Some(FacingNormal(tris[k].value, ray.dir, trig)) &&
        forall j :: 0 <= j < k && CandidateDistance(ray, tris[j], trig).Some? ==>
          CandidateDistance(ray, tris[j], trig).value > c.distance;
      FacingNormalFacesRay(tris[k].value, ray.dir, trig);
    }
  }

  // ---------------------------------------------------------------- bounces

  /** One drawn piece of a light ray: its ends and the factor its colour is scaled by. */
  datatype RaySegment = RaySegment(from: Vec3, to: Vec3, attenuation: real)

  /** The intersection query against the scene: for a start, a unit direction and a length,
      the hit point and facing normal, if any. */
  type Oracle = (Vec3, Vec3, real) -> Option<HitRecord>

  function Pow(r: real, k: nat): real {
    if k == 0 then 1.0 else r * Pow(r, k - 1)
  }

  /** The mirror direction d - 2 (d . n) n, normalised. */
  function Reflect(dir: Vec3, normal: Vec3, trig: Trig): Vec3 {
    trig.unit(Sub(dir, Scale(normal, 2.0 * Dot(dir, normal))))
  }

  /** The segments the bounce loop draws from reflection number `reflection` on. */
  function Trace(start: Vec3, dir: Vec3, remaining: real, attenuation: real, reflection: int, maxReflections: int,
                 hitTest: Oracle, trig: Trig): seq<RaySegment>
    decreases maxReflections - reflection
  {
    if !(reflection <= maxReflections && remaining > 0.1) then []
    else
      var hit := hitTest(start, dir, remaining);
      if hit.None? then [RaySegment(start, Add(start, Scale(dir, remaining)), attenuation)]
      else
        var point, normal := hit.value.point, hit.value.normal;
        [RaySegment(start, point, attenuation)] +
        Trace(Add(point, Scale(normal, 0.01)), Reflect(dir, normal, trig), remaining - trig.length(Sub(point, start)),
              attenuation * 0.7, reflection + 1, maxReflections, hitTest, trig)
  }

  /** GenerateRayWithReflections: nothing without a loaded model; otherwise the traced
      segments of a ray of unit direction starting at full colour. */
  method GenerateRayWithReflections(loaded: bool, start: Vec3, direction: Vec3, maxLength: real, maxReflections: int,
                                    hitTest: Oracle, trig: Trig) returns (segments: seq<RaySegment>)
    ensures !loaded ==> segments == []
    ensures loaded ==> segments == Trace(start, trig.unit(direction), maxLength, 1.0, 0, maxReflections, hitTest, trig)
  {
    segments := [];
    if !loaded {
      return;
    }
    var currentStart := start;
    var currentDir := trig.unit(direction);
    var remainingLength := maxLength;
    var attenuation := 1.0;
    var reflection := 0;
    while reflection <= maxReflections && remainingLength > 0.1
      invariant segments + Trace(currentStart, currentDir, remainingLength, attenuation, reflection, maxReflections, hitTest, trig)
             == Trace(start, trig.unit(direction), maxLength, 1.0, 0, maxReflections, hitTest, trig)
      decreases maxReflections - reflection
    {
      var end := Add(currentStart, Scale(currentDir, remainingLength));
      var hit := hitTest(currentStart, currentDir, remainingLength);
      if hit.Some? {
        var hitPoint, hitNormal := hit.value.point, hit.value.normal;
        segments := segments + [RaySegment(currentStart, hitPoint, attenuation)];
        var reflectedDir := Reflect(currentDir, hitNormal, trig);
        var traveledDistance := trig.length(Sub(hitPoint, currentStart));
        remainingLength := remainingLength - traveledDistance;
        currentStart := Add(hitPoint, Scale(hitNormal, 0.01));
        currentDir := reflectedDir;
        attenuation := attenuation * 0.7;
      } else {
        segments := segments + [RaySegment(currentStart, end, attenuation)];
        return;
      }
      reflection := reflection + 1;
    }
  }

  /** At most one segment per allowed reflection, plus the first. */
  lemma {:induction false} TraceIsBounded(start: Vec3, dir: Vec3, remaining: real, attenuation: real, reflection: int,
                                          maxReflections: int, hitTest: Oracle, trig: Trig)
    ensures |Trace(start, dir, remaining, attenuation, reflection, maxReflections, hitTest, trig)|
            <= if reflection <= maxReflections then maxReflections - reflection + 1 else 0
    decreases maxReflections - reflection
  {
    if reflection <= maxReflections && remaining > 0.1 && hitTest(start, dir, remaining).Some? {
      var hit := hitTest(start, dir, remaining).value;
      var next, nextDir := Add(hit.point, Scale(hit.normal, 0.01)), Reflect(dir, hit.normal, trig);
      var left := remaining - trig.length(Sub(hit.point, start));
      TraceIsBounded(next, nextDir, left, attenuation * 0.7, reflection + 1, maxReflections, hitTest, trig);
      TraceContinues(start, dir, remaining, attenuation, reflection, maxReflections, hitTest, trig);
    }
  }

  /** attenuation * 0.7^k, one factor of 0.7 per reflection. */
  function Faded(attenuation: real, k: nat): real {
    if k == 0 then attenuation else 0.7 * Faded(attenuation, k - 1)
  }

  /** Segment k of `s` is drawn at `attenuation` faded k times. */
  predicate Attenuated(s: seq<RaySegment>, attenuation: real) {
    forall k :: 0 <= k < |s| ==> s[k].attenuation == Faded(attenuation, k)
  }

  /** Segment k is drawn at 0.7^k of the starting colour. */
  lemma {:induction false} TraceAttenuation(start: Vec3, dir: Vec3, remaining: real, attenuation: real, reflection: int,
                                            maxReflections: int, hitTest: Oracle, trig: Trig)
    ensures Attenuated(Trace(start, dir, remaining, attenuation, reflection, maxReflections, hitTest, trig), attenuation)
    decreases maxReflections - reflection
  {
    if reflection <= maxReflections && remaining > 0.1 {
      var hit := hitTest(start, dir, remaining);
      if hit.Some? {
        var point, normal := hit.value.point, hit.value.normal;
        var rest := Trace(Add(point, Scale(normal, 0.01)), Reflect(dir, normal, trig), remaining - trig.length(Sub(point, start)),
                          attenuation * 0.7, reflection + 1, maxReflections, hitTest, trig);
        TraceAttenuation(Add(point, Scale(normal, 0.01)), Reflect(dir, normal, trig), remaining - trig.length(Sub(point, start)),
                         attenuation * 0.7, reflection + 1, maxReflections, hitTest, trig);
        TraceContinues(start, dir, remaining, attenuation, reflection, maxReflections, hitTest, trig);
        AttenuationShift(RaySegment(start, point, attenuation), rest, attenuation);
      }
    }
  }

  lemma AttenuationShift(first: RaySegment, rest: seq<RaySegment>, attenuation: real)
    requires first.attenuation == attenuation && Attenuated(rest, attenuation * 0.7)
    ensures Attenuated([first] + rest, attenuation)
  {
    var s := [first] + rest;
    forall k | 0 <= k < |s| ensures s[k].attenuation == Faded(attenuation, k) {
      if k > 0 {
        assert s[k] == rest[k - 1];
        FadedShift(attenuation, k - 1);
      }
    }
  }

  /** Fading an already faded colour k times is fading the original k + 1 times. */
  lemma {:induction false} FadedShift(attenuation: real, k: nat)
    ensures Faded(attenuation * 0.7, k) == Faded(attenuation, k + 1)
  {
    if k > 0 {
      FadedShift(attenuation, k - 1);
    }
  }

  /** Faded is the closed form attenuation * 0.7^k. */
  lemma {:induction false} FadedIsPower(attenuation: real, k: nat)
    ensures Faded(attenuation, k) == attenuation * Pow(0.7, k)
  {
    if k > 0 {
      FadedIsPower(attenuation, k - 1);
      MulSwap(attenuation, Pow(0.7, k - 1));
    }
  }

  lemma MulSwap(a: real, p: real)
    ensures 0.7 * (a * p) == a * (0.7 * p)
  {
  }

  /** A ray whose first query misses is drawn as one segment of full length, and the loop stops. */
  lemma FirstMissIsOneSegment(start: Vec3, dir: Vec3, maxLength: real, maxReflections: int, hitTest: Oracle, trig: Trig)
    requires maxReflections >= 0 && maxLength > 0.1 && hitTest(start, dir, maxLength).None?
    ensures Trace(start, dir, maxLength, 1.0, 0, maxReflections, hitTest, trig) ==
      [RaySegment(start, Add(start, Scale(dir, maxLength)), 1.0)]
  {
  }

  /** Each segment except a final miss ends on the point the query hit, and the next one
      starts 0.01 along that hit's normal with the remaining length reduced by the
      distance travelled. */
  lemma TraceContinues(start: Vec3, dir: Vec3, remaining: real, attenuation: real, reflection: int,
                       maxReflections: int, hitTest: Oracle, trig: Trig)
    requires reflection <= maxReflections && remaining > 0.1 && hitTest(start, dir, remaining).Some?
    ensures var point, normal := hitTest(start, dir, remaining).value.point, hitTest(start, dir, remaining).value.normal;
      Trace(start, dir, remaining, attenuation, reflection, maxReflections, hitTest, trig) ==
        [RaySegment(start, point, attenuation)] +
        Trace(Add(point, Scale(normal, 0.01)), Reflect(dir, normal, trig), remaining - trig.length(Sub(point, start)),
              attenuation * 0.7, reflection + 1, maxReflections, hitTest, trig)
  {
  }
}
