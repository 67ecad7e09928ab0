/**
 * Points and vectors of the scene, modelled exactly over `real`, the three gizmo axes,
 * and the numeric collaborators (sine, cosine, normalisation, length) that the viewer
 * takes from the .NET runtime and that this model leaves uninterpreted.
 */
module Geometry {

  /** A `Point3D` or a `Vector3D`. */
  datatype Vec3 = Vec3(x: real, y: real, z: real)

  const Origin: Vec3 := Vec3(0.0, 0.0, 0.0)

  function Add(a: Vec3, b: Vec3): Vec3 { Vec3(a.x + b.x, a.y + b.y, a.z + b.z) }
  function Sub(a: Vec3, b: Vec3): Vec3 { Vec3(a.x - b.x, a.y - b.y, a.z - b.z) }
  function Scale(a: Vec3, k: real): Vec3 { Vec3(a.x * k, a.y * k, a.z * k) }
  function Neg(a: Vec3): Vec3 { Vec3(-a.x, -a.y, -a.z) }
  function Dot(a: Vec3, b: Vec3): real { a.x * b.x + a.y * b.y + a.z * b.z }
  function Cross(a: Vec3, b: Vec3): Vec3 {
    Vec3(a.y * b.z - a.z * b.y, a.z * b.x - a.x * b.z, a.x * b.y - a.y * b.x)
  }

  function Abs(r: real): real { if r < 0.0 then -r else r }

  /** The gizmo axes, written as the characters 'X', 'Y', 'Z' in the viewer. */
  datatype Axis = X | Y | Z

  /** The unit vector of an axis, as the `switch` on the axis character builds it. */
  function AxisVector(a: Axis): Vec3 {
    match a
    case X => Vec3(1.0, 0.0, 0.0)
    case Y => Vec3(0.0, 1.0, 0.0)
    case Z => Vec3(0.0, 0.0, 1.0)
  }

  /** The component of `v` along axis `a`. */
  function Component(v: Vec3, a: Axis): real {
    match a
    case X => v.x
    case Y => v.y
    case Z => v.z
  }

  /** The viewer's "same rotation axis" test: |axis . axis' - 1| < 0.01. */
  predicate SameAxis(a: Axis, b: Axis) {
    Abs(Dot(AxisVector(a), AxisVector(b)) - 1.0) < 0.01
  }

  /** On the three axis vectors the tolerance test is exactly equality of the axes. */
  lemma SameAxisTest(a: Axis, b: Axis)
    ensures SameAxis(a, b) <==> a == b
  {
    var d := Dot(AxisVector(a), AxisVector(b));
    assert d == if a == b then 1.0 else 0.0;
  }

  /**
   * Numeric collaborators. `cosStep(i, n)` and `sinStep(i, n)` stand for cos(2*pi*i/n) and
   * sin(2*pi*i/n), the angle every builder loop computes from its integer counter;
   * `cosDegrees(a)` and `sinDegrees(a)` stand for cos and sin of a * pi / 180; `unit`
   * stands for `Vector3D.Normalize` and `length` for `Vector3D.Length`.
   */
  datatype Trig = Trig(
    cosStep: (int, int) -> real,
    sinStep: (int, int) -> real,
    cosDegrees: real -> real,
    sinDegrees: real -> real,
    unit: Vec3 -> Vec3,
    length: Vec3 -> real)

  const WorldUp: Vec3 := Vec3(0.0, 1.0, 0.0)
  const WorldRight: Vec3 := Vec3(1.0, 0.0, 0.0)

  /** The up reference every builder uses: global up unless the direction is within the 0.9
      dot-product threshold of it, in which case global right. */
  function ReferenceUp(direction: Vec3): Vec3 {
    if Abs(Dot(direction, WorldUp)) > 0.9 then WorldRight else WorldUp
  }

  /** For a unit direction the chosen reference is never itself within the threshold,
      so the cross product that builds the frame is not degenerate. */
  lemma ReferenceUpIsStable(d: Vec3)
    requires Dot(d, d) == 1.0
    ensures Abs(Dot(d, ReferenceUp(d))) <= 0.9
  {
    if Abs(Dot(d, WorldUp)) > 0.9 {
      assert d.y * d.y > 0.81 by {
        if d.y >= 0.0 { assert d.y > 0.9; } else { assert -d.y > 0.9; assert d.y * d.y == (-d.y) * (-d.y); }
      }
      UnitComponentBound(d.x, d.y, d.z);
    }
  }

  /** With x^2 + y^2 + z^2 = 1 and y^2 > 0.81, |x| stays under 0.9. */
  lemma UnitComponentBound(x: real, y: real, z: real)
    requires x * x + y * y + z * z == 1.0
    requires y * y > 0.81
    ensures Abs(x) <= 0.9
  {
    assert z * z >= 0.0;
    SquareBound(x);
  }

  /** |r| <= 0.9 whenever r * r < 0.19. */
  lemma SquareBound(r: real)
    requires r * r < 0.19
    ensures Abs(r) <= 0.9
  {
    if Abs(r) > 0.9 {
      assert Abs(r) * Abs(r) > 0.81;
    }
  }

  /** The frame (right, up) around a direction: right = unit(direction x reference),
      up = unit(right x direction), as built by the cylinder, cone and ray-tube builders
      and as (right, forward) by the ring builder and the directional-light grid. */
  datatype Frame = Frame(right: Vec3, up: Vec3)

  function FrameAround(direction: Vec3, trig: Trig): Frame {
    var right := trig.unit(Cross(direction, ReferenceUp(direction)));
    Frame(right, trig.unit(Cross(right, direction)))
  }

  /** The point at step `i` of `n` on the circle of radius `radius` in a frame. */
  function CircleOffset(f: Frame, radius: real, i: int, n: int, trig: Trig): Vec3 {
    Add(Scale(f.right, radius * trig.cosStep(i, n)), Scale(f.up, radius * trig.sinStep(i, n)))
  }
}
