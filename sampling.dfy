/**
 * Where the light rays of a light source start and how they are laid out: the square grid
 * of a directional light, centred on the light's position in the plane across its
 * direction, and the concentric rings of a spot light, one ray fewer per ring.
 */
module Sampling {
  import opened Geometry
  import opened IntArith
  import opened RayTracing

  // ---------------------------------------------------------------- ceil(sqrt(n))

  /** (int)Math.Ceiling(Math.Sqrt(n)): the least g with g * g >= n. */
  function CeilSqrt(n: nat): (g: nat)
    ensures g * g >= n
    ensures g == 0 || (g - 1) * (g - 1) < n
  {
    CeilSqrtFrom(n, 0)
  }

  function CeilSqrtFrom(n: nat, g: nat): (r: nat)
    requires g == 0 || (g - 1) * (g - 1) < n
    ensures r * r >= n
    ensures r == 0 || (r - 1) * (r - 1) < n
    decreases n - g
  {
    if g * g >= n then g
    else
      assert g < n by {
        if g >= n && g >= 1 { MulAtLeast(g, g); }
      }
      CeilSqrtFrom(n, g + 1)
  }

  // ---------------------------------------------------------------- directional grid

  /** The spacing of the grid, in world units. */
  const Spacing: real := 2.0

  /** Column i % g and row i / g of ray i on a grid g wide. */
  function GridColumn(i: int, g: int): int requires g > 0 { i % g }
  function GridRow(i: int, g: int): int requires g > 0 { i / g }

  /** The offset of column or row c on a grid g wide: startOffset + c * spacing, with
      startOffset = -(g - 1) * spacing / 2. */
  function GridOffset(g: int, c: int): real {
    -((g - 1) as real) * Spacing / 2.0 + (c as real) * Spacing
  }

  /** The start of ray i: the light's position moved by the column offset along `right`
      and by the row offset along `forward`. */
  function GridStart(position: Vec3, frame: Frame, g: int, i: int): Vec3
    requires g > 0
  {
    Add(Add(position, Scale(frame.right, GridOffset(g, GridColumn(i, g)))), Scale(frame.up, GridOffset(g, GridRow(i, g))))
  }

  /** Each of the n rays falls in a cell of the g x g grid, g = ceil(sqrt(n)). */
  lemma GridCellInRange(n: nat, i: int)
    requires 0 <= i < n
    ensures CeilSqrt(n) > 0
    ensures 0 <= GridColumn(i, CeilSqrt(n)) < CeilSqrt(n) && 0 <= GridRow(i, CeilSqrt(n)) < CeilSqrt(n)
  {
    var g := CeilSqrt(n);
    QuotientBelow(i, g, g);
  }

  /** No two rays share a cell. */
  lemma GridCellInjective(g: int, i: int, j: int)
    requires g > 0 && 0 <= i && 0 <= j && i != j
    ensures GridColumn(i, g) != GridColumn(j, g) || GridRow(i, g) != GridRow(j, g)
  {
    assert i == GridRow(i, g) * g + GridColumn(i, g);
    assert j == GridRow(j, g) * g + GridColumn(j, g);
  }

  /** The grid is centred on the light: column c and column g - 1 - c lie at opposite
      offsets, and every cell lies within (g - 1) units of the centre. */
  lemma GridIsCentred(g: int, c: int)
    requires 0 <= c < g
    ensures GridOffset(g, g - 1 - c) == -GridOffset(g, c)
    ensures -((g - 1) as real) <= GridOffset(g, c) <= (g - 1) as real
  {
  }

  /** The directional case of GenerateRaysForLight: ray i starts at its grid cell and
      is traced along the normalised light direction with up to two reflections. The
      frame is (right, forward) around that direction. */
  method DirectionalRays(position: Vec3, direction: Vec3, rayCount: int, rayLength: real, loaded: bool,
                         hitTest: Oracle, trig: Trig) returns (rays: seq<seq<RaySegment>>)
    ensures |rays| == if rayCount > 0 then rayCount else 0
    ensures rayCount > 0 ==> forall i :: 0 <= i < |rays| ==>
      rays[i] == (if loaded then Trace(GridStart(position, FrameAround(trig.unit(direction), trig), CeilSqrt(rayCount), i),
                                       trig.unit(trig.unit(direction)), rayLength, 1.0, 0, 2, hitTest, trig)
                  else [])
  {
    rays := [];
    if rayCount <= 0 {
      return;
    }
    var gridSize := CeilSqrt(rayCount);
    var dir := trig.unit(direction);
    var frame := FrameAround(dir, trig);
    var i := 0;
    while i < rayCount
      invariant 0 <= i <= rayCount && |rays| == i && gridSize > 0
      invariant forall k :: 0 <= k < i ==>
        rays[k] == (if loaded then Trace(GridStart(position, frame, gridSize, k), trig.unit(dir), rayLength, 1.0, 0, 2, hitTest, trig)
                    else [])
    {
      var x := GridOffset(gridSize, i % gridSize);
      var z := GridOffset(gridSize, i / gridSize);
      var start := Add(Add(position, Scale(frame.right, x)), Scale(frame.up, z));
      var segments := GenerateRayWithReflections(loaded, start, dir, rayLength, 2, hitTest, trig);
      rays := rays + [segments];
      i := i + 1;
    }
  }

  // ---------------------------------------------------------------- spot rings

  /** One ray of a spot light: its ring, its place r in the ring and the ring's size, from
      which the ray's angle 2 pi r / raysInRing follows. */
  datatype SpotSlot = SpotSlot(ring: nat, r: nat, raysInRing: nat)

  /** The slots of ring `ring` of `perRing`: perRing - ring rays. */
  function RingSlots(perRing: nat, ring: nat): (s: seq<SpotSlot>)
    requires ring < perRing
    ensures |s| == perRing - ring
    ensures forall r :: 0 <= r < |s| ==> s[r] == SpotSlot(ring, r, perRing - ring)
  {
    seq(perRing - ring, r requires 0 <= r < perRing - ring => SpotSlot(ring, r, perRing - ring))
  }

  /** Every slot of the rings from `ring` on, ring by ring, when no ray count stops them. */
  function SlotsFrom(perRing: nat, ring: nat): seq<SpotSlot>
    decreases perRing - ring
  {
    if ring >= perRing then [] else RingSlots(perRing, ring) + SlotsFrom(perRing, ring + 1)
  }

  function Triangular(m: nat): nat { m * (m + 1) / 2 }

  /** The rings from `ring` on hold 1 + 2 + ... + (perRing - ring) slots. */
  lemma {:induction false} SlotsFromCount(perRing: nat, ring: nat)
    ensures |SlotsFrom(perRing, ring)| == if ring >= perRing then 0 else Triangular(perRing - ring)
    decreases perRing - ring
  {
    if ring < perRing {
      SlotsFromCount(perRing, ring + 1);
      var m := perRing - ring;
      assert (m - 1) * m + 2 * m == m * (m + 1);
    }
  }

  function Min(a: int, b: int): int { if a < b then a else b }

  /** The first n slots of `perRing` rings, or all of them when there are fewer. */
  function FirstSlots(perRing: nat, n: nat): seq<SpotSlot> {
    var all := SlotsFrom(perRing, 0);
    all[..Min(n, |all|)]
  }

  /** The spot layout of n rays: the first n slots of ceil(sqrt(n)) rings. */
  function SpotLayout(n: int): seq<SpotSlot> {
    if n <= 0 then [] else FirstSlots(CeilSqrt(n), n)
  }

  /** The spot case of GenerateRaysForLight: raysPerRing = ceil(sqrt(rayCount)) rings. */
  method SpotRays(rayCount: int) returns (slots: seq<SpotSlot>)
    ensures slots == SpotLayout(rayCount)
  {
    slots := [];
    if rayCount <= 0 {
      return;
    }
    slots := SpotRingLoops(CeilSqrt(rayCount), rayCount);
  }

  /** The ring loops of the spot case: ring 0 .. raysPerRing - 1 holding raysPerRing - ring
      rays, both loops stopping once rayCount rays exist. */
  method SpotRingLoops(raysPerRing: nat, rayCount: nat) returns (slots: seq<SpotSlot>)
    ensures slots == FirstSlots(raysPerRing, rayCount)
  {
    slots := [];
    ghost var all := SlotsFrom(raysPerRing, 0);
    ghost var rest := all;
    var rayIndex := 0;
    var ring := 0;
    while ring < raysPerRing && rayIndex < rayCount
      invariant 0 <= ring <= raysPerRing && 0 <= rayIndex <= rayCount && |slots| == rayIndex
      invariant all == slots + rest && rest == SlotsFrom(raysPerRing, ring)
      decreases raysPerRing - ring
    {
      var raysInRing := raysPerRing - ring;
      var r := 0;
      while r < raysInRing && rayIndex < rayCount
        invariant 0 <= r <= raysInRing && 0 <= rayIndex <= rayCount && |slots| == rayIndex
        invariant all == slots + rest && rest == RingSlots(raysPerRing, ring)[r..] + SlotsFrom(raysPerRing, ring + 1)
        decreases raysInRing - r
      {
        RingHead(raysPerRing, ring, r);
        AppendHead(slots, rest);
        slots := slots + [SpotSlot(ring, r, raysInRing)];
        rest := rest[1..];
        rayIndex := rayIndex + 1;
        r := r + 1;
      }
      if rayIndex == rayCount {
        PrefixOfAppend(slots, rest);
        return;
      }
      assert RingSlots(raysPerRing, ring)[r..] == [];
      ring := ring + 1;
    }
    if rayIndex == rayCount {
      PrefixOfAppend(slots, rest);
    } else {
      assert rest == [];
      assert all == slots;
    }
  }

  /** Taking the next slot of ring `ring` leaves the ring's later slots ahead of the later rings. */
  lemma RingHead(perRing: nat, ring: nat, r: nat)
    requires ring < perRing && r < perRing - ring
    ensures var rest := RingSlots(perRing, ring)[r..] + SlotsFrom(perRing, ring + 1);
      rest[0] == SpotSlot(ring, r, perRing - ring) &&
      rest[1..] == RingSlots(perRing, ring)[r + 1..] + SlotsFrom(perRing, ring + 1)
  {
    var a, b := RingSlots(perRing, ring)[r..], SlotsFrom(perRing, ring + 1);
    assert a[1..] == RingSlots(perRing, ring)[r + 1..];
    assert (a + b)[1..] == a[1..] + b;
  }

  lemma AppendHead<T>(a: seq<T>, b: seq<T>)
    requires |b| > 0
    ensures a + b == (a + [b[0]]) + b[1..]
  {
    assert b == [b[0]] + b[1..];
  }

  lemma PrefixOfAppend<T>(a: seq<T>, b: seq<T>)
    ensures (a + b)[..|a|] == a
  {
  }

  /** A spot light emits min(n, p (p + 1) / 2) rays, p = ceil(sqrt(n)); slot k of ring
      `ring` is the ring's k-th ray and the ring holds p - ring rays. */
  lemma SpotRayCount(n: int)
    requires n > 0
    ensures |SpotLayout(n)| == Min(n, Triangular(CeilSqrt(n)))
    ensures forall k :: 0 <= k < |SpotLayout(n)| ==>
      SpotLayout(n)[k].ring < CeilSqrt(n) && SpotLayout(n)[k].raysInRing == CeilSqrt(n) - SpotLayout(n)[k].ring &&
      SpotLayout(n)[k].r < SpotLayout(n)[k].raysInRing
  {
    var p := CeilSqrt(n);
    SlotsFromCount(p, 0);
    SlotsFromShape(p, 0);
  }

  lemma {:induction false} SlotsFromShape(perRing: nat, ring: nat)
    ensures forall k :: 0 <= k < |SlotsFrom(perRing, ring)| ==>
      var s := SlotsFrom(perRing, ring)[k];
      ring <= s.ring < perRing && s.raysInRing == perRing - s.ring && s.r < s.raysInRing
    decreases perRing - ring
  {
    if ring < perRing {
      SlotsFromShape(perRing, ring + 1);
      var a, b := RingSlots(perRing, ring), SlotsFrom(perRing, ring + 1);
      assert forall k :: |a| <= k < |a| + |b| ==> (a + b)[k] == b[k - |a|];
    }
  }

  /** The rings do not always reach the ray count: a spot light asked for 4 rays draws 3,
      one ring of 2 and one of 1. */
  lemma SpotShortfall()
    ensures |SpotLayout(4)| == 3
    ensures SpotLayout(4) == [SpotSlot(0, 0, 2), SpotSlot(0, 1, 2), SpotSlot(1, 0, 1)]
  {
    assert CeilSqrt(4) == 2 by {
      assert CeilSqrtFrom(4, 0) == CeilSqrtFrom(4, 1) == CeilSqrtFrom(4, 2) == 2;
    }
    assert SlotsFrom(2, 2) == [];
    assert SlotsFrom(2, 1) == [SpotSlot(1, 0, 1)];
    assert SlotsFrom(2, 0) == [SpotSlot(0, 0, 2), SpotSlot(0, 1, 2), SpotSlot(1, 0, 1)];
  }

  /** With the default of 10 rays nothing is lost: 4 rings of 4, 3, 2 and 1. */
  lemma SpotTenRays()
    ensures |SpotLayout(10)| == 10
    ensures SpotLayout(10) == SlotsFrom(4, 0)
    ensures SpotLayout(10) == RingSlots(4, 0) + RingSlots(4, 1) + RingSlots(4, 2) + RingSlots(4, 3)
  {
    assert CeilSqrt(10) == 4 by {
      assert CeilSqrtFrom(10, 0) == CeilSqrtFrom(10, 1) == CeilSqrtFrom(10, 2) == CeilSqrtFrom(10, 3) == CeilSqrtFrom(10, 4) == 4;
    }
    SpotRayCount(10);
    SlotsFromCount(4, 0);
    assert SlotsFrom(4, 4) == [];
    assert SlotsFrom(4, 0) == RingSlots(4, 0) + (RingSlots(4, 1) + (RingSlots(4, 2) + RingSlots(4, 3)));
  }
}
