/**
 * Triangle soups and the signed-volume computation the viewer applies to
 * every decoded mesh: the sum of the scalar triple products A·(B×C) over
 * the triangles in file order, divided by six, taken in absolute value.
 * Coordinates are real numbers; single-precision rounding is not modelled.
 */
module Mesh {

  datatype Vec3 = Vec3(x: real, y: real, z: real)

  /** One triangle of the soup; vertices are not shared between triangles. */
  datatype Triangle = Triangle(a: Vec3, b: Vec3, c: Vec3)

  function Dot(u: Vec3, v: Vec3): real
  {
    u.x * v.x + u.y * v.y + u.z * v.z
  }

  function Cross(u: Vec3, v: Vec3): Vec3
  {
    Vec3(u.y * v.z - u.z * v.y, u.z * v.x - u.x * v.z, u.x * v.y - u.y * v.x)
  }

  /** The per-triangle term as the viewer spells it out, coordinate by coordinate. */
  function TripleProduct(t: Triangle): real
  {
    var a, b, c := t.a, t.b, t.c;
    a.x * (b.y * c.z - b.z * c.y) - a.y * (b.x * c.z - b.z * c.x) + a.z * (b.x * c.y - b.y * c.x)
  }

  /** The spelled-out term is the scalar triple product A·(B×C). */
  lemma TripleProductIsDotCross(t: Triangle)
    ensures TripleProduct(t) == Dot(t.a, Cross(t.b, t.c))
  {
  }

  /** Left-to-right sum of a sequence of reals. */
  function Sum(xs: seq<real>): real
  {
    if |xs| == 0 then 0.0 else Sum(xs[..|xs| - 1]) + xs[|xs| - 1]
  }

  /** A sum of the terms each multiplied by `k` is `k` times the sum. */
  lemma {:induction false} SumScales(xs: seq<real>, ys: seq<real>, k: real)
    requires |ys| == |xs|
    requires forall i | 0 <= i < |xs| :: ys[i] == k * xs[i]
    ensures Sum(ys) == k * Sum(xs)
  {
    if |xs| > 0 {
      var n := |xs|;
      SumScales(xs[..n - 1], ys[..n - 1], k);
    }
  }

  /** The per-triangle terms, in file order. */
  function Terms(tris: seq<Triangle>): (r: seq<real>)
    ensures |r| == |tris|
  {
    seq(|tris|, i requires 0 <= i < |tris| => TripleProduct(tris[i]))
  }

  /** Sum of the triple products, accumulated in file order. */
  function SignedSum(tris: seq<Triangle>): real
  {
    Sum(Terms(tris))
  }

  /** Appending a triangle adds its term to the sum. */
  lemma SignedSumSnoc(tris: seq<Triangle>, t: Triangle)
    ensures SignedSum(tris + [t]) == SignedSum(tris) + TripleProduct(t)
  {
    assert Terms(tris + [t])[..|tris|] == Terms(tris);
  }

  function Abs(x: real): (r: real)
    ensures r >= 0.0 && (r == x || r == -x)
  {
    if x < 0.0 then -x else x
  }

  /** `Math.abs(volume / 6)` over the accumulated sum. */
  function Volume(tris: seq<Triangle>): (v: real)
    ensures v >= 0.0
  {
    Abs(SignedSum(tris) / 6.0)
  }

  // ---------------------------------------------------------------------------
  // Winding

  /** The triangle with its winding reversed: B and C swapped. */
  function Reversed(t: Triangle): Triangle
  {
    Triangle(t.a, t.c, t.b)
  }

  function ReverseWinding(tris: seq<Triangle>): (r: seq<Triangle>)
    ensures |r| == |tris|
  {
    seq(|tris|, i requires 0 <= i < |tris| => Reversed(tris[i]))
  }

  /** Swapping B and C negates the triple product. */
  lemma TripleProductReversed(t: Triangle)
    ensures TripleProduct(Reversed(t)) == -TripleProduct(t)
  {
  }

  /** Reversing every triangle negates the signed sum. */
  lemma ReverseWindingNegatesSum(tris: seq<Triangle>)
    ensures SignedSum(ReverseWinding(tris)) == -SignedSum(tris)
  {
    var xs, ys := Terms(tris), Terms(ReverseWinding(tris));
    forall i | 0 <= i < |xs|
      ensures ys[i] == -1.0 * xs[i]
    {
      TripleProductReversed(tris[i]);
    }
    SumScales(xs, ys, -1.0);
  }

  /** The volume does not depend on the winding of the triangles. */
  lemma VolumeWindingInvariant(tris: seq<Triangle>)
    ensures Volume(ReverseWinding(tris)) == Volume(tris)
  {
    ReverseWindingNegatesSum(tris);
  }

  // ---------------------------------------------------------------------------
  // Flat position arrays

  /** Coordinate `k` (0..8) of a triangle in the order ax, ay, az, bx, ..., cz. */
  function Coord(t: Triangle, k: int): real
    requires 0 <= k < 9
  {
    match k
    case 0 => t.a.x case 1 => t.a.y case 2 => t.a.z
    case 3 => t.b.x case 4 => t.b.y case 5 => t.b.z
    case 6 => t.c.x case 7 => t.c.y case _ => t.c.z
  }

  function Flatten(t: Triangle): (r: seq<real>)
    ensures |r| == 9
    ensures forall k | 0 <= k < 9 :: r[k] == Coord(t, k)
  {
    [t.a.x, t.a.y, t.a.z, t.b.x, t.b.y, t.b.z, t.c.x, t.c.y, t.c.z]
  }

  /** The triangle held by positions `p[i..i + 9]`. */
  function TriangleAt(p: seq<real>, i: nat): (t: Triangle)
    requires i + 9 <= |p|
    ensures Flatten(t) == p[i..i + 9]
  {
    Triangle(Vec3(p[i], p[i + 1], p[i + 2]), Vec3(p[i + 3], p[i + 4], p[i + 5]), Vec3(p[i + 6], p[i + 7], p[i + 8]))
  }

  /** The flat position array of a soup: the triangles' nine coordinates each, in order. */
  function Positions(tris: seq<Triangle>): (p: seq<real>)
    ensures |p| == 9 * |tris|
  {
    if |tris| == 0 then [] else Positions(tris[..|tris| - 1]) + Flatten(tris[|tris| - 1])
  }

  /** Index `9i + k` of the flat array holds coordinate `k` of triangle `i`. */
  lemma {:induction false} PositionsIndex(tris: seq<Triangle>)
    ensures forall i, k | 0 <= i < |tris| && 0 <= k < 9 :: Positions(tris)[9 * i + k] == Coord(tris[i], k)
  {
    if |tris| > 0 {
      var n := |tris|;
      var init := tris[..n - 1];
      PositionsIndex(init);
      var p := Positions(tris);
      assert p == Positions(init) + Flatten(tris[n - 1]);
      forall i, k | 0 <= i < n && 0 <= k < 9
        ensures p[9 * i + k] == Coord(tris[i], k)
      {
        if i < n - 1 {
          assert p[9 * i + k] == Positions(init)[9 * i + k];
          assert tris[i] == init[i];
        } else {
          assert p[9 * i + k] == Flatten(tris[n - 1])[k];
        }
      }
    }
  }

  /**
   * The signed sum over a flat array, nine values at a time, as the ASCII
   * path computes it. Only arrays of whole triangles (a multiple of nine
   * values) are given to it; on others it ignores the leading remainder.
   */
  function FlatSignedSum(p: seq<real>): real
  {
    if |p| < 9 then 0.0 else FlatSignedSum(p[..|p| - 9]) + TripleProduct(TriangleAt(p, |p| - 9))
  }

  /** Summing over the flat array gives the sum over the triangles it came from. */
  lemma {:induction false} FlatSignedSumOfPositions(tris: seq<Triangle>)
    ensures FlatSignedSum(Positions(tris)) == SignedSum(tris)
  {
    if |tris| > 0 {
      var n := |tris|;
      var p := Positions(tris);
      var init := tris[..n - 1];
      assert p == Positions(init) + Flatten(tris[n - 1]);
      assert p[..|p| - 9] == Positions(init);
      assert Flatten(TriangleAt(p, |p| - 9)) == Flatten(tris[n - 1]);
      FlattenInjective(TriangleAt(p, |p| - 9), tris[n - 1]);
      FlatSignedSumOfPositions(init);
      assert tris == init + [tris[n - 1]];
      SignedSumSnoc(init, tris[n - 1]);
    }
  }
  /** The volume computed from the flat array equals the mesh volume. */
  lemma VolumeOfPositions(tris: seq<Triangle>)
    ensures Abs(FlatSignedSum(Positions(tris)) / 6.0) == Volume(tris)
  {
    FlatSignedSumOfPositions(tris);
  }


  lemma FlattenInjective(s: Triangle, t: Triangle)
    requires Flatten(s) == Flatten(t)
    ensures s == t
  {
    assert forall k | 0 <= k < 9 :: Flatten(s)[k] == Flatten(t)[k];
  }

  lemma FlatSignedSumStep(p: seq<real>, k: nat)
    requires 9 * k + 9 <= |p|
    ensures FlatSignedSum(p[..9 * k + 9]) == FlatSignedSum(p[..9 * k]) + TripleProduct(TriangleAt(p, 9 * k))
  {
    var i := 9 * k;
    var q := p[..i + 9];
    assert q[..|q| - 9] == p[..i];
    assert TriangleAt(q, i) == TriangleAt(p, i);
  }

  /**
   * `computeVolumeFromPositions`: walk the flat array nine values at a time,
   * accumulating the triple products; the result is the absolute sixth of
   * the flat signed sum.
   */
  method ComputeVolumeFromPositions(positions: seq<real>) returns (volume: real)
    requires |positions| % 9 == 0
    ensures volume == Abs(FlatSignedSum(positions) / 6.0)
    ensures volume >= 0.0
  {
    var sum := 0.0;
    var i := 0;
    ghost var n, k := |positions| / 9, 0;
    while i < |positions|
      invariant |positions| == 9 * n && i == 9 * k && 0 <= k <= n
      invariant sum == FlatSignedSum(positions[..i])
    {
      sum := sum + TripleProduct(TriangleAt(positions, i));
      FlatSignedSumStep(positions, k);
      i, k := i + 9, k + 1;
    }
    assert positions[..i] == positions;
    volume := Abs(sum / 6.0);
  }

  // ---------------------------------------------------------------------------
  // Length units

  /** Millimetres per centimetre. */
  const MmPerCm: real := 10.0

  function ScaleVec(v: Vec3, s: real): Vec3
  {
    Vec3(s * v.x, s * v.y, s * v.z)
  }

  function ScaleTriangle(t: Triangle, s: real): Triangle
  {
    Triangle(ScaleVec(t.a, s), ScaleVec(t.b, s), ScaleVec(t.c, s))
  }

  /** Every coordinate multiplied by `s`: the same mesh in a length unit `s` times smaller. */
  function ScaleMesh(tris: seq<Triangle>, s: real): (r: seq<Triangle>)
    ensures |r| == |tris|
  {
    seq(|tris|, i requires 0 <= i < |tris| => ScaleTriangle(tris[i], s))
  }

  /** Re-expressing a mesh from centimetres in millimetres multiplies the signed sum by 10³. */
  lemma SignedSumInMillimetres(tris: seq<Triangle>)
    ensures SignedSum(ScaleMesh(tris, MmPerCm)) == 1000.0 * SignedSum(tris)
  {
    var xs, ys := Terms(tris), Terms(ScaleMesh(tris, MmPerCm));
    forall i | 0 <= i < |xs|
      ensures ys[i] == 1000.0 * xs[i]
    {
      assert TripleProduct(ScaleTriangle(tris[i], 10.0)) == 1000.0 * TripleProduct(tris[i]);
    }
    SumScales(xs, ys, 1000.0);
  }

  /** Volume is cubic in the length unit: the millimetre figure is a thousand times the centimetre one. */
  lemma VolumeInMillimetres(tris: seq<Triangle>)
    ensures Volume(ScaleMesh(tris, MmPerCm)) == 1000.0 * Volume(tris)
  {
    SignedSumInMillimetres(tris);
  }

  // ---------------------------------------------------------------------------
  // A closed reference mesh

  /** The unit cube [0,1]³ as twelve outward-facing triangles. */
  function UnitCube(): seq<Triangle>
  {
    var p000, p100, p010, p110 := Vec3(0.0, 0.0, 0.0), Vec3(1.0, 0.0, 0.0), Vec3(0.0, 1.0, 0.0), Vec3(1.0, 1.0, 0.0);
    var p001, p101, p011, p111 := Vec3(0.0, 0.0, 1.0), Vec3(1.0, 0.0, 1.0), Vec3(0.0, 1.0, 1.0), Vec3(1.0, 1.0, 1.0);
    [ Triangle(p000, p010, p110), Triangle(p000, p110, p100),   // z = 0, normal -z
      Triangle(p001, p101, p111), Triangle(p001, p111, p011),   // z = 1, normal +z
      Triangle(p000, p100, p101), Triangle(p000, p101, p001),   // y = 0, normal -y
      Triangle(p010, p011, p111), Triangle(p010, p111, p110),   // y = 1, normal +y
      Triangle(p000, p001, p011), Triangle(p000, p011, p010),   // x = 0, normal -x
      Triangle(p100, p110, p111), Triangle(p100, p111, p101) ]  // x = 1, normal +x
  }

  /** The cube's per-triangle terms: faces through the origin contribute
      nothing, each triangle of the three opposite faces contributes one. */
  lemma UnitCubeTerms()
    ensures Terms(UnitCube()) == [0.0, 0.0, 1.0, 1.0, 0.0, 0.0, 1.0, 1.0, 0.0, 0.0, 1.0, 1.0]
  {
    var cube := UnitCube();
    assert TripleProduct(cube[0]) == 0.0;
    assert TripleProduct(cube[1]) == 0.0;
    assert TripleProduct(cube[2]) == 1.0;
    assert TripleProduct(cube[3]) == 1.0;
    assert TripleProduct(cube[4]) == 0.0;
    assert TripleProduct(cube[5]) == 0.0;
    assert TripleProduct(cube[6]) == 1.0;
    assert TripleProduct(cube[7]) == 1.0;
    assert TripleProduct(cube[8]) == 0.0;
    assert TripleProduct(cube[9]) == 0.0;
    assert TripleProduct(cube[10]) == 1.0;
    assert TripleProduct(cube[11]) == 1.0;
  }

  lemma SumOfUnitCubeTerms()
    ensures Sum([0.0, 0.0, 1.0, 1.0, 0.0, 0.0, 1.0, 1.0, 0.0, 0.0, 1.0, 1.0]) == 6.0
  {
    var t := [0.0, 0.0, 1.0, 1.0, 0.0, 0.0, 1.0, 1.0, 0.0, 0.0, 1.0, 1.0];
    assert t[..1][..0] == t[..0];
    assert t[..2][..1] == t[..1];
    assert t[..3][..2] == t[..2];
    assert t[..4][..3] == t[..3];
    assert t[..5][..4] == t[..4];
    assert t[..6][..5] == t[..5];
    assert t[..7][..6] == t[..6];
    assert t[..8][..7] == t[..7];
    assert t[..9][..8] == t[..8];
    assert t[..10][..9] == t[..9];
    assert t[..11][..10] == t[..10];
    assert t[..12][..11] == t[..11];
    assert t[..12] == t;
    assert Sum(t[..1]) == 0.0;
    assert Sum(t[..2]) == 0.0;
    assert Sum(t[..3]) == 1.0;
    assert Sum(t[..4]) == 2.0;
    assert Sum(t[..5]) == 2.0;
    assert Sum(t[..6]) == 2.0;
    assert Sum(t[..7]) == 3.0;
    assert Sum(t[..8]) == 4.0;
    assert Sum(t[..9]) == 4.0;
    assert Sum(t[..10]) == 4.0;
    assert Sum(t[..11]) == 5.0;
    assert Sum(t[..12]) == 6.0;
  }

  /** A closed, consistently oriented unit cube has volume one. */
  lemma UnitCubeVolume()
    ensures Volume(UnitCube()) == 1.0
  {
    UnitCubeTerms();
    SumOfUnitCubeTerms();
  }
}
