/** Shared constants and the plane of src/CommonTypes.hpp.

    A plane is its equation (a, b, c, d); a point is tested by the sign of
    a*x + b*y + c*z + d. The plane built through three points uses the
    unnormalised normal: the source normalises it, which multiplies the
    equation by a positive factor and so changes no sign a test reads. */
module CommonTypes {
  import opened Geometry

  const TEST_RESULT_ABOVE: int := 1
  const TEST_RESULT_BELOW: int := -1
  const TEST_RESULT_INTERSECTS: int := 0

  /** Per-voxel edge codes, also the values of `EdgeSilhouetness`. */
  const EDGE_NOT_SILHOUETTE: int := 0
  const EDGE_POTENTIALLY_SILHOUETTE: int := 1
  const EDGE_IS_SILHOUETTE_PLUS: int := 2
  const EDGE_IS_SILHOUETTE_MINUS: int := 3

  /** `EDGE_IS_SILHOUETTE` of this header: a code of 2 or more. */
  predicate IsSilhouette(code: int)
  {
    code >= 2
  }

  /** Among the four codes, exactly PLUS and MINUS are silhouettes. */
  lemma IsSilhouetteCodes(code: int)
    requires EDGE_NOT_SILHOUETTE <= code <= EDGE_IS_SILHOUETTE_MINUS
    ensures IsSilhouette(code) <==> code == EDGE_IS_SILHOUETTE_PLUS || code == EDGE_IS_SILHOUETTE_MINUS
  {
  }

  /** `(result == PLUS) + (-1) * (result == MINUS)`: the side a
      silhouette code stands for. */
  function MultiplicitySign(code: int): (r: int)
    ensures code == EDGE_IS_SILHOUETTE_PLUS ==> r == 1
    ensures code == EDGE_IS_SILHOUETTE_MINUS ==> r == -1
    ensures code != EDGE_IS_SILHOUETTE_PLUS && code != EDGE_IS_SILHOUETTE_MINUS ==> r == 0
  {
    (if code == EDGE_IS_SILHOUETTE_PLUS then 1 else 0) + (-1) * (if code == EDGE_IS_SILHOUETTE_MINUS then 1 else 0)
  }

  datatype Triangle = Triangle(v1: Vec4, v2: Vec4, v3: Vec4)

  /** `equation` = (a, b, c, d) held as x, y, z, w. */
  datatype Plane = Plane(equation: Vec4)

  /** `testPoint`: the plane's linear form at the point. */
  function TestPoint(plane: Plane, p: Vec3): real
  {
    plane.equation.x * p.x + plane.equation.y * p.y + plane.equation.z * p.z + plane.equation.w
  }

  /** The normal (a, b, c) of the plane. */
  function Normal(plane: Plane): Vec3
  {
    Xyz(plane.equation)
  }

  /** The test is affine: along a segment it changes in proportion, so it
      is the normal's dot product with the offset from any point of the plane. */
  lemma TestPointDifference(plane: Plane, p: Vec3, q: Vec3)
    ensures TestPoint(plane, p) - TestPoint(plane, q) == Dot(Normal(plane), Sub(p, q))
  {
  }

  /** The plane with its equation multiplied by s. */
  function ScalePlane(s: real, plane: Plane): (r: Plane)
    ensures forall p :: TestPoint(r, p) == s * TestPoint(plane, p)
  {
    var e := plane.equation;
    Plane(Vec4(s * e.x, s * e.y, s * e.z, s * e.w))
  }

  /** A positive factor changes no sign; this is why the normalisation of
      `createFromPointsCCW` can be left out. */
  lemma PositiveScaleKeepsSign(s: real, plane: Plane, p: Vec3)
    requires s > 0.0
    ensures TestPoint(ScalePlane(s, plane), p) > 0.0 <==> TestPoint(plane, p) > 0.0
    ensures TestPoint(ScalePlane(s, plane), p) < 0.0 <==> TestPoint(plane, p) < 0.0
  {
    var t := TestPoint(plane, p);
    assert TestPoint(ScalePlane(s, plane), p) == s * t;
    if t > 0.0 {
      assert s * t > 0.0;
    } else if t < 0.0 {
      assert s * t < 0.0;
    }
  }

  /** `createFromPointNormalCCW`: equation (n, -p.n), the plane through p
      with normal n. */
  function CreateFromPointNormalCCW(point: Vec3, normal: Vec3): (r: Plane)
    ensures TestPoint(r, point) == 0.0
    ensures Normal(r) == normal
    ensures forall q :: TestPoint(r, q) == Dot(normal, Sub(q, point))
  {
    Plane(Vec4(normal.x, normal.y, normal.z, -point.x * normal.x - point.y * normal.y - point.z * normal.z))
  }

  /** `createFromPointsCCW`: the plane through v2 with normal
      (v3 - v2) x (v1 - v2), normalisation left out. */
  function CreateFromPointsCCW(v1: Vec3, v2: Vec3, v3: Vec3): (r: Plane)
    ensures TestPoint(r, v1) == 0.0 && TestPoint(r, v2) == 0.0 && TestPoint(r, v3) == 0.0
  {
    var n := Cross(Sub(v3, v2), Sub(v1, v2));
    CrossOrthogonal(Sub(v3, v2), Sub(v1, v2));
    CreateFromPointNormalCCW(v2, n)
  }

  /** Swapping the first two points flips the plane: every point tests with
      the opposite value. */
  lemma CreateFromPointsSwapped(v1: Vec3, v2: Vec3, v3: Vec3, q: Vec3)
    ensures TestPoint(CreateFromPointsCCW(v2, v1, v3), q) == -TestPoint(CreateFromPointsCCW(v1, v2, v3), q)
  {
  }

  /** `_interpretTestResult`: positive is ABOVE, everything else, zero
      included, is BELOW. */
  function InterpretTestResult(result: real): (r: int)
    ensures r == TEST_RESULT_ABOVE <==> result > 0.0
    ensures r == TEST_RESULT_BELOW <==> result <= 0.0
  {
    if result > 0.0 then TEST_RESULT_ABOVE else TEST_RESULT_BELOW
  }

  /** The label the eight corners agree on, or INTERSECTS (0) when they differ. */
  function AgreedLabel(labels: seq<int>): int
    requires |labels| > 0
  {
    if forall j :: 0 <= j < |labels| ==> labels[j] == labels[0] then labels[0] else TEST_RESULT_INTERSECTS
  }

  /** The two-way label of every corner of the box: ABOVE for a corner
      strictly above the plane, BELOW for any other. */
  function CornerLabels(plane: Plane, box: Aabb): (r: seq<int>)
    ensures |r| == 8
    ensures forall i :: 0 <= i < 8 ==> (r[i] == TEST_RESULT_ABOVE <==> TestPoint(plane, Corner(box, i)) > 0.0)
    ensures forall i :: 0 <= i < 8 ==> (r[i] == TEST_RESULT_BELOW <==> TestPoint(plane, Corner(box, i)) <= 0.0)
  {
    seq(8, i requires 0 <= i => InterpretTestResult(TestPoint(plane, Corner(box, i))))
  }

  /** `Plane::testAABB`: the first corner's label, returned as soon as a
      later corner disagrees with INTERSECTS instead. */
  method TestAABB(plane: Plane, box: Aabb) returns (r: int)
    ensures r == AgreedLabel(CornerLabels(plane, box))
  {
    var points := AllVertices(box);
    var result := InterpretTestResult(TestPoint(plane, points[0]));
    var i := 1;
    while i < 8
      invariant 1 <= i <= 8
      invariant forall j :: 0 <= j < i ==> CornerLabels(plane, box)[j] == result
    {
      var cornerLabel := InterpretTestResult(TestPoint(plane, points[i]));
      if cornerLabel != result {
        return TEST_RESULT_INTERSECTS;
      }
      i := i + 1;
    }
    return result;
  }

  /** The box result: ABOVE iff every corner is strictly above, BELOW iff no
      corner is, INTERSECTS otherwise; so the result is one of the three labels. */
  lemma TestAABBMeaning(plane: Plane, box: Aabb)
    ensures var r := AgreedLabel(CornerLabels(plane, box));
      && (r == TEST_RESULT_ABOVE <==> forall i :: 0 <= i < 8 ==> TestPoint(plane, Corner(box, i)) > 0.0)
      && (r == TEST_RESULT_BELOW <==> forall i :: 0 <= i < 8 ==> TestPoint(plane, Corner(box, i)) <= 0.0)
      && (r == TEST_RESULT_INTERSECTS <==>
            exists i, j :: 0 <= i < 8 && 0 <= j < 8 && TestPoint(plane, Corner(box, i)) > 0.0
                                                     && TestPoint(plane, Corner(box, j)) <= 0.0)
  {
    var labels := CornerLabels(plane, box);
    var r := AgreedLabel(labels);
    if forall j :: 0 <= j < 8 ==> labels[j] == labels[0] {
      assert r == labels[0];
    } else {
      var j :| 0 <= j < 8 && labels[j] != labels[0];
      if labels[0] == TEST_RESULT_ABOVE {
        assert TestPoint(plane, Corner(box, j)) <= 0.0;
      } else {
        assert TestPoint(plane, Corner(box, j)) > 0.0;
      }
    }
  }
}
