/** The geometric predicates of src/GeometryOperations.cpp and their
    duplicates in src/IntersectionTests.cpp.

    Unlike the plane of src/CommonTypes.hpp, these tests classify a value
    three ways: positive is ABOVE_OUTSIDE (1), negative BELOW_INSIDE (-1) and
    zero INTERSECTS_ON (0). A box is ABOVE or BELOW only when all eight
    corners are; an edge is classified against a voxel from the two planes
    of its adjacent triangles. */
module GeometryOps {
  import opened Geometry
  import opened Edges
  import opened CommonTypes
  import opened EdgeExtraction

  /** `EDGE_IS_SILHOUETTE` of src/GeometryOperations.hpp: a code strictly
      above 2. */
  predicate IsSilhouetteStrict(code: int)
  {
    code > 2
  }

  /** Among the four codes only MINUS passes the strict test: a PLUS edge
      is not a silhouette for this header, unlike for src/CommonTypes.hpp. */
  lemma IsSilhouetteStrictCodes(code: int)
    requires EDGE_NOT_SILHOUETTE <= code <= EDGE_IS_SILHOUETTE_MINUS
    ensures IsSilhouetteStrict(code) <==> code == EDGE_IS_SILHOUETTE_MINUS
    ensures IsSilhouette(EDGE_IS_SILHOUETTE_PLUS) && !IsSilhouetteStrict(EDGE_IS_SILHOUETTE_PLUS)
  {
  }

  /** `interpretResult`: the sign of the value, as a test label. */
  function InterpretResult(result: real): (r: int)
    ensures r == TEST_RESULT_ABOVE <==> result > 0.0
    ensures r == TEST_RESULT_BELOW <==> result < 0.0
    ensures r == TEST_RESULT_INTERSECTS <==> result == 0.0
  {
    if result > 0.0 then TEST_RESULT_ABOVE
    else if result < 0.0 then TEST_RESULT_BELOW
    else TEST_RESULT_INTERSECTS
  }

  /** The plane test at p is an affine function of p: along the segment from
      p to q it moves in proportion. */
  lemma TestPlanePointAffine(plane: Plane, p: Vec3, q: Vec3, t: real)
    ensures TestPoint(plane, Add(p, Scale(t, Sub(q, p))))
         == TestPoint(plane, p) + t * (TestPoint(plane, q) - TestPoint(plane, p))
  {
  }

  /** The three-way label of every corner of the box: ABOVE_OUTSIDE
      strictly above the plane, BELOW_INSIDE strictly below, INTERSECTS_ON
      on it. */
  function CornerResults(plane: Plane, box: Aabb): (r: seq<int>)
    ensures |r| == 8
    ensures forall i :: 0 <= i < 8 ==> (r[i] == TEST_RESULT_ABOVE <==> TestPoint(plane, Corner(box, i)) > 0.0)
    ensures forall i :: 0 <= i < 8 ==> (r[i] == TEST_RESULT_BELOW <==> TestPoint(plane, Corner(box, i)) < 0.0)
    ensures forall i :: 0 <= i < 8 ==> (r[i] == TEST_RESULT_INTERSECTS <==> TestPoint(plane, Corner(box, i)) == 0.0)
  {
    seq(8, i requires 0 <= i => InterpretResult(TestPoint(plane, Corner(box, i))))
  }

  /** The box label: the corners' common label, or INTERSECTS_ON. */
  function AabbPlaneLabel(box: Aabb, plane: Plane): int
  {
    AgreedLabel(CornerResults(plane, box))
  }

  /** `testAabbPlane`: the first corner's label, or INTERSECTS_ON as soon as
      a later corner disagrees. */
  method TestAabbPlane(box: Aabb, plane: Plane) returns (r: int)
    ensures r == AabbPlaneLabel(box, plane)
  {
    var points := AllVertices(box);
    var result := InterpretResult(TestPoint(plane, points[0]));
    for i := 1 to 8
      invariant forall j :: 0 <= j < i ==> CornerResults(plane, box)[j] == result
    {
      var cornerResult := InterpretResult(TestPoint(plane, points[i]));
      if cornerResult != result {
        return TEST_RESULT_INTERSECTS;
      }
    }
    return result;
  }

  /** The box label: ABOVE_OUTSIDE iff every corner is strictly above,
      BELOW_INSIDE iff every corner is strictly below, INTERSECTS_ON
      otherwise; so a corner lying exactly on the plane gives INTERSECTS_ON. */
  lemma AabbPlaneLabelMeaning(box: Aabb, plane: Plane)
    ensures var r := AabbPlaneLabel(box, plane);
      && (r == TEST_RESULT_ABOVE <==> forall i :: 0 <= i < 8 ==> TestPoint(plane, Corner(box, i)) > 0.0)
      && (r == TEST_RESULT_BELOW <==> forall i :: 0 <= i < 8 ==> TestPoint(plane, Corner(box, i)) < 0.0)
      && (r == TEST_RESULT_INTERSECTS <==>
            exists i, j :: 0 <= i < 8 && 0 <= j < 8
              && TestPoint(plane, Corner(box, i)) >= 0.0 && TestPoint(plane, Corner(box, j)) <= 0.0)
  {
    var labels := CornerResults(plane, box);
    var r := AabbPlaneLabel(box, plane);
    if forall j :: 0 <= j < 8 ==> labels[j] == labels[0] {
      assert r == labels[0];
      if labels[0] == TEST_RESULT_INTERSECTS {
        assert TestPoint(plane, Corner(box, 0)) == 0.0;
      }
    } else {
      var j :| 0 <= j < 8 && labels[j] != labels[0];
      assert r == TEST_RESULT_INTERSECTS;
      if labels[0] == TEST_RESULT_ABOVE {
        assert TestPoint(plane, Corner(box, j)) <= 0.0;
      } else if labels[0] == TEST_RESULT_BELOW {
        assert TestPoint(plane, Corner(box, j)) >= 0.0;
      } else {
        assert TestPoint(plane, Corner(box, 0)) == 0.0;
      }
    }
  }

  /** A corner exactly on the plane makes the box INTERSECTS_ON. */
  lemma CornerOnPlaneIntersects(box: Aabb, plane: Plane, i: nat)
    requires i < 8 && TestPoint(plane, Corner(box, i)) == 0.0
    ensures AabbPlaneLabel(box, plane) == TEST_RESULT_INTERSECTS
  {
    AabbPlaneLabelMeaning(box, plane);
  }

  /** `testAabbPointIsInsideOrOn`: closed intervals on every axis, so every
      corner and the centre of a well-formed box are inside, while a point
      beyond a face on any axis is not. */
  lemma TestAabbPointIsInsideOrOn(box: Aabb, p: Vec3, i: nat)
    requires WellFormed(box)
    ensures InsideOrOn(box, Corner(box, i)) && InsideOrOn(box, CenterPoint(box))
    ensures p.x > box.maxPoint.x || p.y > box.maxPoint.y || p.z > box.maxPoint.z ==> !InsideOrOn(box, p)
    ensures p.x < box.minPoint.x || p.y < box.minPoint.y || p.z < box.minPoint.z ==> !InsideOrOn(box, p)
  {
    CornersInside(box, i);
  }

  /** `(r > 0) - (r < 0)`. */
  function Sign(r: real): int
  {
    (if r > 0.0 then 1 else 0) - (if r < 0.0 then 1 else 0)
  }

  /** The three-way label is the sign of the value. */
  lemma InterpretResultIsSign(r: real)
    ensures InterpretResult(r) == Sign(r)
  {
  }

  /** The plane through the edge and the light, in the order lower, higher, light. */
  function LightPlane(edge: Edge, lightPos: Vec3): Plane
  {
    CreateFromPointsCCW(edge.lowerPoint, edge.higherPoint, lightPos)
  }

  /** The sum of the signs of the first n opposite vertices against the plane. */
  function SignSum(plane: Plane, vertices: seq<Vec4>, n: nat): int
    requires n <= |vertices|
  {
    if n == 0 then 0 else SignSum(plane, vertices, n - 1) + Sign(TestPoint(plane, Xyz(vertices[n - 1])))
  }

  /** The multiplicity of an edge for a light position. */
  function Multiplicity(info: EdgeInfo, lightPos: Vec3): int
  {
    SignSum(LightPlane(info.edge, lightPos), info.oppositeVertices, |info.oppositeVertices|)
  }

  /** `calcEdgeMultiplicity`: accumulates the sign of every opposite vertex
      against the plane through the edge and the light. */
  method CalcEdgeMultiplicity(info: EdgeInfo, lightPos: Vec3) returns (multiplicity: int)
    ensures multiplicity == Multiplicity(info, lightPos)
  {
    var lightPlane := LightPlane(info.edge, lightPos);
    multiplicity := 0;
    for i := 0 to |info.oppositeVertices|
      invariant multiplicity == SignSum(lightPlane, info.oppositeVertices, i)
    {
      var r := TestPoint(lightPlane, Xyz(info.oppositeVertices[i]));
      multiplicity := multiplicity + Sign(r);
    }
  }

  /** Each vertex adds -1, 0 or +1, so the sum lies in [-n, n]; it is n
      exactly when every one of the n vertices lies strictly above. */
  lemma {:induction false} SignSumBounds(plane: Plane, vertices: seq<Vec4>, n: nat)
    requires n <= |vertices|
    ensures -(n as int) <= SignSum(plane, vertices, n) <= n
    ensures SignSum(plane, vertices, n) == n <==> forall i :: 0 <= i < n ==> TestPoint(plane, Xyz(vertices[i])) > 0.0
  {
    if n != 0 {
      SignSumBounds(plane, vertices, n - 1);
      var s := Sign(TestPoint(plane, Xyz(vertices[n - 1])));
      assert SignSum(plane, vertices, n) == SignSum(plane, vertices, n - 1) + s;
      if SignSum(plane, vertices, n) == n {
        assert SignSum(plane, vertices, n - 1) == n - 1 && s == 1;
      }
    }
  }

  /** The multiplicity lies in [-n, n] for n opposite vertices. */
  lemma MultiplicityBounds(info: EdgeInfo, lightPos: Vec3)
    ensures -(|info.oppositeVertices| as int) <= Multiplicity(info, lightPos) <= |info.oppositeVertices|
  {
    SignSumBounds(LightPlane(info.edge, lightPos), info.oppositeVertices, |info.oppositeVertices|);
  }

  /** `buildEdgeTrianglePlane`: the plane through the edge and the opposite
      vertex, with the edge taken lower-to-higher for a CCW-tagged vertex and
      higher-to-lower otherwise. */
  function BuildEdgeTrianglePlane(edge: Edge, oppositeVertex: Vec4): (r: Plane)
    ensures TestPoint(r, edge.lowerPoint) == 0.0 && TestPoint(r, edge.higherPoint) == 0.0
    ensures TestPoint(r, Xyz(oppositeVertex)) == 0.0
  {
    if DecodeEdgeWindingIsCCW(oppositeVertex) then
      CreateFromPointsCCW(edge.lowerPoint, edge.higherPoint, Xyz(oppositeVertex))
    else
      CreateFromPointsCCW(edge.higherPoint, edge.lowerPoint, Xyz(oppositeVertex))
  }

  /** The winding tag decides the side: the same vertex tagged CCW and CW
      gives planes on which every point tests with opposite values. */
  lemma BuildEdgeTrianglePlaneFlips(edge: Edge, v: Vec4, q: Vec3)
    ensures TestPoint(BuildEdgeTrianglePlane(edge, EncodeEdgeWindingInTriangleToOppositeVertex(v, true)), q)
         == -TestPoint(BuildEdgeTrianglePlane(edge, EncodeEdgeWindingInTriangleToOppositeVertex(v, false)), q)
  {
    CreateFromPointsSwapped(edge.lowerPoint, edge.higherPoint, Xyz(v), q);
  }

  /** Extraction and plane building are inverse in the sense that matters:
      the edge (v1, v2) with its encoded opposite vertex v3 rebuilds exactly
      the plane of the triangle (v1, v2, v3) with its own winding. */
  lemma BuildRecoversTrianglePlane(t: Triangle)
    ensures var c := MakeEdge(t.v1, t.v2);
      BuildEdgeTrianglePlane(c.edge, EncodeEdgeWindingInTriangleToOppositeVertex(t.v3, c.isCCW))
      == CreateFromPointsCCW(Xyz(t.v1), Xyz(t.v2), Xyz(t.v3))
  {
    var c := MakeEdge(t.v1, t.v2);
    DecodeEncode(t.v3, c.isCCW);
  }

  /** `testEdgeSpaceAabb`: POTENTIAL when the voxel meets either triangle
      plane; when it lies strictly on opposite sides of the two planes, PLUS
      or MINUS by the sign of the multiplicity at the voxel's minimum corner;
      NOT otherwise. */
  function TestEdgeSpaceAabb(p1: Plane, p2: Plane, info: EdgeInfo, voxel: Aabb): (r: int)
    ensures EDGE_NOT_SILHOUETTE <= r <= EDGE_IS_SILHOUETTE_MINUS
  {
    var result1 := AabbPlaneLabel(voxel, p1);
    var result2 := AabbPlaneLabel(voxel, p2);
    if result1 == TEST_RESULT_INTERSECTS || result2 == TEST_RESULT_INTERSECTS then EDGE_POTENTIALLY_SILHOUETTE
    else if result1 * result2 < 0 then
      (if Multiplicity(info, voxel.minPoint) >= 0 then EDGE_IS_SILHOUETTE_PLUS else EDGE_IS_SILHOUETTE_MINUS)
    else EDGE_NOT_SILHOUETTE
  }

  /** The box labels are always among the three test results. */
  lemma AabbPlaneLabelRange(box: Aabb, plane: Plane)
    ensures AabbPlaneLabel(box, plane) in {TEST_RESULT_ABOVE, TEST_RESULT_BELOW, TEST_RESULT_INTERSECTS}
  {
    var labels := CornerResults(plane, box);
    assert labels[0] in {TEST_RESULT_ABOVE, TEST_RESULT_BELOW, TEST_RESULT_INTERSECTS};
  }

  /** The four outcomes in terms of the two box labels: POTENTIAL exactly
      when the voxel meets a plane; a silhouette code exactly when one plane
      has the whole voxel above and the other the whole voxel below, PLUS
      then meaning a non-negative multiplicity at the minimum corner; NOT
      exactly when both planes have the voxel on the same strict side. */
  lemma TestEdgeSpaceAabbMeaning(p1: Plane, p2: Plane, info: EdgeInfo, voxel: Aabb)
    ensures var r := TestEdgeSpaceAabb(p1, p2, info, voxel);
      var r1, r2 := AabbPlaneLabel(voxel, p1), AabbPlaneLabel(voxel, p2);
      && (r == EDGE_POTENTIALLY_SILHOUETTE <==> r1 == TEST_RESULT_INTERSECTS || r2 == TEST_RESULT_INTERSECTS)
      && (r == EDGE_IS_SILHOUETTE_PLUS <==>
            ((r1 == TEST_RESULT_ABOVE && r2 == TEST_RESULT_BELOW) || (r1 == TEST_RESULT_BELOW && r2 == TEST_RESULT_ABOVE))
            && Multiplicity(info, voxel.minPoint) >= 0)
      && (r == EDGE_IS_SILHOUETTE_MINUS <==>
            ((r1 == TEST_RESULT_ABOVE && r2 == TEST_RESULT_BELOW) || (r1 == TEST_RESULT_BELOW && r2 == TEST_RESULT_ABOVE))
            && Multiplicity(info, voxel.minPoint) < 0)
      && (r == EDGE_NOT_SILHOUETTE <==> r1 == r2 && r1 != TEST_RESULT_INTERSECTS)
  {
    AabbPlaneLabelRange(voxel, p1);
    AabbPlaneLabelRange(voxel, p2);
  }
}
