/** The silhouette part of the renderer of src/HSRenderer.cpp.

    The renderer builds one 3-bit array per edge with its own inline voxel
    test (`Plane::testAABB` on the two triangle planes), then, for the
    light's voxel, emits the shadow-volume sides of every edge: a quad of
    two triangles, each vertex a `vec4`, for every silhouette edge and for
    every potential edge whose multiplicity at the light is not zero. Its
    silhouette test is the one of src/CommonTypes.hpp (a code of 2 or
    more), so PLUS edges emit sides too. */
module Renderers {
  import opened Geometry
  import opened Edges
  import opened CommonTypes
  import opened GeometryOps
  import opened VoxelSpaces
  import opened MultiBitArrays
  import opened SilhouetteBitmasks

  /** A mesh of the scene: its vertices, three per triangle. */
  datatype Mesh = Mesh(vertices: seq<Vec4>)

  /** The scene the renderer draws: its meshes and the light. */
  datatype Scene = Scene(meshes: seq<Mesh>, lightPos: Vec3)

  // ---------------------------------------------------------------------
  // The triangle vector

  /** The number of vertices of the first n meshes. */
  function VertexCount(meshes: seq<Mesh>, n: nat): nat
    requires n <= |meshes|
  {
    if n == 0 then 0 else VertexCount(meshes, n - 1) + |meshes[n - 1].vertices|
  }

  /** The number of whole triangles of the first n meshes, mesh by mesh. */
  function TriangleCount(meshes: seq<Mesh>, n: nat): nat
    requires n <= |meshes|
  {
    if n == 0 then 0 else TriangleCount(meshes, n - 1) + |meshes[n - 1].vertices| / 3
  }

  /** When every mesh has whole triangles, a third of all vertices is the
      sum of the meshes' triangle counts: the vector has one entry per
      triangle of the scene. */
  lemma {:induction false} WholeTrianglesFill(meshes: seq<Mesh>, n: nat)
    requires n <= |meshes| && forall k :: 0 <= k < |meshes| ==> |meshes[k].vertices| % 3 == 0
    ensures VertexCount(meshes, n) == 3 * TriangleCount(meshes, n)
  {
    if n > 0 {
      WholeTrianglesFill(meshes, n - 1);
    }
  }

  /** With some vertices left over, the vector can be larger than the sum of
      the meshes' whole triangles: two meshes of two vertices give one entry
      and no whole triangle. */
  lemma LeftoverVerticesCombine(v: Vec4)
    ensures VertexCount([Mesh([v, v]), Mesh([v, v])], 2) / 3 == 1
    ensures TriangleCount([Mesh([v, v]), Mesh([v, v])], 2) == 0
  {
    var meshes := [Mesh([v, v]), Mesh([v, v])];
    assert VertexCount(meshes, 2) == VertexCount(meshes, 1) + 2;
    assert TriangleCount(meshes, 2) == TriangleCount(meshes, 1) + 0;
  }

  /** The triangle a new vector entry holds: all components zero. */
  function ZeroTriangle(): Triangle
  {
    Triangle(Vec4(0.0, 0.0, 0.0, 0.0), Vec4(0.0, 0.0, 0.0, 0.0), Vec4(0.0, 0.0, 0.0, 0.0))
  }

  /** `std::vector::resize`: the first entries are kept, missing ones are
      zero triangles. */
  function Resized(s: seq<Triangle>, size: nat): (r: seq<Triangle>)
    ensures |r| == size
    ensures forall i :: 0 <= i < size && i < |s| ==> r[i] == s[i]
    ensures forall i :: |s| <= i < size ==> r[i] == ZeroTriangle()
  {
    if size <= |s| then s[..size] else s + seq(size - |s|, _ => ZeroTriangle())
  }

  // ---------------------------------------------------------------------
  // Shadow-volume sides

  /** The two triangles of a side from `from` to `to`: (from at infinity,
      from, to) and (to at infinity, from at infinity, to). A point at
      infinity is the direction from the light with w = 0, an edge point
      has w = 1. */
  function Quad(lightPos: Vec3, from: Vec3, to: Vec3): (r: seq<Vec4>)
  {
    var fromInfinity := WithW(Sub(from, lightPos), 0.0);
    var toInfinity := WithW(Sub(to, lightPos), 0.0);
    [fromInfinity, WithW(from, 1.0), WithW(to, 1.0), toInfinity, fromInfinity, WithW(to, 1.0)]
  }

  /** The six points `_generatePushSideFromEdge` appends: the side from the
      lower to the higher point for a positive sign, the side from the
      higher to the lower point for a negative sign, nothing for 0. */
  function SideQuad(lightPos: Vec3, edge: Edge, multiplicitySign: int): seq<Vec4>
  {
    if multiplicitySign > 0 then Quad(lightPos, edge.lowerPoint, edge.higherPoint)
    else if multiplicitySign < 0 then Quad(lightPos, edge.higherPoint, edge.lowerPoint)
    else []
  }

  /** A quad is six points, or none for sign 0; its points at infinity are
      an endpoint seen from the light, its finite points are an endpoint. */
  lemma SideQuadShape(lightPos: Vec3, edge: Edge, multiplicitySign: int)
    ensures |SideQuad(lightPos, edge, multiplicitySign)| == if multiplicitySign == 0 then 0 else 6
    ensures forall i :: 0 <= i < |SideQuad(lightPos, edge, multiplicitySign)| ==>
      var p := SideQuad(lightPos, edge, multiplicitySign)[i];
      || (p.w == 0.0 && (Xyz(p) == Sub(edge.lowerPoint, lightPos) || Xyz(p) == Sub(edge.higherPoint, lightPos)))
      || (p.w == 1.0 && (Xyz(p) == edge.lowerPoint || Xyz(p) == edge.higherPoint))
  {
  }

  /** The negative side of an edge is the positive side of the same edge
      with its endpoints swapped, so the two signs wind the quad in
      opposite directions; only the sign of the multiplicity matters. */
  lemma SideQuadSwapped(lightPos: Vec3, a: Vec3, b: Vec3, multiplicitySign: int)
    ensures SideQuad(lightPos, Edge(a, b), -multiplicitySign) == SideQuad(lightPos, Edge(b, a), multiplicitySign)
    ensures multiplicitySign > 0 ==> SideQuad(lightPos, Edge(a, b), multiplicitySign) == SideQuad(lightPos, Edge(a, b), 1)
  {
  }

  /** Both signs use the same four corners, the two endpoints and their
      points at infinity: the quads of opposite signs cover the same side. */
  lemma SideQuadSameCorners(lightPos: Vec3, edge: Edge, multiplicitySign: int)
    requires multiplicitySign != 0
    ensures forall p :: p in SideQuad(lightPos, edge, multiplicitySign) <==>
      p in {WithW(Sub(edge.lowerPoint, lightPos), 0.0), WithW(edge.lowerPoint, 1.0),
            WithW(edge.higherPoint, 1.0), WithW(Sub(edge.higherPoint, lightPos), 0.0)}
  {
  }

  /** The negative quad is not the positive quad's triangles with their
      vertices reversed: its first triangle has the higher point's point at
      infinity, where the reversed first positive triangle has the lower's. */
  lemma SideQuadNotReversedTriangles(lightPos: Vec3, edge: Edge)
    requires Sub(edge.lowerPoint, lightPos) != Sub(edge.higherPoint, lightPos)
    ensures var pos := SideQuad(lightPos, edge, 1);
      var neg := SideQuad(lightPos, edge, -1);
      neg[0] !in [pos[2], pos[1], pos[0]]
  {
    var lowInfinity := WithW(Sub(edge.lowerPoint, lightPos), 0.0);
    var highInfinity := WithW(Sub(edge.higherPoint, lightPos), 0.0);
    assert Xyz(highInfinity) != Xyz(lowInfinity);
  }

  /** `_generatePushSideFromEdge`: appends the edge's quad for the sign. */
  method GeneratePushSideFromEdge(lightPos: Vec3, edge: Edge, multiplicitySign: int, sides: seq<Vec4>)
    returns (r: seq<Vec4>)
    ensures r == sides + SideQuad(lightPos, edge, multiplicitySign)
  {
    var lowInfinity := WithW(Sub(edge.lowerPoint, lightPos), 0.0);
    var highInfinity := WithW(Sub(edge.higherPoint, lightPos), 0.0);
    r := sides;
    if multiplicitySign > 0 {
      r := r + [lowInfinity];
      r := r + [WithW(edge.lowerPoint, 1.0)];
      r := r + [WithW(edge.higherPoint, 1.0)];
      r := r + [highInfinity];
      r := r + [lowInfinity];
      r := r + [WithW(edge.higherPoint, 1.0)];
    } else if multiplicitySign < 0 {
      r := r + [highInfinity];
      r := r + [WithW(edge.higherPoint, 1.0)];
      r := r + [WithW(edge.lowerPoint, 1.0)];
      r := r + [lowInfinity];
      r := r + [highInfinity];
      r := r + [WithW(edge.lowerPoint, 1.0)];
    }
  }

  /** The sign whose quad an edge emits for its code at the light's voxel:
      a silhouette code's own sign, for POTENTIAL the multiplicity at the
      light, and 0 (nothing) otherwise. */
  function EdgeSign(info: EdgeInfo, code: int, lightPos: Vec3): int
  {
    if IsSilhouette(code) then MultiplicitySign(code)
    else if code == EDGE_POTENTIALLY_SILHOUETTE then Multiplicity(info, lightPos)
    else 0
  }

  /** The sides one edge emits: the quad of its sign. */
  function EdgeSides(info: EdgeInfo, code: int, lightPos: Vec3): seq<Vec4>
  {
    SideQuad(lightPos, info.edge, EdgeSign(info, code, lightPos))
  }

  /** Code by code: NOT emits nothing, PLUS the positive quad, MINUS the
      negative quad, POTENTIAL the quad of the multiplicity's sign, which is
      nothing for multiplicity 0. So an edge emits a quad exactly when it is
      a silhouette for the voxel or a potential one whose multiplicity at the
      light is not zero. */
  lemma EdgeSidesMeaning(info: EdgeInfo, code: int, lightPos: Vec3)
    requires EDGE_NOT_SILHOUETTE <= code <= EDGE_IS_SILHOUETTE_MINUS
    ensures code == EDGE_NOT_SILHOUETTE ==> EdgeSides(info, code, lightPos) == []
    ensures code == EDGE_POTENTIALLY_SILHOUETTE ==>
      EdgeSides(info, code, lightPos) == SideQuad(lightPos, info.edge, Multiplicity(info, lightPos))
    ensures code == EDGE_IS_SILHOUETTE_PLUS ==> EdgeSides(info, code, lightPos) == SideQuad(lightPos, info.edge, 1)
    ensures code == EDGE_IS_SILHOUETTE_MINUS ==> EdgeSides(info, code, lightPos) == SideQuad(lightPos, info.edge, -1)
    ensures |EdgeSides(info, code, lightPos)| == 0 || |EdgeSides(info, code, lightPos)| == 6
    ensures |EdgeSides(info, code, lightPos)| == 6 <==>
      IsSilhouette(code) || (code == EDGE_POTENTIALLY_SILHOUETTE && Multiplicity(info, lightPos) != 0)
  {
    SideQuadShape(lightPos, info.edge, EdgeSign(info, code, lightPos));
  }

  /** The parts one after the other: the first n of them concatenated. */
  function Concat<T>(parts: seq<seq<T>>, n: nat): seq<T>
    requires n <= |parts|
  {
    if n == 0 then [] else Concat(parts, n - 1) + parts[n - 1]
  }

  /** The parts are concatenated in order: those of the first k parts come
      first, and part k comes right after them. */
  lemma {:induction false} ConcatPrefix<T>(parts: seq<seq<T>>, k: nat, n: nat)
    requires k < n <= |parts|
    ensures Concat(parts, k) + parts[k] <= Concat(parts, n)
  {
    if k + 1 < n {
      ConcatPrefix(parts, k, n - 1);
    }
  }

  /** Parts of six points or none make a concatenation of whole quads, at
      most one per part. */
  lemma {:induction false} ConcatQuads<T>(parts: seq<seq<T>>, n: nat)
    requires n <= |parts|
    requires forall j :: 0 <= j < |parts| ==> |parts[j]| == 0 || |parts[j]| == 6
    ensures |Concat(parts, n)| % 6 == 0 && |Concat(parts, n)| <= 6 * n
  {
    if n > 0 {
      ConcatQuads(parts, n - 1);
    }
  }

  /** The sides of every edge, edge by edge. */
  function EdgeSidesAll(infos: seq<EdgeInfo>, codes: seq<int>, lightPos: Vec3): (r: seq<seq<Vec4>>)
    requires |infos| == |codes|
    ensures |r| == |infos|
    ensures forall k {:trigger r[k]} :: 0 <= k < |infos| ==> r[k] == EdgeSides(infos[k], codes[k], lightPos)
  {
    seq(|infos|, k requires 0 <= k < |infos| => EdgeSides(infos[k], codes[k], lightPos))
  }

  /** The sides emitted for all edges: each edge's sides, in edge order. */
  function SidesFor(infos: seq<EdgeInfo>, codes: seq<int>, lightPos: Vec3): seq<Vec4>
    requires |infos| == |codes|
  {
    Concat(EdgeSidesAll(infos, codes, lightPos), |infos|)
  }

  /** With codes 0 .. 3, the sides are whole quads, at most one per edge,
      and the sides of edge k sit right after those of the edges before it. */
  lemma SidesForLayout(infos: seq<EdgeInfo>, codes: seq<int>, lightPos: Vec3, k: nat)
    requires |infos| == |codes| && k < |infos|
    requires forall j :: 0 <= j < |codes| ==> EDGE_NOT_SILHOUETTE <= codes[j] <= EDGE_IS_SILHOUETTE_MINUS
    ensures |SidesFor(infos, codes, lightPos)| % 6 == 0 && |SidesFor(infos, codes, lightPos)| <= 6 * |infos|
    ensures Concat(EdgeSidesAll(infos, codes, lightPos), k) + EdgeSides(infos[k], codes[k], lightPos)
         <= SidesFor(infos, codes, lightPos)
  {
    var parts := EdgeSidesAll(infos, codes, lightPos);
    forall j | 0 <= j < |parts|
      ensures |parts[j]| == 0 || |parts[j]| == 6
    {
      EdgeSidesMeaning(infos[j], codes[j], lightPos);
    }
    ConcatQuads(parts, |parts|);
    ConcatPrefix(parts, k, |parts|);
  }

  /** The body of the side loop for one edge: its code at the light's
      voxel (`getCellContent`) decides which quad is appended. */
  method EmitEdgeSides(ma: MultiBitArray, info: EdgeInfo, lightPos: Vec3, v: nat, ghost code: int, sides: seq<Vec4>)
    returns (r: seq<Vec4>)
    requires CellHolds(ma, v, code)
    ensures r == sides + EdgeSides(info, code, lightPos)
  {
    var cell := ma.GetCellContent(v);
    var result := cell as int;
    r := sides;
    if IsSilhouette(result) {
      var multiplicitySign := MultiplicitySign(result);
      r := GeneratePushSideFromEdge(lightPos, info.edge, multiplicitySign, r);
    }
    if result == EDGE_POTENTIALLY_SILHOUETTE {
      var multiplicity := CalcEdgeMultiplicity(info, lightPos);
      if multiplicity != 0 {
        r := GeneratePushSideFromEdge(lightPos, info.edge, multiplicity, r);
      }
    }
  }

  /** One turn of the side loop: edge i appends its sides after those of
      the edges before it. */
  method EmitSidesStep(arrays: seq<MultiBitArray>, infos: seq<EdgeInfo>, lightPos: Vec3, v: nat, ghost codes: seq<int>,
                       ghost parts: seq<seq<Vec4>>, i: nat, ghost prefix: seq<Vec4>, sides: seq<Vec4>)
    returns (r: seq<Vec4>)
    requires |infos| == |codes| <= |arrays| && i < |infos|
    requires forall k {:trigger arrays[k]} :: 0 <= k < |codes| ==> CellHolds(arrays[k], v, codes[k])
    requires parts == EdgeSidesAll(infos, codes, lightPos)
    requires sides == prefix + Concat(parts, i)
    ensures r == prefix + Concat(parts, i + 1)
  {
    r := EmitEdgeSides(arrays[i], infos[i], lightPos, v, codes[i], sides);
    assert r == prefix + (Concat(parts, i) + parts[i]);
  }

  /** The side loop over the edges, given the code in each array's cell v. */
  method EmitSides(arrays: seq<MultiBitArray>, infos: seq<EdgeInfo>, lightPos: Vec3, v: nat, ghost codes: seq<int>,
                   sides: seq<Vec4>)
    returns (r: seq<Vec4>)
    requires |infos| == |codes| <= |arrays|
    requires forall k {:trigger arrays[k]} :: 0 <= k < |codes| ==> CellHolds(arrays[k], v, codes[k])
    ensures r == sides + SidesFor(infos, codes, lightPos)
  {
    ghost var parts := EdgeSidesAll(infos, codes, lightPos);
    r := sides;
    var i := 0;
    while i < |infos|
      invariant i <= |infos|
      invariant r == sides + Concat(parts, i)
    {
      r := EmitSidesStep(arrays, infos, lightPos, v, codes, parts, i, sides, r);
      i := i + 1;
    }
  }

  class HierarchicalSilhouetteRenderer {
    var scene: Scene
    /** `_edges`, in the order its iteration visits. */
    var edges: seq<EdgeInfo>
    var edgeBitmasks: seq<MultiBitArray>
    var pretransformedTriangles: seq<Triangle>
    var sides: seq<Vec4>
    /** The light space the arrays were generated for. */
    ghost var lightSpace: VoxelSpace

    /** Array k holds, voxel by voxel, the renderer's code of edge k. */
    ghost predicate Valid()
      reads this, set k | 0 <= k < |edgeBitmasks| :: edgeBitmasks[k]
    {
      ArraysHold(edgeBitmasks, PlaneTest, lightSpace, edges)
    }

    /** A renderer for the scene with the edges it extracted; `init` moves
        the light to (0, 10, 0). No arrays and no sides yet. */
    constructor(scene: Scene, edges: seq<EdgeInfo>)
      ensures this.scene == scene.(lightPos := Vec3(0.0, 10.0, 0.0)) && this.edges == edges
      ensures edgeBitmasks == [] && pretransformedTriangles == [] && sides == []
    {
      this.scene := scene.(lightPos := Vec3(0.0, 10.0, 0.0));
      this.edges := edges;
      edgeBitmasks := [];
      pretransformedTriangles := [];
      sides := [];
      lightSpace := EmptyVoxelSpace();
    }

    /** `_allocateTriangleVector`: a third of the vertex count of all
        meshes, rounded down, entries. */
    method AllocateTriangleVector()
      modifies this`pretransformedTriangles
      ensures pretransformedTriangles
           == Resized(old(pretransformedTriangles), VertexCount(scene.meshes, |scene.meshes|) / 3)
    {
      var size := 0;
      for k := 0 to |scene.meshes|
        invariant size == VertexCount(scene.meshes, k)
      {
        size := size + |scene.meshes[k].vertices|;
      }
      size := size / 3;
      pretransformedTriangles := Resized(pretransformedTriangles, size);
    }

    /** `_generatePerEdgeVoxelInfo`: clears the list, then pushes one array
        per edge, in edge order, with the renderer's voxel test; every edge
        must have one or two opposite vertices. */
    method GeneratePerEdgeVoxelInfo(lightSpace: VoxelSpace)
      requires forall k :: 0 <= k < |edges| ==> 1 <= |edges[k].oppositeVertices| <= 2
      modifies this
      ensures Valid() && this.lightSpace == lightSpace && |edgeBitmasks| == |edges|
      ensures edges == old(edges) && scene == old(scene) && sides == old(sides)
      ensures pretransformedTriangles == old(pretransformedTriangles)
    {
      var test := PlaneTest;
      var edgeList := edges;
      edgeBitmasks := [];
      for n := 0 to |edgeList|
        invariant edges == edgeList && scene == old(scene) && sides == old(sides)
        invariant pretransformedTriangles == old(pretransformedTriangles)
        invariant ArraysHold(edgeBitmasks, test, lightSpace, edgeList[..n])
      {
        var ma := BuildEdgeArray(test, lightSpace, edgeList[n]);
        ArraysHoldAppend(edgeBitmasks, ma, test, lightSpace, edgeList, n);
        edgeBitmasks := edgeBitmasks + [ma];
      }
      assert edgeList[..|edgeList|] == edgeList;
      this.lightSpace := lightSpace;
    }

    /** `_generateSidesFromVoxelIndex`: appends to the given sides, edge by
        edge, the sides of the code at the voxel; the voxel must be one of
        the light space's. */
    method GenerateSidesFromVoxelIndex(voxelLinearIndex: nat, sides: seq<Vec4>) returns (r: seq<Vec4>)
      requires Valid() && voxelLinearIndex < NumVoxels(lightSpace)
      ensures r == sides + SidesFor(edges, CodesAt(PlaneTest, lightSpace, edges, voxelLinearIndex), scene.lightPos)
    {
      CellsHoldCodes(edgeBitmasks, PlaneTest, lightSpace, edges, voxelLinearIndex);
      r := EmitSides(edgeBitmasks, edges, scene.lightPos, voxelLinearIndex,
                     CodesAt(PlaneTest, lightSpace, edges, voxelLinearIndex), sides);
    }
  }
}
