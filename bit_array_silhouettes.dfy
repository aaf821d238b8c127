/** The per-edge voxel bitmasks of src/BitArraySilhouettes.cpp.

    For every edge with at least one opposite vertex, one multi-bit array
    of 3-bit cells, one cell per voxel of the light space, holds the edge's
    silhouette code for a light anywhere in that voxel. The edge container
    is taken as the sequence its iteration visits. */
module SilhouetteBitmasks {
  import opened Geometry
  import opened Edges
  import opened CommonTypes
  import opened GeometryOps
  import opened VoxelSpaces
  import opened BitStreams
  import opened MultiBitArrays

  // ---------------------------------------------------------------------
  // Which edges get an array

  /** The edges that receive an array, in container order: those with at
      least one opposite vertex. */
  function NonEmptyEdges(edges: seq<EdgeInfo>): seq<EdgeInfo>
  {
    if edges == [] then []
    else
      var last := edges[|edges| - 1];
      NonEmptyEdges(edges[..|edges| - 1]) + (if |last.oppositeVertices| == 0 then [] else [last])
  }

  /** Keeping the non-empty edges distributes over concatenation, so it keeps
      the container order. */
  lemma {:induction false} NonEmptyEdgesAppend(a: seq<EdgeInfo>, b: seq<EdgeInfo>)
    ensures NonEmptyEdges(a + b) == NonEmptyEdges(a) + NonEmptyEdges(b)
    decreases |b|
  {
    if b == [] {
      assert a + b == a;
    } else {
      var b0 := b[..|b| - 1];
      assert (a + b)[..|a + b| - 1] == a + b0;
      NonEmptyEdgesAppend(a, b0);
    }
  }

  /** The last edge of the container is kept after the kept edges before
      it exactly when it has an opposite vertex. */
  lemma NonEmptyEdgesLast(edges: seq<EdgeInfo>)
    requires edges != []
    ensures NonEmptyEdges(edges)
         == NonEmptyEdges(edges[..|edges| - 1])
            + (if |edges[|edges| - 1].oppositeVertices| == 0 then [] else [edges[|edges| - 1]])
  {
  }

  /** Exactly the edges with an opposite vertex are kept, and no more
      edges than the container holds. */
  lemma {:induction false} NonEmptyEdgesMembers(edges: seq<EdgeInfo>)
    ensures |NonEmptyEdges(edges)| <= |edges|
    ensures forall e :: e in NonEmptyEdges(edges) <==> e in edges && |e.oppositeVertices| > 0
  {
    if edges != [] {
      var init := edges[..|edges| - 1];
      var last := edges[|edges| - 1];
      NonEmptyEdgesMembers(init);
      NonEmptyEdgesLast(edges);
      assert edges == init + [last];
      forall e
        ensures e in NonEmptyEdges(edges) <==> e in edges && |e.oppositeVertices| > 0
      {
        assert e in edges <==> e in init || e == last;
      }
    }
  }

  /** A container without edges lacking opposite vertices is kept whole. */
  lemma {:induction false} NonEmptyEdgesWhole(edges: seq<EdgeInfo>)
    requires forall k :: 0 <= k < |edges| ==> |edges[k].oppositeVertices| > 0
    ensures NonEmptyEdges(edges) == edges
  {
    if edges != [] {
      var init := edges[..|edges| - 1];
      NonEmptyEdgesWhole(init);
      NonEmptyEdgesLast(edges);
      assert edges == init + [edges[|edges| - 1]];
    }
  }

  // ---------------------------------------------------------------------
  // The code stored per voxel

  /** Which per-voxel test fills the arrays: `GeometryOps::testEdgeSpaceAabb`
      (src/BitArraySilhouettes.cpp, src/BitArrayVoxelSilhouettes.cpp), or the
      test the renderer writes out inline with `Plane::testAABB`
      (src/HSRenderer.cpp). */
  datatype VoxelTest = EdgeSpaceTest | PlaneTest

  /** The renderer's inline test: INTERSECTS on either plane gives
      POTENTIAL; labels of opposite sign give `PLUS + (multiplicity < 0)`;
      anything else gives NOT. Its box labels count a corner on the plane as
      BELOW. */
  function PlaneTestVoxel(p1: Plane, p2: Plane, info: EdgeInfo, voxel: Aabb): (r: int)
    ensures EDGE_NOT_SILHOUETTE <= r <= EDGE_IS_SILHOUETTE_MINUS
  {
    var result1 := AgreedLabel(CornerLabels(p1, voxel));
    var result2 := AgreedLabel(CornerLabels(p2, voxel));
    if result1 == TEST_RESULT_INTERSECTS || result2 == TEST_RESULT_INTERSECTS then EDGE_POTENTIALLY_SILHOUETTE
    else if result1 * result2 < 0 then
      EDGE_IS_SILHOUETTE_PLUS + (if Multiplicity(info, voxel.minPoint) < 0 then 1 else 0)
    else EDGE_NOT_SILHOUETTE
  }

  /** The code the chosen test gives a voxel box. */
  function TestVoxel(test: VoxelTest, p1: Plane, p2: Plane, info: EdgeInfo, voxel: Aabb): (r: int)
    ensures EDGE_NOT_SILHOUETTE <= r <= EDGE_IS_SILHOUETTE_MINUS
  {
    match test
    case EdgeSpaceTest => TestEdgeSpaceAabb(p1, p2, info, voxel)
    case PlaneTest => PlaneTestVoxel(p1, p2, info, voxel)
  }

  /** Away from the planes the two tests agree: when no corner of the voxel
      lies exactly on either plane, both give the same code. They differ
      only when a corner is on a plane, which the renderer's labels count
      as BELOW and `testEdgeSpaceAabb` as INTERSECTS_ON. */
  lemma PlaneTestAgreesOffPlane(p1: Plane, p2: Plane, info: EdgeInfo, voxel: Aabb)
    requires forall i :: 0 <= i < 8 ==> TestPoint(p1, Corner(voxel, i)) != 0.0 && TestPoint(p2, Corner(voxel, i)) != 0.0
    ensures PlaneTestVoxel(p1, p2, info, voxel) == TestEdgeSpaceAabb(p1, p2, info, voxel)
  {
    assert CornerLabels(p1, voxel) == CornerResults(p1, voxel);
    assert CornerLabels(p2, voxel) == CornerResults(p2, voxel);
  }

  /** A corner on a plane separates the tests: with the first corner on p1
      and the rest strictly above it, and the voxel strictly above p2, the
      renderer sees the box on opposite sides and reports a silhouette code,
      while `testEdgeSpaceAabb` reports POTENTIAL. */
  lemma PlaneTestDiffersOnPlane(p1: Plane, p2: Plane, info: EdgeInfo, voxel: Aabb)
    requires TestPoint(p1, Corner(voxel, 0)) == 0.0
    requires forall i :: 1 <= i < 8 ==> TestPoint(p1, Corner(voxel, i)) < 0.0
    requires forall i :: 0 <= i < 8 ==> TestPoint(p2, Corner(voxel, i)) > 0.0
    ensures TestEdgeSpaceAabb(p1, p2, info, voxel) == EDGE_POTENTIALLY_SILHOUETTE
    ensures PlaneTestVoxel(p1, p2, info, voxel) in {EDGE_IS_SILHOUETTE_PLUS, EDGE_IS_SILHOUETTE_MINUS}
  {
    CornerOnPlaneIntersects(voxel, p1, 0);
    var l1 := CornerLabels(p1, voxel);
    assert forall j :: 0 <= j < 8 ==> l1[j] == TEST_RESULT_BELOW;
    var l2 := CornerLabels(p2, voxel);
    assert forall j :: 0 <= j < 8 ==> l2[j] == TEST_RESULT_ABOVE;
  }

  /** The code for voxel i of an edge with one or two opposite vertices:
      POTENTIAL everywhere for one vertex (its multiplicity is left to the
      renderer); for two, the chosen test of the two triangle planes on the
      voxel's box. */
  function VoxelCode(test: VoxelTest, lightSpace: VoxelSpace, info: EdgeInfo, i: nat): (r: int)
    requires 1 <= |info.oppositeVertices| <= 2 && i < NumVoxels(lightSpace)
    ensures EDGE_NOT_SILHOUETTE <= r <= EDGE_IS_SILHOUETTE_MINUS
    ensures |info.oppositeVertices| == 1 ==> r == EDGE_POTENTIALLY_SILHOUETTE
  {
    if |info.oppositeVertices| == 1 then EDGE_POTENTIALLY_SILHOUETTE
    else
      var p1 := BuildEdgeTrianglePlane(info.edge, info.oppositeVertices[0]);
      var p2 := BuildEdgeTrianglePlane(info.edge, info.oppositeVertices[1]);
      TestVoxel(test, p1, p2, info, GetVoxelFromLinearIndex(lightSpace, i).value)
  }

  /** A code 0 .. 3 as the 32-bit value written into a cell. */
  function CodeBits(code: int): (r: bv32)
    requires 0 <= code <= 3
    ensures r < 4 && r as int == code
  {
    if code == 0 then 0 else if code == 1 then 1 else if code == 2 then 2 else 3
  }

  /** For two opposite vertices the code is the chosen test on the box
      of the voxel's coordinates. */
  lemma VoxelCodeOfTwoVertices(test: VoxelTest, lightSpace: VoxelSpace, info: EdgeInfo, i: nat)
    requires |info.oppositeVertices| == 2 && i < NumVoxels(lightSpace)
    ensures VoxelCode(test, lightSpace, info, i)
         == TestVoxel(test, BuildEdgeTrianglePlane(info.edge, info.oppositeVertices[0]),
                              BuildEdgeTrianglePlane(info.edge, info.oppositeVertices[1]),
                              info, VoxelBox(lightSpace, VoxelCoordsFromLinearIndex(lightSpace, i)))
  {
  }

  /** The codes of voxels 0 .. n - 1 as cell values. */
  function VoxelCodes(test: VoxelTest, lightSpace: VoxelSpace, info: EdgeInfo, n: nat): (r: seq<bv32>)
    requires 1 <= |info.oppositeVertices| <= 2 && n <= NumVoxels(lightSpace)
    ensures |r| == n
    ensures forall i :: 0 <= i < n ==> r[i] == CodeBits(VoxelCode(test, lightSpace, info, i))
  {
    seq(n, i requires 0 <= i < n => CodeBits(VoxelCode(test, lightSpace, info, i)))
  }

  /** The array of an edge: 3-bit cells (width 0 when there are no voxels,
      as a zero-size array is freed), one per voxel, each holding the
      voxel's code. */
  ghost predicate ArrayHolds(ma: MultiBitArray, test: VoxelTest, lightSpace: VoxelSpace, info: EdgeInfo)
    reads ma
  {
    && 1 <= |info.oppositeVertices| <= 2
    && ma.Valid()
    && ma.numCells == NumVoxels(lightSpace)
    && ma.numBitsPerCell == (if ma.numCells == 0 then 0 else 3)
    && forall i :: 0 <= i < ma.numCells ==> ma.Cell(i) == CodeBits(VoxelCode(test, lightSpace, info, i))
  }

  /** The arrays of a list of edges, position by position. */
  ghost predicate ArraysHold(arrays: seq<MultiBitArray>, test: VoxelTest, lightSpace: VoxelSpace, infos: seq<EdgeInfo>)
    reads set k | 0 <= k < |arrays| :: arrays[k]
  {
    && |arrays| == |infos|
    && forall k :: 0 <= k < |arrays| ==> ArrayHolds(arrays[k], test, lightSpace, infos[k])
  }

  /** The codes of voxel v, edge by edge. */
  function CodesAt(test: VoxelTest, lightSpace: VoxelSpace, infos: seq<EdgeInfo>, v: nat): (r: seq<int>)
    requires v < NumVoxels(lightSpace) && forall k :: 0 <= k < |infos| ==> 1 <= |infos[k].oppositeVertices| <= 2
    ensures |r| == |infos|
    ensures forall k :: 0 <= k < |infos| ==> r[k] == VoxelCode(test, lightSpace, infos[k], v)
  {
    seq(|infos|, k requires 0 <= k < |infos| => VoxelCode(test, lightSpace, infos[k], v))
  }

  /** Cell v of the array can be read and holds the given code. */
  ghost predicate CellHolds(ma: MultiBitArray, v: nat, code: int)
    reads ma
  {
    ma.Valid() && 1 <= ma.numBitsPerCell && v < ma.numCells && ma.Cell(v) as int == code
  }

  /** In arrays that hold their edges' codes, cell v of array k holds the
      code of edge k at voxel v. */
  lemma CellsHoldCodes(arrays: seq<MultiBitArray>, test: VoxelTest, lightSpace: VoxelSpace, infos: seq<EdgeInfo>, v: nat)
    requires ArraysHold(arrays, test, lightSpace, infos) && v < NumVoxels(lightSpace)
    ensures |CodesAt(test, lightSpace, infos, v)| == |arrays|
    ensures forall k :: 0 <= k < |arrays| ==> CellHolds(arrays[k], v, CodesAt(test, lightSpace, infos, v)[k])
  {
    var codes := CodesAt(test, lightSpace, infos, v);
    forall k | 0 <= k < |arrays|
      ensures CellHolds(arrays[k], v, codes[k])
    {
      assert ArrayHolds(arrays[k], test, lightSpace, infos[k]);
    }
  }

  /** Words of an array with numCells cells of width w whose first i cells
      hold the codes of voxels 0 .. i - 1. */
  ghost predicate FilledUpTo(words: seq<bv32>, numCells: nat, w: nat, test: VoxelTest, lightSpace: VoxelSpace, info: EdgeInfo, i: nat)
  {
    && 1 <= |info.oppositeVertices| <= 2
    && numCells == NumVoxels(lightSpace) && i <= numCells
    && w == (if numCells == 0 then 0 else 3)
    && numCells * w <= 32 * |words|
    && CellsRead(words, w, VoxelCodes(test, lightSpace, info, i))
  }

  /** The array is well formed and its first i cells hold the codes of
      voxels 0 .. i - 1. */
  ghost predicate Filled(ma: MultiBitArray, test: VoxelTest, lightSpace: VoxelSpace, info: EdgeInfo, i: nat)
    reads ma
  {
    ma.Valid() && FilledUpTo(ma.words, ma.numCells, ma.numBitsPerCell, test, lightSpace, info, i)
  }

  /** The two triangle planes of an edge with two opposite vertices. */
  predicate TrianglePlanes(info: EdgeInfo, p1: Plane, p2: Plane)
  {
    && |info.oppositeVertices| == 2
    && p1 == BuildEdgeTrianglePlane(info.edge, info.oppositeVertices[0])
    && p2 == BuildEdgeTrianglePlane(info.edge, info.oppositeVertices[1])
  }

  /** Writing voxel i's code into cell i extends the filled prefix by one. */
  lemma FillStep(before: seq<bv32>, after: seq<bv32>, numCells: nat, w: nat,
                 test: VoxelTest, lightSpace: VoxelSpace, info: EdgeInfo, p1: Plane, p2: Plane, i: nat, code: int)
    requires FilledUpTo(before, numCells, w, test, lightSpace, info, i) && i < numCells
    requires TrianglePlanes(info, p1, p2)
    requires code == TestVoxel(test, p1, p2, info, GetVoxelFromLinearIndex(lightSpace, i).value)
    requires |after| == |before| && WrittenRange(Bits(before), Bits(after), i * w, w, CodeBits(code))
    ensures FilledUpTo(after, numCells, w, test, lightSpace, info, i + 1)
  {
    assert code == VoxelCode(test, lightSpace, info, i);
    MaskThreeBits(CodeBits(code));
    WriteNextCell(before, after, w, numCells, VoxelCodes(test, lightSpace, info, i), CodeBits(code));
    assert VoxelCodes(test, lightSpace, info, i) + [CodeBits(code)] == VoxelCodes(test, lightSpace, info, i + 1);
  }

  /** A completely filled array holds the edge's codes. */
  lemma FilledArrayHolds(ma: MultiBitArray, test: VoxelTest, lightSpace: VoxelSpace, info: EdgeInfo)
    requires ma.Valid()
    requires FilledUpTo(ma.words, ma.numCells, ma.numBitsPerCell, test, lightSpace, info, ma.numCells)
    ensures ArrayHolds(ma, test, lightSpace, info)
  {
    ma.ReadCells(VoxelCodes(test, lightSpace, info, ma.numCells));
  }

  /** The body of the voxel loop: the box of voxel i, its code under the
      test, and the write of that code into cell i. */
  method ClassifyVoxel(ma: MultiBitArray, test: VoxelTest, lightSpace: VoxelSpace, info: EdgeInfo, p1: Plane, p2: Plane, i: nat)
    requires TrianglePlanes(info, p1, p2) && i < ma.numCells
    requires Filled(ma, test, lightSpace, info, i)
    modifies ma`words
    ensures Filled(ma, test, lightSpace, info, i + 1)
  {
    var voxel := GetVoxelFromLinearIndex(lightSpace, i).value;
    var result := TestVoxel(test, p1, p2, info, voxel);
    ghost var before := ma.words;
    ma.SetCellContent(i, CodeBits(result));
    FillStep(before, ma.words, ma.numCells, ma.numBitsPerCell, test, lightSpace, info, p1, p2, i, result);
  }

  /** The voxel loop for an edge with two opposite vertices: cell i gets
      the edge-space test of the two planes on voxel i's box. */
  method ClassifyVoxels(ma: MultiBitArray, test: VoxelTest, lightSpace: VoxelSpace, info: EdgeInfo, p1: Plane, p2: Plane)
    requires TrianglePlanes(info, p1, p2)
    requires Filled(ma, test, lightSpace, info, 0)
    requires ma.numCells == NumVoxels(lightSpace)
    modifies ma`words
    ensures Filled(ma, test, lightSpace, info, ma.numCells)
  {
    var numVoxels := NumVoxels(lightSpace);
    for i := 0 to numVoxels
      invariant ma.numCells == numVoxels
      invariant Filled(ma, test, lightSpace, info, i)
    {
      ClassifyVoxel(ma, test, lightSpace, info, p1, p2, i);
    }
  }

  /** The array built for one edge (the body of the per-edge loop): all
      cells POTENTIAL for one opposite vertex; otherwise the two triangle
      planes are built once and every voxel's box is classified. */
  method BuildEdgeArray(test: VoxelTest, lightSpace: VoxelSpace, info: EdgeInfo) returns (ma: MultiBitArray)
    requires 1 <= |info.oppositeVertices| <= 2
    ensures fresh(ma)
    ensures ArrayHolds(ma, test, lightSpace, info)
  {
    ma := new MultiBitArray(3, NumVoxels(lightSpace));
    if |info.oppositeVertices| == 1 {
      MaskThreeBits(1);
      ma.SetAllCells(1);
    } else {
      var p1 := BuildEdgeTrianglePlane(info.edge, info.oppositeVertices[0]);
      var p2 := BuildEdgeTrianglePlane(info.edge, info.oppositeVertices[1]);
      ClassifyVoxels(ma, test, lightSpace, info, p1, p2);
      FilledArrayHolds(ma, test, lightSpace, info);
    }
  }

  /** The source asserts that no edge has more than two opposite vertices. */
  predicate AtMostTwoOpposite(edges: seq<EdgeInfo>)
  {
    forall k :: 0 <= k < |edges| ==> |edges[k].oppositeVertices| <= 2
  }

  /** The arrays built for the first n edges, with the newest array fresh. */
  lemma ArraysHoldStep(arrays: seq<MultiBitArray>, ma: MultiBitArray, test: VoxelTest, lightSpace: VoxelSpace,
                       edges: seq<EdgeInfo>, n: nat)
    requires n < |edges| && |edges[n].oppositeVertices| > 0
    requires ArraysHold(arrays, test, lightSpace, NonEmptyEdges(edges[..n]))
    requires ArrayHolds(ma, test, lightSpace, edges[n])
    ensures ArraysHold(arrays + [ma], test, lightSpace, NonEmptyEdges(edges[..n + 1]))
  {
    assert edges[..n + 1][..n] == edges[..n];
  }

  /** One array per edge, every edge kept: appending the array of edge n
      extends the list for the first n edges to the first n + 1. */
  lemma ArraysHoldAppend(arrays: seq<MultiBitArray>, ma: MultiBitArray, test: VoxelTest, lightSpace: VoxelSpace,
                         edges: seq<EdgeInfo>, n: nat)
    requires n < |edges|
    requires ArraysHold(arrays, test, lightSpace, edges[..n])
    requires ArrayHolds(ma, test, lightSpace, edges[n])
    ensures ArraysHold(arrays + [ma], test, lightSpace, edges[..n + 1])
  {
    assert edges[..n + 1] == edges[..n] + [edges[n]];
  }

  /** An edge without opposite vertices adds no array. */
  lemma SkipEmptyEdge(edges: seq<EdgeInfo>, n: nat)
    requires n < |edges| && |edges[n].oppositeVertices| == 0
    ensures NonEmptyEdges(edges[..n + 1]) == NonEmptyEdges(edges[..n])
  {
    assert edges[..n + 1][..n] == edges[..n];
  }

  class BitArraySilhouettes {
    var edgeBitmasks: seq<MultiBitArray>

    /** The constructor clears the list. */
    constructor ()
      ensures edgeBitmasks == []
    {
      edgeBitmasks := [];
    }

    /** `clear`: drops every array. */
    method Clear()
      modifies this
      ensures edgeBitmasks == []
    {
      edgeBitmasks := [];
    }

    /** `generatePerEdgeVoxelInfo`: clears the list, then pushes, in edge
        order, the array of every edge with an opposite vertex. */
    method GeneratePerEdgeVoxelInfo(lightSpace: VoxelSpace, edges: seq<EdgeInfo>)
      requires AtMostTwoOpposite(edges)
      modifies this
      ensures ArraysHold(edgeBitmasks, EdgeSpaceTest, lightSpace, NonEmptyEdges(edges))
    {
      var test := EdgeSpaceTest;
      edgeBitmasks := [];
      for n := 0 to |edges|
        invariant ArraysHold(edgeBitmasks, test, lightSpace, NonEmptyEdges(edges[..n]))
      {
        var edge := edges[n];
        if |edge.oppositeVertices| == 0 {
          SkipEmptyEdge(edges, n);
          continue;
        }
        var ma := BuildEdgeArray(test, lightSpace, edge);
        ArraysHoldStep(edgeBitmasks, ma, test, lightSpace, edges, n);
        edgeBitmasks := edgeBitmasks + [ma];
      }
      assert edges[..|edges|] == edges;
    }
  }
}
