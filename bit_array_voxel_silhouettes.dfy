/** The voxel accelerator of src/BitArrayVoxelSilhouettes.cpp.

    `initialize` voxelises the light space and builds, like
    src/BitArraySilhouettes.cpp, one array of 3-bit codes per edge with an
    opposite vertex. The query looks up the light's voxel and scans that
    cell of every array: POTENTIAL arrays are reported in one list, arrays
    passing the strict silhouette test (a code above 2, so only MINUS) in
    the other, signed. Both lists number the arrays by their position in
    the list of arrays, which is not the edge's position in the container
    once an edge without opposite vertices has been skipped. */
module VoxelSilhouettes {
  import opened Geometry
  import opened Edges
  import opened CommonTypes
  import opened GeometryOps
  import opened VoxelSpaces
  import opened MultiBitArrays
  import opened SilhouetteBitmasks

  // ---------------------------------------------------------------------
  // The query on the codes of one voxel

  /** The positions among the first n whose code is POTENTIAL, in order. */
  function PotentialPositions(codes: seq<int>, n: nat): seq<int>
    requires n <= |codes|
  {
    if n == 0 then []
    else PotentialPositions(codes, n - 1) + (if codes[n - 1] == EDGE_POTENTIALLY_SILHOUETTE then [n - 1] else [])
  }

  /** The signed positions among the first n whose code passes the strict
      silhouette test, in order. */
  function SilhouettePositions(codes: seq<int>, n: nat): seq<int>
    requires n <= |codes|
  {
    if n == 0 then []
    else
      var last := if IsSilhouetteStrict(codes[n - 1]) then [MultiplicitySign(codes[n - 1]) * (n - 1)] else [];
      SilhouettePositions(codes, n - 1) + last
  }

  /** The potential list holds exactly the POTENTIAL positions, each once,
      in increasing order. */
  lemma {:induction false} PotentialPositionsMeaning(codes: seq<int>, n: nat)
    requires n <= |codes|
    ensures forall x :: x in PotentialPositions(codes, n) <==> 0 <= x < n && codes[x] == EDGE_POTENTIALLY_SILHOUETTE
    ensures forall a, b :: 0 <= a < b < |PotentialPositions(codes, n)| ==>
      PotentialPositions(codes, n)[a] < PotentialPositions(codes, n)[b]
  {
    if n > 0 {
      PotentialPositionsMeaning(codes, n - 1);
      var p := PotentialPositions(codes, n - 1);
      forall a, b | 0 <= a < b < |PotentialPositions(codes, n)|
        ensures PotentialPositions(codes, n)[a] < PotentialPositions(codes, n)[b]
      {
        if b == |p| {
          assert p[a] in p;
        }
      }
    }
  }

  /** With codes 0 .. 3 only MINUS positions are reported, each as its
      negated position: a PLUS array is never reported as a silhouette, and
      array 0 is reported as 0 whatever its sign. */
  lemma {:induction false} SilhouettePositionsMeaning(codes: seq<int>, n: nat)
    requires n <= |codes| && forall k :: 0 <= k < |codes| ==> EDGE_NOT_SILHOUETTE <= codes[k] <= EDGE_IS_SILHOUETTE_MINUS
    ensures forall x :: x in SilhouettePositions(codes, n) <==> 0 <= -x < n && codes[-x] == EDGE_IS_SILHOUETTE_MINUS
    ensures |SilhouettePositions(codes, n)| <= n
  {
    if n > 0 {
      SilhouettePositionsMeaning(codes, n - 1);
      IsSilhouetteStrictCodes(codes[n - 1]);
    }
  }

  // ---------------------------------------------------------------------
  // Array positions versus edge positions

  /** The container position of every edge that receives an array: the
      value of the `edgeIndex` counter of `initialize` when the array is
      pushed. */
  function ArrayEdgeIndices(edges: seq<EdgeInfo>): seq<nat>
  {
    if edges == [] then []
    else
      var n := |edges| - 1;
      ArrayEdgeIndices(edges[..n]) + (if |edges[n].oppositeVertices| == 0 then [] else [n])
  }

  /** Array k belongs to the edge at container position
      `ArrayEdgeIndices(edges)[k]`, which is at least k. */
  lemma {:induction false} ArrayEdgeIndicesMeaning(edges: seq<EdgeInfo>)
    ensures |ArrayEdgeIndices(edges)| == |NonEmptyEdges(edges)| <= |edges|
    ensures forall k :: 0 <= k < |ArrayEdgeIndices(edges)| ==>
      k <= ArrayEdgeIndices(edges)[k] < |edges| && edges[ArrayEdgeIndices(edges)[k]] == NonEmptyEdges(edges)[k]
  {
    if edges != [] {
      var n := |edges| - 1;
      var init := edges[..n];
      ArrayEdgeIndicesMeaning(init);
      assert NonEmptyEdges(edges) == NonEmptyEdges(init) + (if |edges[n].oppositeVertices| == 0 then [] else [edges[n]]);
      assert ArrayEdgeIndices(edges) == ArrayEdgeIndices(init) + (if |edges[n].oppositeVertices| == 0 then [] else [n]);
      forall k | 0 <= k < |ArrayEdgeIndices(init)|
        ensures edges[ArrayEdgeIndices(init)[k]] == init[ArrayEdgeIndices(init)[k]]
      {
      }
    }
  }

  /** Without edges lacking opposite vertices the two numberings agree. */
  lemma {:induction false} ArrayEdgeIndicesIdentity(edges: seq<EdgeInfo>)
    requires forall k :: 0 <= k < |edges| ==> |edges[k].oppositeVertices| > 0
    ensures forall k :: 0 <= k < |ArrayEdgeIndices(edges)| ==> ArrayEdgeIndices(edges)[k] == k
    ensures |ArrayEdgeIndices(edges)| == |edges|
  {
    if edges != [] {
      ArrayEdgeIndicesIdentity(edges[..|edges| - 1]);
    }
  }

  /** After an edge without opposite vertices the numberings part: with the
      container [e0, e1], e0 without and e1 with opposite vertices, the
      only array, number 0 in the query, belongs to edge 1. */
  lemma MisalignedAfterEmptyEdge(e0: EdgeInfo, e1: EdgeInfo)
    requires |e0.oppositeVertices| == 0 && |e1.oppositeVertices| > 0
    ensures NonEmptyEdges([e0, e1]) == [e1]
    ensures ArrayEdgeIndices([e0, e1]) == [1]
  {
    assert [e0][..0] == [];
    assert NonEmptyEdges([e0]) == [];
    assert ArrayEdgeIndices([e0]) == [];
    assert [e0, e1][..1] == [e0];
  }

  /** The silhouette list with the numbering `initialize` counts: the
      signed container position of every reported array. */
  function SilhouetteEdgeIndices(codes: seq<int>, arrayEdges: seq<nat>, n: nat): (r: seq<int>)
    requires n <= |codes| == |arrayEdges|
    ensures |r| == |SilhouettePositions(codes, n)|
  {
    if n == 0 then []
    else
      var last := if IsSilhouetteStrict(codes[n - 1]) then [MultiplicitySign(codes[n - 1]) * arrayEdges[n - 1]] else [];
      SilhouetteEdgeIndices(codes, arrayEdges, n - 1) + last
  }

  /** With codes 0 .. 3 the last array adds its negated edge position
      exactly when its code is MINUS. */
  lemma SilhouetteEdgeIndicesStep(codes: seq<int>, arrayEdges: seq<nat>, n: nat)
    requires 0 < n <= |codes| == |arrayEdges|
    requires EDGE_NOT_SILHOUETTE <= codes[n - 1] <= EDGE_IS_SILHOUETTE_MINUS
    ensures SilhouetteEdgeIndices(codes, arrayEdges, n)
         == SilhouetteEdgeIndices(codes, arrayEdges, n - 1)
            + (if codes[n - 1] == EDGE_IS_SILHOUETTE_MINUS then [-(arrayEdges[n - 1] as int)] else [])
  {
    IsSilhouetteStrictCodes(codes[n - 1]);
  }

  /** Reported by container position, every MINUS array names its own edge. */
  lemma {:induction false} SilhouetteEdgeIndicesComplete(codes: seq<int>, arrayEdges: seq<nat>, n: nat, k: nat)
    requires n <= |codes| == |arrayEdges|
    requires forall j :: 0 <= j < |codes| ==> EDGE_NOT_SILHOUETTE <= codes[j] <= EDGE_IS_SILHOUETTE_MINUS
    requires k < n && codes[k] == EDGE_IS_SILHOUETTE_MINUS
    ensures -(arrayEdges[k] as int) in SilhouetteEdgeIndices(codes, arrayEdges, n)
  {
    SilhouetteEdgeIndicesStep(codes, arrayEdges, n);
    if k < n - 1 {
      SilhouetteEdgeIndicesComplete(codes, arrayEdges, n - 1, k);
    }
  }

  /** Reported by container position, every reported value is the negated
      edge position of a MINUS array. */
  lemma {:induction false} SilhouetteEdgeIndicesSound(codes: seq<int>, arrayEdges: seq<nat>, n: nat, x: int)
    requires n <= |codes| == |arrayEdges|
    requires forall j :: 0 <= j < |codes| ==> EDGE_NOT_SILHOUETTE <= codes[j] <= EDGE_IS_SILHOUETTE_MINUS
    requires x in SilhouetteEdgeIndices(codes, arrayEdges, n)
    ensures exists k :: 0 <= k < n && codes[k] == EDGE_IS_SILHOUETTE_MINUS && x == -(arrayEdges[k] as int)
  {
    SilhouetteEdgeIndicesStep(codes, arrayEdges, n);
    if x in SilhouetteEdgeIndices(codes, arrayEdges, n - 1) {
      SilhouetteEdgeIndicesSound(codes, arrayEdges, n - 1, x);
      var k :| 0 <= k < n - 1 && codes[k] == EDGE_IS_SILHOUETTE_MINUS && x == -(arrayEdges[k] as int);
      assert 0 <= k < n;
    } else {
      assert codes[n - 1] == EDGE_IS_SILHOUETTE_MINUS && x == -(arrayEdges[n - 1] as int);
    }
  }

  // ---------------------------------------------------------------------
  // The scan of the light's voxel

  /** The loop of the query over the arrays, given the code in each
      array's cell v. */
  method ScanArrays(arrays: seq<MultiBitArray>, v: nat, ghost codes: seq<int>,
                    potentialIn: seq<int>, silhouetteIn: seq<int>)
    returns (potentialEdgeIndices: seq<int>, silhouetteEdgeIndices: seq<int>)
    requires |codes| == |arrays| && forall k :: 0 <= k < |arrays| ==> CellHolds(arrays[k], v, codes[k])
    ensures potentialEdgeIndices == potentialIn + PotentialPositions(codes, |codes|)
    ensures silhouetteEdgeIndices == silhouetteIn + SilhouettePositions(codes, |codes|)
  {
    potentialEdgeIndices, silhouetteEdgeIndices := potentialIn, silhouetteIn;
    var edgeIndex := 0;
    while edgeIndex < |arrays|
      invariant edgeIndex <= |arrays| == |codes|
      invariant potentialEdgeIndices == potentialIn + PotentialPositions(codes, edgeIndex)
      invariant silhouetteEdgeIndices == silhouetteIn + SilhouettePositions(codes, edgeIndex)
    {
      potentialEdgeIndices, silhouetteEdgeIndices := ScanArray(arrays[edgeIndex], v, codes, edgeIndex,
        potentialEdgeIndices, silhouetteEdgeIndices, potentialIn, silhouetteIn);
      edgeIndex := edgeIndex + 1;
    }
  }

  /** The body of the query loop for array k: its code at the light's
      voxel (`getCellContent`) decides what is appended to either list. */
  method ScanArray(ma: MultiBitArray, v: nat, ghost codes: seq<int>, k: nat,
                   potential: seq<int>, silhouette: seq<int>, ghost potentialIn: seq<int>, ghost silhouetteIn: seq<int>)
    returns (potentialEdgeIndices: seq<int>, silhouetteEdgeIndices: seq<int>)
    requires k < |codes| && CellHolds(ma, v, codes[k])
    requires potential == potentialIn + PotentialPositions(codes, k)
    requires silhouette == silhouetteIn + SilhouettePositions(codes, k)
    ensures potentialEdgeIndices == potentialIn + PotentialPositions(codes, k + 1)
    ensures silhouetteEdgeIndices == silhouetteIn + SilhouettePositions(codes, k + 1)
  {
    potentialEdgeIndices, silhouetteEdgeIndices := potential, silhouette;
    var cell := ma.GetCellContent(v);
    var result := cell as int;
    if IsSilhouetteStrict(result) {
      var multiplicitySign := MultiplicitySign(result);
      silhouetteEdgeIndices := silhouetteEdgeIndices + [multiplicitySign * k];
      assert silhouetteIn + SilhouettePositions(codes, k) + [multiplicitySign * k]
          == silhouetteIn + (SilhouettePositions(codes, k) + [multiplicitySign * k]);
    }
    if result == EDGE_POTENTIALLY_SILHOUETTE {
      potentialEdgeIndices := potentialEdgeIndices + [k];
      assert potentialIn + PotentialPositions(codes, k) + [k] == potentialIn + (PotentialPositions(codes, k) + [k]);
    }
  }

  // ---------------------------------------------------------------------
  // The accelerator

  class BitArrayVoxelSilhouettes {
    var edgeBitmasks: seq<MultiBitArray>
    var voxelizedSpace: VoxelSpace
    /** The edge container of the last `initialize`. */
    ghost var edges: seq<EdgeInfo>

    /** Array k holds the codes of the k-th edge with an opposite vertex. */
    ghost predicate Valid()
      reads this, set k | 0 <= k < |edgeBitmasks| :: edgeBitmasks[k]
    {
      ArraysHold(edgeBitmasks, EdgeSpaceTest, voxelizedSpace, NonEmptyEdges(edges))
    }

    /** The constructor clears the list; the voxel space is the default one. */
    constructor ()
      ensures Valid() && edgeBitmasks == [] && voxelizedSpace == EmptyVoxelSpace()
    {
      edgeBitmasks := [];
      voxelizedSpace := EmptyVoxelSpace();
      edges := [];
    }

    /** `clear`: drops every array. */
    method Clear()
      modifies this
      ensures Valid() && edgeBitmasks == [] && voxelizedSpace == old(voxelizedSpace)
    {
      edgeBitmasks := [];
      edges := [];
    }

    /** `initialize`: voxelises the light space with the given counts and
        pushes, in container order, the array of every edge with an opposite
        vertex; the source asserts at most two opposite vertices per edge. */
    method Initialize(edges: seq<EdgeInfo>, lightSpace: Aabb, numVoxelsX: nat, numVoxelsY: nat, numVoxelsZ: nat)
      requires AtMostTwoOpposite(edges)
      modifies this
      ensures Valid() && this.edges == edges
      ensures voxelizedSpace == Init(lightSpace, numVoxelsX, numVoxelsY, numVoxelsZ)
      ensures |edgeBitmasks| == |NonEmptyEdges(edges)|
    {
      edgeBitmasks := [];
      voxelizedSpace := Init(lightSpace, numVoxelsX, numVoxelsY, numVoxelsZ);
      var test := EdgeSpaceTest;
      var edgeIndex := 0;
      for n := 0 to |edges|
        invariant edgeIndex == n
        invariant voxelizedSpace == Init(lightSpace, numVoxelsX, numVoxelsY, numVoxelsZ)
        invariant ArraysHold(edgeBitmasks, test, voxelizedSpace, NonEmptyEdges(edges[..n]))
      {
        var edge := edges[n];
        if |edge.oppositeVertices| == 0 {
          SkipEmptyEdge(edges, n);
          edgeIndex := edgeIndex + 1;
          continue;
        }
        var ma := BuildEdgeArray(test, voxelizedSpace, edge);
        edgeIndex := edgeIndex + 1;
        ArraysHoldStep(edgeBitmasks, ma, test, voxelizedSpace, edges, n);
        edgeBitmasks := edgeBitmasks + [ma];
      }
      assert edges[..|edges|] == edges;
      this.edges := edges;
    }

    /** `_getVoxelIndexAABBFromPos`: -1 and the invalid box when the light
        is outside the voxels, otherwise the light's voxel and its box. The
        index is taken with the corrected range check of the voxel space. */
    function GetVoxelIndexAabbFromPos(lightPos: Vec3): (r: (int, Option<Aabb>))
      reads this
      requires HasSegments(voxelizedSpace)
      ensures r.0 == -1 <==> r.1.None?
      ensures r.0 != -1 ==> (IsLinearIndexValid(voxelizedSpace, r.0)
                             && VoxelCoordsFromLinearIndex(voxelizedSpace, r.0) == VoxelCoordsFromPointInSpace(voxelizedSpace, lightPos))
    {
      var voxelIndex := GetVoxelLinearIndexFromPointInSpaceCorrected(voxelizedSpace, lightPos);
      if voxelIndex < 0 then (-1, None)
      else (voxelIndex, GetVoxelFromLinearIndex(voxelizedSpace, voxelIndex))
    }

    /** `getSilhouetteEdgesForLightPos`: nothing is appended when the light
        is outside the voxels; otherwise, array by array, the position of
        every POTENTIAL array is appended to the first list and the signed
        position of every array passing the strict test to the second. */
    method GetSilhouetteEdgesForLightPos(lightPos: Vec3, potentialIn: seq<int>, silhouetteIn: seq<int>)
      returns (potentialEdgeIndices: seq<int>, silhouetteEdgeIndices: seq<int>)
      requires Valid() && HasSegments(voxelizedSpace)
      ensures var v := GetVoxelIndexAabbFromPos(lightPos).0;
        if v == -1 then potentialEdgeIndices == potentialIn && silhouetteEdgeIndices == silhouetteIn
        else
          var codes := CodesAt(EdgeSpaceTest, voxelizedSpace, NonEmptyEdges(edges), v);
          && potentialEdgeIndices == potentialIn + PotentialPositions(codes, |codes|)
          && silhouetteEdgeIndices == silhouetteIn + SilhouettePositions(codes, |codes|)
    {
      potentialEdgeIndices, silhouetteEdgeIndices := potentialIn, silhouetteIn;
      var voxelIndexAndBox := GetVoxelIndexAabbFromPos(lightPos);
      var voxelIndex := voxelIndexAndBox.0;
      if voxelIndex < 0 {
        return;
      }
      CellsHoldCodes(edgeBitmasks, EdgeSpaceTest, voxelizedSpace, NonEmptyEdges(edges), voxelIndex);
      potentialEdgeIndices, silhouetteEdgeIndices := ScanArrays(edgeBitmasks, voxelIndex,
        CodesAt(EdgeSpaceTest, voxelizedSpace, NonEmptyEdges(edges), voxelIndex), potentialIn, silhouetteIn);
    }

    /** `getAccelerationStructureSizeBytes`: arrays times cells of the first
        array times 4 bytes; the first array must exist. */
    function GetAccelerationStructureSizeBytes(): (r: nat)
      reads this, set k | 0 <= k < |edgeBitmasks| :: edgeBitmasks[k]
      requires Valid() && |edgeBitmasks| > 0
      ensures r == 4 * |NonEmptyEdges(edges)| * NumVoxels(voxelizedSpace)
    {
      |edgeBitmasks| * edgeBitmasks[0].numCells * (MAX_BITS_PER_CELL / 8)
    }
  }
}
