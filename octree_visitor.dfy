/** The octree visitor: classifies an edge against the octree and records
    the edge in a node's set of edges that always cast a shadow there.

    As written, the visitor's stack loop pushes only the root, and the
    classification always uses the root's box, so an edge is recorded in
    the root alone. The silhouette test is the strict one of
    src/GeometryOperations.hpp (a code above 2), so only MINUS edges are
    recorded. */
module OctreeVisitors {
  import opened Geometry
  import opened Edges
  import opened CommonTypes
  import opened GeometryOps
  import opened Octrees

  /** `-int(edgeID)` stored in a `std::set<unsigned int>`: the 32-bit two's
      complement negation of the ID. */
  function NegatedId(edgeID: nat): (r: nat)
    requires edgeID <= UINT_MAX
    ensures r <= UINT_MAX && (r + edgeID) % (UINT_MAX + 1) == 0
  {
    (UINT_MAX + 1 - edgeID) % (UINT_MAX + 1)
  }

  /** Negating twice gives the ID back. */
  lemma NegatedIdInvolution(edgeID: nat)
    requires edgeID <= UINT_MAX
    ensures NegatedId(NegatedId(edgeID)) == edgeID
  {
  }

  /** A negated positive ID below 2^31 has its top bit set, so it never
      collides with a stored positive ID below 2^31; 0 stays 0. */
  lemma NegatedIdTopBit(edgeID: nat)
    requires edgeID < 0x8000_0000
    ensures edgeID == 0 ==> NegatedId(edgeID) == 0
    ensures edgeID > 0 ==> NegatedId(edgeID) >= 0x8000_0000
  {
  }

  /** The IDs `_storeEdgeIsAlwaysSilhouette` inserts for a test result:
      the ID for PLUS, its negation for MINUS, nothing otherwise. */
  function StoredIds(testResult: int, edgeID: nat): (r: set<nat>)
    requires edgeID <= UINT_MAX
    ensures testResult == EDGE_IS_SILHOUETTE_PLUS ==> r == {edgeID}
    ensures testResult == EDGE_IS_SILHOUETTE_MINUS ==> r == {NegatedId(edgeID)}
    ensures testResult != EDGE_IS_SILHOUETTE_PLUS && testResult != EDGE_IS_SILHOUETTE_MINUS ==> r == {}
  {
    (if testResult == EDGE_IS_SILHOUETTE_PLUS then {edgeID} else {})
      + (if testResult == EDGE_IS_SILHOUETTE_MINUS then {NegatedId(edgeID)} else {})
  }

  /** Adding edge IDs to a node leaves every box, and so the canonical
      boxes of the tree, unchanged. */
  lemma AddEdgesKeepsVolumesCanonical(deepest: nat, root: Aabb, m: map<nat, Node>, id: nat, ids: set<nat>)
    requires VolumesCanonical(deepest, root, m) && id in m
    ensures VolumesCanonical(deepest, root, m[id := m[id].(edgesAlwaysCast := m[id].edgesAlwaysCast + ids)])
  {
  }

  /** The node map after recording `edgeID` as always casting in node
      `nodeId`, for the given test result. */
  function WithStoredEdge(m: map<nat, Node>, testResult: int, nodeId: nat, edgeID: nat): (r: map<nat, Node>)
    requires nodeId in m && edgeID <= UINT_MAX
    ensures r.Keys == m.Keys
    ensures forall id :: id in m && id != nodeId ==> r[id] == m[id]
    ensures r[nodeId].volume == m[nodeId].volume && r[nodeId].edgesMayCast == m[nodeId].edgesMayCast
    ensures r[nodeId].edgesAlwaysCast == m[nodeId].edgesAlwaysCast + StoredIds(testResult, edgeID)
  {
    m[nodeId := m[nodeId].(edgesAlwaysCast := m[nodeId].edgesAlwaysCast + StoredIds(testResult, edgeID))]
  }

  /** The classification `addEdge` computes: the edge's two triangle planes
      tested against the root's box. */
  function RootClassification(info: EdgeInfo, rootBox: Aabb): (r: int)
    requires |info.oppositeVertices| >= 2
    ensures EDGE_NOT_SILHOUETTE <= r <= EDGE_IS_SILHOUETTE_MINUS
  {
    var p1 := BuildEdgeTrianglePlane(info.edge, info.oppositeVertices[0]);
    var p2 := BuildEdgeTrianglePlane(info.edge, info.oppositeVertices[1]);
    TestEdgeSpaceAabb(p1, p2, info, rootBox)
  }

  class OctreeVisitor {
    var octree: Octree

    constructor(octree: Octree)
      ensures this.octree == octree
    {
      this.octree := octree;
    }

    /** `_storeEdgeIsAlwaysSilhouette`: the node must exist (`getNode` is
        asserted non-null); only its set of edges that always cast changes. */
    method StoreEdgeIsAlwaysSilhouette(testResult: int, nodeId: nat, edgeID: nat)
      requires octree.Valid() && nodeId in octree.nodes && edgeID <= UINT_MAX
      modifies octree`nodes
      ensures octree.Valid()
      ensures octree.nodes == WithStoredEdge(old(octree.nodes), testResult, nodeId, edgeID)
    {
      var node := octree.nodes[nodeId];
      if testResult == EDGE_IS_SILHOUETTE_PLUS {
        node := node.(edgesAlwaysCast := node.edgesAlwaysCast + {edgeID});
      }
      if testResult == EDGE_IS_SILHOUETTE_MINUS {
        node := node.(edgesAlwaysCast := node.edgesAlwaysCast + {NegatedId(edgeID)});
      }
      assert node.edgesAlwaysCast == octree.nodes[nodeId].edgesAlwaysCast + StoredIds(testResult, edgeID);
      AddEdgesKeepsVolumesCanonical(octree.deepestLevel, octree.rootVolume, octree.nodes, nodeId, StoredIds(testResult, edgeID));
      octree.nodes := octree.nodes[nodeId := node];
    }

    /** `addEdge`: the edge needs two opposite vertices (indices 0 and 1 are
        read) and the root must exist. The stack starts with the root and
        nothing is pushed, so the loop runs once; the root's box is
        classified and, when the strict silhouette test holds (only for
        MINUS), the negated ID is recorded in the root. */
    method AddEdge(info: EdgeInfo, edgeID: int)
      requires |info.oppositeVertices| >= 2 && -0x8000_0000 <= edgeID < 0x8000_0000
      requires octree.Valid() && 0 in octree.nodes
      modifies octree`nodes
      ensures octree.Valid()
      ensures var r := RootClassification(info, old(octree.nodes)[0].volume);
        octree.nodes == if r == EDGE_IS_SILHOUETTE_MINUS
                        then WithStoredEdge(old(octree.nodes), r, 0, AsUnsigned(edgeID))
                        else old(octree.nodes)
    {
      var p1 := BuildEdgeTrianglePlane(info.edge, info.oppositeVertices[0]);
      var p2 := BuildEdgeTrianglePlane(info.edge, info.oppositeVertices[1]);
      var nodeStack: seq<nat> := [0];
      while |nodeStack| > 0
        invariant octree.Valid() && 0 in octree.nodes
        invariant forall k :: 0 <= k < |nodeStack| ==> nodeStack[k] == 0
        invariant |nodeStack| <= 1
        invariant octree.nodes[0].volume == old(octree.nodes)[0].volume
        invariant |nodeStack| == 1 ==> octree.nodes == old(octree.nodes)
        invariant |nodeStack| == 0 ==> var r := RootClassification(info, old(octree.nodes)[0].volume);
          octree.nodes == if r == EDGE_IS_SILHOUETTE_MINUS
                          then WithStoredEdge(old(octree.nodes), r, 0, AsUnsigned(edgeID))
                          else old(octree.nodes)
        decreases |nodeStack|
      {
        var node := nodeStack[|nodeStack| - 1];
        nodeStack := nodeStack[..|nodeStack| - 1];
        var testResult := TestEdgeSpaceAabb(p1, p2, info, octree.GetNodeVolume(0));
        if IsSilhouetteStrict(testResult) {
          IsSilhouetteStrictCodes(testResult);
          StoreEdgeIsAlwaysSilhouette(testResult, node, AsUnsigned(edgeID));
        } else {
          IsSilhouetteStrictCodes(testResult);
        }
      }
    }
  }
}
