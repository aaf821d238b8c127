/** Edge extraction from triangles (src/EdgeExtractor.cpp).

    The edge container is a `std::map<Edge, std::vector<glm::vec4>>` ordered
    by `Edge::operator<`, which compares midpoints; two edges with the same
    midpoint are the same key, and the key object kept is the first one
    inserted. It is modelled as a map from midpoint to the entry holding that
    first edge and its opposite vertices. Each opposite vertex carries in `w`
    the winding of its edge within the triangle: +1 when the edge was stored
    in the triangle's own order (CCW), -1 when the constructor swapped it. */
module EdgeExtraction {
  import opened Geometry
  import opened Edges
  import opened CommonTypes

  type EdgeMap = map<Vec3, EdgeInfo>

  /** Every entry sits under its own edge's midpoint. */
  ghost predicate KeyedByMidpoint(m: EdgeMap)
  {
    forall k :: k in m ==> Midpoint(m[k].edge) == k
  }

  /** `_encodeEdgeWindingInTriangleToOppositeVertex`: the vertex with `w` set
      to +1 for a CCW edge and -1 otherwise. */
  function EncodeEdgeWindingInTriangleToOppositeVertex(v: Vec4, isCCW: bool): (r: Vec4)
    ensures Xyz(r) == Xyz(v)
    ensures r.w == 1.0 || r.w == -1.0
  {
    WithW(Xyz(v), if isCCW then 1.0 else -1.0)
  }

  /** `decodeEdgeWindingIsCCW`: a positive `w`. */
  predicate DecodeEdgeWindingIsCCW(oppositeVertex: Vec4)
  {
    oppositeVertex.w > 0.0
  }

  /** Round trip: decoding an encoded vertex gives back the flag. */
  lemma DecodeEncode(v: Vec4, isCCW: bool)
    ensures DecodeEdgeWindingIsCCW(EncodeEdgeWindingInTriangleToOppositeVertex(v, isCCW)) == isCCW
  {
  }

  /** `edges[e].push_back(v)`: append v to the entry of e's key, creating the
      entry (with e as its edge) when the key is new. */
  function Push(m: EdgeMap, e: Edge, v: Vec4): EdgeMap
  {
    var k := Midpoint(e);
    m[k := if k in m then m[k].(oppositeVertices := m[k].oppositeVertices + [v]) else EdgeInfo(e, [v])]
  }

  /** A push appends v to the list under e's midpoint, keeps the edge first
      stored there (or stores e under a new key) and changes no other key. */
  lemma PushEffect(m: EdgeMap, e: Edge, v: Vec4)
    ensures var r := Push(m, e, v);
      && Midpoint(e) in r && r.Keys == m.Keys + {Midpoint(e)}
      && r[Midpoint(e)].oppositeVertices
         == (if Midpoint(e) in m then m[Midpoint(e)].oppositeVertices else []) + [v]
      && r[Midpoint(e)].edge == (if Midpoint(e) in m then m[Midpoint(e)].edge else e)
      && forall k :: k in m && k != Midpoint(e) ==> r[k] == m[k]
  {
  }

  /** One line of the loop: build the edge (a, b), which also yields its
      winding, and push the opposite vertex tagged with that winding. */
  function PushOpposite(m: EdgeMap, a: Vec4, b: Vec4, opposite: Vec4): EdgeMap
  {
    var c := MakeEdge(a, b);
    Push(m, c.edge, EncodeEdgeWindingInTriangleToOppositeVertex(opposite, c.isCCW))
  }

  /** One triangle: edge (v1,v2) receives v3, edge (v2,v3) receives v1 and
      edge (v3,v1) receives v2, each tagged with that edge's winding. */
  function AddTriangle(m: EdgeMap, t: Triangle): EdgeMap
  {
    PushOpposite(PushOpposite(PushOpposite(m, t.v1, t.v2, t.v3), t.v2, t.v3, t.v1), t.v3, t.v1, t.v2)
  }

  /** The map after the first n triangles, in order, have been added to m. */
  function ExtractPrefix(m: EdgeMap, triangles: seq<Triangle>, n: nat): EdgeMap
    requires n <= |triangles|
  {
    if n == 0 then m else AddTriangle(ExtractPrefix(m, triangles, n - 1), triangles[n - 1])
  }

  /** The map after all the triangles have been added to m. */
  function ExtractAll(m: EdgeMap, triangles: seq<Triangle>): EdgeMap
  {
    ExtractPrefix(m, triangles, |triangles|)
  }

  /** `extractEdgesFromTriangles`: adds every triangle's three edges to the
      caller's map. */
  method ExtractEdgesFromTriangles(triangles: seq<Triangle>, edges: EdgeMap) returns (result: EdgeMap)
    ensures result == ExtractAll(edges, triangles)
  {
    result := edges;
    var i := 0;
    while i < |triangles|
      invariant 0 <= i <= |triangles|
      invariant result == ExtractPrefix(edges, triangles, i)
    {
      var t := triangles[i];
      ExtractPrefixNext(edges, triangles, i);
      result := PushOpposite(result, t.v1, t.v2, t.v3);
      result := PushOpposite(result, t.v2, t.v3, t.v1);
      result := PushOpposite(result, t.v3, t.v1, t.v2);
      i := i + 1;
    }
  }

  /** m2 keeps every entry of m1 with its edge, and each list only grows at its end. */
  ghost predicate Extends(m1: EdgeMap, m2: EdgeMap)
  {
    forall k :: k in m1 ==>
      k in m2 && m2[k].edge == m1[k].edge && m1[k].oppositeVertices <= m2[k].oppositeVertices
  }

  lemma PushExtends(m: EdgeMap, e: Edge, v: Vec4)
    ensures Extends(m, Push(m, e, v))
  {
    PushEffect(m, e, v);
  }

  lemma ExtendsTransitive(m1: EdgeMap, m2: EdgeMap, m3: EdgeMap)
    requires Extends(m1, m2) && Extends(m2, m3)
    ensures Extends(m1, m3)
  {
  }

  /** The pushed vertex ends the list under the edge's key. */
  lemma PushOppositeLast(m: EdgeMap, a: Vec4, b: Vec4, opposite: Vec4)
    ensures var c := MakeEdge(a, b);
      var r := PushOpposite(m, a, b, opposite);
      Midpoint(c.edge) in r
      && EncodeEdgeWindingInTriangleToOppositeVertex(opposite, c.isCCW) in r[Midpoint(c.edge)].oppositeVertices
  {
    var c := MakeEdge(a, b);
    var x := EncodeEdgeWindingInTriangleToOppositeVertex(opposite, c.isCCW);
    var r := PushOpposite(m, a, b, opposite);
    PushEffect(m, c.edge, x);
    var l := r[Midpoint(c.edge)].oppositeVertices;
    assert l[|l| - 1] == x;
  }

  lemma PushOppositeExtends(m: EdgeMap, a: Vec4, b: Vec4, opposite: Vec4)
    ensures Extends(m, PushOpposite(m, a, b, opposite))
  {
    var c := MakeEdge(a, b);
    PushExtends(m, c.edge, EncodeEdgeWindingInTriangleToOppositeVertex(opposite, c.isCCW));
  }

  /** A vertex in the list of key k is still there in any extension. */
  lemma ExtendsKeepsVertex(m1: EdgeMap, m2: EdgeMap, k: Vec3, x: Vec4)
    requires Extends(m1, m2) && k in m1 && x in m1[k].oppositeVertices
    ensures k in m2 && x in m2[k].oppositeVertices
  {
    var i :| 0 <= i < |m1[k].oppositeVertices| && m1[k].oppositeVertices[i] == x;
    assert m2[k].oppositeVertices[i] == x;
  }

  /** The triangle's own edges: after adding t, each of its edges' keys
      holds the matching opposite vertex with that edge's winding. */
  lemma AddTriangleEntries(m: EdgeMap, t: Triangle)
    ensures var r := AddTriangle(m, t);
      var c1, c2, c3 := MakeEdge(t.v1, t.v2), MakeEdge(t.v2, t.v3), MakeEdge(t.v3, t.v1);
      && EncodeEdgeWindingInTriangleToOppositeVertex(t.v3, c1.isCCW) in r[Midpoint(c1.edge)].oppositeVertices
      && EncodeEdgeWindingInTriangleToOppositeVertex(t.v1, c2.isCCW) in r[Midpoint(c2.edge)].oppositeVertices
      && EncodeEdgeWindingInTriangleToOppositeVertex(t.v2, c3.isCCW) in r[Midpoint(c3.edge)].oppositeVertices
  {
    var c1, c2 := MakeEdge(t.v1, t.v2), MakeEdge(t.v2, t.v3);
    var m1 := PushOpposite(m, t.v1, t.v2, t.v3);
    var m2 := PushOpposite(m1, t.v2, t.v3, t.v1);
    var m3 := PushOpposite(m2, t.v3, t.v1, t.v2);
    PushOppositeLast(m, t.v1, t.v2, t.v3);
    PushOppositeLast(m1, t.v2, t.v3, t.v1);
    PushOppositeLast(m2, t.v3, t.v1, t.v2);
    PushOppositeExtends(m1, t.v2, t.v3, t.v1);
    PushOppositeExtends(m2, t.v3, t.v1, t.v2);
    ExtendsTransitive(m1, m2, m3);
    ExtendsKeepsVertex(m1, m3, Midpoint(c1.edge), EncodeEdgeWindingInTriangleToOppositeVertex(t.v3, c1.isCCW));
    ExtendsKeepsVertex(m2, m3, Midpoint(c2.edge), EncodeEdgeWindingInTriangleToOppositeVertex(t.v1, c2.isCCW));
  }

  lemma AddTriangleExtends(m: EdgeMap, t: Triangle)
    ensures Extends(m, AddTriangle(m, t))
  {
    var m1 := PushOpposite(m, t.v1, t.v2, t.v3);
    var m2 := PushOpposite(m1, t.v2, t.v3, t.v1);
    var m3 := PushOpposite(m2, t.v3, t.v1, t.v2);
    PushOppositeExtends(m, t.v1, t.v2, t.v3);
    PushOppositeExtends(m1, t.v2, t.v3, t.v1);
    PushOppositeExtends(m2, t.v3, t.v1, t.v2);
    ExtendsTransitive(m, m1, m2);
    ExtendsTransitive(m, m2, m3);
  }

  /** Unfolding the prefix by one triangle, stated at n + 1. */
  lemma ExtractPrefixNext(m: EdgeMap, triangles: seq<Triangle>, n: nat)
    requires n < |triangles|
    ensures ExtractPrefix(m, triangles, n + 1) == AddTriangle(ExtractPrefix(m, triangles, n), triangles[n])
  {
  }

  /** Extraction only appends: no entry already in the map is removed,
      re-keyed or reordered. */
  lemma {:induction false} ExtractAllExtends(m: EdgeMap, triangles: seq<Triangle>, n: nat)
    requires n <= |triangles|
    ensures Extends(m, ExtractPrefix(m, triangles, n))
  {
    if n != 0 {
      ExtractAllExtends(m, triangles, n - 1);
      ExtractStepExtends(m, triangles, n);
    }
  }

  /** One more triangle keeps an extension of m an extension of m. */
  lemma ExtractStepExtends(m: EdgeMap, triangles: seq<Triangle>, n: nat)
    requires 0 < n <= |triangles| && Extends(m, ExtractPrefix(m, triangles, n - 1))
    ensures Extends(m, ExtractPrefix(m, triangles, n))
  {
    var p := ExtractPrefix(m, triangles, n - 1);
    AddTriangleExtends(p, triangles[n - 1]);
    ExtendsTransitive(m, p, AddTriangle(p, triangles[n - 1]));
  }

  lemma PushKeyed(m: EdgeMap, e: Edge, v: Vec4)
    requires KeyedByMidpoint(m)
    ensures KeyedByMidpoint(Push(m, e, v))
  {
    PushEffect(m, e, v);
  }

  lemma PushOppositeKeyed(m: EdgeMap, a: Vec4, b: Vec4, opposite: Vec4)
    requires KeyedByMidpoint(m)
    ensures KeyedByMidpoint(PushOpposite(m, a, b, opposite))
  {
    var c := MakeEdge(a, b);
    PushKeyed(m, c.edge, EncodeEdgeWindingInTriangleToOppositeVertex(opposite, c.isCCW));
  }

  lemma AddTriangleKeyed(m: EdgeMap, t: Triangle)
    requires KeyedByMidpoint(m)
    ensures KeyedByMidpoint(AddTriangle(m, t))
  {
    var m1 := PushOpposite(m, t.v1, t.v2, t.v3);
    var m2 := PushOpposite(m1, t.v2, t.v3, t.v1);
    PushOppositeKeyed(m, t.v1, t.v2, t.v3);
    PushOppositeKeyed(m1, t.v2, t.v3, t.v1);
    PushOppositeKeyed(m2, t.v3, t.v1, t.v2);
  }

  /** Keys stay the midpoints of their entries' edges. */
  lemma {:induction false} ExtractAllKeyed(m: EdgeMap, triangles: seq<Triangle>, n: nat)
    requires KeyedByMidpoint(m) && n <= |triangles|
    ensures KeyedByMidpoint(ExtractPrefix(m, triangles, n))
  {
    if n != 0 {
      ExtractAllKeyed(m, triangles, n - 1);
      ExtractStepKeyed(m, triangles, n);
    }
  }

  lemma ExtractStepKeyed(m: EdgeMap, triangles: seq<Triangle>, n: nat)
    requires 0 < n <= |triangles| && KeyedByMidpoint(ExtractPrefix(m, triangles, n - 1))
    ensures KeyedByMidpoint(ExtractPrefix(m, triangles, n))
  {
    AddTriangleKeyed(ExtractPrefix(m, triangles, n - 1), triangles[n - 1]);
  }
}
