/** Counting the opposite-vertex entries of an edge map: every push adds
    one, so extraction adds three per triangle. */
module EdgeCounts {
  import opened Geometry
  import opened Edges
  import opened CommonTypes
  import opened EdgeExtraction

  /** Every opposite-vertex entry of the map, as (key, position in its list). */
  ghost function Entries(m: EdgeMap): set<(Vec3, int)>
  {
    set k, i | k in m && 0 <= i < |m[k].oppositeVertices| :: (k, i)
  }

  /** The number of opposite-vertex entries in the map. */
  ghost function Total(m: EdgeMap): nat
  {
    |Entries(m)|
  }

  lemma InEntries(m: EdgeMap, k: Vec3, i: int)
    ensures (k, i) in Entries(m) <==> k in m && 0 <= i < |m[k].oppositeVertices|
  {
  }

  /** A push adds exactly the entry at the end of its key's list. */
  lemma PushEntries(m: EdgeMap, e: Edge, v: Vec4, k: Vec3, i: int)
    ensures var len := if Midpoint(e) in m then |m[Midpoint(e)].oppositeVertices| else 0;
      (k, i) in Entries(Push(m, e, v)) <==> (k, i) in Entries(m) || (k, i) == (Midpoint(e), len)
  {
    InEntries(m, k, i);
    InEntries(Push(m, e, v), k, i);
    PushEffect(m, e, v);
  }

  /** Each push adds one entry. */
  lemma PushTotal(m: EdgeMap, e: Edge, v: Vec4)
    ensures Total(Push(m, e, v)) == Total(m) + 1
  {
    var k := Midpoint(e);
    var len := if k in m then |m[k].oppositeVertices| else 0;
    var r := Push(m, e, v);
    forall p | true
      ensures p in Entries(r) <==> p in Entries(m) + {(k, len)}
    {
      PushEntries(m, e, v, p.0, p.1);
    }
    assert Entries(r) == Entries(m) + {(k, len)};
    InEntries(m, k, len);
  }

  lemma PushOppositeTotal(m: EdgeMap, a: Vec4, b: Vec4, opposite: Vec4)
    ensures Total(PushOpposite(m, a, b, opposite)) == Total(m) + 1
  {
    var c := MakeEdge(a, b);
    PushTotal(m, c.edge, EncodeEdgeWindingInTriangleToOppositeVertex(opposite, c.isCCW));
  }

  lemma AddTriangleTotal(m: EdgeMap, t: Triangle)
    ensures Total(AddTriangle(m, t)) == Total(m) + 3
  {
    var m1 := PushOpposite(m, t.v1, t.v2, t.v3);
    var m2 := PushOpposite(m1, t.v2, t.v3, t.v1);
    PushOppositeTotal(m, t.v1, t.v2, t.v3);
    PushOppositeTotal(m1, t.v2, t.v3, t.v1);
    PushOppositeTotal(m2, t.v3, t.v1, t.v2);
  }

  /** Each triangle adds exactly three entries. */
  lemma {:induction false} ExtractAllTotal(m: EdgeMap, triangles: seq<Triangle>, n: nat)
    requires n <= |triangles|
    ensures Total(ExtractPrefix(m, triangles, n)) == Total(m) + 3 * n
  {
    if n != 0 {
      ExtractAllTotal(m, triangles, n - 1);
      ExtractStepTotal(m, triangles, n);
    }
  }

  lemma ExtractStepTotal(m: EdgeMap, triangles: seq<Triangle>, n: nat)
    requires 0 < n <= |triangles| && Total(ExtractPrefix(m, triangles, n - 1)) == Total(m) + 3 * (n - 1)
    ensures Total(ExtractPrefix(m, triangles, n)) == Total(m) + 3 * n
  {
    AddTriangleTotal(ExtractPrefix(m, triangles, n - 1), triangles[n - 1]);
  }
}
