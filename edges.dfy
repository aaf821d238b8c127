/** Canonical undirected edges (src/Edge.cpp; the inline `Edge` of
    src/CommonTypes.hpp has the same constructor and order).

    An edge stores its two endpoints with the lexicographically smaller one
    first and reports whether the given order already was that order. Edges
    are ordered by their midpoints. */
module Edges {
  import opened Geometry

  /** `_lessThan`: lexicographic order on (x, y, z). */
  predicate LessThan(a: Vec3, b: Vec3)
  {
    a.x < b.x || (a.x == b.x && (a.y < b.y || (a.y == b.y && a.z < b.z)))
  }

  /** The order is a strict total order on points. */
  lemma LessThanIrreflexive(a: Vec3)
    ensures !LessThan(a, a)
  {
  }

  lemma LessThanAsymmetric(a: Vec3, b: Vec3)
    ensures LessThan(a, b) ==> !LessThan(b, a)
  {
  }

  lemma LessThanTransitive(a: Vec3, b: Vec3, c: Vec3)
    requires LessThan(a, b) && LessThan(b, c)
    ensures LessThan(a, c)
  {
  }

  lemma LessThanTotal(a: Vec3, b: Vec3)
    ensures a == b || LessThan(a, b) || LessThan(b, a)
  {
  }

  datatype Edge = Edge(lowerPoint: Vec3, higherPoint: Vec3)

  /** The result of the constructor: the stored edge and the `isCCW` out-flag. */
  datatype Canonical = Canonical(edge: Edge, isCCW: bool)

  /** `Edge(v1, v2, isCCW)`: the endpoints in lexicographic order; `isCCW`
      tells that no swap was needed. The `w` components take no part. */
  function MakeEdge(v1: Vec4, v2: Vec4): (r: Canonical)
    ensures !LessThan(r.edge.higherPoint, r.edge.lowerPoint)
    ensures r.isCCW <==> LessThan(Xyz(v1), Xyz(v2))
    ensures r.isCCW ==> r.edge == Edge(Xyz(v1), Xyz(v2))
    ensures !r.isCCW ==> r.edge == Edge(Xyz(v2), Xyz(v1))
  {
    LessThanTotal(Xyz(v1), Xyz(v2));
    LessThanAsymmetric(Xyz(v1), Xyz(v2));
    var inOrder := LessThan(Xyz(v1), Xyz(v2));
    Canonical(Edge(if inOrder then Xyz(v1) else Xyz(v2), if inOrder then Xyz(v2) else Xyz(v1)), inOrder)
  }

  /** Distinct points give the same stored edge in either order, with
      opposite flags. */
  lemma MakeEdgeSwapped(v1: Vec4, v2: Vec4)
    requires Xyz(v1) != Xyz(v2)
    ensures MakeEdge(v1, v2).edge == MakeEdge(v2, v1).edge
    ensures MakeEdge(v1, v2).isCCW == !MakeEdge(v2, v1).isCCW
  {
    LessThanTotal(Xyz(v1), Xyz(v2));
    LessThanAsymmetric(Xyz(v1), Xyz(v2));
  }

  /** Points equal in x, y and z give a degenerate edge, not flagged CCW. */
  lemma MakeEdgeDegenerate(v1: Vec4, v2: Vec4)
    requires Xyz(v1) == Xyz(v2)
    ensures !MakeEdge(v1, v2).isCCW
    ensures MakeEdge(v1, v2).edge.lowerPoint == MakeEdge(v1, v2).edge.higherPoint
  {
    LessThanIrreflexive(Xyz(v1));
  }

  /** Only x, y and z matter: inputs with the same positions give the same result. */
  lemma MakeEdgeIgnoresW(v1: Vec4, v2: Vec4, u1: Vec4, u2: Vec4)
    requires Xyz(v1) == Xyz(u1) && Xyz(v2) == Xyz(u2)
    ensures MakeEdge(v1, v2) == MakeEdge(u1, u2)
  {
  }

  /** `lowerPoint + (higherPoint - lowerPoint) / 2`. */
  function Midpoint(e: Edge): Vec3
  {
    Add(e.lowerPoint, Scale(0.5, Sub(e.higherPoint, e.lowerPoint)))
  }

  /** `operator<`: the midpoints in lexicographic order. */
  predicate EdgeLess(e1: Edge, e2: Edge)
  {
    LessThan(Midpoint(e1), Midpoint(e2))
  }

  /** Two edges are equivalent keys (neither is less) exactly when their
      midpoints coincide, and the edge order is a strict weak order. */
  lemma EdgeEquivalence(e1: Edge, e2: Edge)
    ensures (!EdgeLess(e1, e2) && !EdgeLess(e2, e1)) <==> Midpoint(e1) == Midpoint(e2)
  {
    LessThanTotal(Midpoint(e1), Midpoint(e2));
    LessThanAsymmetric(Midpoint(e1), Midpoint(e2));
    LessThanIrreflexive(Midpoint(e1));
  }

  lemma EdgeLessTransitive(e1: Edge, e2: Edge, e3: Edge)
    requires EdgeLess(e1, e2) && EdgeLess(e2, e3)
    ensures EdgeLess(e1, e3)
  {
    LessThanTransitive(Midpoint(e1), Midpoint(e2), Midpoint(e3));
  }

  /** The same segment built from either end is the same map key. */
  lemma SameSegmentSameKey(v1: Vec4, v2: Vec4)
    ensures Midpoint(MakeEdge(v1, v2).edge) == Midpoint(MakeEdge(v2, v1).edge)
  {
  }

  /** An edge and the opposite vertices of the triangles that share it
      (`std::pair<Edge, std::vector<glm::vec4>>`). */
  datatype EdgeInfo = EdgeInfo(edge: Edge, oppositeVertices: seq<Vec4>)
}
