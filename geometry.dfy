/** Points, homogeneous points and axis-aligned boxes.

    Coordinates are exact reals. A `Vec4` is a homogeneous point whose `w`
    carries extra information (a winding flag, or 0/1 for a point at
    infinity / a finite point). A box is given by its minimum and maximum
    corners; its eight corners, its centre and its extents are derived from
    those two points. */
module Geometry {

  datatype Vec3 = Vec3(x: real, y: real, z: real)

  datatype Vec4 = Vec4(x: real, y: real, z: real, w: real)

  /** `glm::vec3(v)`: the first three components. */
  function Xyz(v: Vec4): Vec3
  {
    Vec3(v.x, v.y, v.z)
  }

  /** `glm::vec4(p, w)`. */
  function WithW(p: Vec3, w: real): (r: Vec4)
    ensures Xyz(r) == p && r.w == w
  {
    Vec4(p.x, p.y, p.z, w)
  }

  function Add(a: Vec3, b: Vec3): Vec3
  {
    Vec3(a.x + b.x, a.y + b.y, a.z + b.z)
  }

  function Sub(a: Vec3, b: Vec3): Vec3
  {
    Vec3(a.x - b.x, a.y - b.y, a.z - b.z)
  }

  function Scale(s: real, a: Vec3): Vec3
  {
    Vec3(s * a.x, s * a.y, s * a.z)
  }

  function Dot(a: Vec3, b: Vec3): real
  {
    a.x * b.x + a.y * b.y + a.z * b.z
  }

  function Cross(a: Vec3, b: Vec3): Vec3
  {
    Vec3(a.y * b.z - a.z * b.y, a.z * b.x - a.x * b.z, a.x * b.y - a.y * b.x)
  }

  /** The cross product is orthogonal to both of its factors. */
  lemma CrossOrthogonal(a: Vec3, b: Vec3)
    ensures Dot(Cross(a, b), a) == 0.0 && Dot(Cross(a, b), b) == 0.0
  {
  }

  /** A value that may be missing; a missing box stands for `AABB::getInvalidAABB()`. */
  datatype Option<T> = None | Some(value: T)

  /** An axis-aligned box. */
  datatype Aabb = Aabb(minPoint: Vec3, maxPoint: Vec3)

  /** The minimum corner is below the maximum corner on every axis. */
  predicate WellFormed(b: Aabb)
  {
    b.minPoint.x <= b.maxPoint.x && b.minPoint.y <= b.maxPoint.y && b.minPoint.z <= b.maxPoint.z
  }

  /** Corner i of the eight corners: bit 0, 1, 2 of i choose the maximum on x, y, z. */
  function Corner(b: Aabb, i: nat): Vec3
  {
    Vec3(if i % 2 == 1 then b.maxPoint.x else b.minPoint.x,
         if (i / 2) % 2 == 1 then b.maxPoint.y else b.minPoint.y,
         if (i / 4) % 2 == 1 then b.maxPoint.z else b.minPoint.z)
  }

  /** `getAllVertices`: the eight corners. */
  function AllVertices(b: Aabb): (r: seq<Vec3>)
    ensures |r| == 8 && forall i :: 0 <= i < 8 ==> r[i] == Corner(b, i)
  {
    seq(8, i requires 0 <= i => Corner(b, i))
  }

  /** Every axis combination of minimum and maximum is one of the corners. */
  lemma CornersCoverBox(b: Aabb, px: bool, py: bool, pz: bool)
    ensures Corner(b, (if px then 1 else 0) + (if py then 2 else 0) + (if pz then 4 else 0))
         == Vec3(if px then b.maxPoint.x else b.minPoint.x,
                 if py then b.maxPoint.y else b.minPoint.y,
                 if pz then b.maxPoint.z else b.minPoint.z)
  {
  }

  /** Full side lengths, `max - min` per axis. */
  function Extents(b: Aabb): Vec3
  {
    Sub(b.maxPoint, b.minPoint)
  }

  /** The centre, `min + extents / 2`. */
  function CenterPoint(b: Aabb): (c: Vec3)
    ensures c == Scale(0.5, Add(b.minPoint, b.maxPoint))
  {
    Add(b.minPoint, Scale(0.5, Extents(b)))
  }

  /** `isInRange`: the closed interval [lo, hi]. */
  predicate InRange(value: real, lo: real, hi: real)
  {
    value >= lo && value <= hi
  }

  /** The point lies in the closed box. */
  predicate InsideOrOn(b: Aabb, p: Vec3)
  {
    InRange(p.x, b.minPoint.x, b.maxPoint.x) && InRange(p.y, b.minPoint.y, b.maxPoint.y)
      && InRange(p.z, b.minPoint.z, b.maxPoint.z)
  }

  /** Every corner of a well-formed box lies in it, and so does its centre. */
  lemma CornersInside(b: Aabb, i: nat)
    requires WellFormed(b)
    ensures InsideOrOn(b, Corner(b, i)) && InsideOrOn(b, CenterPoint(b))
  {
  }
}
