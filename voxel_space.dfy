/** The voxelised light space of src/VoxelSpace.cpp.

    A box is cut into numVoxelsX * numVoxelsY * numVoxelsZ voxels of equal
    size. Voxels are numbered linearly with x varying fastest; a voxel has
    integer coordinates, a linear index and a box. The space only has its
    fields assigned (by the constructor and by `init`), so it is modelled as a
    value. */
module VoxelSpaces {
  import opened Geometry

  datatype VoxelSpace = VoxelSpace(
    space: Aabb,
    numVoxelsX: nat, numVoxelsY: nat, numVoxelsZ: nat,
    segmentLengthX: real, segmentLengthY: real, segmentLengthZ: real)

  /** Integer voxel coordinates (the `int&` out-parameters). */
  datatype Coords = Coords(x: int, y: int, z: int)

  /** The default constructor: no voxels and zero segment lengths. The
      default box of `AABB` is not part of this model; a zero box stands in. */
  function EmptyVoxelSpace(): (r: VoxelSpace)
    ensures NumVoxels(r) == 0 && !IsValid(r)
  {
    VoxelSpace(Aabb(Vec3(0.0, 0.0, 0.0), Vec3(0.0, 0.0, 0.0)), 0, 0, 0, 0.0, 0.0, 0.0)
  }

  /** `getNumVoxels`. */
  function NumVoxels(vs: VoxelSpace): nat
  {
    vs.numVoxelsX * vs.numVoxelsY * vs.numVoxelsZ
  }

  /** `isValid`: at least one voxel. */
  predicate IsValid(vs: VoxelSpace)
  {
    NumVoxels(vs) != 0
  }

  /** A space is valid exactly when every axis has at least one voxel. */
  lemma IsValidIff(vs: VoxelSpace)
    ensures IsValid(vs) <==> vs.numVoxelsX > 0 && vs.numVoxelsY > 0 && vs.numVoxelsZ > 0
  {
    var x, y, z := vs.numVoxelsX, vs.numVoxelsY, vs.numVoxelsZ;
    if x > 0 && y > 0 && z > 0 {
      PositiveProduct(x, y);
      PositiveProduct(x * y, z);
    }
  }

  lemma PositiveProduct(a: nat, b: nat)
    requires a > 0 && b > 0
    ensures a * b > 0
  {
  }

  /** `init`: the box and the counts are stored; each segment length is the
      box's side over the count on that axis when the space is valid, and all
      three are 0 otherwise. */
  function Init(bbox: Aabb, dimX: nat, dimY: nat, dimZ: nat): (r: VoxelSpace)
    ensures r.space == bbox && r.numVoxelsX == dimX && r.numVoxelsY == dimY && r.numVoxelsZ == dimZ
    ensures IsValid(r) ==>
      && r.segmentLengthX * (dimX as real) == bbox.maxPoint.x - bbox.minPoint.x
      && r.segmentLengthY * (dimY as real) == bbox.maxPoint.y - bbox.minPoint.y
      && r.segmentLengthZ * (dimZ as real) == bbox.maxPoint.z - bbox.minPoint.z
    ensures !IsValid(r) ==> r.segmentLengthX == 0.0 && r.segmentLengthY == 0.0 && r.segmentLengthZ == 0.0
  {
    var counts := VoxelSpace(bbox, dimX, dimY, dimZ, 0.0, 0.0, 0.0);
    IsValidIff(counts);
    if IsValid(counts) then
      counts.(segmentLengthX := (bbox.maxPoint.x - bbox.minPoint.x) / (dimX as real),
              segmentLengthY := (bbox.maxPoint.y - bbox.minPoint.y) / (dimY as real),
              segmentLengthZ := (bbox.maxPoint.z - bbox.minPoint.z) / (dimZ as real))
    else
      counts
  }

  /** `_isLinearIndexValid`. */
  predicate IsLinearIndexValid(vs: VoxelSpace, index: int)
  {
    0 <= index < NumVoxels(vs)
  }

  /** `_areCoordsValid` as written: a coordinate equal to its count passes. */
  predicate AreCoordsValid(vs: VoxelSpace, c: Coords)
  {
    !((c.x > vs.numVoxelsX || c.x < 0) || (c.y > vs.numVoxelsY || c.y < 0) || (c.z > vs.numVoxelsZ || c.z < 0))
  }

  /** The check `_areCoordsValid` evidently intends: every coordinate below its count. */
  predicate AreCoordsInRange(vs: VoxelSpace, c: Coords)
  {
    0 <= c.x < vs.numVoxelsX && 0 <= c.y < vs.numVoxelsY && 0 <= c.z < vs.numVoxelsZ
  }

  /** `_getVoxelLinearIndexFromVoxelCoords`: z * (X * Y) + y * X + x. */
  function LinearIndexFromVoxelCoords(vs: VoxelSpace, c: Coords): int
  {
    c.z * (vs.numVoxelsX * vs.numVoxelsY) + c.y * vs.numVoxelsX + c.x
  }

  /** `_getVoxelCoordsFromLinearIndex`: (-1, -1, -1) for an invalid index,
      otherwise x = i mod X, y = (i div X) mod Y, z = i div (X * Y). */
  function VoxelCoordsFromLinearIndex(vs: VoxelSpace, linearIndex: int): Coords
  {
    if !IsLinearIndexValid(vs, linearIndex) then Coords(-1, -1, -1)
    else
      IsValidIff(vs);
      Coords(linearIndex % vs.numVoxelsX,
             (linearIndex / vs.numVoxelsX) % vs.numVoxelsY,
             linearIndex / (vs.numVoxelsX * vs.numVoxelsY))
  }

  /** Multiplying by a non-negative factor keeps the order. */
  lemma MulMono(c: int, a: int, b: int)
    requires 0 <= c && a <= b
    ensures c * a <= c * b
  {
    assert c * b - c * a == c * (b - a);
  }

  /** Euclidean division is determined by quotient and remainder. */
  lemma DivModUnique(i: int, d: int, q: int, r: int)
    requires d > 0 && 0 <= r < d && i == d * q + r
    ensures i / d == q && i % d == r
  {
    var q0, r0 := i / d, i % d;
    assert i == d * q0 + r0;
    assert d * (q - q0) == r0 - r by {
      assert d * q - d * q0 == d * (q - q0);
    }
    if q > q0 {
      MulMono(d, 1, q - q0);
    } else if q < q0 {
      MulMono(d, 1, q0 - q);
    }
  }

  /** A quotient by d of a value below d * n is below n. */
  lemma DivBelow(i: int, d: int, n: int)
    requires d > 0 && 0 <= i < d * n
    ensures i / d < n
  {
    if i / d >= n {
      MulMono(d, n, i / d);
    }
  }

  /** Nested quotients and remainders recombine: from i = x * a + r1 and
      a = y * q + r2 follows i = q * (x * y) + r2 * x + r1. */
  lemma Recombine(i: int, x: int, y: int, a: int, q: int, r1: int, r2: int)
    requires i == x * a + r1 && a == y * q + r2
    ensures i == q * (x * y) + r2 * x + r1
  {
    assert x * (y * q + r2) == q * (x * y) + r2 * x;
  }

  /** A remainder by y scaled by x, plus a remainder by x, is below x * y. */
  lemma MixedRemainderBelow(x: int, y: int, r1: int, r2: int)
    requires 0 <= r1 < x && 0 <= r2 < y
    ensures 0 <= r2 * x + r1 < x * y
  {
    MulMono(x, 0, r2);
    MulMono(x, r2, y - 1);
    assert x * (y - 1) == x * y - x;
  }

  /** Dividing by X and then by Y is dividing by X * Y. */
  lemma DivDiv(i: int, x: int, y: int)
    requires 0 <= i && x > 0 && y > 0
    ensures x * y > 0 && (i / x) / y == i / (x * y)
  {
    PositiveProduct(x, y);
    Recombine(i, x, y, i / x, (i / x) / y, i % x, (i / x) % y);
    MixedRemainderBelow(x, y, i % x, (i / x) % y);
    DivModUnique(i, x * y, (i / x) / y, (i / x) % y * x + i % x);
  }

  /** The arithmetic of `_getVoxelCoordsFromLinearIndex`: for 0 <= i < x * y * z
      the three digits are in range and recombine to i. */
  lemma IndexDigits(i: int, x: int, y: int, z: int)
    requires x > 0 && y > 0 && z > 0 && 0 <= i < x * y * z
    ensures x * y > 0
    ensures 0 <= (i / x) % y < y && 0 <= i / (x * y) < z
    ensures i / (x * y) * (x * y) + (i / x) % y * x + i % x == i
  {
    DivDiv(i, x, y);
    Recombine(i, x, y, i / x, (i / x) / y, i % x, (i / x) % y);
    DivBelow(i, x * y, z);
  }

  /** The arithmetic of `_getVoxelLinearIndexFromVoxelCoords`: digits in range
      give an index in range from which they are recovered. */
  lemma DigitsIndex(cx: int, cy: int, cz: int, x: int, y: int, z: int)
    requires 0 <= cx < x && 0 <= cy < y && 0 <= cz < z
    ensures x * y > 0
    ensures var i := cz * (x * y) + cy * x + cx;
      && 0 <= i < x * y * z
      && i % x == cx && (i / x) % y == cy && i / (x * y) == cz
  {
    PositiveProduct(x, y);
    var i := cz * (x * y) + cy * x + cx;
    Recombine(i, x, y, y * cz + cy, cz, cx, cy);
    DivModUnique(i, x, y * cz + cy, cx);
    DivModUnique(y * cz + cy, y, cz, cy);
    MixedRemainderBelow(x, y, cx, cy);
    DivModUnique(i, x * y, cz, cy * x + cx);
    MulMono(x * y, cz, z - 1);
    assert x * y * (z - 1) == x * y * z - x * y;
  }

  /** Index to coordinates and back: a valid index gives coordinates in
      range, and they map back to the same index; an invalid one gives
      (-1, -1, -1). */
  lemma CoordsFromIndexRoundTrip(vs: VoxelSpace, i: int)
    ensures !IsLinearIndexValid(vs, i) ==> VoxelCoordsFromLinearIndex(vs, i) == Coords(-1, -1, -1)
    ensures IsLinearIndexValid(vs, i) ==>
      && AreCoordsInRange(vs, VoxelCoordsFromLinearIndex(vs, i))
      && LinearIndexFromVoxelCoords(vs, VoxelCoordsFromLinearIndex(vs, i)) == i
  {
    if IsLinearIndexValid(vs, i) {
      IsValidIff(vs);
      IndexDigits(i, vs.numVoxelsX, vs.numVoxelsY, vs.numVoxelsZ);
    }
  }

  /** Coordinates to index and back: coordinates in range give a valid
      index, from which they are recovered. */
  lemma IndexFromCoordsRoundTrip(vs: VoxelSpace, c: Coords)
    requires AreCoordsInRange(vs, c)
    ensures IsLinearIndexValid(vs, LinearIndexFromVoxelCoords(vs, c))
    ensures VoxelCoordsFromLinearIndex(vs, LinearIndexFromVoxelCoords(vs, c)) == c
  {
    DigitsIndex(c.x, c.y, c.z, vs.numVoxelsX, vs.numVoxelsY, vs.numVoxelsZ);
  }

  /** `getVoxelLinearIndex` as written: -1 when a coordinate is not below
      its count, otherwise x + Y * (y + Z * z). */
  function GetVoxelLinearIndex(vs: VoxelSpace, x: nat, y: nat, z: nat): int
  {
    if x >= vs.numVoxelsX || y >= vs.numVoxelsY || z >= vs.numVoxelsZ then -1
    else x + vs.numVoxelsY * (y + vs.numVoxelsZ * z)
  }

  /** With one voxel across, two up and one deep, the voxel (0, 1, 0) gets
      index 2 from `getVoxelLinearIndex`, past the last voxel, while the
      layout of the rest of the class numbers it 1. */
  lemma GetVoxelLinearIndexMismatch()
    ensures var vs := Init(Aabb(Vec3(0.0, 0.0, 0.0), Vec3(1.0, 2.0, 1.0)), 1, 2, 1);
      && GetVoxelLinearIndex(vs, 0, 1, 0) == 2
      && !IsLinearIndexValid(vs, GetVoxelLinearIndex(vs, 0, 1, 0))
      && LinearIndexFromVoxelCoords(vs, Coords(0, 1, 0)) == 1
  {
    var vs := Init(Aabb(Vec3(0.0, 0.0, 0.0), Vec3(1.0, 2.0, 1.0)), 1, 2, 1);
    assert NumVoxels(vs) == 2;
  }

  /** `getVoxelLinearIndex` with the stride the rest of the class uses:
      x + X * (y + Y * z). */
  function GetVoxelLinearIndexCorrected(vs: VoxelSpace, x: nat, y: nat, z: nat): (r: int)
    ensures r == -1 <==> !AreCoordsInRange(vs, Coords(x, y, z))
    ensures r != -1 ==> IsLinearIndexValid(vs, r) && VoxelCoordsFromLinearIndex(vs, r) == Coords(x, y, z)
  {
    if x >= vs.numVoxelsX || y >= vs.numVoxelsY || z >= vs.numVoxelsZ then -1
    else
      var c := Coords(x, y, z);
      IndexFromCoordsRoundTrip(vs, c);
      Recombine(x + vs.numVoxelsX * (y + vs.numVoxelsY * z), vs.numVoxelsX, vs.numVoxelsY,
                y + vs.numVoxelsY * z, z, x, y);
      x + vs.numVoxelsX * (y + vs.numVoxelsY * z)
  }

  /** `_getDimensionIndexFromDistance`: floor(value / segment length). A
      zero length divides by zero in the source and is excluded. */
  function DimensionIndexFromDistance(segmentLength: real, value: real): int
    requires segmentLength != 0.0
  {
    (value / segmentLength).Floor
  }

  /** Multiplying by a non-negative real keeps the order. */
  lemma MulMonoReal(c: real, a: real, b: real)
    requires 0.0 <= c && a <= b
    ensures c * a <= c * b
  {
    assert c * b - c * a == c * (b - a);
  }

  /** Multiplying by a positive real keeps a strict order. */
  lemma MulStrictReal(c: real, a: real, b: real)
    requires 0.0 < c && a < b
    ensures c * a < c * b
  {
    assert c * b - c * a == c * (b - a);
  }

  /** A value that is length * q, for q below k + 1, is below
      length * k + length. */
  lemma BracketAbove(len: real, value: real, q: real, k: real)
    requires len > 0.0 && value == len * q && q < k + 1.0
    ensures value < len * k + len
  {
    MulStrictReal(len, q - k, 1.0);
    assert len * (q - k) < len * 1.0;
    assert len * 1.0 == len;
    assert value - len * k == len * (q - k);
  }

  /** A value that is length * q, for q in [k, k + 1), lies in
      [length * k, length * k + length). */
  lemma Bracket(len: real, value: real, q: real, k: real)
    requires len > 0.0 && value == len * q && k <= q < k + 1.0
    ensures len * k <= value < len * k + len
  {
    BracketAbove(len, value, q, k);
    MulMonoReal(len, k, q);
  }

  /** For a positive length the index k is the segment holding the value:
      k * length <= value < (k + 1) * length. */
  lemma DimensionIndexBrackets(segmentLength: real, value: real)
    requires segmentLength > 0.0
    ensures var k := DimensionIndexFromDistance(segmentLength, value);
      segmentLength * (k as real) <= value < segmentLength * (k as real) + segmentLength
  {
    var q := value / segmentLength;
    Bracket(segmentLength, value, q, DimensionIndexFromDistance(segmentLength, value) as real);
  }

  /** The segment lengths are non-zero: the space is valid and its box has
      positive extent on every axis. */
  predicate HasSegments(vs: VoxelSpace)
  {
    vs.segmentLengthX != 0.0 && vs.segmentLengthY != 0.0 && vs.segmentLengthZ != 0.0
  }

  /** `_getVoxelCoordsFromPointInSpace`: the segment index on every axis. */
  function VoxelCoordsFromPointInSpace(vs: VoxelSpace, point: Vec3): Coords
    requires HasSegments(vs)
  {
    Coords(DimensionIndexFromDistance(vs.segmentLengthX, point.x - vs.space.minPoint.x),
           DimensionIndexFromDistance(vs.segmentLengthY, point.y - vs.space.minPoint.y),
           DimensionIndexFromDistance(vs.segmentLengthZ, point.z - vs.space.minPoint.z))
  }

  /** `getVoxelLinearIndexFromPointInSpace` as written: -1 unless the
      coordinates pass `_areCoordsValid`, otherwise their linear index. */
  function GetVoxelLinearIndexFromPointInSpace(vs: VoxelSpace, point: Vec3): int
    requires HasSegments(vs)
  {
    var c := VoxelCoordsFromPointInSpace(vs, point);
    if !AreCoordsValid(vs, c) then -1 else LinearIndexFromVoxelCoords(vs, c)
  }

  /** In the unit box with a single voxel, the corner point (1, 1, 1) gets
      coordinates (1, 1, 1), which pass the check, and so index 3 although
      the space has one voxel. */
  lemma PointOnMaxFaceEscapes()
    ensures var vs := Init(Aabb(Vec3(0.0, 0.0, 0.0), Vec3(1.0, 1.0, 1.0)), 1, 1, 1);
      && HasSegments(vs)
      && VoxelCoordsFromPointInSpace(vs, Vec3(1.0, 1.0, 1.0)) == Coords(1, 1, 1)
      && GetVoxelLinearIndexFromPointInSpace(vs, Vec3(1.0, 1.0, 1.0)) == 3
      && NumVoxels(vs) == 1
  {
    var vs := Init(Aabb(Vec3(0.0, 0.0, 0.0), Vec3(1.0, 1.0, 1.0)), 1, 1, 1);
    assert vs.segmentLengthX == 1.0 && vs.segmentLengthY == 1.0 && vs.segmentLengthZ == 1.0;
    assert VoxelCoordsFromPointInSpace(vs, Vec3(1.0, 1.0, 1.0)) == Coords(1, 1, 1);
  }

  /** The renderer's start-up light (0, 10, 0) in the space it builds,
      [-10, 10] on every axis with 5 x 5 x 5 voxels, lies on the maximum y
      face: its coordinates (2, 5, 2) pass the check and give index 77, a
      valid index that names the different voxel (2, 0, 3), while the
      intended check finds no voxel. */
  lemma StartLightAliases()
    ensures var vs := Init(Aabb(Vec3(-10.0, -10.0, -10.0), Vec3(10.0, 10.0, 10.0)), 5, 5, 5);
      && HasSegments(vs)
      && VoxelCoordsFromPointInSpace(vs, Vec3(0.0, 10.0, 0.0)) == Coords(2, 5, 2)
      && GetVoxelLinearIndexFromPointInSpace(vs, Vec3(0.0, 10.0, 0.0)) == 77
      && IsLinearIndexValid(vs, 77)
      && VoxelCoordsFromLinearIndex(vs, 77) == Coords(2, 0, 3)
      && GetVoxelLinearIndexFromPointInSpaceCorrected(vs, Vec3(0.0, 10.0, 0.0)) == -1
  {
    var vs := Init(Aabb(Vec3(-10.0, -10.0, -10.0), Vec3(10.0, 10.0, 10.0)), 5, 5, 5);
    assert vs.segmentLengthX == 4.0 && vs.segmentLengthY == 4.0 && vs.segmentLengthZ == 4.0;
    assert DimensionIndexFromDistance(4.0, 10.0) == 2;
    assert DimensionIndexFromDistance(4.0, 20.0) == 5;
    assert VoxelCoordsFromPointInSpace(vs, Vec3(0.0, 10.0, 0.0)) == Coords(2, 5, 2);
  }

  /** `getVoxelLinearIndexFromPointInSpace` with the intended check: -1 or
      the valid index whose coordinates are the point's. */
  function GetVoxelLinearIndexFromPointInSpaceCorrected(vs: VoxelSpace, point: Vec3): (r: int)
    requires HasSegments(vs)
    ensures r == -1 || IsLinearIndexValid(vs, r)
    ensures r == -1 <==> !AreCoordsInRange(vs, VoxelCoordsFromPointInSpace(vs, point))
    ensures r != -1 ==> VoxelCoordsFromLinearIndex(vs, r) == VoxelCoordsFromPointInSpace(vs, point)
  {
    var c := VoxelCoordsFromPointInSpace(vs, point);
    if !AreCoordsInRange(vs, c) then -1
    else
      IndexFromCoordsRoundTrip(vs, c);
      LinearIndexFromVoxelCoords(vs, c)
  }

  /** The box of voxel (ix, iy, iz): min = space.min + length * index and
      max = min + length on every axis. */
  function VoxelBox(vs: VoxelSpace, c: Coords): Aabb
  {
    var lo := Vec3(vs.space.minPoint.x + vs.segmentLengthX * (c.x as real),
                   vs.space.minPoint.y + vs.segmentLengthY * (c.y as real),
                   vs.space.minPoint.z + vs.segmentLengthZ * (c.z as real));
    Aabb(lo, Vec3(lo.x + vs.segmentLengthX, lo.y + vs.segmentLengthY, lo.z + vs.segmentLengthZ))
  }

  /** `getVoxelFromCoords`: the invalid box (None) unless the coordinates
      pass `_areCoordsValid`, otherwise the voxel's box. */
  function GetVoxelFromCoords(vs: VoxelSpace, c: Coords): (r: Option<Aabb>)
    ensures r.None? <==> !AreCoordsValid(vs, c)
  {
    if !AreCoordsValid(vs, c) then None else Some(VoxelBox(vs, c))
  }

  /** `getVoxelFromLinearIndex`: the invalid box for an invalid index,
      otherwise the box of the index's coordinates. */
  function GetVoxelFromLinearIndex(vs: VoxelSpace, index: int): (r: Option<Aabb>)
    ensures r.None? <==> !IsLinearIndexValid(vs, index)
    ensures r.Some? ==> r.value == VoxelBox(vs, VoxelCoordsFromLinearIndex(vs, index))
  {
    if !IsLinearIndexValid(vs, index) then None
    else
      CoordsFromIndexRoundTrip(vs, index);
      GetVoxelFromCoords(vs, VoxelCoordsFromLinearIndex(vs, index))
  }

  /** `getVoxelFromPointInSpace`: reports success whatever the point; the
      box is missing exactly when the point's coordinates fail the check,
      and with positive segment lengths a box it gives holds the point. */
  function GetVoxelFromPointInSpace(vs: VoxelSpace, point: Vec3): (r: (bool, Option<Aabb>))
    requires HasSegments(vs)
    ensures r.0
    ensures r.1.None? <==> !AreCoordsValid(vs, VoxelCoordsFromPointInSpace(vs, point))
    ensures r.1.Some? && vs.segmentLengthX > 0.0 && vs.segmentLengthY > 0.0 && vs.segmentLengthZ > 0.0
            ==> InsideOrOn(r.1.value, point)
  {
    var box := GetVoxelFromCoords(vs, VoxelCoordsFromPointInSpace(vs, point));
    if vs.segmentLengthX > 0.0 && vs.segmentLengthY > 0.0 && vs.segmentLengthZ > 0.0 then
      PointInVoxelBox(vs, point);
      (true, box)
    else (true, box)
  }

  /** One axis of a voxel lies within the space: for 0 <= k < n and a length
      with length * n equal to the side, [lo + length * k, lo + length * (k + 1)]
      is inside [lo, hi]. */
  lemma SegmentInside(lo: real, hi: real, len: real, k: int, n: nat)
    requires 0 <= k < n && lo <= hi && len * (n as real) == hi - lo
    ensures lo <= lo + len * (k as real) && lo + len * (k as real) + len <= hi
  {
    if len < 0.0 {
      MulStrictReal(-len, 0.0, n as real);
    }
    MulMonoReal(len, 0.0, k as real);
    MulMonoReal(len, (k + 1) as real, n as real);
    assert len * ((k + 1) as real) == len * (k as real) + len;
  }

  /** Each segment length times its count is the side of the box. */
  predicate Calibrated(vs: VoxelSpace)
  {
    && vs.segmentLengthX * (vs.numVoxelsX as real) == vs.space.maxPoint.x - vs.space.minPoint.x
    && vs.segmentLengthY * (vs.numVoxelsY as real) == vs.space.maxPoint.y - vs.space.minPoint.y
    && vs.segmentLengthZ * (vs.numVoxelsZ as real) == vs.space.maxPoint.z - vs.space.minPoint.z
  }

  /** A valid space built by `init` is calibrated over the given box. */
  lemma InitCalibrated(bbox: Aabb, dimX: nat, dimY: nat, dimZ: nat)
    requires IsValid(Init(bbox, dimX, dimY, dimZ))
    ensures Calibrated(Init(bbox, dimX, dimY, dimZ)) && Init(bbox, dimX, dimY, dimZ).space == bbox
  {
  }

  /** In a calibrated space over a well-formed box, the box of coordinates
      in range is well-formed and lies inside the space. */
  lemma VoxelBoxInside(vs: VoxelSpace, c: Coords)
    requires Calibrated(vs) && WellFormed(vs.space) && AreCoordsInRange(vs, c)
    ensures WellFormed(VoxelBox(vs, c))
    ensures InsideOrOn(vs.space, VoxelBox(vs, c).minPoint) && InsideOrOn(vs.space, VoxelBox(vs, c).maxPoint)
  {
    SegmentInside(vs.space.minPoint.x, vs.space.maxPoint.x, vs.segmentLengthX, c.x, vs.numVoxelsX);
    SegmentInside(vs.space.minPoint.y, vs.space.maxPoint.y, vs.segmentLengthY, c.y, vs.numVoxelsY);
    SegmentInside(vs.space.minPoint.z, vs.space.maxPoint.z, vs.segmentLengthZ, c.z, vs.numVoxelsZ);
  }

  /** In a space built by `init` over a well-formed box, every valid index
      names a voxel whose box is well-formed and lies inside the space. */
  lemma VoxelInsideSpace(bbox: Aabb, dimX: nat, dimY: nat, dimZ: nat, index: int)
    requires WellFormed(bbox)
    requires IsLinearIndexValid(Init(bbox, dimX, dimY, dimZ), index)
    ensures var vs := Init(bbox, dimX, dimY, dimZ);
      var v := GetVoxelFromLinearIndex(vs, index);
      && v.Some? && WellFormed(v.value)
      && InsideOrOn(bbox, v.value.minPoint) && InsideOrOn(bbox, v.value.maxPoint)
  {
    var vs := Init(bbox, dimX, dimY, dimZ);
    InitCalibrated(bbox, dimX, dimY, dimZ);
    CoordsFromIndexRoundTrip(vs, index);
    VoxelBoxInside(vs, VoxelCoordsFromLinearIndex(vs, index));
  }

  /** One axis of the point lookup: the point lies in the segment whose
      index the lookup computes. */
  lemma AxisInSegment(lo: real, len: real, p: real)
    requires len > 0.0
    ensures var k := DimensionIndexFromDistance(len, p - lo);
      InRange(p, lo + len * (k as real), lo + len * (k as real) + len)
  {
    var k := DimensionIndexFromDistance(len, p - lo);
    SegmentBracket(len, p - lo, k);
    InRangeOfBracket(lo, p, len, len * (k as real));
  }

  /** The bracket of DimensionIndexBrackets for a named index k. */
  lemma SegmentBracket(len: real, value: real, k: int)
    requires len > 0.0 && k == DimensionIndexFromDistance(len, value)
    ensures len * (k as real) <= value < len * (k as real) + len
  {
    DimensionIndexBrackets(len, value);
  }

  /** A point p with m <= p - lo < m + len lies in [lo + m, lo + m + len]. */
  lemma InRangeOfBracket(lo: real, p: real, len: real, m: real)
    requires m <= p - lo < m + len
    ensures InRange(p, lo + m, lo + m + len)
  {
  }

  /** The x extent of the voxel the lookup computes for a point holds the point. */
  lemma PointInVoxelBoxX(vs: VoxelSpace, point: Vec3)
    requires vs.segmentLengthX > 0.0 && vs.segmentLengthY != 0.0 && vs.segmentLengthZ != 0.0
    ensures var b := VoxelBox(vs, VoxelCoordsFromPointInSpace(vs, point));
      InRange(point.x, b.minPoint.x, b.maxPoint.x)
  {
    assert VoxelCoordsFromPointInSpace(vs, point).x
        == DimensionIndexFromDistance(vs.segmentLengthX, point.x - vs.space.minPoint.x);
    AxisInSegment(vs.space.minPoint.x, vs.segmentLengthX, point.x);
  }

  /** The y extent of the voxel the lookup computes for a point holds the point. */
  lemma PointInVoxelBoxY(vs: VoxelSpace, point: Vec3)
    requires vs.segmentLengthX != 0.0 && vs.segmentLengthY > 0.0 && vs.segmentLengthZ != 0.0
    ensures var b := VoxelBox(vs, VoxelCoordsFromPointInSpace(vs, point));
      InRange(point.y, b.minPoint.y, b.maxPoint.y)
  {
    assert VoxelCoordsFromPointInSpace(vs, point).y
        == DimensionIndexFromDistance(vs.segmentLengthY, point.y - vs.space.minPoint.y);
    AxisInSegment(vs.space.minPoint.y, vs.segmentLengthY, point.y);
  }

  /** The z extent of the voxel the lookup computes for a point holds the point. */
  lemma PointInVoxelBoxZ(vs: VoxelSpace, point: Vec3)
    requires vs.segmentLengthX != 0.0 && vs.segmentLengthY != 0.0 && vs.segmentLengthZ > 0.0
    ensures var b := VoxelBox(vs, VoxelCoordsFromPointInSpace(vs, point));
      InRange(point.z, b.minPoint.z, b.maxPoint.z)
  {
    assert VoxelCoordsFromPointInSpace(vs, point).z
        == DimensionIndexFromDistance(vs.segmentLengthZ, point.z - vs.space.minPoint.z);
    AxisInSegment(vs.space.minPoint.z, vs.segmentLengthZ, point.z);
  }

  /** With positive segment lengths a point lies in the box of the
      coordinates the lookup computes for it. */
  lemma PointInVoxelBox(vs: VoxelSpace, point: Vec3)
    requires vs.segmentLengthX > 0.0 && vs.segmentLengthY > 0.0 && vs.segmentLengthZ > 0.0
    ensures InsideOrOn(VoxelBox(vs, VoxelCoordsFromPointInSpace(vs, point)), point)
  {
    PointInVoxelBoxX(vs, point);
    PointInVoxelBoxY(vs, point);
    PointInVoxelBoxZ(vs, point);
  }

  /** With positive segment lengths, the voxel the corrected lookup finds
      for a point contains the point. */
  lemma PointInItsVoxel(vs: VoxelSpace, point: Vec3)
    requires vs.segmentLengthX > 0.0 && vs.segmentLengthY > 0.0 && vs.segmentLengthZ > 0.0
    requires GetVoxelLinearIndexFromPointInSpaceCorrected(vs, point) != -1
    ensures var v := GetVoxelFromLinearIndex(vs, GetVoxelLinearIndexFromPointInSpaceCorrected(vs, point));
      v.Some? && InsideOrOn(v.value, point)
  {
    PointInVoxelBox(vs, point);
  }
}
