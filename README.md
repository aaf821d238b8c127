# Hierarchical shadow volumes: silhouette classification

HierarchicalShadowVolumes renders shadow volumes. Their sides are extruded
from the silhouette edges of a scene as seen from a point light. To avoid
testing every edge against the light every frame, the program precomputes
an edge's status for regions of space:

- It extracts the edges of the triangle mesh. For each edge it keeps its
  opposite vertices, each tagged with the edge's winding in that triangle.
- It cuts the light space into voxels.
- For every edge and every voxel it stores a 2-bit status in a packed
  3-bit-per-cell array. The four statuses are:
  - NOT (0): the edge is never a silhouette for a light in this voxel.
  - POTENTIAL (1): it depends on where the light is exactly.
  - PLUS (2) and MINUS (3): always a silhouette, with the given sign of
    multiplicity.
- At render time the light's voxel selects one cell of every array. The
  renderer emits a quad of two triangles for every silhouette edge, and
  for every potential edge whose multiplicity at the light is not zero.

An octree over the same space is the hierarchical variant, and an octree
visitor stores always-silhouette edges in its nodes.

The model is one Dafny module per source file of the core:

- `BitOps` (`bit_operations.dfy`) and `BitStreams` (`bit_stream.dfy`): the
  bit helpers, and a bit-stream reading of a word array.
- `MultiBitArrays` (`multi_bit_array.dfy`): the class `MultiBitArray`.
  Its cells of `numBitsPerCell` bits are packed into a `seq<bv32>` that its
  methods update. Every cell is specified as a value read from the bit
  stream of the words.
- `Geometry` (`geometry.dfy`): vectors and axis-aligned boxes. `Plane`
  lives in `CommonTypes` (`common_types.dfy`), with the status constants.
- `Edges` (`edges.dfy`) and `EdgeExtraction` / `EdgeCounts`
  (`edge_extractor.dfy`, `edge_counts.dfy`): the canonical edge, its
  midpoint ordering, and the edge map filled triangle by triangle.
- `GeometryOps` (`geometry_ops.dfy`): the box/plane tests, the edge
  multiplicity and the per-voxel edge test.
- `VoxelSpaces` (`voxel_space.dfy`): the voxelised light space, its
  index/coordinate conversions and voxel boxes.
- `SilhouetteBitmasks` (`bit_array_silhouettes.dfy`) and `VoxelSilhouettes`
  (`bit_array_voxel_silhouettes.dfy`): the per-edge arrays and the voxel
  query.
- `Octrees` (`octree.dfy`) and `OctreeVisitors` (`octree_visitor.dfy`): the
  implicit octree numbering, its node map and the visitor.
- `Renderers` (`hs_renderer.dfy`): the renderer's arrays and the shadow
  volume sides it emits.
- `Applications` (`application.dfy`): the path splitter.

Floats are modelled as reals. C++ `int` and `unsigned` values are
unbounded, except where wrap-around is part of the behaviour (`npos + 1`,
`-int(edgeID)` stored as unsigned). Those are written out.

Two silhouette tests exist in the source, and the model keeps both:

- `EDGE_IS_SILHOUETTE` in src/CommonTypes.hpp is a code of 2 or more. The
  renderer uses it.
- `EDGE_IS_SILHOUETTE` in src/GeometryOperations.hpp is a code strictly
  above 2, so it accepts only MINUS. The voxel query and the octree visitor
  include that header, so they report only MINUS edges as silhouettes.

## Model

| member | source | states |
|---|---|---|
| Applications.FindLastOf | src/Application.cpp:141 | the result is either `npos` with no separator in the string, or the index of a separator with no separator after it |
| Applications.SplitAtLastSeparator | src/Application.cpp:139-145 | with a separator, the directory is the text before the last one and the file name the text after it; directory, separator and file name together give back the path |
| Applications.FileNameHasNoSeparator | src/Application.cpp:139-145 | the file name never contains '/' or '\' |
| Applications.NoSeparatorGivesWholePath | src/Application.cpp:141-144 | without a separator, `npos + 1` wraps to 0, so both the directory and the file name are the whole path |
| BitOps.SetBit | src/BitOperations.h:3-6 | bit `bit` is set and every other bit keeps its value |
| BitOps.ClearBit | src/BitOperations.h:8-11 | bit `bit` is cleared and every other bit keeps its value |
| BitOps.FlipBit | src/BitOperations.h:21-27 | bit `bit` is inverted and every other bit keeps its value |
| BitOps.FlipBitTwice | src/BitOperations.h:21-27 | flipping a bit twice gives back the original word |
| BitOps.SetClearThenTest | src/BitOperations.h:3-19 | `IsBitSet` holds after `SetBit` and fails after `ClearBit` of the same bit |
| BitStreams.WordBitIsBitSet | src/BitOperations.h:13-19 | bit m of a word, read as a stream bit, is what `IsBitSet` reports |
| BitStreams.SetBitWordBits | src/BitOperations.h:3-6 | as a bit sequence, `SetBit` is the update of exactly one position to 1 |
| BitStreams.ClearBitWordBits | src/BitOperations.h:8-11 | as a bit sequence, `ClearBit` is the update of exactly one position to 0 |
| BitStreams.LowBitsMaskBit | src/MultiBitArray.cpp:87-95 | the mask of the first n bits has exactly the bits below n set |
| BitStreams.StreamValueBit | src/MultiBitArray.cpp:116-127 | bit m of a value read from the stream is stream bit start+m below the width, and 0 above it |
| BitStreams.ShiftLeftIsShiftUp | src/MultiBitArray.cpp:129-146 | the `<<` of the source moves every bit up by the shift amount |
| BitStreams.ShiftRightIsDropLowBits | src/MultiBitArray.cpp:116-127 | the `>>` of the source drops the low bits one at a time |
| BitStreams.WordWriteIsStreamWrite | src/MultiBitArray.cpp:129-146 | writing bits [b, b+n) of word s writes stream bits [32s+b, 32s+b+n) and nothing else |
| BitStreams.ReadAfterWrite | src/MultiBitArray.cpp:148-165 | reading back a written range gives the written value cut to its width, also when the range spans two words |
| BitStreams.ReadOutsideWrite | src/MultiBitArray.cpp:148-165 | a range disjoint from the written one reads as before the write |
| MultiBitArrays.ArraySize | src/MultiBitArray.cpp:45-46 | the word count holds all cells' bits with fewer than 32 bits to spare |
| MultiBitArrays.MultiBitArray.constructor | src/MultiBitArray.cpp:7-21 | the array has the requested cells, its width drops to 0 with no cells, its words are ceil(cells*width/32) zeros, and every cell reads 0 |
| MultiBitArrays.MultiBitArray.ZeroWordsZeroCells | src/MultiBitArray.cpp:7-21 | over zeroed words every cell reads 0 |
| MultiBitArrays.MultiBitArray.Free | src/MultiBitArray.cpp:23-28 | the array is empty, with zero cells and width 0 |
| MultiBitArrays.MultiBitArray.ResizeArrayKeepContent | src/MultiBitArray.cpp:30-52 | resizing to 0 frees the array; otherwise the cell count changes, the width stays, the old words are a prefix of the new ones, any added words are zero, and every cell present before and after reads the same |
| MultiBitArrays.MultiBitArray.ResizeKeepsCells | src/MultiBitArray.cpp:30-52 | a cell kept by the resize reads the value it had in the old words |
| MultiBitArrays.MultiBitArray.CellArrayStartingIndex | src/MultiBitArray.cpp:97-102 | the result is the word holding the cell's first bit |
| MultiBitArrays.MultiBitArray.CellStartPositionWithinArrayItem | src/MultiBitArray.cpp:104-109 | the result is below 32 and, with the starting word, locates the cell's first stream bit |
| MultiBitArrays.MultiBitArray.DoesCellOverflowToNextArrayItem | src/MultiBitArray.cpp:111-114 | true exactly when some bit of the cell lies in a word after its start word, for any width including 0 |
| MultiBitArrays.MultiBitArray.GetCellAttributes | src/MultiBitArray.cpp:173-178 | returns the word and bit where the cell starts, and 1 exactly when the cell spills into the next word |
| MultiBitArrays.MultiBitArray.GenMaskFirstNBits | src/MultiBitArray.cpp:87-95 | the result has exactly the first n bits set |
| MultiBitArrays.MultiBitArray.SizeInFirstArrayItem | src/MultiBitArray.cpp:148-155 | the bits of the cell that lie in its first word: up to the word's end when it spills, the whole width otherwise |
| MultiBitArrays.MultiBitArray.GetBitsFromArrayItem | src/MultiBitArray.cpp:116-127 | the result is the n bits of the word from the start position, as a value |
| MultiBitArrays.MultiBitArray.SetBitsInArrayItem | src/MultiBitArray.cpp:129-146 | only the given word changes, and in it exactly the n bits at the start position now hold the data's low bits |
| MultiBitArrays.MultiBitArray.GetCellContent | src/MultiBitArray.cpp:64-85 | the result is the cell's value in the bit stream, whether it lies in one word or spans two |
| MultiBitArrays.MultiBitArray.SetCellContent | src/MultiBitArray.cpp:148-165 | the cell's stream range now holds the value's low bits and every other stream bit is unchanged |
| MultiBitArrays.MultiBitArray.SetThenGet | src/MultiBitArray.cpp:148-165 | after setting a cell, it reads back the value cut to the cell width |
| MultiBitArrays.MultiBitArray.SetLeavesOtherCell | src/MultiBitArray.cpp:148-165 | setting a cell leaves every other cell's value unchanged |
| MultiBitArrays.MultiBitArray.SetAllCells | src/MultiBitArray.cpp:167-171 | every cell reads the value cut to the cell width, and the width is unchanged |
| MultiBitArrays.MultiBitArray.FillCells | src/MultiBitArray.cpp:167-171 | the fill loop leaves every cell holding the fill value |
| CommonTypes.IsSilhouetteCodes | src/CommonTypes.hpp:24 | among the four codes, exactly PLUS and MINUS pass the header's silhouette test |
| CommonTypes.MultiplicitySign | src/HSRenderer.cpp:193 | PLUS gives +1, MINUS gives -1, and any other code gives 0 |
| CommonTypes.TestPointDifference | src/CommonTypes.hpp:93-96 | the difference of two point tests is the normal's dot product with the difference of the points |
| CommonTypes.ScalePlane | src/CommonTypes.hpp:118 | the scaled plane's test of every point is the original's times the scale |
| CommonTypes.PositiveScaleKeepsSign | src/CommonTypes.hpp:118 | normalising by a positive factor changes the sign of no point test |
| CommonTypes.CreateFromPointNormalCCW | src/CommonTypes.hpp:123-126 | the plane has the given normal and passes through the point; its test is the normal's dot product with the offset from the point |
| CommonTypes.CreateFromPointsCCW | src/CommonTypes.hpp:116-121 | the plane passes through all three points |
| CommonTypes.CreateFromPointsSwapped | src/CommonTypes.hpp:116-121 | swapping the first two points negates every point test, so winding decides the sides |
| CommonTypes.InterpretTestResult | src/CommonTypes.hpp:129-135 | ABOVE exactly for a positive value, and BELOW otherwise, including 0 |
| CommonTypes.CornerLabels | src/CommonTypes.hpp:100-108 | eight labels, one per box corner: ABOVE exactly for a corner strictly above the plane, BELOW exactly for a corner on or below it |
| CommonTypes.TestAABB | src/CommonTypes.hpp:98-114 | the result is the label all eight corners agree on, or INTERSECTS |
| CommonTypes.TestAABBMeaning | src/CommonTypes.hpp:98-114 | ABOVE iff every corner is strictly above, BELOW iff none is, INTERSECTS iff some corner is above and some is not |
| Edges.MakeEdge | src/Edge.cpp:3-20 | the lower point is not above the higher one, the edge keeps both points, and `isCCW` holds exactly when the first point is the lower one |
| Edges.MakeEdgeSwapped | src/Edge.cpp:3-20 | swapping the two vertices gives the same edge with the opposite winding |
| Edges.MakeEdgeDegenerate | src/Edge.cpp:14-19 | equal points give a degenerate edge that is not counter-clockwise |
| Edges.MakeEdgeIgnoresW | src/Edge.cpp:30-33 | the edge depends only on the x, y, z of the vertices |
| Edges.LessThanIrreflexive | src/Edge.cpp:35-56 | no point is lexicographically below itself |
| Edges.LessThanAsymmetric | src/Edge.cpp:35-56 | of two points, at most one is below the other |
| Edges.LessThanTransitive | src/Edge.cpp:35-56 | the lexicographic point order is transitive |
| Edges.LessThanTotal | src/Edge.cpp:35-56 | two distinct points are always ordered one way |
| Edges.EdgeEquivalence | src/Edge.cpp:22-28 | two edges are equivalent keys of the map exactly when their midpoints are equal |
| Edges.EdgeLessTransitive | src/Edge.cpp:22-28 | the edge order is transitive |
| Edges.SameSegmentSameKey | src/Edge.cpp:22-28 | an edge and its reverse land on the same map key |
| EdgeExtraction.EncodeEdgeWindingInTriangleToOppositeVertex | src/EdgeExtractor.cpp:20-30 | the vertex keeps its position, and its w becomes +1 or -1 |
| EdgeExtraction.DecodeEncode | src/EdgeExtractor.cpp:20-35 | decoding an encoded vertex gives back the winding that was encoded |
| EdgeExtraction.PushEffect | src/EdgeExtractor.cpp:10-16 | a push appends the vertex under the edge's midpoint, keeps the edge first stored there, and changes no other key |
| EdgeExtraction.AddTriangleEntries | src/EdgeExtractor.cpp:9-16 | after a triangle, each of its three edges holds its opposite vertex tagged with that edge's winding |
| EdgeExtraction.AddTriangleExtends | src/EdgeExtractor.cpp:9-16 | adding a triangle removes no key and no stored vertex |
| EdgeExtraction.ExtractEdgesFromTriangles | src/EdgeExtractor.cpp:3-18 | the loop's map is the triangles added in order to the given map |
| EdgeExtraction.ExtractAllExtends | src/EdgeExtractor.cpp:3-18 | extraction only adds: every earlier key and vertex survives |
| EdgeExtraction.ExtractAllKeyed | src/EdgeExtractor.cpp:3-18 | every key of the extracted map is the midpoint of the edge stored under it |
| EdgeCounts.PushTotal | src/EdgeExtractor.cpp:10 | a push adds exactly one stored opposite vertex |
| EdgeCounts.AddTriangleTotal | src/EdgeExtractor.cpp:9-16 | a triangle adds exactly three stored opposite vertices |
| EdgeCounts.ExtractAllTotal | src/EdgeExtractor.cpp:3-18 | extracting n triangles adds exactly 3n opposite vertices across all keys |
| GeometryOps.IsSilhouetteStrictCodes | src/GeometryOperations.hpp:17 | among the four codes, only MINUS passes the strict test; PLUS passes the other header's test but not this one |
| GeometryOps.InterpretResult | src/GeometryOperations.cpp:33-43 | ABOVE for a positive value, BELOW for a negative one, INTERSECTS for 0 |
| GeometryOps.InterpretResultIsSign | src/GeometryOperations.cpp:86 | the three-way label is the sign `(r>0)-(r<0)` the multiplicity sums |
| GeometryOps.TestPlanePointAffine | src/GeometryOperations.cpp:10-13 | the point test is affine along a segment |
| GeometryOps.CornerResults | src/GeometryOperations.cpp:17-22 | eight labels, one per box corner: ABOVE_OUTSIDE exactly when strictly above the plane, BELOW_INSIDE exactly when strictly below, INTERSECTS_ON exactly when on it |
| GeometryOps.TestAabbPlane | src/GeometryOperations.cpp:15-31 | the loop returns the label all corners agree on, or INTERSECTS |
| GeometryOps.AabbPlaneLabelMeaning | src/GeometryOperations.cpp:15-31 | ABOVE iff all corners are strictly above, BELOW iff all are strictly below, INTERSECTS iff some corner is on or above and some on or below |
| GeometryOps.AabbPlaneLabelRange | src/GeometryOperations.cpp:15-43 | the box label is always one of the three results |
| GeometryOps.CornerOnPlaneIntersects | src/GeometryOperations.cpp:15-43 | a box with a corner on the plane is INTERSECTS |
| GeometryOps.TestAabbPointIsInsideOrOn | src/GeometryOperations.cpp:45-51 | corners and centre are inside or on the box, and a point past any face is not |
| GeometryOps.CalcEdgeMultiplicity | src/GeometryOperations.cpp:75-90 | the loop returns the sum of the signs of every opposite vertex against the plane through the edge and the light |
| GeometryOps.SignSumBounds | src/GeometryOperations.cpp:75-90 | the sum over n vertices lies in [-n, n], and it equals n exactly when all of them are strictly above |
| GeometryOps.MultiplicityBounds | src/GeometryOperations.cpp:75-90 | the multiplicity is bounded by the number of opposite vertices |
| GeometryOps.BuildEdgeTrianglePlane | src/GeometryOperations.cpp:92-100 | the plane passes through both edge points and the opposite vertex |
| GeometryOps.BuildEdgeTrianglePlaneFlips | src/GeometryOperations.cpp:92-100 | the winding tag picks the orientation: the two tags give planes with opposite point tests |
| GeometryOps.BuildRecoversTrianglePlane | src/GeometryOperations.cpp:92-100 | with the tag the extractor stored, the plane equals the one built from the triangle's own vertices in their order |
| GeometryOps.TestEdgeSpaceAabb | src/GeometryOperations.cpp:53-73 | the result is one of the four codes |
| GeometryOps.TestEdgeSpaceAabbMeaning | src/GeometryOperations.cpp:53-73 | POTENTIAL iff the voxel meets a plane; PLUS or MINUS iff it lies strictly on opposite sides of the two planes, by the multiplicity's sign at the minimum corner; NOT iff it is on the same side of both |
| VoxelSpaces.EmptyVoxelSpace | src/VoxelSpace.cpp:3-7 | the default space has no voxels and is not valid |
| VoxelSpaces.Init | src/VoxelSpace.cpp:9-30 | stores the box and the counts; segment lengths are the extents divided by the counts for a valid space and 0 otherwise |
| VoxelSpaces.InitCalibrated | src/VoxelSpace.cpp:9-30 | count times segment length spans the box on every axis |
| VoxelSpaces.IsValidIff | src/VoxelSpace.cpp:37-40 | a space is valid exactly when all three counts are positive |
| VoxelSpaces.CoordsFromIndexRoundTrip | src/VoxelSpace.cpp:139-155 | an invalid index gives (-1,-1,-1); a valid one gives in-range coordinates that map back to it |
| VoxelSpaces.IndexFromCoordsRoundTrip | src/VoxelSpace.cpp:139-155 | in-range coordinates give a valid index that maps back to them |
| VoxelSpaces.GetVoxelLinearIndexMismatch | src/VoxelSpace.cpp:42-48 | as written, voxel (0,1,0) of a 1x2x1 space gets index 2, which is past the last voxel |
| VoxelSpaces.GetVoxelLinearIndexCorrected | src/VoxelSpace.cpp:42-48 | -1 exactly for out-of-range coordinates; otherwise a valid index that converts back to the coordinates |
| VoxelSpaces.DimensionIndexBrackets | src/VoxelSpace.cpp:121-124 | the index k found for a value brackets it: k segments are at or below it and k+1 segments are above it |
| VoxelSpaces.PointOnMaxFaceEscapes | src/VoxelSpace.cpp:77-86 | as written, the range check of lines 131-137 accepts a coordinate equal to the voxel count, so the corner (1,1,1) of a one-voxel unit space gets index 3, which is not a valid index |
| VoxelSpaces.StartLightAliases | src/HSRenderer.cpp:18-41 | the renderer's start-up light (0,10,0) in its 5x5x5 space over [-10,10] gets coordinates (2,5,2), which pass the check as written, and index 77: a valid index of the different voxel (2,0,3); the intended check gives -1 |
| VoxelSpaces.GetVoxelLinearIndexFromPointInSpaceCorrected | src/VoxelSpace.cpp:77-93 | -1 exactly when the point's coordinates are out of range; otherwise a valid index of the point's voxel |
| VoxelSpaces.GetVoxelFromCoords | src/VoxelSpace.cpp:95-118 | no box exactly for invalid coordinates |
| VoxelSpaces.GetVoxelFromLinearIndex | src/VoxelSpace.cpp:50-62 | no box exactly for an invalid index; otherwise the box of the index's coordinates |
| VoxelSpaces.GetVoxelFromPointInSpace | src/VoxelSpace.cpp:64-75 | always reports true; the box is missing exactly when the point's coordinates fail the range check, and with positive segment lengths a box it returns contains the point |
| VoxelSpaces.VoxelBoxInside | src/VoxelSpace.cpp:95-118 | a voxel box in range is well formed and lies inside the space |
| VoxelSpaces.VoxelInsideSpace | src/VoxelSpace.cpp:50-62 | after `init`, the box of every valid index exists, is well formed and lies inside the space's box |
| VoxelSpaces.PointInVoxelBox | src/VoxelSpace.cpp:88-118 | a point lies inside or on the box of the coordinates computed from it |
| VoxelSpaces.PointInItsVoxel | src/VoxelSpace.cpp:50-93 | the voxel found for a point by its corrected index holds the point |
| SilhouetteBitmasks.NonEmptyEdgesMembers | src/BitArrayVoxelSilhouettes.cpp:31-35 | the edges that get an array are exactly the edges with an opposite vertex |
| SilhouetteBitmasks.NonEmptyEdgesWhole | src/BitArraySilhouettes.cpp:19-20 | when every edge has an opposite vertex, every edge gets an array |
| SilhouetteBitmasks.NonEmptyEdgesAppend | src/BitArrayVoxelSilhouettes.cpp:26-64 | the selection of edges distributes over concatenation |
| SilhouetteBitmasks.PlaneTestVoxel | src/HSRenderer.cpp:146-163 | the renderer's per-voxel code is one of the four codes |
| SilhouetteBitmasks.PlaneTestAgreesOffPlane | src/HSRenderer.cpp:146-163 | when no voxel corner is on either plane, the renderer's inline test gives the code `testEdgeSpaceAabb` gives |
| SilhouetteBitmasks.PlaneTestDiffersOnPlane | src/HSRenderer.cpp:146-163 | with a corner on a plane the two tests can disagree: `testEdgeSpaceAabb` says POTENTIAL while the renderer says PLUS or MINUS |
| SilhouetteBitmasks.VoxelCode | src/BitArraySilhouettes.cpp:24-44 | an edge with one opposite vertex is POTENTIAL in every voxel; the code is always one of the four |
| SilhouetteBitmasks.VoxelCodeOfTwoVertices | src/BitArraySilhouettes.cpp:30-44 | with two opposite vertices the code is the chosen test of the two triangle planes on the voxel's box |
| SilhouetteBitmasks.CellsHoldCodes | src/BitArrayVoxelSilhouettes.cpp:88-102 | cell v of array k holds the code of the k-th array edge at voxel v |
| SilhouetteBitmasks.ClassifyVoxels | src/BitArraySilhouettes.cpp:36-44 | after the loop, every cell holds the code of its voxel |
| SilhouetteBitmasks.BuildEdgeArray | src/BitArraySilhouettes.cpp:22-45 | a fresh array with one 3-bit cell per voxel, each holding the edge's code for that voxel |
| SilhouetteBitmasks.BitArraySilhouettes.constructor | src/BitArraySilhouettes.cpp:5-8 | there are no arrays |
| SilhouetteBitmasks.BitArraySilhouettes.Clear | src/BitArraySilhouettes.cpp:51-54 | the list of arrays is empty |
| SilhouetteBitmasks.BitArraySilhouettes.GeneratePerEdgeVoxelInfo | src/BitArraySilhouettes.cpp:10-49 | one array per edge with an opposite vertex, in edge order; each cell holds the edge-space code of its edge and voxel |
| VoxelSilhouettes.PotentialPositionsMeaning | src/BitArrayVoxelSilhouettes.cpp:99-100 | the potential list holds exactly the array positions whose code is POTENTIAL, in increasing order |
| VoxelSilhouettes.SilhouettePositionsMeaning | src/BitArrayVoxelSilhouettes.cpp:93-97 | the silhouette list holds exactly the negated positions of the MINUS arrays, so PLUS is never reported and array 0 is reported as 0 |
| VoxelSilhouettes.ArrayEdgeIndicesMeaning | src/BitArrayVoxelSilhouettes.cpp:25-35 | array k belongs to a container position holding the k-th edge with an opposite vertex |
| VoxelSilhouettes.ArrayEdgeIndicesIdentity | src/BitArrayVoxelSilhouettes.cpp:25-35 | when every edge has an opposite vertex, array k belongs to edge k |
| VoxelSilhouettes.MisalignedAfterEmptyEdge | src/BitArrayVoxelSilhouettes.cpp:25-102 | as written, after an edge without opposite vertices the query, which numbers arrays by their position in the list of arrays, reports the array of edge 1 as number 0 |
| VoxelSilhouettes.SilhouetteEdgeIndicesComplete | src/BitArrayVoxelSilhouettes.cpp:93-97 | with container numbering, every MINUS array reports its own edge's negated position |
| VoxelSilhouettes.SilhouetteEdgeIndicesSound | src/BitArrayVoxelSilhouettes.cpp:93-97 | with container numbering, every reported entry is the negated position of an edge whose code is MINUS |
| VoxelSilhouettes.ScanArrays | src/BitArrayVoxelSilhouettes.cpp:88-103 | the loop appends exactly the potential list and the silhouette list of the voxel's codes |
| VoxelSilhouettes.BitArrayVoxelSilhouettes.constructor | src/BitArrayVoxelSilhouettes.cpp:7-10 | there are no arrays, and the voxel space is the default one |
| VoxelSilhouettes.BitArrayVoxelSilhouettes.Clear | src/BitArrayVoxelSilhouettes.cpp:67-70 | the arrays are dropped and the voxel space is kept |
| VoxelSilhouettes.BitArrayVoxelSilhouettes.Initialize | src/BitArrayVoxelSilhouettes.cpp:17-65 | the space is voxelised as requested, and there is one array per edge with an opposite vertex, each holding the edge-space code of every voxel |
| VoxelSilhouettes.BitArrayVoxelSilhouettes.GetVoxelIndexAabbFromPos | src/BitArrayVoxelSilhouettes.cpp:106-121 | -1 and no box exactly together; otherwise a valid index of the light's voxel, with its box |
| VoxelSilhouettes.BitArrayVoxelSilhouettes.GetSilhouetteEdgesForLightPos | src/BitArrayVoxelSilhouettes.cpp:72-104 | a light outside the voxels adds nothing; otherwise the potential and silhouette lists of the light voxel's codes are appended |
| VoxelSilhouettes.BitArrayVoxelSilhouettes.GetAccelerationStructureSizeBytes | src/BitArrayVoxelSilhouettes.cpp:123-126 | 4 bytes per voxel for every edge with an opposite vertex |
| Octrees.IPow | src/Octree.cpp:5-17 | the squaring loop computes base to the power exp |
| Octrees.PowHalve | src/Octree.cpp:5-17 | the invariant step of the squaring loop: halving the exponent squares the base, with the odd factor taken out |
| Octrees.LevelSizeIsPow | src/Octree.cpp:28-40 | level l has 8^l nodes |
| Octrees.PrefixClosedForm | src/Octree.cpp:28-40 | the nodes above level l number (8^l - 1)/7 |
| Octrees.PrefixMonotone | src/Octree.cpp:28-40 | deeper levels start at strictly larger IDs |
| Octrees.Octree.GenerateLevelSizes | src/Octree.cpp:28-40 | the loop fills the table of inclusive level sums |
| Octrees.Octree.GetTotalNumNodes | src/Octree.cpp:277-280 | the node count of all levels to the deepest |
| Octrees.LevelFromMeaning | src/Octree.cpp:88-100 | scanning up from a level finds the level whose ID range holds the node, or -1 past the total |
| Octrees.NodeLevelMeaning | src/Octree.cpp:88-100 | a node below the total lies in its level's ID range; the level is -1 exactly past the total |
| Octrees.NodeLevelMonotone | src/Octree.cpp:88-100 | larger IDs lie on the same or deeper levels |
| Octrees.Octree.GetNodeRecursionLevel | src/Octree.cpp:88-100 | the loop returns the node's level |
| Octrees.NumCellsInPreviousLevels | src/Octree.cpp:191-201 | the number of nodes above the level, and 0 for level 0 or below |
| Octrees.NodeIdInLevel | src/Octree.cpp:102-112 | -1 exactly for the root and for IDs past the total; otherwise the node's offset within its level |
| Octrees.Parent | src/Octree.cpp:72-86 | -1 exactly for the root; every other node has a parent with a smaller ID |
| Octrees.ChildrenStartMeaning | src/Octree.cpp:203-217 | -1 exactly for IDs past the total; otherwise the first child comes after the node |
| Octrees.ParentOfChild | src/Octree.cpp:72-86 | child k of a node above the deepest level is a node one level down whose parent is the node and whose index within it is k |
| Octrees.ChildOfParent | src/Octree.cpp:247-261 | every non-root node is child number `getNodeIndexWithinParent` of its parent, one level up |
| Octrees.DeepestChildrenOutside | src/Octree.cpp:203-217 | the children of a deepest-level node are numbered past the total |
| Octrees.ChildVolumeIsOctant | src/Octree.cpp:219-245 | child i's box is well formed, lies inside the parent, and shares the parent's corner i |
| Octrees.ChildIndexFromPoint | src/Octree.cpp:138-144 | the index is one of the eight children |
| Octrees.PointInChosenChild | src/Octree.cpp:138-144 | a point of the box lies in the child its index picks |
| Octrees.CanonicalChild | src/Octree.cpp:219-245 | the canonical box of child k is octant k of its parent's canonical box |
| Octrees.SubtreeSplit | src/Octree.cpp:176-189 | a node's subtree is the node and the subtrees of its eight children |
| Octrees.SubtreeOfLeafLevel | src/Octree.cpp:176-189 | a deepest-level node's subtree is the node alone |
| Octrees.AsUnsigned | src/Octree.cpp:184 | the one 32-bit unsigned value congruent to the int modulo 2^32 |
| Octrees.UnsignedAdd | src/Octree.cpp:186 | 32-bit unsigned addition with wrap-around |
| Octrees.SplitKeepsVolumesCanonical | src/Octree.cpp:161-169 | splitting keeps every node's box equal to its canonical box |
| Octrees.SplitKeepsSiblingGroups | src/Octree.cpp:161-169 | after a split, a node's first child is present exactly when all its siblings are |
| Octrees.RootOnlyComplete | src/Octree.cpp:42-48 | a tree holding only the root has complete sibling groups |
| Octrees.DescentStep | src/Octree.cpp:114-136 | when a node's first child exists, the child the point picks exists, lies one level down and holds the point |
| Octrees.Octree.constructor | src/Octree.cpp:19-26 | the tree holds only the root with the given box; the table matches the depth |
| Octrees.Octree.Init | src/Octree.cpp:42-48 | the root is (re)created with the given box |
| Octrees.Octree.GetLowestLevelCellIndexFromPointInSpace | src/Octree.cpp:114-136 | -1 exactly for a point outside the root box; otherwise an existing childless node whose box holds the point |
| Octrees.Octree.CreateChild | src/Octree.cpp:219-245 | adds the new node with its octant of the parent box, and nothing else |
| Octrees.Octree.SplitNode | src/Octree.cpp:161-169 | adds exactly the eight children, child i with octant i of the node's box, and keeps sibling groups complete |
| Octrees.Octree.CreateChildren | src/Octree.cpp:167-168 | the loop adds exactly the eight child entries |
| Octrees.Octree.DeleteNode | src/Octree.cpp:171-174 | removes exactly the one node |
| Octrees.Octree.DeleteNodeSubtree | src/Octree.cpp:176-189 | removes exactly the nodes of the subtree |
| Octrees.Octree.DeleteChildSubtrees | src/Octree.cpp:176-189 | the loop over the children removes exactly their subtrees |
| OctreeVisitors.NegatedId | src/OctreeVisitor.cpp:44 | `-int(edgeID)` as unsigned: adding it to the ID gives 0 modulo 2^32 |
| OctreeVisitors.NegatedIdInvolution | src/OctreeVisitor.cpp:44 | negating twice gives back the ID |
| OctreeVisitors.NegatedIdTopBit | src/OctreeVisitor.cpp:44 | a negated positive ID has the top bit set, and 0 stays 0 |
| OctreeVisitors.StoredIds | src/OctreeVisitor.cpp:40-44 | PLUS stores the ID, MINUS stores its negation, any other code stores nothing |
| OctreeVisitors.WithStoredEdge | src/OctreeVisitor.cpp:34-45 | only the node's always-cast set changes, and it gains exactly the stored IDs |
| OctreeVisitors.AddEdgesKeepsVolumesCanonical | src/OctreeVisitor.cpp:34-45 | storing an edge keeps every node's box canonical |
| OctreeVisitors.RootClassification | src/OctreeVisitor.cpp:14-27 | the code of the root box is one of the four codes |
| OctreeVisitors.OctreeVisitor.constructor | src/OctreeVisitor.cpp:7-10 | the visitor holds the given octree |
| OctreeVisitors.OctreeVisitor.StoreEdgeIsAlwaysSilhouette | src/OctreeVisitor.cpp:34-45 | the node's set gains exactly the stored IDs of the code and nothing else changes |
| OctreeVisitors.OctreeVisitor.AddEdge | src/OctreeVisitor.cpp:12-32 | the loop runs once; the root gains the negated ID when the root box is MINUS, and the tree is unchanged otherwise |
| Renderers.WholeTrianglesFill | src/HSRenderer.cpp:111-121 | when every mesh has whole triangles, the vertex total is three times the triangle total |
| Renderers.LeftoverVerticesCombine | src/HSRenderer.cpp:111-121 | the division is of the total, so leftover vertices of two meshes add up to a triangle that no single mesh has |
| Renderers.Resized | src/HSRenderer.cpp:120 | `resize` keeps the existing entries up to the new size and fills new ones with zero triangles |
| Renderers.HierarchicalSilhouetteRenderer.AllocateTriangleVector | src/HSRenderer.cpp:111-121 | the triangle vector is resized to a third of all mesh vertices, rounded down |
| Renderers.SideQuadShape | src/HSRenderer.cpp:225-250 | sign 0 emits nothing; otherwise six vertices, each an edge point at w = 1 or an edge point minus the light at w = 0 |
| Renderers.SideQuadSwapped | src/HSRenderer.cpp:225-250 | the negative quad of an edge is the positive quad of the reversed edge, and every positive sign gives the same quad |
| Renderers.SideQuadSameCorners | src/HSRenderer.cpp:225-250 | both signs use the same four corners |
| Renderers.SideQuadNotReversedTriangles | src/HSRenderer.cpp:225-250 | the negative quad is not the positive quad's triangles with their vertices reversed |
| Renderers.GeneratePushSideFromEdge | src/HSRenderer.cpp:225-250 | appends exactly the quad for the sign |
| Renderers.EdgeSidesMeaning | src/HSRenderer.cpp:189-202 | NOT emits nothing, PLUS the positive quad, MINUS the negative quad, POTENTIAL the quad of the multiplicity at the light; a quad is emitted exactly for silhouettes and for potential edges with non-zero multiplicity |
| Renderers.SidesForLayout | src/HSRenderer.cpp:181-206 | the sides are whole quads, at most one per edge, and edge k's sides follow those of the edges before it |
| Renderers.EmitEdgeSides | src/HSRenderer.cpp:189-202 | one loop step appends the sides of the edge's code |
| Renderers.EmitSides | src/HSRenderer.cpp:181-206 | the loop appends, edge by edge, the sides of the codes at the voxel |
| Renderers.HierarchicalSilhouetteRenderer.constructor | src/HSRenderer.cpp:11-19 | the scene's light is at (0, 10, 0); there are no arrays, triangles or sides yet |
| Renderers.HierarchicalSilhouetteRenderer.GeneratePerEdgeVoxelInfo | src/HSRenderer.cpp:123-168 | one array per edge, in edge order; each cell holds the renderer's code of its edge and voxel, and nothing else changes |
| Renderers.HierarchicalSilhouetteRenderer.GenerateSidesFromVoxelIndex | src/HSRenderer.cpp:181-206 | appends the sides of every edge for its code at the given voxel |

Some code is duplicated in the source and modelled once:

- src/IntersectionTests.cpp repeats `isInRange`, `testPlanePoint`,
  `testAabbPlane`, `interpretResult` and `testAabbPointIsInsideOrOn` of
  src/GeometryOperations.cpp (lines 3-50 against 5-51). The `GeometryOps`
  members model both copies.
- The renderer's `_calcEdgeMultiplicity` and `_buildTrianglePlane`
  (src/HSRenderer.cpp:171-223) repeat `GeometryOps::calcEdgeMultiplicity`
  and `GeometryOps::buildEdgeTrianglePlane`. The renderer uses
  `GeometryOps.Multiplicity` and `GeometryOps.BuildEdgeTrianglePlane`.

Several members have no contract of their own. Their behaviour is stated
by the lemmas about them:

- `VoxelSpaces.GetVoxelLinearIndex` and
  `VoxelSpaces.GetVoxelLinearIndexFromPointInSpace` (as written).
- `Octrees.Octree.NodeExists`, `ChildrenExist`, `GetNodeVolume` and
  `IsPointInsideOctree` (src/Octree.cpp:60-70, 146-159 and 263-270).
- `Octrees.IndexWithinParent` and `NodeIndexWithinParent`
  (src/Octree.cpp:247-261).

## Left out

- OpenGL, shaders, cameras, scene loading, the edge visualiser and
  logging. These are I/O or rendering with no state the classification
  reads.
- `_generateScenePretransformedGeometry`. It is a matrix transform of the
  vertices. The renderer takes the extracted edges as given.
- The light space the renderer receives. The scene header shown has no
  such member, so it is a parameter of
  `Renderers.HierarchicalSilhouetteRenderer.GeneratePerEdgeVoxelInfo`.
- Renderers.HierarchicalSilhouetteRenderer.GenerateSidesFromVoxelIndex:
  requires the voxel index to be below the voxel count. `init` takes the
  index with the range check as written. For its own start-up light that
  is 77, a valid index of another voxel (VoxelSpaces.StartLightAliases),
  which the model covers. A light outside the space gives -1, converted to
  unsigned, and a light near the far corner gives an index past the last
  voxel; both trip `getCellContent`'s assert and are not modelled.
- VoxelSilhouettes.BitArrayVoxelSilhouettes.GetVoxelIndexAabbFromPos:
  uses the corrected range check of the voxel space. As written, a light
  up to one segment past a maximum face passes the check. It then usually
  gets the valid index of a different voxel, as the renderer's start-up
  light does (VoxelSpaces.StartLightAliases), and near the far corner an
  index past the last voxel. The model returns -1 and no box for all of
  these lights.
- VoxelSilhouettes.BitArrayVoxelSilhouettes.GetSilhouetteEdgesForLightPos:
  for the lights above, the model appends nothing. The source appends the
  POTENTIAL and silhouette codes of the aliased voxel, or reads past the
  arrays for an index past the last voxel.
- VoxelSpaces.DimensionIndexFromDistance: requires a non-zero segment
  length. So do VoxelSpaces.VoxelCoordsFromPointInSpace,
  VoxelSpaces.GetVoxelLinearIndexFromPointInSpace,
  VoxelSpaces.GetVoxelLinearIndexFromPointInSpaceCorrected,
  VoxelSpaces.GetVoxelFromPointInSpace and the two queries above, through
  `HasSegments`. A flat box or the default, uninitialised space divides by
  0.0 in the source, and converting the infinite or NaN floor to `int` is
  undefined behaviour.
- Octrees.Octree.GetLowestLevelCellIndexFromPointInSpace: requires
  complete sibling groups. After `deleteNode` or `deleteNodeSubtree` of a
  non-first child, the source can descend into the deleted node and
  return its ID (after `splitNode(0)` and `deleteNodeSubtree(4)`, a point
  in octant 3 gives 4). It can also read the box of a missing node, which
  `getNodeVolume` asserts against. Neither path is modelled; no delete is
  called in the renderer.
- `OctreeSilhouettes` and the octree merge/prune routines. They are not
  part of the core.
- `getOctreeSizeBytes` and `getNode`. These are a size estimate and a
  pointer accessor. The map lookup covers `getNode`.
- Octrees.Octree.GetNodeVolume: requires the node to exist, where the
  source asserts it. The fallback of returning an empty box in release
  builds is not modelled.
- Octrees.Octree.DeleteNode: the resulting tree may no longer have
  complete sibling groups when a non-first child is deleted. The model
  states the map only.
- MultiBitArrays.MultiBitArray.GetCellContent and
  MultiBitArrays.MultiBitArray.SetCellContent: require a width of at least
  1. With width 0 the source allocates no words and still indexes the
  first one.
- 32-bit overflow of ID arithmetic in the octree, of `8 * idInLevel` at
  deep levels, of the voxel count product and of `cellIndex * width` in
  the bit array. All of these are unbounded integers in the model.
- BitOps.SetBit, BitOps.ClearBit, BitOps.FlipBit: they return the new word
  instead of updating it through a reference. A shift by 32 or more is
  excluded, because it is undefined in C++.
- Floating-point rounding and NaN. Reals stand for floats. The plane
  normalisation is dropped, because a positive scale changes no sign a
  test reads (`CommonTypes.PositiveScaleKeepsSign`).
- AABB.hpp and Plane.hpp are not part of this model. Their boxes and
  planes are the value types of `Geometry` and `CommonTypes`.

## Findings

| source | as written | input that shows it | evidently intended | confidence | as-written member | corrected member |
|---|---|---|---|---|---|---|
| src/VoxelSpace.cpp:131-137 | `_areCoordsValid` accepts a coordinate equal to the voxel count, so a point up to one segment past the space's maximum face gets the index of a different voxel, or one past the last voxel | a 1x1x1 space over the unit box and the point (1,1,1): coordinates (1,1,1), index 3; the renderer's start-up light (0,10,0) in 5x5x5 over [-10,10]: index 77, voxel (2,0,3) (VoxelSpaces.StartLightAliases) | coordinates must be below the counts, and that point gets -1 | high (not executed) | VoxelSpaces.PointOnMaxFaceEscapes | VoxelSpaces.GetVoxelLinearIndexFromPointInSpaceCorrected |
| src/VoxelSpace.cpp:47 | `getVoxelLinearIndex` computes `x + Y*(y + Z*z)`, which is not the layout `z*X*Y + y*X + x` that the inverse at lines 146-148 and the conversion at line 154 use | counts (1,2,1) and voxel (0,1,0): index 2 instead of 1 | the layout of `_getVoxelLinearIndexFromVoxelCoords` | high (not executed) | VoxelSpaces.GetVoxelLinearIndexMismatch | VoxelSpaces.GetVoxelLinearIndexCorrected |
| src/BitArrayVoxelSilhouettes.cpp:25-35 | `initialize` skips edges without opposite vertices, but the query numbers arrays by their own position, so the indices it reports are not edge positions after a skipped edge | the container [e0, e1] with e0 having no opposite vertex: the array of e1 is reported as edge 0 | report the container position of each array's edge | medium (not executed; the extractor never yields such an edge) | VoxelSilhouettes.MisalignedAfterEmptyEdge | VoxelSilhouettes.SilhouetteEdgeIndicesComplete |
