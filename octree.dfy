// The octree over the light's space (src/Octree.cpp): implicit node
// numbering level by level, the table of inclusive level sizes, the
// parent/child arithmetic on node IDs, the sparse node map with its split
// and delete operations, and the descent from the root to the deepest
// existing node that holds a point.
//
// Node IDs are numbered breadth first: level L holds 8^L nodes, its first
// ID is the number of nodes on the levels above it (`Prefix(L)`), and the
// eight children of the i-th node of level L are the nodes 8i .. 8i+7 of
// level L+1. The pure ID arithmetic is written as module-level functions
// of the deepest level, because the level table it reads is fixed by it.
module Octrees {
  import opened Geometry

  /** `OCTREE_NUM_CHILDREN` */
  const NUM_CHILDREN: nat := 8

  /** The largest `unsigned int`. */
  const UINT_MAX: nat := 0xFFFF_FFFF

  /** `base` raised to `exp`. */
  function Pow(base: int, exp: nat): int
  {
    if exp == 0 then 1 else base * Pow(base, exp - 1)
  }

  /** Pow(b, e) as one square-and-multiply step takes it apart: the low bit
      of the exponent contributes one factor of b, the rest is (b*b)^(e/2). */
  lemma {:induction false} PowHalve(b: int, e: nat)
    ensures Pow(b, e) == (if e % 2 == 1 then b else 1) * Pow(b * b, e / 2)
  {
    PowSquare(b, e / 2);
    if e % 2 == 1 {
      assert e == 2 * (e / 2) + 1;
    } else {
      assert e == 2 * (e / 2);
    }
  }

  lemma {:induction false} PowSquare(b: int, n: nat)
    ensures Pow(b * b, n) == Pow(b, 2 * n)
  {
    if n > 0 {
      PowSquare(b, n - 1);
      calc {
        Pow(b, 2 * n);
        b * Pow(b, 2 * n - 1);
        b * (b * Pow(b, 2 * (n - 1)));
        { MulAssoc(b, b, Pow(b, 2 * (n - 1))); }
        (b * b) * Pow(b, 2 * (n - 1));
        (b * b) * Pow(b * b, n - 1);
      }
    }
  }

  lemma MulAssoc(a: int, b: int, c: int)
    ensures a * (b * c) == (a * b) * c
  {
  }

  /** `ipow`: square-and-multiply over the bits of the exponent. For a
      non-negative exponent `exp & 1` is `exp % 2` and `exp >>= 1` is
      `exp / 2`; a negative exponent never reaches 0 under the arithmetic
      shift, so callers pass only non-negative ones. */
  method IPow(base: int, exp: int) returns (result: int)
    requires exp >= 0
    ensures result == Pow(base, exp)
  {
    result := 1;
    var b, e := base, exp;
    while e != 0
      invariant e >= 0
      invariant result * Pow(b, e) == Pow(base, exp)
      decreases e
    {
      PowHalve(b, e);
      if e % 2 == 1 {
        MulAssoc(result, b, Pow(b * b, e / 2));
        result := result * b;
      }
      e := e / 2;
      b := b * b;
    }
  }

  /** Number of nodes on level `level`: 8^level. */
  function LevelSize(level: nat): (r: nat)
    ensures r >= 1
  {
    if level == 0 then 1 else NUM_CHILDREN * LevelSize(level - 1)
  }

  lemma {:induction false} LevelSizeIsPow(level: nat)
    ensures Pow(NUM_CHILDREN, level) == LevelSize(level)
  {
    if level > 0 {
      LevelSizeIsPow(level - 1);
    }
  }

  /** Number of nodes on the levels above `level`, which is also the first
      ID of `level`. */
  function Prefix(level: nat): nat
  {
    if level == 0 then 0 else Prefix(level - 1) + LevelSize(level - 1)
  }

  /** Closed form of the level sums: 1 + 8 + ... + 8^(L-1) == (8^L - 1) / 7. */
  lemma {:induction false} PrefixClosedForm(level: nat)
    ensures 7 * Prefix(level) + 1 == LevelSize(level)
  {
    if level > 0 {
      PrefixClosedForm(level - 1);
    }
  }

  lemma {:induction false} PrefixMonotone(a: nat, b: nat)
    requires a <= b
    ensures Prefix(a) <= Prefix(b)
    ensures a < b ==> Prefix(a) < Prefix(b)
    decreases b - a
  {
    if a < b {
      PrefixMonotone(a, b - 1);
    }
  }

  /** `_levelSizesInclusiveSum` for a tree of levels 0..deepest: entry L
      counts the nodes on levels 0..L. */
  function LevelTable(deepest: nat): (r: seq<nat>)
    ensures |r| == deepest + 1
  {
    seq(deepest + 1, l requires 0 <= l => Prefix(l + 1))
  }

  /** `getTotalNumNodes`: the last table entry. */
  function TotalNumNodes(deepest: nat): nat
  {
    Prefix(deepest + 1)
  }

  /** The table scan of `getNodeRecursionLevel` from entry `level` on: the
      first level whose inclusive sum exceeds the ID, -1 past the table. */
  function LevelFrom(deepest: nat, id: nat, level: nat): (r: int)
    ensures -1 <= r <= deepest
    decreases deepest + 1 - level
  {
    if level > deepest then -1
    else if id < Prefix(level + 1) then level
    else LevelFrom(deepest, id, level + 1)
  }

  /** The level of node `id`, or -1 when the ID is past the deepest level. */
  function NodeLevel(deepest: nat, id: nat): (r: int)
    ensures -1 <= r <= deepest
  {
    LevelFrom(deepest, id, 0)
  }

  lemma {:induction false} LevelFromMeaning(deepest: nat, id: nat, level: nat)
    requires level <= deepest + 1 && Prefix(level) <= id
    ensures id < TotalNumNodes(deepest) ==>
      var l := LevelFrom(deepest, id, level);
      level <= l && Prefix(l) <= id < Prefix(l + 1)
    ensures id >= TotalNumNodes(deepest) ==> LevelFrom(deepest, id, level) == -1
    decreases deepest + 1 - level
  {
    if level > deepest {
    } else if id < Prefix(level + 1) {
      PrefixMonotone(level + 1, deepest + 1);
    } else {
      LevelFromMeaning(deepest, id, level + 1);
    }
  }

  /** `getNodeRecursionLevel`: a node below the total lies on the level L
      with Prefix(L) <= id < Prefix(L+1); every other ID gets -1. */
  lemma NodeLevelMeaning(deepest: nat, id: nat)
    ensures id < TotalNumNodes(deepest) ==>
      var l := NodeLevel(deepest, id);
      0 <= l <= deepest && Prefix(l) <= id < Prefix(l + 1)
    ensures id >= TotalNumNodes(deepest) <==> NodeLevel(deepest, id) == -1
  {
    LevelFromMeaning(deepest, id, 0);
  }

  /** The level is the only one whose ID range holds the node. */
  lemma LevelOf(deepest: nat, id: nat, level: nat)
    requires level <= deepest && Prefix(level) <= id < Prefix(level + 1)
    ensures NodeLevel(deepest, id) == level
  {
    PrefixMonotone(level + 1, deepest + 1);
    NodeLevelMeaning(deepest, id);
    var l := NodeLevel(deepest, id);
    if l < level {
      PrefixMonotone(l + 1, level);
    } else if l > level {
      PrefixMonotone(level + 1, l);
    }
  }

  /** The level never decreases as the ID grows, up to the total. */
  lemma NodeLevelMonotone(deepest: nat, a: nat, b: nat)
    requires a <= b < TotalNumNodes(deepest)
    ensures 0 <= NodeLevel(deepest, a) <= NodeLevel(deepest, b)
  {
    NodeLevelMeaning(deepest, a);
    NodeLevelMeaning(deepest, b);
    var la, lb := NodeLevel(deepest, a), NodeLevel(deepest, b);
    if lb < la {
      PrefixMonotone(lb + 1, la);
    }
  }

  /** `getNumCellsInPreviousLevels`: the table entry of the level above
      (entry l of the table is Prefix(l + 1)), 0 for the root level and
      below; the source asserts that the entry it would read is inside the
      table. */
  function NumCellsInPreviousLevels(deepest: nat, level: int): (r: nat)
    requires level - 1 < deepest + 1
    ensures 0 <= level ==> r == Prefix(level)
    ensures level <= 0 ==> r == 0
  {
    var l := level - 1;
    if l < 0 || l > deepest then 0 else Prefix(l + 1)
  }

  /** Two-argument `getNodeIdInLevel`: the offset of the node from the first
      ID of the given level. */
  function IdInLevel(deepest: nat, id: nat, level: nat): int
    requires level <= deepest + 1
  {
    id - NumCellsInPreviousLevels(deepest, level)
  }

  /** One-argument `getNodeIdInLevel`: the node's offset within its own
      level, or -1 for the root and for IDs past the deepest level. */
  function NodeIdInLevel(deepest: nat, id: nat): (r: int)
    ensures r == -1 <==> id == 0 || id >= TotalNumNodes(deepest)
    ensures r != -1 ==> var l := NodeLevel(deepest, id); l >= 1 && 0 <= r < LevelSize(l)
  {
    NodeLevelMeaning(deepest, id);
    var level := NodeLevel(deepest, id);
    if level > 0 then IdInLevel(deepest, id, level) else -1
  }

  /** `getNodeParent`: -1 for the root; otherwise the node's offset divided
      by 8 (C++ division, which agrees with Dafny's on non-negative values),
      shifted to the level above. The source asserts that the node has a
      level, that is, lies below the total. */
  function Parent(deepest: nat, id: nat): (r: int)
    requires id < TotalNumNodes(deepest)
    ensures id == 0 <==> r == -1
    ensures id != 0 ==> 0 <= r < id
  {
    NodeLevelMeaning(deepest, id);
    if id == 0 then -1
    else
      var nodeLevel := NodeLevel(deepest, id);
      PrefixMonotone(nodeLevel - 1, nodeLevel);
      var idInLevel := IdInLevel(deepest, id, nodeLevel);
      idInLevel / NUM_CHILDREN + NumCellsInPreviousLevels(deepest, nodeLevel - 1)
  }

  /** `getChildrenStartingId`: 8 times the node's offset, shifted to the
      level below (the table entry of the node's own level). The level is compared with the unsigned deepest level,
      so -1 counts as larger than every level and gives -1. */
  function ChildrenStart(deepest: nat, id: nat): int
  {
    var nodeLevel := NodeLevel(deepest, id);
    if nodeLevel < 0 || nodeLevel > deepest then -1
    else NUM_CHILDREN * IdInLevel(deepest, id, nodeLevel) + Prefix(nodeLevel + 1)
  }

  /** The children of a node are numbered after it, and only IDs past the
      total have no children at all. */
  lemma ChildrenStartMeaning(deepest: nat, id: nat)
    ensures ChildrenStart(deepest, id) == -1 <==> id >= TotalNumNodes(deepest)
    ensures ChildrenStart(deepest, id) != -1 ==> ChildrenStart(deepest, id) > id
  {
    NodeLevelMeaning(deepest, id);
  }

  /** Two-argument `getNodeIndexWithinParent`: the distance from the
      parent's first child. */
  function IndexWithinParent(deepest: nat, id: nat, parent: nat): int
  {
    id - ChildrenStart(deepest, parent)
  }

  /** One-argument `getNodeIndexWithinParent`; the source asserts that the
      node has a parent. */
  function NodeIndexWithinParent(deepest: nat, id: nat): int
    requires 0 < id < TotalNumNodes(deepest)
  {
    IndexWithinParent(deepest, id, Parent(deepest, id))
  }

  /** Quotient and remainder by 8 of 8i + k. */
  lemma DivEight(i: int, k: int)
    requires 0 <= k < 8
    ensures (8 * i + k) / 8 == i && (8 * i + k) % 8 == k
  {
  }

  /** Child k of a node above the deepest level lies one level down, has
      the node as its parent and k as its index within it. */
  lemma ParentOfChild(deepest: nat, id: nat, k: nat)
    requires id < TotalNumNodes(deepest) && NodeLevel(deepest, id) < deepest && k < NUM_CHILDREN
    ensures var c := ChildrenStart(deepest, id) + k;
      && 0 < c < TotalNumNodes(deepest)
      && NodeLevel(deepest, c) == NodeLevel(deepest, id) + 1
      && Parent(deepest, c) == id
      && NodeIndexWithinParent(deepest, c) == k
  {
    var l := ChildLevel(deepest, id, k);
    var c := ChildrenStart(deepest, id) + k;
    var i := id - Prefix(l);
    assert Parent(deepest, c) == (c - Prefix(l + 1)) / 8 + Prefix(l);
    DivEight(i, k);
  }

  /** The ID range of child k: it lies on the level below the node. */
  lemma ChildLevel(deepest: nat, id: nat, k: nat) returns (l: nat)
    requires id < TotalNumNodes(deepest) && NodeLevel(deepest, id) < deepest && k < NUM_CHILDREN
    ensures l == NodeLevel(deepest, id) && Prefix(l) <= id < Prefix(l + 1)
    ensures ChildrenStart(deepest, id) == 8 * (id - Prefix(l)) + Prefix(l + 1)
    ensures var c := ChildrenStart(deepest, id) + k;
      0 < c < TotalNumNodes(deepest) && NodeLevel(deepest, c) == l + 1
  {
    NodeLevelMeaning(deepest, id);
    l := NodeLevel(deepest, id);
    var i := id - Prefix(l);
    assert ChildrenStart(deepest, id) == 8 * i + Prefix(l + 1);
    var c := 8 * i + Prefix(l + 1) + k;
    assert Prefix(l + 2) == Prefix(l + 1) + 8 * LevelSize(l);
    assert i < LevelSize(l);
    LevelOf(deepest, c, l + 1);
    PrefixMonotone(l + 2, deepest + 1);
  }

  /** Every node but the root is child number NodeIndexWithinParent of its
      parent, which lies one level up. */
  lemma ChildOfParent(deepest: nat, id: nat)
    requires 0 < id < TotalNumNodes(deepest)
    ensures var p := Parent(deepest, id);
      && NodeLevel(deepest, p) == NodeLevel(deepest, id) - 1
      && 0 <= NodeIndexWithinParent(deepest, id) < NUM_CHILDREN
      && id == ChildrenStart(deepest, p) + NodeIndexWithinParent(deepest, id)
  {
    NodeLevelMeaning(deepest, id);
    var l := NodeLevel(deepest, id);
    var j := id - Prefix(l);
    assert l >= 1;
    var p := Parent(deepest, id);
    assert p == j / 8 + Prefix(l - 1);
    assert j < 8 * LevelSize(l - 1);
    LevelOf(deepest, p, l - 1);
    assert ChildrenStart(deepest, p) == 8 * (j / 8) + Prefix(l);
  }

  /** The children of a deepest-level node are numbered past the total, so
      they can never exist. */
  lemma DeepestChildrenOutside(deepest: nat, id: nat)
    requires id < TotalNumNodes(deepest) && NodeLevel(deepest, id) == deepest
    ensures ChildrenStart(deepest, id) >= TotalNumNodes(deepest)
  {
    NodeLevelMeaning(deepest, id);
  }

  /** `_createChild`'s box: the parent's half extents, moved up by the half
      extent on x, y, z when bit 0, 1, 2 of the index is set (`& 1`, `& 2`,
      `& 4` on an index below 8 are these remainders). */
  function ChildVolume(parent: Aabb, index: int): Aabb
  {
    var half := Scale(0.5, Extents(parent));
    var offset := Vec3(if index % 2 == 1 then half.x else 0.0,
                       if (index / 2) % 2 == 1 then half.y else 0.0,
                       if (index / 4) % 2 == 1 then half.z else 0.0);
    var minPoint := Add(parent.minPoint, offset);
    Aabb(minPoint, Add(minPoint, half))
  }

  /** Child i of a well-formed box is a well-formed box inside the parent
      that shares the parent's corner i: the eight children are the octants. */
  lemma ChildVolumeIsOctant(parent: Aabb, index: nat)
    requires WellFormed(parent) && index < NUM_CHILDREN
    ensures var child := ChildVolume(parent, index);
      && WellFormed(child)
      && InsideOrOn(parent, child.minPoint) && InsideOrOn(parent, child.maxPoint)
      && Corner(child, index) == Corner(parent, index)
  {
  }

  /** `_getCorrespondingChildIndexFromPoint`: one bit per axis, set when the
      point is at or past the box's centre on that axis. */
  function ChildIndexFromPoint(box: Aabb, point: Vec3): (r: nat)
    ensures r < NUM_CHILDREN
  {
    var c := CenterPoint(box);
    (if point.x >= c.x then 1 else 0) + 2 * (if point.y >= c.y then 1 else 0)
      + 4 * (if point.z >= c.z then 1 else 0)
  }

  /** A point of the closed box lies in the child the index picks. */
  lemma PointInChosenChild(box: Aabb, point: Vec3)
    requires InsideOrOn(box, point)
    ensures InsideOrOn(ChildVolume(box, ChildIndexFromPoint(box, point)), point)
  {
  }

  /** The box every node receives when the tree is grown by splits from a
      root box: the root keeps it, and each other node gets its index's
      octant of its parent's box. */
  function CanonicalVolume(deepest: nat, root: Aabb, id: nat): Aabb
    requires id < TotalNumNodes(deepest)
    decreases id
  {
    if id == 0 then root
    else ChildVolume(CanonicalVolume(deepest, root, Parent(deepest, id)), NodeIndexWithinParent(deepest, id))
  }

  /** `a` is `x` or one of its ancestors: following parents up from `x`
      reaches `a`. */
  ghost predicate AncestorOrSelf(deepest: nat, a: nat, x: nat)
    requires x < TotalNumNodes(deepest)
    decreases x
  {
    x == a || (x != 0 && AncestorOrSelf(deepest, a, Parent(deepest, x)))
  }

  /** `x` is removed by `deleteNodeSubtree(root)`: the root itself, and
      every node below it. */
  ghost predicate InSubtree(deepest: nat, root: nat, x: nat)
  {
    x == root || (x < TotalNumNodes(deepest) && AncestorOrSelf(deepest, root, x))
  }

  lemma {:induction false} AncestorBelow(deepest: nat, a: nat, x: nat)
    requires x < TotalNumNodes(deepest) && AncestorOrSelf(deepest, a, x)
    ensures a <= x
    ensures a != x ==> 0 <= NodeLevel(deepest, a) < NodeLevel(deepest, x)
    decreases x
  {
    if x != a {
      var p := Parent(deepest, x);
      ChildOfParent(deepest, x);
      AncestorBelow(deepest, a, p);
    }
  }

  /** A node at the deepest level, or an ID past it, has no other node in
      its subtree. */
  lemma SubtreeOfLeafLevel(deepest: nat, root: nat, x: nat)
    requires root >= TotalNumNodes(deepest) || NodeLevel(deepest, root) == deepest
    ensures InSubtree(deepest, root, x) <==> x == root
  {
    if x != root && x < TotalNumNodes(deepest) && AncestorOrSelf(deepest, root, x) {
      AncestorBelow(deepest, root, x);
      NodeLevelMeaning(deepest, root);
    }
  }

  lemma {:induction false} AncestorThroughChild(deepest: nat, root: nat, c: nat, x: nat)
    requires c < TotalNumNodes(deepest) && 0 < c && Parent(deepest, c) == root
    requires x < TotalNumNodes(deepest) && AncestorOrSelf(deepest, c, x)
    ensures AncestorOrSelf(deepest, root, x)
    decreases x
  {
    if x != c {
      AncestorThroughChild(deepest, root, c, Parent(deepest, x));
    }
  }

  lemma {:induction false} AncestorFindChild(deepest: nat, root: nat, x: nat)
    requires root < TotalNumNodes(deepest) && NodeLevel(deepest, root) < deepest
    requires x < TotalNumNodes(deepest) && AncestorOrSelf(deepest, root, x) && x != root
    ensures var s := ChildrenStart(deepest, root);
      exists c: nat :: s <= c < s + NUM_CHILDREN && InSubtree(deepest, c, x)
    decreases x
  {
    var s := ChildrenStart(deepest, root);
    var p := Parent(deepest, x);
    ChildOfParent(deepest, x);
    if p == root {
      assert InSubtree(deepest, x, x);
    } else {
      AncestorFindChild(deepest, root, p);
      var c: nat :| s <= c < s + NUM_CHILDREN && InSubtree(deepest, c, p);
      assert InSubtree(deepest, c, x);
    }
  }

  /** The subtree of a node above the deepest level is the node and the
      subtrees of its eight children. */
  lemma SubtreeSplit(deepest: nat, root: nat, x: nat)
    requires root < TotalNumNodes(deepest) && NodeLevel(deepest, root) < deepest
    ensures var s := ChildrenStart(deepest, root);
      InSubtree(deepest, root, x) <==>
        x == root || exists c: nat :: s <= c < s + NUM_CHILDREN && InSubtree(deepest, c, x)
  {
    var s := ChildrenStart(deepest, root);
    if x != root && x < TotalNumNodes(deepest) && AncestorOrSelf(deepest, root, x) {
      AncestorFindChild(deepest, root, x);
    }
    forall c: nat | s <= c < s + NUM_CHILDREN && InSubtree(deepest, c, x)
      ensures InSubtree(deepest, root, x)
    {
      ParentOfChild(deepest, root, c - s);
      AncestorThroughChild(deepest, root, c, x);
    }
  }

  /** The box the split of node `id` gives its child k is the canonical box
      of that child. */
  lemma CanonicalChild(deepest: nat, root: Aabb, id: nat, k: nat, c: int)
    requires id < TotalNumNodes(deepest) && NodeLevel(deepest, id) < deepest && k < NUM_CHILDREN
    requires c == ChildrenStart(deepest, id) + k
    ensures 0 < c < TotalNumNodes(deepest)
    ensures CanonicalVolume(deepest, root, c) == ChildVolume(CanonicalVolume(deepest, root, id), k)
  {
    ParentOfChild(deepest, id, k);
  }

  /** The conversion of an `int` to `unsigned int`: the one unsigned value
      congruent to x modulo 2^32. */
  function AsUnsigned(x: int): (r: nat)
    requires -(UINT_MAX + 1) <= x <= UINT_MAX
    ensures r <= UINT_MAX && (r - x) % (UINT_MAX + 1) == 0
  {
    if x < 0 then x + UINT_MAX + 1 else x
  }

  /** `unsigned int` addition, which wraps around past UINT_MAX. */
  function UnsignedAdd(a: nat, b: nat): (r: nat)
    requires a <= UINT_MAX && b <= UINT_MAX
    ensures a + b <= UINT_MAX ==> r == a + b
    ensures a + b > UINT_MAX ==> r == a + b - (UINT_MAX + 1)
  {
    (a + b) % (UINT_MAX + 1)
  }

  /** `Node`: the node's box and the edge IDs recorded for it. */
  datatype Node = Node(volume: Aabb, edgesAlwaysCast: set<nat>, edgesMayCast: set<nat>)

  /** A node as `_init` and `_createChild` make it: a box and no edges. */
  function EmptyNode(volume: Aabb): Node
  {
    Node(volume, {}, {})
  }

  /** Every node below the total has the box the splits from `root` give
      it. */
  ghost predicate VolumesCanonical(deepest: nat, root: Aabb, m: map<nat, Node>)
  {
    forall id {:trigger m[id]} :: id in m && id < TotalNumNodes(deepest) ==> m[id].volume == CanonicalVolume(deepest, root, id)
  }

  lemma VolumesCanonicalSub(deepest: nat, root: Aabb, m: map<nat, Node>, sub: map<nat, Node>)
    requires VolumesCanonical(deepest, root, m)
    requires forall id :: id in sub ==> id in m && sub[id] == m[id]
    ensures VolumesCanonical(deepest, root, sub)
  {
  }

  /** A split keeps every box canonical: the children get the octants of
      their parent's canonical box. */
  lemma SplitKeepsVolumesCanonical(deepest: nat, root: Aabb, id: nat, volume: Aabb, m: map<nat, Node>, r: map<nat, Node>)
    requires id < TotalNumNodes(deepest) && ChildrenStart(deepest, id) >= 0
    requires volume == CanonicalVolume(deepest, root, id) && VolumesCanonical(deepest, root, m)
    requires AddsChildren(m, r, ChildrenStart(deepest, id) as nat, NUM_CHILDREN, volume)
    ensures VolumesCanonical(deepest, root, r)
  {
    var s: nat := ChildrenStart(deepest, id);
    forall c | c in r && c < TotalNumNodes(deepest)
      ensures r[c].volume == CanonicalVolume(deepest, root, c)
    {
      SplitKeepsVolumeAt(deepest, root, id, volume, m, r, s, c);
    }
  }

  /** One node of the map after a split keeps its canonical box. */
  lemma SplitKeepsVolumeAt(deepest: nat, root: Aabb, id: nat, volume: Aabb, m: map<nat, Node>, r: map<nat, Node>, s: nat, c: nat)
    requires id < TotalNumNodes(deepest) && s == ChildrenStart(deepest, id)
    requires volume == CanonicalVolume(deepest, root, id) && VolumesCanonical(deepest, root, m)
    requires AddsChildren(m, r, s, NUM_CHILDREN, volume)
    requires c in r && c < TotalNumNodes(deepest)
    ensures r[c].volume == CanonicalVolume(deepest, root, c)
  {
    if s <= c < s + NUM_CHILDREN {
      ChildCanonical(deepest, root, id, volume, s, c);
    } else {
      assert m[c] == r[c];
    }
  }

  lemma ChildCanonical(deepest: nat, root: Aabb, id: nat, volume: Aabb, s: nat, c: nat)
    requires id < TotalNumNodes(deepest) && s == ChildrenStart(deepest, id)
    requires volume == CanonicalVolume(deepest, root, id)
    requires s <= c < s + NUM_CHILDREN && c < TotalNumNodes(deepest)
    ensures CanonicalVolume(deepest, root, c) == ChildVolume(volume, c - s)
  {
    NodeLevelMeaning(deepest, id);
    if NodeLevel(deepest, id) < deepest {
      CanonicalChild(deepest, root, id, c - s, c);
    } else {
      DeepestChildrenOutside(deepest, id);
    }
  }

  /** `after` is `before` with the first n children of a split added,
      starting at ID `first`, each with its octant of the parent's box. */
  ghost predicate AddsChildren(before: map<nat, Node>, after: map<nat, Node>, first: nat, n: nat, volume: Aabb)
  {
    && (forall c :: c in after <==> c in before || first <= c < first + n)
    && (forall c :: c in before ==> after[c] == before[c])
    && (forall c :: first <= c < first + n ==> after[c] == EmptyNode(ChildVolume(volume, c - first)))
  }

  /** The first n children of a split, starting at ID `first`, each with
      its octant of the parent's box. */
  function ChildNodes(volume: Aabb, first: nat, n: nat): map<nat, Node>
  {
    if n == 0 then map[] else ChildNodes(volume, first, n - 1)[first + n - 1 := EmptyNode(ChildVolume(volume, n - 1))]
  }

  lemma {:induction false} ChildNodesMeaning(volume: Aabb, first: nat, n: nat)
    ensures forall c :: c in ChildNodes(volume, first, n) <==> first <= c < first + n
    ensures forall c :: c in ChildNodes(volume, first, n) ==>
      ChildNodes(volume, first, n)[c] == EmptyNode(ChildVolume(volume, c - first))
  {
    if n > 0 {
      ChildNodesMeaning(volume, first, n - 1);
    }
  }

  /** Adding the children to a map that holds none of them is AddsChildren. */
  lemma ChildNodesAdd(m: map<nat, Node>, volume: Aabb, first: nat, n: nat)
    requires forall c :: first <= c < first + n ==> c !in m
    ensures AddsChildren(m, m + ChildNodes(volume, first, n), first, n, volume)
  {
    ChildNodesMeaning(volume, first, n);
  }

  /** The next child is not among the ones already added. */
  lemma ChildNodesFresh(m: map<nat, Node>, before: map<nat, Node>, volume: Aabb, first: nat, i: nat, n: nat)
    requires i < n && forall c :: first <= c < first + n ==> c !in m
    requires before == m + ChildNodes(volume, first, i)
    ensures first + i !in before
  {
    ChildNodesMeaning(volume, first, i);
  }

  /** Creating the next child extends the added children by one. */
  lemma ChildNodesNext(m: map<nat, Node>, before: map<nat, Node>, after: map<nat, Node>, volume: Aabb, first: nat, i: nat)
    requires before == m + ChildNodes(volume, first, i)
    requires after == before[first + i := EmptyNode(ChildVolume(volume, i))]
    ensures after == m + ChildNodes(volume, first, i + 1)
  {
  }

  /** The node map without the subtree of `root`. */
  ghost function WithoutSubtree(deepest: nat, m: map<nat, Node>, root: nat): map<nat, Node>
  {
    map x | x in m && !InSubtree(deepest, root, x) :: m[x]
  }

  /** The node map without `root` and without the subtrees of the IDs in
      [lo, hi). */
  ghost function WithoutSubtrees(deepest: nat, m: map<nat, Node>, root: nat, lo: nat, hi: nat): map<nat, Node>
  {
    map x | x in m && x != root && (forall c :: lo <= c < hi ==> !InSubtree(deepest, c, x)) :: m[x]
  }

  /** Every node whose parent's first child exists exists itself: the
      eight children of a node are present together or not at all, as
      `splitNode` creates them. */
  ghost predicate SiblingGroupsComplete(deepest: nat, m: map<nat, Node>)
  {
    forall c :: 0 < c < TotalNumNodes(deepest) && ChildrenStart(deepest, Parent(deepest, c)) in m ==> c in m
  }

  /** A tree holding only its root has complete sibling groups. */
  lemma RootOnlyComplete(deepest: nat, volume: Aabb)
    ensures SiblingGroupsComplete(deepest, map[0 := EmptyNode(volume)])
  {
    forall c | 0 < c < TotalNumNodes(deepest)
      ensures ChildrenStart(deepest, Parent(deepest, c)) != 0
    {
      ChildrenStartMeaning(deepest, Parent(deepest, c));
    }
  }

  /** The first child of a node's parent starts the node's sibling group. */
  lemma SameFirstChild(deepest: nat, id: nat, k: nat, c: nat)
    requires id < TotalNumNodes(deepest) && k < NUM_CHILDREN && 0 < c < TotalNumNodes(deepest)
    requires ChildrenStart(deepest, Parent(deepest, c)) == ChildrenStart(deepest, id) + k
    ensures k == 0 && Parent(deepest, c) == id
    ensures ChildrenStart(deepest, id) <= c < ChildrenStart(deepest, id) + NUM_CHILDREN
  {
    ChildOfParent(deepest, c);
    var p: nat := Parent(deepest, c);
    NodeLevelMeaning(deepest, c);
    ParentOfChild(deepest, p, 0);
    NodeLevelMeaning(deepest, id);
    if NodeLevel(deepest, id) == deepest {
      DeepestChildrenOutside(deepest, id);
    } else {
      ParentOfChild(deepest, id, k);
    }
  }

  /** Adding the eight children of a node keeps sibling groups complete. */
  lemma SplitKeepsSiblingGroups(deepest: nat, id: nat, volume: Aabb, m: map<nat, Node>, r: map<nat, Node>)
    requires id < TotalNumNodes(deepest) && ChildrenStart(deepest, id) >= 0
    requires SiblingGroupsComplete(deepest, m)
    requires AddsChildren(m, r, ChildrenStart(deepest, id) as nat, NUM_CHILDREN, volume)
    ensures SiblingGroupsComplete(deepest, r)
  {
    var s: nat := ChildrenStart(deepest, id);
    forall c | 0 < c < TotalNumNodes(deepest) && ChildrenStart(deepest, Parent(deepest, c)) in r
      ensures c in r
    {
      var first := ChildrenStart(deepest, Parent(deepest, c));
      if first !in m {
        assert s <= first < s + NUM_CHILDREN;
        SameFirstChild(deepest, id, first - s, c);
      }
    }
  }

  /** One step of the point descent: the child picked by the point exists,
      lies one level down, and its box holds the point. */
  lemma DescentStep(deepest: nat, root: Aabb, m: map<nat, Node>, id: nat, point: Vec3)
    requires VolumesCanonical(deepest, root, m) && SiblingGroupsComplete(deepest, m)
    requires id < TotalNumNodes(deepest) && id in m && InsideOrOn(m[id].volume, point)
    requires ChildrenStart(deepest, id) >= 0 && ChildrenStart(deepest, id) < TotalNumNodes(deepest)
    requires ChildrenStart(deepest, id) in m
    ensures var c := ChildrenStart(deepest, id) + ChildIndexFromPoint(m[id].volume, point);
      && 0 < c < TotalNumNodes(deepest) && c in m
      && NodeLevel(deepest, c) == NodeLevel(deepest, id) + 1
      && InsideOrOn(m[c].volume, point)
  {
    var k := ChildIndexFromPoint(m[id].volume, point);
    var c := ChildrenStart(deepest, id) + k;
    NodeLevelMeaning(deepest, id);
    if NodeLevel(deepest, id) == deepest {
      DeepestChildrenOutside(deepest, id);
    }
    ParentOfChild(deepest, id, k);
    ParentOfChild(deepest, id, 0);
    assert c in m;
    CanonicalChild(deepest, root, id, k, c);
    PointInChosenChild(m[id].volume, point);
  }

  class Octree {
    var deepestLevel: nat
    var levelSizesInclusiveSum: seq<nat>
    var nodes: map<nat, Node>
    /** The box given at construction, from which every node's box derives. */
    ghost var rootVolume: Aabb

    /** The level table matches the deepest level and fits `unsigned int`,
        and every node below the total has the box the splits give it. */
    ghost predicate Valid()
      reads this
    {
      && levelSizesInclusiveSum == LevelTable(deepestLevel)
      && TotalNumNodes(deepestLevel) <= UINT_MAX
      && VolumesCanonical(deepestLevel, rootVolume, nodes)
    }

    /** A tree of levels 0..deepestLevel holding only the root box. */
    constructor(deepestLevel: nat, volume: Aabb)
      requires TotalNumNodes(deepestLevel) <= UINT_MAX
      ensures Valid()
      ensures this.deepestLevel == deepestLevel && rootVolume == volume
      ensures nodes == map[0 := EmptyNode(volume)]
      ensures SiblingGroupsComplete(deepestLevel, nodes)
    {
      this.deepestLevel := deepestLevel;
      rootVolume := volume;
      nodes := map[];
      new;
      GenerateLevelSizes();
      Init(volume);
      RootOnlyComplete(deepestLevel, volume);
    }

    /** `_generateLevelSizes`: entry i is 8^i plus the sum of the entries'
        level sizes before it. */
    method GenerateLevelSizes()
      modifies this`levelSizesInclusiveSum
      ensures levelSizesInclusiveSum == LevelTable(deepestLevel)
    {
      levelSizesInclusiveSum := [];
      var prefixSum: nat := 0;
      for i := 0 to deepestLevel + 1
        invariant prefixSum == Prefix(i)
        invariant levelSizesInclusiveSum == LevelTable(deepestLevel)[..i]
      {
        var levelSize := IPow(NUM_CHILDREN, i);
        LevelSizeIsPow(i);
        levelSizesInclusiveSum := levelSizesInclusiveSum + [levelSize + prefixSum];
        prefixSum := prefixSum + levelSize;
      }
    }

    /** `_init`: the root node with the given box. */
    method Init(volume: Aabb)
      modifies this`nodes
      ensures nodes == old(nodes)[0 := EmptyNode(volume)]
    {
      nodes := nodes[0 := EmptyNode(volume)];
    }

    /** `getTotalNumNodes`: the last entry of the level table. */
    function GetTotalNumNodes(): (r: nat)
      reads this
      requires Valid()
      ensures r == TotalNumNodes(deepestLevel)
    {
      levelSizesInclusiveSum[deepestLevel]
    }

    /** `getNodeRecursionLevel`: the index of the first table entry above
        the ID, -1 when there is none. */
    method GetNodeRecursionLevel(nodeID: nat) returns (level: int)
      requires Valid()
      ensures level == NodeLevel(deepestLevel, nodeID)
    {
      level := 0;
      while level < |levelSizesInclusiveSum|
        invariant 0 <= level <= |levelSizesInclusiveSum|
        invariant LevelFrom(deepestLevel, nodeID, level) == NodeLevel(deepestLevel, nodeID)
      {
        if nodeID < levelSizesInclusiveSum[level] {
          return;
        }
        level := level + 1;
      }
      level := -1;
    }

    /** `nodeExists`: the ID is below the total and present in the map. */
    predicate NodeExists(nodeID: nat)
      reads this
    {
      nodeID < TotalNumNodes(deepestLevel) && nodeID in nodes
    }

    /** `childrenExist`: the node's first child exists. */
    predicate ChildrenExist(nodeID: nat)
      reads this
    {
      var startID := ChildrenStart(deepestLevel, nodeID);
      if startID < 0 then false else NodeExists(startID)
    }

    /** `getNodeVolume`; the source asserts that the node exists. */
    function GetNodeVolume(nodeID: nat): Aabb
      reads this
      requires NodeExists(nodeID)
    {
      nodes[nodeID].volume
    }

    /** `_isPointInsideOctree`; the source asserts that the root exists. */
    predicate IsPointInsideOctree(point: Vec3)
      reads this
      requires 0 in nodes
    {
      InsideOrOn(nodes[0].volume, point)
    }

    /** `getLowestLevelCellIndexFromPointInSpace`: -1 for a point outside
        the root box; otherwise descends from the root into the child the
        point picks while that node's first child exists, and returns an
        existing node without children whose box holds the point. Every
        visited node must exist (`getNodeVolume` asserts it), which complete
        sibling groups guarantee. */
    method GetLowestLevelCellIndexFromPointInSpace(point: Vec3) returns (r: int)
      requires Valid() && 0 in nodes && SiblingGroupsComplete(deepestLevel, nodes)
      ensures r == -1 <==> !InsideOrOn(nodes[0].volume, point)
      ensures r != -1 ==> (0 <= r < TotalNumNodes(deepestLevel) && r in nodes
                             && !ChildrenExist(r) && InsideOrOn(nodes[r].volume, point))
    {
      if !IsPointInsideOctree(point) {
        return -1;
      }
      var currentLevel: nat := 0;
      var currentNode: nat := 0;
      NodeLevelMeaning(deepestLevel, 0);
      while currentLevel <= deepestLevel
        invariant currentLevel <= deepestLevel
        invariant currentNode < TotalNumNodes(deepestLevel) && currentNode in nodes
        invariant NodeLevel(deepestLevel, currentNode) == currentLevel
        invariant InsideOrOn(nodes[currentNode].volume, point)
        decreases deepestLevel - currentLevel
      {
        var startingChild := ChildrenStart(deepestLevel, currentNode);
        ChildrenStartMeaning(deepestLevel, currentNode);
        if !NodeExists(startingChild as nat) {
          break;
        }
        var childIndex := ChildIndexFromPoint(GetNodeVolume(currentNode), point);
        DescentStep(deepestLevel, rootVolume, nodes, currentNode, point);
        currentNode := startingChild as nat + childIndex;
        currentLevel := currentLevel + 1;
        NodeLevelMeaning(deepestLevel, currentNode);
      }
      if currentLevel > deepestLevel {
        assert false;
      }
      r := currentNode;
    }

    /** `_createChild`: adds the node with its octant of the parent's box;
        the source asserts that the ID is new. */
    method CreateChild(parentSpace: Aabb, newNodeId: nat, indexWithinParent: nat)
      requires newNodeId !in nodes
      modifies this`nodes
      ensures nodes == old(nodes)[newNodeId := EmptyNode(ChildVolume(parentSpace, indexWithinParent))]
    {
      nodes := nodes[newNodeId := EmptyNode(ChildVolume(parentSpace, indexWithinParent))];
    }

    /** `splitNode`: adds the eight previously absent children of an
        existing node, child i with octant i of the node's box, and changes
        nothing else; `_createChild` asserts that each child is new. */
    method SplitNode(nodeID: nat)
      requires Valid() && NodeExists(nodeID)
      requires forall c :: ChildrenStart(deepestLevel, nodeID) <= c < ChildrenStart(deepestLevel, nodeID) + NUM_CHILDREN
                 ==> c !in nodes
      modifies this`nodes
      ensures Valid()
      ensures ChildrenStart(deepestLevel, nodeID) >= 0
      ensures AddsChildren(old(nodes), nodes, ChildrenStart(deepestLevel, nodeID) as nat, NUM_CHILDREN, old(nodes)[nodeID].volume)
      ensures SiblingGroupsComplete(deepestLevel, old(nodes)) ==> SiblingGroupsComplete(deepestLevel, nodes)
    {
      var nodeVolume := GetNodeVolume(nodeID);
      ChildrenStartMeaning(deepestLevel, nodeID);
      var startingIndex := ChildrenStart(deepestLevel, nodeID) as nat;
      CreateChildren(nodeVolume, startingIndex);
      ChildNodesAdd(old(nodes), nodeVolume, startingIndex, NUM_CHILDREN);
      SplitKeepsVolumesCanonical(deepestLevel, rootVolume, nodeID, nodeVolume, old(nodes), nodes);
      if SiblingGroupsComplete(deepestLevel, old(nodes)) {
        SplitKeepsSiblingGroups(deepestLevel, nodeID, nodeVolume, old(nodes), nodes);
      }
    }

    /** The loop of `splitNode`: creates children `first` .. `first + 7`
        with the octants of `volume`. */
    method CreateChildren(volume: Aabb, first: nat)
      requires forall c :: first <= c < first + NUM_CHILDREN ==> c !in nodes
      modifies this`nodes
      ensures nodes == old(nodes) + ChildNodes(volume, first, NUM_CHILDREN)
    {
      ghost var m0 := nodes;
      for i := 0 to NUM_CHILDREN
        invariant nodes == m0 + ChildNodes(volume, first, i)
      {
        ghost var before := nodes;
        ChildNodesFresh(m0, before, volume, first, i, NUM_CHILDREN);
        CreateChild(volume, first + i, i);
        ChildNodesNext(m0, before, nodes, volume, first, i);
      }
    }

    /** `deleteNode`: erases the node alone. */
    method DeleteNode(nodeID: nat)
      requires Valid()
      modifies this`nodes
      ensures Valid()
      ensures nodes == old(nodes) - {nodeID}
    {
      nodes := nodes - {nodeID};
    }

    /** `deleteNodeSubtree`: erases the node and, unless it lies on the
        deepest level, the subtrees of its eight children. The level is
        compared with the unsigned deepest level, so an ID past the total
        (level -1) goes on to the children loop too. */
    method DeleteNodeSubtree(nodeID: nat)
      requires Valid()
      modifies this`nodes
      ensures Valid()
      ensures nodes == WithoutSubtree(deepestLevel, old(nodes), nodeID)
      decreases SubtreeHeight(deepestLevel, nodeID), 2
    {
      nodes := nodes - {nodeID};
      var level := GetNodeRecursionLevel(nodeID);
      if level != deepestLevel {
        ChildrenStartMeaning(deepestLevel, nodeID);
        if nodeID < TotalNumNodes(deepestLevel) {
          NodeLevelMeaning(deepestLevel, nodeID);
          ghost var l := ChildLevel(deepestLevel, nodeID, NUM_CHILDREN - 1);
        }
        var startingChild := AsUnsigned(ChildrenStart(deepestLevel, nodeID));
        DeleteChildSubtrees(nodeID, startingChild, old(nodes));
      } else {
        SubtreeOfLeafLevelMap(deepestLevel, old(nodes), nodeID);
      }
    }

    /** The children loop of `deleteNodeSubtree`: IDs startingChild up to
        startingChild + 8 as unsigned. For an ID past the total the starting
        child is -1 as unsigned and the bound wraps around to 7, so the loop
        does nothing and only the ID itself was erased. */
    method DeleteChildSubtrees(nodeID: nat, startingChild: nat, ghost m0: map<nat, Node>)
      requires Valid() && nodes == m0 - {nodeID}
      requires NodeLevel(deepestLevel, nodeID) != deepestLevel
      requires -1 <= ChildrenStart(deepestLevel, nodeID) <= UINT_MAX
      requires startingChild == AsUnsigned(ChildrenStart(deepestLevel, nodeID))
      modifies this`nodes
      ensures Valid()
      ensures nodes == WithoutSubtree(deepestLevel, m0, nodeID)
      decreases SubtreeHeight(deepestLevel, nodeID), 1
    {
      NodeLevelMeaning(deepestLevel, nodeID);
      ChildrenStartMeaning(deepestLevel, nodeID);
      if nodeID < TotalNumNodes(deepestLevel) {
        ghost var l := ChildLevel(deepestLevel, nodeID, NUM_CHILDREN - 1);
      }
      var bound := UnsignedAdd(startingChild, NUM_CHILDREN);
      var i := startingChild;
      while i < bound
        invariant Valid()
        invariant startingChild <= i <= startingChild + NUM_CHILDREN
        invariant nodeID < TotalNumNodes(deepestLevel) ==> bound == startingChild + NUM_CHILDREN
        invariant nodeID >= TotalNumNodes(deepestLevel) ==> i == startingChild && bound < startingChild
        invariant nodes == WithoutSubtrees(deepestLevel, m0, nodeID, startingChild, i)
      {
        DeleteChildSubtree(nodeID, startingChild, i, m0);
        i := i + 1;
      }
      if nodeID < TotalNumNodes(deepestLevel) {
        SubtreeSplitMap(deepestLevel, m0, nodeID);
      } else {
        SubtreeOfLeafLevelMap(deepestLevel, m0, nodeID);
      }
    }

    /** One pass of the children loop of `deleteNodeSubtree`: the subtree
        of child `i` goes as well. */
    method DeleteChildSubtree(nodeID: nat, startingChild: nat, i: nat, ghost m0: map<nat, Node>)
      requires Valid() && nodeID < TotalNumNodes(deepestLevel) && NodeLevel(deepestLevel, nodeID) < deepestLevel
      requires startingChild == ChildrenStart(deepestLevel, nodeID) && startingChild <= i < startingChild + NUM_CHILDREN
      requires nodes == WithoutSubtrees(deepestLevel, m0, nodeID, startingChild, i)
      modifies this`nodes
      ensures Valid()
      ensures nodes == WithoutSubtrees(deepestLevel, m0, nodeID, startingChild, i + 1)
      decreases SubtreeHeight(deepestLevel, nodeID), 0
    {
      ChildHeightBelow(deepestLevel, nodeID, i - startingChild, i);
      ghost var before := nodes;
      DeleteNodeSubtree(i);
      DropOneMore(deepestLevel, m0, nodeID, startingChild, i, before, nodes);
    }
  }

  /** The number of levels below a node, the measure of the subtree
      deletion. */
  function SubtreeHeight(deepest: nat, id: nat): nat
  {
    if id < TotalNumNodes(deepest) && NodeLevel(deepest, id) >= 0 then deepest - NodeLevel(deepest, id) else 0
  }

  /** Child k of a node that is not on the deepest level has a smaller
      subtree height. */
  lemma ChildHeightBelow(deepest: nat, id: nat, k: nat, c: nat)
    requires id < TotalNumNodes(deepest) && NodeLevel(deepest, id) < deepest && k < NUM_CHILDREN
    requires c == ChildrenStart(deepest, id) + k
    ensures SubtreeHeight(deepest, c) < SubtreeHeight(deepest, id)
  {
    ParentOfChild(deepest, id, k);
    NodeLevelMeaning(deepest, id);
  }

  lemma DropOneMore(deepest: nat, m: map<nat, Node>, root: nat, lo: nat, i: nat, before: map<nat, Node>, after: map<nat, Node>)
    requires lo <= i
    requires before == WithoutSubtrees(deepest, m, root, lo, i)
    requires after == WithoutSubtree(deepest, before, i)
    ensures after == WithoutSubtrees(deepest, m, root, lo, i + 1)
  {
    var next := WithoutSubtrees(deepest, m, root, lo, i + 1);
    forall x
      ensures x in after <==> x in next
    {
      var inRange := forall c :: lo <= c < i ==> !InSubtree(deepest, c, x);
      var inNext := forall c :: lo <= c < i + 1 ==> !InSubtree(deepest, c, x);
      assert inNext <==> inRange && !InSubtree(deepest, i, x);
      assert x in before <==> x in m && x != root && inRange;
      assert x in after <==> x in before && !InSubtree(deepest, i, x);
      assert x in next <==> x in m && x != root && inNext;
    }
  }

  lemma SubtreeSplitMap(deepest: nat, m: map<nat, Node>, root: nat)
    requires root < TotalNumNodes(deepest) && NodeLevel(deepest, root) < deepest
    ensures var s := ChildrenStart(deepest, root);
      s >= 0 && WithoutSubtrees(deepest, m, root, s, s + NUM_CHILDREN) == WithoutSubtree(deepest, m, root)
  {
    ChildrenStartMeaning(deepest, root);
    forall x
      ensures InSubtree(deepest, root, x) <==>
        x == root || exists c: nat :: ChildrenStart(deepest, root) <= c < ChildrenStart(deepest, root) + NUM_CHILDREN
                                 && InSubtree(deepest, c, x)
    {
      SubtreeSplit(deepest, root, x);
    }
  }

  lemma SubtreeOfLeafLevelMap(deepest: nat, m: map<nat, Node>, root: nat)
    requires root >= TotalNumNodes(deepest) || NodeLevel(deepest, root) == deepest
    ensures m - {root} == WithoutSubtree(deepest, m, root)
  {
    forall x
      ensures InSubtree(deepest, root, x) <==> x == root
    {
      SubtreeOfLeafLevel(deepest, root, x);
    }
  }
}
