// The spatial partition tree (BSP) of a level.
//
// A node holds a list of quadblock indexes.  Generate gives it the bounding
// box of its quads; a branch then tries the three axes, splitting its list
// at the box's midpoint on each, keeps the best-scoring split and hands the
// two halves to new children (a leaf when a half is small), which are
// generated in turn.  Every node takes its id from a global counter when it
// is constructed, so ids follow creation order.
//
// The nodes are objects linked by their `left` and `right` fields, as in the
// source; each node keeps, as a ghost field, its subtree as a `Tree` value,
// and the value function `Grown` says what Generate makes of it.

module BspTree {
  import opened Wrappers
  import opened Geo

  datatype NodeType = Branch | Leaf

  /** The BSPFlags the constructors set: LEAF on a leaf, NONE on a branch. */
  datatype BspFlags = FlagsNone | FlagsLeaf

  /** A subtree as a value. */
  datatype Tree = Tree(id: nat, kind: NodeType, axis: Axis, flags: BspFlags, bbox: BoundingBox,
                       indexes: seq<nat>, left: Option<Tree>, right: Option<Tree>)

  /** Every index names a quadblock. */
  predicate IndexesIn(idx: seq<nat>, n: nat) {
    forall k :: 0 <= k < |idx| ==> idx[k] < n
  }

  // ---------------------------------------------------------------------
  // ComputeBoundingBox
  // ---------------------------------------------------------------------

  /** The box ComputeBoundingBox starts from: min at FLT_MAX, max at FLT_MIN. */
  const StartBox := BoundingBox(Vec3(FltMax, FltMax, FltMax), Vec3(FltMin, FltMin, FltMin))

  /** The box widened, axis by axis, to take in `q`. */
  function Widen(b: BoundingBox, q: BoundingBox): BoundingBox {
    BoundingBox(Vec3(Min(b.min.x, q.min.x), Min(b.min.y, q.min.y), Min(b.min.z, q.min.z)),
                Vec3(Max(b.max.x, q.max.x), Max(b.max.y, q.max.y), Max(b.max.z, q.max.z)))
  }

  /** The box of the quads `idx` names, widened in list order from StartBox. */
  function BoxOf(quads: seq<Quadblock>, idx: seq<nat>): BoundingBox
    requires IndexesIn(idx, |quads|)
    decreases |idx|
  {
    if idx == [] then StartBox
    else Widen(BoxOf(quads, idx[..|idx| - 1]), quads[idx[|idx| - 1]].bbox)
  }

  /**
   * The box holds every quad's box, and never starts above FLT_MAX or
   * ends below FLT_MIN.
   */
  lemma {:induction false} BoxBounds(quads: seq<Quadblock>, idx: seq<nat>)
    requires IndexesIn(idx, |quads|)
    ensures var b := BoxOf(quads, idx);
      b.min.x <= FltMax && b.min.y <= FltMax && b.min.z <= FltMax &&
      b.max.x >= FltMin && b.max.y >= FltMin && b.max.z >= FltMin
    ensures forall k :: 0 <= k < |idx| ==>
      var b, q := BoxOf(quads, idx), quads[idx[k]].bbox;
      b.min.x <= q.min.x && b.min.y <= q.min.y && b.min.z <= q.min.z &&
      b.max.x >= q.max.x && b.max.y >= q.max.y && b.max.z >= q.max.z
    decreases |idx|
  {
    if idx != [] {
      var p := idx[..|idx| - 1];
      BoxBounds(quads, p);
      forall k | 0 <= k < |idx| - 1 ensures idx[k] == p[k] { }
    }
  }

  /** Each bound of the box is its start value or one quad's own bound. */
  lemma {:induction false} BoxAttained(quads: seq<Quadblock>, idx: seq<nat>)
    requires IndexesIn(idx, |quads|)
    ensures var b := BoxOf(quads, idx);
      (b.min.x == FltMax || exists k :: 0 <= k < |idx| && b.min.x == quads[idx[k]].bbox.min.x) &&
      (b.max.x == FltMin || exists k :: 0 <= k < |idx| && b.max.x == quads[idx[k]].bbox.max.x)
    ensures var b := BoxOf(quads, idx);
      (b.min.y == FltMax || exists k :: 0 <= k < |idx| && b.min.y == quads[idx[k]].bbox.min.y) &&
      (b.max.y == FltMin || exists k :: 0 <= k < |idx| && b.max.y == quads[idx[k]].bbox.max.y)
    ensures var b := BoxOf(quads, idx);
      (b.min.z == FltMax || exists k :: 0 <= k < |idx| && b.min.z == quads[idx[k]].bbox.min.z) &&
      (b.max.z == FltMin || exists k :: 0 <= k < |idx| && b.max.z == quads[idx[k]].bbox.max.z)
    decreases |idx|
  {
    if idx != [] {
      var p := idx[..|idx| - 1];
      var last := |idx| - 1;
      BoxAttained(quads, p);
      forall k | 0 <= k < last ensures idx[k] == p[k] { }
    }
  }

  // ---------------------------------------------------------------------
  // GetAxisMidpoint, Split and the choice of axis
  // ---------------------------------------------------------------------

  /** GetAxisMidpoint: the middle of the box along `a`; 0 for no axis. */
  function AxisMidpoint(b: BoundingBox, a: Axis): real {
    match a
    case AxisX => (b.max.x + b.min.x) / 2.0
    case AxisY => (b.max.y + b.min.y) / 2.0
    case AxisZ => (b.max.z + b.min.z) / 2.0
    case NoAxis => 0.0
  }

  /** Split's test: a quad goes right when its centre along `a` lies beyond `mid`. */
  predicate GoesRight(q: Quadblock, a: Axis, mid: real) {
    a != NoAxis && Coord(q.center, a) > mid
  }

  /**
   * One side of Split: the indexes whose quad goes to that side, in list
   * order.  With no axis Split sends nothing anywhere.
   */
  function Side(quads: seq<Quadblock>, idx: seq<nat>, a: Axis, mid: real, right: bool): (s: seq<nat>)
    requires IndexesIn(idx, |quads|)
    ensures |s| <= |idx| && IndexesIn(s, |quads|)
    decreases |idx|
  {
    if idx == [] then []
    else
      var rest := Side(quads, idx[..|idx| - 1], a, mid, right);
      var e := idx[|idx| - 1];
      if a != NoAxis && GoesRight(quads[e], a, mid) == right then rest + [e] else rest
  }

  /**
   * Split partitions the list: along an axis every index lands on exactly
   * one side, the right side holding exactly those whose centre lies
   * beyond the midpoint.
   */
  lemma {:induction false} SidePartition(quads: seq<Quadblock>, idx: seq<nat>, a: Axis, mid: real)
    requires IndexesIn(idx, |quads|) && a != NoAxis
    ensures multiset(Side(quads, idx, a, mid, false)) + multiset(Side(quads, idx, a, mid, true)) == multiset(idx)
    ensures forall e :: e in Side(quads, idx, a, mid, true) <==> e in idx && GoesRight(quads[e], a, mid)
    ensures forall e :: e in Side(quads, idx, a, mid, false) <==> e in idx && !GoesRight(quads[e], a, mid)
    decreases |idx|
  {
    if idx != [] {
      var p := idx[..|idx| - 1];
      SidePartition(quads, p, a, mid);
      assert idx == p + [idx[|idx| - 1]];
    }
  }

  /**
   * Split's score: the other side's size when one side is empty, else
   * |0.5 - left/right|.
   */
  function Score(l: nat, r: nat): (s: real)
    ensures s >= 0.0
  {
    if l == 0 then r as real
    else if r == 0 then l as real
    else if 0.5 - (l as real) / (r as real) < 0.0 then (l as real) / (r as real) - 0.5
    else 0.5 - (l as real) / (r as real)
  }

  /**
   * With both sides filled the score is 0 exactly when the right side
   * holds twice as many quads as the left, and below 1/2 exactly when the
   * left side is the smaller.
   */
  lemma ScoreMeaning(l: nat, r: nat)
    requires l > 0 && r > 0
    ensures Score(l, r) == 0.0 <==> r == 2 * l
    ensures Score(l, r) < 0.5 <==> l < r
  {
    var q := (l as real) / (r as real);
    assert Score(l, r) == if 0.5 - q < 0.0 then q - 0.5 else 0.5 - q;
    Ratio(l, r);
  }

  /** The ratio of two positive counts is positive, below 1 when the first is smaller, 1/2 when the second is twice the first. */
  lemma Ratio(l: nat, r: nat)
    requires l > 0 && r > 0
    ensures var q := (l as real) / (r as real);
      q > 0.0 && (q < 1.0 <==> l < r) && (q == 0.5 <==> r == 2 * l)
  {
    var q, lr, rr := (l as real) / (r as real), l as real, r as real;
    assert q * rr == lr;
    Scaled(0.0, q, rr);
    Scaled(q, 1.0, rr);
    assert q < 1.0 <==> lr < rr;
    Scaled(q, 0.5, rr);
    assert q == 0.5 <==> lr == 0.5 * rr;
  }

  /** Multiplying by a positive number keeps order and equality. */
  lemma Scaled(a: real, b: real, c: real)
    requires c > 0.0
    ensures a < b <==> a * c < b * c
    ensures a == b <==> a * c == b * c
  {
    assert (b - a) * c == b * c - a * c;
    if a < b {
      PositiveProduct(b - a, c);
    } else if b < a {
      PositiveProduct(a - b, c);
    }
  }

  /** The product of two positive numbers is positive. */
  lemma PositiveProduct(x: real, y: real)
    requires x > 0.0 && y > 0.0
    ensures x * y > 0.0
  {
  }

  /**
   * The axis Generate picks from the three scores: the smallest, X on a
   * tie with anything, then Z, then Y.
   */
  function BestAxis(sx: real, sy: real, sz: real): (a: Axis)
    ensures a == AxisX <==> sx <= sy && sx <= sz
    ensures a == AxisZ <==> !(sx <= sy && sx <= sz) && sz <= sy
    ensures a == AxisY <==> sy < sx && sy < sz
  {
    var best := Min(Min(sx, sy), sz);
    if best == sx then AxisX
    else if best == sz then AxisZ
    else AxisY
  }

  /** The three splits of a node's list: the score along X, Y and Z. */
  function AxisScore(quads: seq<Quadblock>, idx: seq<nat>, b: BoundingBox, a: Axis): real
    requires IndexesIn(idx, |quads|)
  {
    var mid := AxisMidpoint(b, a);
    Score(|Side(quads, idx, a, mid, false)|, |Side(quads, idx, a, mid, true)|)
  }

  /** The axis Generate splits a node with box `b` along. */
  function SplitAxis(quads: seq<Quadblock>, idx: seq<nat>, b: BoundingBox): (a: Axis)
    requires IndexesIn(idx, |quads|)
    ensures a != NoAxis
    ensures AxisScore(quads, idx, b, a) <= AxisScore(quads, idx, b, AxisX)
    ensures AxisScore(quads, idx, b, a) <= AxisScore(quads, idx, b, AxisY)
    ensures AxisScore(quads, idx, b, a) <= AxisScore(quads, idx, b, AxisZ)
  {
    BestAxis(AxisScore(quads, idx, b, AxisX), AxisScore(quads, idx, b, AxisY), AxisScore(quads, idx, b, AxisZ))
  }

  // ---------------------------------------------------------------------
  // What Generate builds, as values
  // ---------------------------------------------------------------------

  /** A node as BSP(type, indexes) makes it, numbered `id`. */
  function NewNode(id: nat, kind: NodeType, idx: seq<nat>): Tree {
    Tree(id, kind, NoAxis, if kind == Leaf then FlagsLeaf else FlagsNone, BoundingBox(Origin, Origin), idx, None, None)
  }

  /** GenerateOffspring's choice for one half: a leaf when it is smaller than the maximum. */
  function ChildKind(idx: seq<nat>, maxQuadsPerLeaf: nat): NodeType {
    if |idx| < maxQuadsPerLeaf then Leaf else Branch
  }

  /**
   * Generate on the subtree `t`, with the counter at `next`: the tree
   * afterwards and the counter afterwards.  A branch is split at most
   * `fuel` levels deep.
   */
  function Grown(t: Tree, quads: seq<Quadblock>, maxQuadsPerLeaf: nat, next: nat, fuel: nat): (r: (Tree, nat))
    requires IndexesIn(t.indexes, |quads|)
    ensures r.1 >= next
    ensures r.0.id == t.id && r.0.kind == t.kind && r.0.flags == t.flags && r.0.indexes == t.indexes
    decreases fuel, 0
  {
    var t1 := t.(bbox := BoxOf(quads, t.indexes));
    if t1.kind != Branch || fuel == 0 then (t1, next)
    else
      var a := SplitAxis(quads, t.indexes, t1.bbox);
      var mid := AxisMidpoint(t1.bbox, a);
      Offspring(t1.(axis := a), Side(quads, t.indexes, a, mid, false), Side(quads, t.indexes, a, mid, true),
                quads, maxQuadsPerLeaf, next, fuel - 1)
  }

  /**
   * GenerateOffspring on `t` with the halves `l` and `r`: each non-empty
   * half becomes a new child, numbered when made and generated at once,
   * the left one first; an empty half leaves that child as it was.
   */
  function Offspring(t: Tree, l: seq<nat>, r: seq<nat>, quads: seq<Quadblock>, maxQuadsPerLeaf: nat,
                     next: nat, fuel: nat): (res: (Tree, nat))
    requires IndexesIn(l, |quads|) && IndexesIn(r, |quads|)
    ensures res.1 >= next
    ensures res.0.id == t.id && res.0.kind == t.kind && res.0.flags == t.flags && res.0.indexes == t.indexes
    decreases fuel, 2
  {
    var lc := Child(t.left, l, quads, maxQuadsPerLeaf, next, fuel);
    var rc := Child(t.right, r, quads, maxQuadsPerLeaf, lc.1, fuel);
    (t.(left := lc.0, right := rc.0), rc.1)
  }

  /** One side of GenerateOffspring: the child for the half `idx`, and the counter afterwards. */
  function Child(prev: Option<Tree>, idx: seq<nat>, quads: seq<Quadblock>, maxQuadsPerLeaf: nat,
                 next: nat, fuel: nat): (res: (Option<Tree>, nat))
    requires IndexesIn(idx, |quads|)
    ensures res.1 >= next
    ensures idx == [] ==> res == (prev, next)
    ensures idx != [] ==>
      res.0.Some? && res.0.value.id == next && res.0.value.indexes == idx && res.0.value.kind == ChildKind(idx, maxQuadsPerLeaf)
    decreases fuel, 1
  {
    if idx == [] then (prev, next)
    else
      var g := Grown(NewNode(next, ChildKind(idx, maxQuadsPerLeaf), idx), quads, maxQuadsPerLeaf, next + 1, fuel);
      (Some(g.0), g.1)
  }

  /** Generate on a branch with fuel left: the box, the best axis, and GenerateOffspring on its halves. */
  lemma GrownBranch(t: Tree, quads: seq<Quadblock>, maxQuadsPerLeaf: nat, next: nat, fuel: nat,
                    b: BoundingBox, a: Axis, l: seq<nat>, r: seq<nat>)
    requires IndexesIn(t.indexes, |quads|) && t.kind == Branch && fuel > 0
    requires b == BoxOf(quads, t.indexes) && a == SplitAxis(quads, t.indexes, b)
    requires l == Side(quads, t.indexes, a, AxisMidpoint(b, a), false)
    requires r == Side(quads, t.indexes, a, AxisMidpoint(b, a), true)
    ensures IndexesIn(l, |quads|) && IndexesIn(r, |quads|)
    ensures Grown(t, quads, maxQuadsPerLeaf, next, fuel) == Offspring(t.(bbox := b, axis := a), l, r, quads, maxQuadsPerLeaf, next, fuel - 1)
  {
  }

  // ---------------------------------------------------------------------
  // Properties of the tree Generate builds
  // ---------------------------------------------------------------------

  /** Ids in pre-order: the node, then its left subtree, then its right one. */
  function Preorder(t: Tree): seq<nat> {
    [t.id] + PreorderOf(t.left) + PreorderOf(t.right)
  }

  /** The naturals from `lo` up to, not including, `hi`. */
  function Range(lo: nat, hi: nat): (s: seq<nat>)
    requires lo <= hi
    ensures |s| == hi - lo && forall k :: 0 <= k < |s| ==> s[k] == lo + k
    decreases hi - lo
  {
    if lo == hi then [] else [lo] + Range(lo + 1, hi)
  }

  lemma RangeSplit(lo: nat, mid: nat, hi: nat)
    requires lo <= mid <= hi
    ensures Range(lo, mid) + Range(mid, hi) == Range(lo, hi)
  {
    assert (Range(lo, mid) + Range(mid, hi)) == Range(lo, hi);
  }

  /** A node with no children yet. */
  predicate Childless(t: Tree) {
    t.left.None? && t.right.None?
  }

  /**
   * Ids follow creation order: generating a childless node numbered `id`
   * with the counter at `next` numbers the new nodes next, next + 1, ...
   * in pre-order, and leaves the counter just past the last of them.
   */
  lemma {:induction false} GrownIds(t: Tree, quads: seq<Quadblock>, maxQuadsPerLeaf: nat, next: nat, fuel: nat)
    requires IndexesIn(t.indexes, |quads|) && Childless(t)
    ensures var (g, n) := Grown(t, quads, maxQuadsPerLeaf, next, fuel);
      Preorder(g) == [t.id] + Range(next, n)
    decreases fuel, 0
  {
    var t1 := t.(bbox := BoxOf(quads, t.indexes));
    if t1.kind == Branch && fuel > 0 {
      var a := SplitAxis(quads, t.indexes, t1.bbox);
      var mid := AxisMidpoint(t1.bbox, a);
      OffspringIds(t1.(axis := a), Side(quads, t.indexes, a, mid, false), Side(quads, t.indexes, a, mid, true),
                   quads, maxQuadsPerLeaf, next, fuel - 1);
    }
  }

  lemma {:induction false} OffspringIds(t: Tree, l: seq<nat>, r: seq<nat>, quads: seq<Quadblock>, maxQuadsPerLeaf: nat,
                                        next: nat, fuel: nat)
    requires IndexesIn(l, |quads|) && IndexesIn(r, |quads|) && Childless(t)
    ensures var (g, n) := Offspring(t, l, r, quads, maxQuadsPerLeaf, next, fuel);
      Preorder(g) == [t.id] + Range(next, n)
    decreases fuel, 2
  {
    var lc := Child(t.left, l, quads, maxQuadsPerLeaf, next, fuel);
    var rc := Child(t.right, r, quads, maxQuadsPerLeaf, lc.1, fuel);
    ChildIds(l, quads, maxQuadsPerLeaf, next, fuel);
    ChildIds(r, quads, maxQuadsPerLeaf, lc.1, fuel);
    RangeSplit(next, lc.1, rc.1);
  }

  /** The ids of an optional subtree in pre-order. */
  function PreorderOf(c: Option<Tree>): seq<nat> {
    match c case Some(t) => Preorder(t) case None => []
  }

  lemma {:induction false} ChildIds(idx: seq<nat>, quads: seq<Quadblock>, maxQuadsPerLeaf: nat, next: nat, fuel: nat)
    requires IndexesIn(idx, |quads|)
    ensures var (c, n) := Child(None, idx, quads, maxQuadsPerLeaf, next, fuel);
      PreorderOf(c) == Range(next, n)
    decreases fuel, 1
  {
    if idx != [] {
      var c := NewNode(next, ChildKind(idx, maxQuadsPerLeaf), idx);
      GrownIds(c, quads, maxQuadsPerLeaf, next + 1, fuel);
    }
  }

  /**
   * After Clear the root keeps its id and the counter restarts at 1, so a
   * root numbered 0 and generated then holds the ids 0, 1, ..., n - 1, each
   * once, in pre-order: what SaveLEV relies on when it files every node
   * under its id.
   */
  lemma DenseIds(t: Tree, quads: seq<Quadblock>, maxQuadsPerLeaf: nat, fuel: nat)
    requires IndexesIn(t.indexes, |quads|) && Childless(t) && t.id == 0
    ensures var (g, n) := Grown(t, quads, maxQuadsPerLeaf, 1, fuel);
      Preorder(g) == Range(0, n)
  {
    GrownIds(t, quads, maxQuadsPerLeaf, 1, fuel);
    RangeSplit(0, 1, Grown(t, quads, maxQuadsPerLeaf, 1, fuel).1);
  }

  /** The indexes of an optional child; none for a missing one. */
  function IndexesOf(c: Option<Tree>): seq<nat> {
    match c case Some(t) => t.indexes case None => []
  }

  /**
   * The shape Generate gives a subtree: every node has the box of its own
   * quads and the flags of its type; a leaf has no children; the children
   * of a node split its list between them, each a leaf exactly when its
   * list is shorter than the maximum, and no child is empty.
   */
  ghost predicate Sound(t: Tree, quads: seq<Quadblock>, maxQuadsPerLeaf: nat) {
    && IndexesIn(t.indexes, |quads|)
    && t.bbox == BoxOf(quads, t.indexes)
    && t.flags == (if t.kind == Leaf then FlagsLeaf else FlagsNone)
    && (t.kind == Leaf ==> Childless(t))
    && (!Childless(t) ==> multiset(IndexesOf(t.left)) + multiset(IndexesOf(t.right)) == multiset(t.indexes))
    && (t.left.Some? ==> t.left.value.indexes != [] && t.left.value.kind == ChildKind(t.left.value.indexes, maxQuadsPerLeaf))
    && (t.right.Some? ==> t.right.value.indexes != [] && t.right.value.kind == ChildKind(t.right.value.indexes, maxQuadsPerLeaf))
    && (t.left.Some? ==> Sound(t.left.value, quads, maxQuadsPerLeaf))
    && (t.right.Some? ==> Sound(t.right.value, quads, maxQuadsPerLeaf))
  }

  /** Generating a childless node, fresh from its constructor, gives a sound subtree. */
  lemma {:induction false} GrownSound(t: Tree, quads: seq<Quadblock>, maxQuadsPerLeaf: nat, next: nat, fuel: nat)
    requires IndexesIn(t.indexes, |quads|) && Childless(t)
    requires t.flags == (if t.kind == Leaf then FlagsLeaf else FlagsNone)
    ensures Sound(Grown(t, quads, maxQuadsPerLeaf, next, fuel).0, quads, maxQuadsPerLeaf)
    decreases fuel, 0, 1
  {
    if t.kind == Branch && fuel > 0 {
      BranchSound(t, quads, maxQuadsPerLeaf, next, fuel);
    } else {
      LeafSound(t, quads, maxQuadsPerLeaf, next, fuel);
    }
  }

  /** A node Generate splits gets sound children, its list split between them. */
  lemma {:induction false} BranchSound(t: Tree, quads: seq<Quadblock>, maxQuadsPerLeaf: nat, next: nat, fuel: nat)
    requires IndexesIn(t.indexes, |quads|) && Childless(t) && t.kind == Branch && fuel > 0
    requires t.flags == FlagsNone
    ensures Sound(Grown(t, quads, maxQuadsPerLeaf, next, fuel).0, quads, maxQuadsPerLeaf)
    decreases fuel, 0, 0
  {
    var b := BoxOf(quads, t.indexes);
    var a := SplitAxis(quads, t.indexes, b);
    var mid := AxisMidpoint(b, a);
    var l, r := Side(quads, t.indexes, a, mid, false), Side(quads, t.indexes, a, mid, true);
    SidePartition(quads, t.indexes, a, mid);
    GrownBranch(t, quads, maxQuadsPerLeaf, next, fuel, b, a, l, r);
    var t2 := t.(bbox := b, axis := a);
    assert t2.indexes == t.indexes && Childless(t2) && t2.bbox == BoxOf(quads, t2.indexes);
    OffspringSound(t2, l, r, quads, maxQuadsPerLeaf, next, fuel - 1, Grown(t, quads, maxQuadsPerLeaf, next, fuel).0);
  }

  /** A node Generate does not split stays childless, with the box of its quads. */
  lemma LeafSound(t: Tree, quads: seq<Quadblock>, maxQuadsPerLeaf: nat, next: nat, fuel: nat)
    requires IndexesIn(t.indexes, |quads|) && Childless(t) && (t.kind != Branch || fuel == 0)
    requires t.flags == (if t.kind == Leaf then FlagsLeaf else FlagsNone)
    ensures Sound(Grown(t, quads, maxQuadsPerLeaf, next, fuel).0, quads, maxQuadsPerLeaf)
  {
    assert Grown(t, quads, maxQuadsPerLeaf, next, fuel).0 == t.(bbox := BoxOf(quads, t.indexes));
  }

  lemma {:induction false} OffspringSound(t: Tree, l: seq<nat>, r: seq<nat>, quads: seq<Quadblock>, maxQuadsPerLeaf: nat,
                                          next: nat, fuel: nat, res: Tree)
    requires IndexesIn(t.indexes, |quads|) && IndexesIn(l, |quads|) && IndexesIn(r, |quads|) && Childless(t)
    requires t.kind == Branch && t.flags == FlagsNone && t.bbox == BoxOf(quads, t.indexes)
    requires multiset(l) + multiset(r) == multiset(t.indexes)
    requires res == Offspring(t, l, r, quads, maxQuadsPerLeaf, next, fuel).0
    ensures Sound(res, quads, maxQuadsPerLeaf)
    decreases fuel, 2
  {
    var lc := Child(t.left, l, quads, maxQuadsPerLeaf, next, fuel);
    ChildSound(l, quads, maxQuadsPerLeaf, next, fuel);
    ChildSound(r, quads, maxQuadsPerLeaf, lc.1, fuel);
  }

  lemma {:induction false} ChildSound(idx: seq<nat>, quads: seq<Quadblock>, maxQuadsPerLeaf: nat, next: nat, fuel: nat)
    requires IndexesIn(idx, |quads|)
    ensures var c := Child(None, idx, quads, maxQuadsPerLeaf, next, fuel).0;
      IndexesOf(c) == idx &&
      (c.Some? ==> idx != [] && c.value.kind == ChildKind(idx, maxQuadsPerLeaf) && Sound(c.value, quads, maxQuadsPerLeaf))
    decreases fuel, 1
  {
    if idx != [] {
      var c := NewNode(next, ChildKind(idx, maxQuadsPerLeaf), idx);
      GrownSound(c, quads, maxQuadsPerLeaf, next + 1, fuel);
    }
  }

  /** The quads held by the childless nodes, left to right. */
  function Held(t: Tree): seq<nat> {
    if Childless(t) then t.indexes
    else (match t.left case Some(c) => Held(c) case None => []) +
         (match t.right case Some(c) => Held(c) case None => [])
  }

  /** In a sound subtree every quad of the root is held by exactly one childless node. */
  lemma {:induction false} HeldOnce(t: Tree, quads: seq<Quadblock>, maxQuadsPerLeaf: nat)
    requires Sound(t, quads, maxQuadsPerLeaf)
    ensures multiset(Held(t)) == multiset(t.indexes)
  {
    if !Childless(t) {
      if t.left.Some? {
        HeldOnce(t.left.value, quads, maxQuadsPerLeaf);
      }
      if t.right.Some? {
        HeldOnce(t.right.value, quads, maxQuadsPerLeaf);
      }
    }
  }

  /** When no quad goes right along any axis, every split puts the whole list on the left. */
  lemma {:induction false} AllLeft(quads: seq<Quadblock>, idx: seq<nat>, a: Axis, mid: real)
    requires IndexesIn(idx, |quads|)
    requires forall e :: e in idx ==> !GoesRight(quads[e], a, mid)
    ensures Side(quads, idx, a, mid, true) == []
    ensures a != NoAxis ==> Side(quads, idx, a, mid, false) == idx
    decreases |idx|
  {
    if idx != [] {
      AllLeft(quads, idx[..|idx| - 1], a, mid);
      assert idx == idx[..|idx| - 1] + [idx[|idx| - 1]];
    }
  }

  /**
   * Generate makes no progress on a branch whose quads all have their
   * centres at or below the box's midpoint on every axis (say, at least
   * maxQuadsPerLeaf copies of one quad): its only child is again a branch
   * with the very same list, so without a bound on the depth the
   * recursion would not end.
   */
  lemma Stalls(t: Tree, quads: seq<Quadblock>, maxQuadsPerLeaf: nat, next: nat, fuel: nat)
    requires IndexesIn(t.indexes, |quads|) && t.kind == Branch && fuel > 0
    requires t.indexes != [] && |t.indexes| >= maxQuadsPerLeaf
    requires forall e, a :: e in t.indexes ==> !GoesRight(quads[e], a, AxisMidpoint(BoxOf(quads, t.indexes), a))
    ensures var g := Grown(t, quads, maxQuadsPerLeaf, next, fuel).0;
      g.right == t.right && g.left.Some? && g.left.value.indexes == t.indexes && g.left.value.kind == Branch
  {
    var b := BoxOf(quads, t.indexes);
    var a := SplitAxis(quads, t.indexes, b);
    var mid := AxisMidpoint(b, a);
    AllLeft(quads, t.indexes, a, mid);
    GrownBranch(t, quads, maxQuadsPerLeaf, next, fuel, b, a, t.indexes, []);
  }

  /**
   * Generate on a fresh branch over a single quad: the quad goes to one
   * side of the split and the other side stays empty, so the branch gets
   * exactly one child, and SerializeBranch would read the missing one.
   */
  lemma OneQuadOneChild(t: Tree, quads: seq<Quadblock>, maxQuadsPerLeaf: nat, next: nat, fuel: nat)
    requires IndexesIn(t.indexes, |quads|) && t.kind == Branch && fuel > 0
    requires |t.indexes| == 1 && t.left.None? && t.right.None?
    ensures var g := Grown(t, quads, maxQuadsPerLeaf, next, fuel).0;
      g.kind == Branch && (g.left.Some? <==> g.right.None?)
  {
    var b := BoxOf(quads, t.indexes);
    var a := SplitAxis(quads, t.indexes, b);
    var mid := AxisMidpoint(b, a);
    var l, r := Side(quads, t.indexes, a, mid, false), Side(quads, t.indexes, a, mid, true);
    SidePartition(quads, t.indexes, a, mid);
    assert |l| + |r| == 1 by {
      assert |multiset(l)| + |multiset(r)| == |multiset(t.indexes)|;
    }
    GrownBranch(t, quads, maxQuadsPerLeaf, next, fuel, b, a, l, r);
  }

  // ---------------------------------------------------------------------
  // SerializeBranch and SerializeLeaf
  // ---------------------------------------------------------------------

  /** A value cast to uint16_t: its low 16 bits. */
  function U16(n: nat): (r: nat)
    ensures r < 0x1_0000 && (n < 0x1_0000 ==> r == n)
  {
    n % 0x1_0000
  }

  /** A value cast to uint32_t: its low 32 bits. */
  function U32(n: nat): (r: nat)
    ensures r < 0x1_0000_0000 && (n < 0x1_0000_0000 ==> r == n)
  {
    n % 0x1_0000_0000
  }

  /** `x |= 0x4000` on a 16-bit value: adds bit 14 unless it is already set. */
  function WithLeafBit(x: nat): (r: nat)
    requires x < 0x1_0000
    ensures r < 0x1_0000 && (r / 0x4000) % 2 == 1 && r % 0x4000 == x % 0x4000
  {
    if (x / 0x4000) % 2 == 1 then x else x + 0x4000
  }

  /**
   * A child's id as a branch record stores it: its low 16 bits, with bit
   * 0x4000 set when the child is not a branch.
   */
  function ChildRef(c: Tree): (r: nat)
    ensures r < 0x1_0000
  {
    if c.kind != Branch then WithLeafBit(U16(c.id)) else U16(c.id)
  }

  /**
   * The record of a branch, its fields as the integers written.  The box
   * is kept as it is: the conversion to fixed point (ConvertVec3) is not
   * part of this model.
   */
  datatype BranchRecord = BranchRecord(flag: BspFlags, id: nat, bbox: BoundingBox,
                                       axisX: nat, axisY: nat, axisZ: nat,
                                       leftChild: nat, rightChild: nat, unk1: nat, unk2: nat, unk3: nat)

  /** The record of a leaf, with its box kept as it is. */
  datatype LeafRecord = LeafRecord(flag: BspFlags, id: nat, bbox: BoundingBox,
                                   offHitbox: nat, numQuads: nat, offQuads: nat, unk1: nat)

  /**
   * SerializeBranch: both children must exist, since their ids are read
   * (`OneQuadOneChild` shows a branch Generate leaves with one child).
   */
  function SerializeBranch(t: Tree): (r: BranchRecord)
    requires t.left.Some? && t.right.Some?
    ensures RecordAxis(r) == t.axis && r.flag == t.flags
    ensures t.id < 0x1_0000 ==> r.id == t.id
  {
    BranchRecord(t.flags, U16(t.id), t.bbox,
                 if t.axis == AxisX then 0x1000 else 0,
                 if t.axis == AxisY then 0x1000 else 0,
                 if t.axis == AxisZ then 0x1000 else 0,
                 ChildRef(t.left.value), ChildRef(t.right.value), 0xFF40, 0, 0)
  }

  /** SerializeLeaf, given where the leaf's quads start. */
  function SerializeLeaf(t: Tree, offQuads: nat): (r: LeafRecord) {
    LeafRecord(t.flags, U16(t.id), t.bbox, 0, U32(|t.indexes|), U32(offQuads), 0)
  }

  /** The split axis a record's axis vector names: the component holding 0x1000. */
  function RecordAxis(r: BranchRecord): Axis {
    if r.axisX == 0x1000 then AxisX
    else if r.axisY == 0x1000 then AxisY
    else if r.axisZ == 0x1000 then AxisZ
    else NoAxis
  }

  /**
   * A child reference reads back: for an id below 0x4000, bit 0x4000 is
   * set exactly when the child is a leaf, and the bits below it give the id.
   */
  lemma ChildRefDecodes(c: Tree)
    requires c.id < 0x4000
    ensures (ChildRef(c) / 0x4000) % 2 == 1 <==> c.kind == Leaf
    ensures ChildRef(c) % 0x4000 == c.id
  {
  }

  /**
   * A branch record names its node (for an id below 0x1_0000), the axis
   * it was split along and both children, and carries the fixed
   * constants.
   */
  lemma BranchRecordDecodes(t: Tree)
    requires t.left.Some? && t.right.Some?
    requires t.id < 0x1_0000 && t.left.value.id < 0x4000 && t.right.value.id < 0x4000
    ensures var r := SerializeBranch(t);
      && r.id == t.id && RecordAxis(r) == t.axis
      && (r.axisX == 0x1000 || r.axisX == 0) && (r.axisY == 0x1000 || r.axisY == 0) && (r.axisZ == 0x1000 || r.axisZ == 0)
      && ((r.leftChild / 0x4000) % 2 == 1 <==> t.left.value.kind == Leaf) && r.leftChild % 0x4000 == t.left.value.id
      && ((r.rightChild / 0x4000) % 2 == 1 <==> t.right.value.kind == Leaf) && r.rightChild % 0x4000 == t.right.value.id
      && r.unk1 == 0xFF40 && r.unk2 == 0 && r.unk3 == 0
  {
    ChildRefDecodes(t.left.value);
    ChildRefDecodes(t.right.value);
  }

  /** A leaf record counts the leaf's quads and points at them, when both fit in 32 bits. */
  lemma LeafRecordDecodes(t: Tree, offQuads: nat)
    requires t.id < 0x1_0000 && |t.indexes| < 0x1_0000_0000 && offQuads < 0x1_0000_0000
    ensures var r := SerializeLeaf(t, offQuads);
      r.id == t.id && r.numQuads == |t.indexes| && r.offQuads == offQuads && r.offHitbox == 0 && r.unk1 == 0
  {
  }

  // ---------------------------------------------------------------------
  // The nodes as objects
  // ---------------------------------------------------------------------

  /** The global id counter g_id, starting at 0. */
  class IdCounter {
    var next: nat

    constructor ()
      ensures next == 0
    {
      next := 0;
    }
  }

  /** No node twice. */
  predicate Distinct(nodes: seq<Bsp>) {
    forall i, j :: 0 <= i < j < |nodes| ==> nodes[i] != nodes[j]
  }

  /** The first `cur` entries of the worklist, as a set. */
  function Processed(nodes: seq<Bsp>, cur: nat): set<Bsp>
    requires cur <= |nodes|
  {
    set i | 0 <= i < cur :: nodes[i]
  }

  /** The worklist after visiting `node`: its right child appended, then its left one. */
  function Pushed(nodes: seq<Bsp>, node: Bsp): seq<Bsp>
    reads node
  {
    nodes + (if node.right != null then [node.right] else []) + (if node.left != null then [node.left] else [])
  }

  /** Every worklist entry is a valid node of the root's subtree. */
  ghost predicate WorkIn(root: Bsp, nodes: seq<Bsp>)
    reads root, root.Repr
  {
    forall i :: 0 <= i < |nodes| ==> nodes[i] in root.Repr && nodes[i].Repr <= root.Repr && nodes[i].Valid()
  }

  /** The subtrees still to visit are pairwise disjoint. */
  ghost predicate WorkDisjoint(root: Bsp, nodes: seq<Bsp>, cur: nat)
    reads root, root.Repr
    requires WorkIn(root, nodes)
  {
    forall i, j :: cur <= i < j < |nodes| ==> nodes[i].Repr !! nodes[j].Repr
  }

  /** No visited node lies in a subtree still to visit. */
  ghost predicate WorkAhead(root: Bsp, nodes: seq<Bsp>, cur: nat)
    reads root, root.Repr
    requires WorkIn(root, nodes)
  {
    forall i, j :: 0 <= i < cur <= j < |nodes| && i < |nodes| ==> nodes[i] !in nodes[j].Repr
  }

  /** Every node of the root's subtree is visited or lies in a subtree still to visit. */
  ghost predicate WorkCovered(root: Bsp, nodes: seq<Bsp>, cur: nat)
    reads root, root.Repr
    requires WorkIn(root, nodes) && cur <= |nodes|
  {
    forall n :: n in root.Repr ==> n in Processed(nodes, cur) || exists j :: cur <= j < |nodes| && n in nodes[j].Repr
  }

  /**
   * Clear's worklist after visiting `cur` entries: distinct nodes of the
   * root's subtree, the root first; the subtrees still to visit are
   * disjoint and hold no visited node; and every node of the root's
   * subtree is visited or lies in a subtree still to visit.
   */
  ghost predicate Worklist(root: Bsp, nodes: seq<Bsp>, cur: nat)
    reads root, root.Repr
  {
    && cur <= |nodes| && |nodes| > 0 && nodes[0] == root
    && WorkIn(root, nodes) && Distinct(nodes)
    && WorkDisjoint(root, nodes, cur) && WorkAhead(root, nodes, cur) && WorkCovered(root, nodes, cur)
  }

  /** The worklist holding just the root, nothing visited. */
  lemma WorklistStart(root: Bsp)
    requires root.Valid()
    ensures Worklist(root, [root], 0)
  {
    assert forall n :: n in root.Repr ==> n in [root][0].Repr;
  }

  /** With every entry visited, the worklist holds exactly the root's subtree. */
  lemma WorklistDone(root: Bsp, nodes: seq<Bsp>)
    requires Worklist(root, nodes, |nodes|)
    ensures forall n :: n in nodes <==> n in root.Repr
  {
    forall n | n in root.Repr ensures n in nodes {
      assert n in Processed(nodes, |nodes|);
    }
  }

  /** Visiting the next entry keeps the worklist invariant and takes one node off what is left. */
  lemma WorklistStep(root: Bsp, nodes: seq<Bsp>, cur: nat)
    requires Worklist(root, nodes, cur) && cur < |nodes|
    ensures Worklist(root, Pushed(nodes, nodes[cur]), cur + 1)
    ensures |root.Repr - Processed(Pushed(nodes, nodes[cur]), cur + 1)| < |root.Repr - Processed(nodes, cur)|
  {
    var p := nodes[cur];
    var nodes' := Pushed(nodes, p);
    ChildrenPushed(nodes, p);
    StepIn(root, nodes, cur);
    StepDistinct(root, nodes, cur);
    StepDisjoint(root, nodes, cur);
    StepAhead(root, nodes, cur);
    StepCovered(root, nodes, cur);
    StepMeasure(root, nodes, cur);
  }

  lemma StepIn(root: Bsp, nodes: seq<Bsp>, cur: nat)
    requires WorkIn(root, nodes) && cur < |nodes|
    ensures WorkIn(root, Pushed(nodes, nodes[cur]))
  {
    ChildrenPushed(nodes, nodes[cur]);
  }

  lemma StepDistinct(root: Bsp, nodes: seq<Bsp>, cur: nat)
    requires WorkIn(root, nodes) && cur < |nodes| && Distinct(nodes)
    requires WorkDisjoint(root, nodes, cur) && WorkAhead(root, nodes, cur)
    ensures Distinct(Pushed(nodes, nodes[cur]))
  {
    var p := nodes[cur];
    var nodes' := Pushed(nodes, p);
    ChildrenPushed(nodes, p);
    forall i, j | 0 <= i < j < |nodes'| ensures nodes'[i] != nodes'[j] {
      if j >= |nodes| && i < |nodes| && i != cur {
        assert nodes'[j] in p.Repr;
        if i > cur {
          assert nodes[i] in nodes[i].Repr;
        }
      }
    }
  }

  lemma StepDisjoint(root: Bsp, nodes: seq<Bsp>, cur: nat)
    requires WorkIn(root, nodes) && cur < |nodes| && WorkDisjoint(root, nodes, cur)
    ensures WorkIn(root, Pushed(nodes, nodes[cur]))
    ensures WorkDisjoint(root, Pushed(nodes, nodes[cur]), cur + 1)
  {
    var p := nodes[cur];
    var nodes' := Pushed(nodes, p);
    StepIn(root, nodes, cur);
    ChildrenPushed(nodes, p);
    forall i, j | cur + 1 <= i < j < |nodes'| ensures nodes'[i].Repr !! nodes'[j].Repr {
      if j >= |nodes| && i < |nodes| {
        assert nodes'[j].Repr <= p.Repr;
      }
    }
  }

  lemma StepAhead(root: Bsp, nodes: seq<Bsp>, cur: nat)
    requires WorkIn(root, nodes) && cur < |nodes| && WorkDisjoint(root, nodes, cur) && WorkAhead(root, nodes, cur)
    ensures WorkIn(root, Pushed(nodes, nodes[cur]))
    ensures WorkAhead(root, Pushed(nodes, nodes[cur]), cur + 1)
  {
    var p := nodes[cur];
    var nodes' := Pushed(nodes, p);
    StepIn(root, nodes, cur);
    ChildrenPushed(nodes, p);
    forall i, j | 0 <= i < cur + 1 <= j < |nodes'| ensures nodes'[i] !in nodes'[j].Repr {
      if j >= |nodes| && i < cur {
        assert nodes'[j].Repr <= p.Repr;
      }
      if j < |nodes| && i == cur {
        assert p in p.Repr;
      }
    }
  }

  lemma StepCovered(root: Bsp, nodes: seq<Bsp>, cur: nat)
    requires WorkIn(root, nodes) && cur < |nodes| && WorkCovered(root, nodes, cur)
    ensures WorkIn(root, Pushed(nodes, nodes[cur]))
    ensures WorkCovered(root, Pushed(nodes, nodes[cur]), cur + 1)
  {
    var p := nodes[cur];
    var nodes' := Pushed(nodes, p);
    StepIn(root, nodes, cur);
    assert nodes'[..|nodes|] == nodes;
    StepProcessed(nodes, cur, nodes');
    forall n | n in root.Repr
      ensures n in Processed(nodes', cur + 1) || exists j :: cur + 1 <= j < |nodes'| && n in nodes'[j].Repr
    {
      if n !in Processed(nodes, cur) {
        var j :| cur <= j < |nodes| && n in nodes[j].Repr;
        if j == cur && n != p {
          PartOfChild(p, n);
          if p.right != null && n in p.right.Repr {
            assert nodes'[|nodes|] == p.right;
          } else {
            assert nodes'[|nodes'| - 1] == p.left;
          }
        } else if j != cur {
          assert nodes'[j] == nodes[j];
        }
      }
    }
  }

  /** A node of a valid subtree other than its root lies in one of the children's subtrees. */
  lemma PartOfChild(p: Bsp, n: Bsp)
    requires p.Valid() && n in p.Repr && n != p
    ensures (p.right != null && n in p.right.Repr) || (p.left != null && n in p.left.Repr)
  {
  }

  lemma StepProcessed(nodes: seq<Bsp>, cur: nat, nodes': seq<Bsp>)
    requires cur < |nodes| <= |nodes'| && nodes'[..|nodes|] == nodes
    ensures Processed(nodes', cur + 1) == Processed(nodes, cur) + {nodes[cur]}
  {
    assert forall i :: 0 <= i <= cur ==> nodes'[i] == nodes[i];
  }

  lemma StepMeasure(root: Bsp, nodes: seq<Bsp>, cur: nat)
    requires WorkIn(root, nodes) && cur < |nodes| && Distinct(nodes)
    ensures |root.Repr - Processed(Pushed(nodes, nodes[cur]), cur + 1)| < |root.Repr - Processed(nodes, cur)|
  {
    var p := nodes[cur];
    var nodes' := Pushed(nodes, p);
    assert nodes'[..|nodes|] == nodes;
    StepProcessed(nodes, cur, nodes');
    var left := root.Repr - Processed(nodes, cur);
    assert p !in Processed(nodes, cur);
    assert p in left;
    assert root.Repr - Processed(nodes', cur + 1) == left - {p};
    RemoveOne(left, p);
  }

  /** Taking out a member makes a set one smaller. */
  lemma RemoveOne<T>(s: set<T>, x: T)
    requires x in s
    ensures |s - {x}| == |s| - 1
  {
  }

  /**
   * What is appended for `p` lies in `p`'s subtree below `p`: valid
   * subtrees of the root's, disjoint from each other.
   */
  lemma ChildrenPushed(nodes: seq<Bsp>, p: Bsp)
    requires p.Valid()
    ensures var nodes' := Pushed(nodes, p);
      forall k :: |nodes| <= k < |nodes'| ==>
        nodes'[k] in p.Repr && nodes'[k] != p && nodes'[k].Repr <= p.Repr && p !in nodes'[k].Repr && nodes'[k].Valid()
    ensures var nodes' := Pushed(nodes, p);
      forall k, m :: |nodes| <= k < m < |nodes'| ==> nodes'[k].Repr !! nodes'[m].Repr
  {
  }

  class Bsp {
    var id: nat
    var kind: NodeType
    var axis: Axis
    var flags: BspFlags
    var left: Bsp?
    var right: Bsp?
    var bbox: BoundingBox
    var indexes: seq<nat>
    /** The nodes of this subtree. */
    ghost var Repr: set<Bsp>
    /** This subtree as a value. */
    ghost var Subtree: Tree

    /**
     * The subtree is a tree, each child owning a part of the footprint
     * that holds neither this node nor the other child's part, and
     * `Subtree` reads it back.
     */
    ghost predicate Valid()
      reads this, Repr
      decreases Repr
    {
      && this in Repr
      && (left != null ==> left in Repr && left.Repr <= Repr && this !in left.Repr && left.Valid())
      && (right != null ==> right in Repr && right.Repr <= Repr && this !in right.Repr && right.Valid())
      && (left != null && right != null ==> left.Repr !! right.Repr)
      && (forall n :: n in Repr ==> n == this || (left != null && n in left.Repr) || (right != null && n in right.Repr))
      && Subtree == Tree(id, kind, axis, flags, bbox, indexes,
                         if left != null then Some(left.Subtree) else None,
                         if right != null then Some(right.Subtree) else None)
    }

    /** BSP(): a branch with no quads, numbered from the counter. */
    constructor (ids: IdCounter)
      modifies ids
      ensures Valid() && fresh(Repr)
      ensures Subtree == Tree(old(ids.next), Branch, NoAxis, FlagsNone, BoundingBox(Origin, Origin), [], None, None)
      ensures ids.next == old(ids.next) + 1
    {
      id := ids.next;
      kind := Branch;
      axis := NoAxis;
      flags := FlagsNone;
      left, right := null, null;
      bbox := BoundingBox(Origin, Origin);
      indexes := [];
      Repr := {this};
      Subtree := Tree(ids.next, Branch, NoAxis, FlagsNone, BoundingBox(Origin, Origin), [], None, None);
      new;
      ids.next := ids.next + 1;
    }

    /** BSP(type, indexes): numbered from the counter, flagged LEAF exactly when it is a leaf. */
    constructor Node(ids: IdCounter, kind: NodeType, idx: seq<nat>)
      modifies ids
      ensures Valid() && fresh(Repr)
      ensures Subtree == NewNode(old(ids.next), kind, idx)
      ensures ids.next == old(ids.next) + 1
    {
      id := ids.next;
      this.kind := kind;
      axis := NoAxis;
      flags := if kind == Leaf then FlagsLeaf else FlagsNone;
      left, right := null, null;
      bbox := BoundingBox(Origin, Origin);
      indexes := idx;
      Repr := {this};
      Subtree := NewNode(ids.next, kind, idx);
      new;
      ids.next := ids.next + 1;
    }

    /** SetQuadblockIndexes: only the list changes. */
    method SetQuadblockIndexes(idx: seq<nat>)
      requires Valid()
      modifies this
      ensures Valid() && Repr == old(Repr)
      ensures Subtree == old(Subtree).(indexes := idx)
    {
      indexes := idx;
      Subtree := Subtree.(indexes := idx);
    }

    /**
     * The walk Clear makes: a worklist that starts at this node and appends
     * each visited node's right child and then its left one, until every
     * entry is visited.  It lists every node of the subtree exactly once,
     * this node first.
     */
    method Nodes() returns (nodes: seq<Bsp>)
      requires Valid()
      ensures |nodes| > 0 && nodes[0] == this && Distinct(nodes)
      ensures forall n :: n in nodes <==> n in Repr
    {
      nodes := [this];
      var cur := 0;
      WorklistStart(this);
      while cur < |nodes|
        invariant Worklist(this, nodes, cur)
        decreases |Repr - Processed(nodes, cur)|
      {
        WorklistStep(this, nodes, cur);
        nodes, cur := Pushed(nodes, nodes[cur]), cur + 1;
      }
      WorklistDone(this, nodes);
    }

    /**
     * Clear: every node below this one is handed back (to be deleted), each
     * once, in the order of the walk; this node loses its children and
     * keeps its own list, and the counter restarts at 1.
     */
    method Clear(ids: IdCounter) returns (deleted: seq<Bsp>)
      requires Valid()
      modifies this, ids
      ensures Valid() && Repr == {this} && ids.next == 1
      ensures Subtree == old(Subtree).(left := None, right := None)
      ensures Distinct(deleted)
      ensures forall n :: n in deleted <==> n in old(Repr) && n != this
    {
      var nodes := Nodes();
      deleted := nodes[1..];
      assert forall n :: n in nodes <==> n == this || n in deleted;
      right := null;
      left := null;
      Repr := {this};
      Subtree := Subtree.(left := None, right := None);
      ids.next := 1;
    }

    /** ComputeBoundingBox: the box of the node's quads; nothing else changes. */
    method ComputeBoundingBox(quads: seq<Quadblock>)
      requires Valid() && IndexesIn(indexes, |quads|)
      modifies this
      ensures Valid() && Repr == old(Repr)
      ensures Subtree == old(Subtree).(bbox := BoxOf(quads, old(indexes)))
    {
      var minX, minY, minZ := FltMax, FltMax, FltMax;
      var maxX, maxY, maxZ := FltMin, FltMin, FltMin;
      var k := 0;
      while k < |indexes|
        invariant k <= |indexes|
        invariant BoundingBox(Vec3(minX, minY, minZ), Vec3(maxX, maxY, maxZ)) == BoxOf(quads, indexes[..k])
      {
        assert indexes[..k + 1][..k] == indexes[..k];
        var q := quads[indexes[k]].bbox;
        if q.min.x < minX { minX := q.min.x; }
        if q.max.x > maxX { maxX := q.max.x; }
        if q.min.y < minY { minY := q.min.y; }
        if q.max.y > maxY { maxY := q.max.y; }
        if q.min.z < minZ { minZ := q.min.z; }
        if q.max.z > maxZ { maxZ := q.max.z; }
        k := k + 1;
      }
      assert indexes[..k] == indexes;
      bbox := BoundingBox(Vec3(minX, minY, minZ), Vec3(maxX, maxY, maxZ));
      Subtree := Subtree.(bbox := bbox);
    }

    /**
     * Split along `a`: the node's list sent left and right of the box's
     * midpoint in list order, and the score of that split.
     */
    method Split(a: Axis, quads: seq<Quadblock>) returns (l: seq<nat>, r: seq<nat>, score: real)
      requires IndexesIn(indexes, |quads|)
      ensures l == Side(quads, indexes, a, AxisMidpoint(bbox, a), false)
      ensures r == Side(quads, indexes, a, AxisMidpoint(bbox, a), true)
      ensures score == Score(|l|, |r|)
    {
      var mid := AxisMidpoint(bbox, a);
      l, r := [], [];
      var k := 0;
      while k < |indexes|
        invariant k <= |indexes|
        invariant l == Side(quads, indexes[..k], a, mid, false)
        invariant r == Side(quads, indexes[..k], a, mid, true)
      {
        assert indexes[..k + 1][..k] == indexes[..k];
        var index := indexes[k];
        var q := quads[index];
        match a {
          case AxisX => if q.center.x > mid { r := r + [index]; } else { l := l + [index]; }
          case AxisY => if q.center.y > mid { r := r + [index]; } else { l := l + [index]; }
          case AxisZ => if q.center.z > mid { r := r + [index]; } else { l := l + [index]; }
          case NoAxis =>
        }
        k := k + 1;
      }
      assert indexes[..k] == indexes;
      if l == [] {
        score := |r| as real;
      } else if r == [] {
        score := |l| as real;
      } else {
        var ratio := (|l| as real) / (|r| as real);
        score := if 0.5 - ratio < 0.0 then ratio - 0.5 else 0.5 - ratio;
      }
    }

    /**
     * Generate: the box, then for a branch the best of the three splits
     * handed to GenerateOffspring; what it builds is `Grown` of the node
     * as it was.  Only this node and the counter change; the children are
     * new nodes.
     */
    method Generate(quads: seq<Quadblock>, maxQuadsPerLeaf: nat, ids: IdCounter, fuel: nat)
      requires Valid() && IndexesIn(indexes, |quads|)
      modifies this, ids
      ensures Valid() && fresh(Repr - old(Repr))
      ensures (Subtree, ids.next) == Grown(old(Subtree), quads, maxQuadsPerLeaf, old(ids.next), fuel)
      decreases fuel, 0
    {
      ghost var t := Subtree;
      ComputeBoundingBox(quads);
      if kind != Branch || fuel == 0 {
        return;
      }
      var a, l, r := BestSplit(quads);
      ghost var next := ids.next;
      GrownBranch(t, quads, maxQuadsPerLeaf, next, fuel, bbox, a, l, r);
      SetAxis(a);
      GenerateOffspring(l, r, quads, maxQuadsPerLeaf, ids, fuel - 1);
    }

    /**
     * The middle of Generate: the three splits, and the axis with the
     * lowest score (X on a tie with anything, then Z) with its halves.
     */
    method BestSplit(quads: seq<Quadblock>) returns (a: Axis, l: seq<nat>, r: seq<nat>)
      requires IndexesIn(indexes, |quads|)
      ensures a == SplitAxis(quads, indexes, bbox)
      ensures l == Side(quads, indexes, a, AxisMidpoint(bbox, a), false)
      ensures r == Side(quads, indexes, a, AxisMidpoint(bbox, a), true)
    {
      var xLeft, xRight, xScore := Split(AxisX, quads);
      var yLeft, yRight, yScore := Split(AxisY, quads);
      var zLeft, zRight, zScore := Split(AxisZ, quads);
      var bestScore := Min(Min(xScore, yScore), zScore);
      if bestScore == xScore {
        a, l, r := AxisX, xLeft, xRight;
      } else if bestScore == zScore {
        a, l, r := AxisZ, zLeft, zRight;
      } else {
        a, l, r := AxisY, yLeft, yRight;
      }
    }

    /**
     * GenerateOffspring: a new child for each non-empty half, generated at
     * once, the left one first.
     */
    method GenerateOffspring(l: seq<nat>, r: seq<nat>, quads: seq<Quadblock>, maxQuadsPerLeaf: nat, ids: IdCounter, fuel: nat)
      requires Valid() && IndexesIn(l, |quads|) && IndexesIn(r, |quads|)
      modifies this, ids
      ensures Valid() && fresh(Repr - old(Repr))
      ensures (Subtree, ids.next) == Offspring(old(Subtree), l, r, quads, maxQuadsPerLeaf, old(ids.next), fuel)
      decreases fuel, 3
    {
      if l != [] {
        GrowLeft(l, quads, maxQuadsPerLeaf, ids, fuel);
      }
      if r != [] {
        GrowRight(r, quads, maxQuadsPerLeaf, ids, fuel);
      }
    }

    /** The left half of GenerateOffspring: `m_left` becomes the half's new node, generated. */
    method GrowLeft(l: seq<nat>, quads: seq<Quadblock>, maxQuadsPerLeaf: nat, ids: IdCounter, fuel: nat)
      requires Valid() && IndexesIn(l, |quads|) && l != []
      modifies this, ids
      ensures Valid() && fresh(Repr - old(Repr))
      ensures var (c, n) := Child(old(Subtree).left, l, quads, maxQuadsPerLeaf, old(ids.next), fuel);
        Subtree == old(Subtree).(left := c) && ids.next == n
      decreases fuel, 2
    {
      var c := NewChild(l, quads, maxQuadsPerLeaf, ids, fuel);
      SetLeft(c);
    }

    /** The right half of GenerateOffspring: `m_right` becomes the half's new node, generated. */
    method GrowRight(r: seq<nat>, quads: seq<Quadblock>, maxQuadsPerLeaf: nat, ids: IdCounter, fuel: nat)
      requires Valid() && IndexesIn(r, |quads|) && r != []
      modifies this, ids
      ensures Valid() && fresh(Repr - old(Repr))
      ensures var (c, n) := Child(old(Subtree).right, r, quads, maxQuadsPerLeaf, old(ids.next), fuel);
        Subtree == old(Subtree).(right := c) && ids.next == n
      decreases fuel, 2
    {
      var c := NewChild(r, quads, maxQuadsPerLeaf, ids, fuel);
      SetRight(c);
    }

    /** `m_axis = a`: only the axis changes. */
    method SetAxis(a: Axis)
      requires Valid()
      modifies this
      ensures Valid() && Repr == old(Repr)
      ensures Subtree == old(Subtree).(axis := a)
    {
      axis := a;
      Subtree := Subtree.(axis := a);
    }

    /** `m_left = c`, for a subtree `c` that shares no node with this one. */
    method SetLeft(c: Bsp)
      requires Valid() && c.Valid() && c.Repr !! Repr
      modifies this
      ensures Valid() && Repr <= old(Repr) + old(c.Repr)
      ensures Subtree == old(Subtree).(left := Some(c.Subtree))
    {
      left := c;
      Repr := {this} + c.Repr + (if right != null then right.Repr else {});
      Subtree := Subtree.(left := Some(c.Subtree));
    }

    /** `m_right = c`, for a subtree `c` that shares no node with this one. */
    method SetRight(c: Bsp)
      requires Valid() && c.Valid() && c.Repr !! Repr
      modifies this
      ensures Valid() && Repr <= old(Repr) + old(c.Repr)
      ensures Subtree == old(Subtree).(right := Some(c.Subtree))
    {
      right := c;
      Repr := {this} + (if left != null then left.Repr else {}) + c.Repr;
      Subtree := Subtree.(right := Some(c.Subtree));
    }

    /**
     * One side of GenerateOffspring: the half's new node, a leaf when the
     * half is smaller than the maximum, generated in turn.
     */
    method NewChild(idx: seq<nat>, quads: seq<Quadblock>, maxQuadsPerLeaf: nat, ids: IdCounter, fuel: nat) returns (c: Bsp)
      requires IndexesIn(idx, |quads|)
      modifies ids
      ensures c.Valid() && fresh(c.Repr)
      ensures (c.Subtree, ids.next) == Grown(NewNode(old(ids.next), ChildKind(idx, maxQuadsPerLeaf), idx), quads, maxQuadsPerLeaf, old(ids.next) + 1, fuel)
      decreases fuel, 1
    {
      c := new Bsp.Node(ids, if |idx| < maxQuadsPerLeaf then Leaf else Branch, idx);
      c.Generate(quads, maxQuadsPerLeaf, ids, fuel);
    }
  }
}
