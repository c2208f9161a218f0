// The tree walk of checkpoint generation: a path's own checkpoints, then
// its left sub-path's, then its right sub-path's, numbered one after the
// other, with the ends of each sub-path's checkpoints linked sideways to
// the ends of its parent's.

module PathTree {
  import opened Wrappers
  import opened Geo
  import opened Paths

  // ---------------------------------------------------------------------
  // Shapes of generated trees
  // ---------------------------------------------------------------------

  /** The number of the last checkpoint of a tree: the end of its last path. */
  function Last(p: Path): int
    decreases p
  {
    if p.right.Some? then Last(p.right.value)
    else if p.left.Some? then Last(p.left.value)
    else p.end
  }

  /**
   * The numbering GeneratePath gives a tree started at `base`: the path's
   * own checkpoints first, at least two of them, then the left sub-tree's,
   * then the right sub-tree's.
   */
  ghost predicate Numbered(p: Path, base: int)
    decreases p
  {
    && p.start == base && p.start < p.end
    && (p.left.Some? ==> Numbered(p.left.value, p.end + 1))
    && (p.right.Some? ==> Numbered(p.right.value, (if p.left.Some? then Last(p.left.value) else p.end) + 1))
  }

  /** A numbered tree ends no earlier than its own checkpoints do. */
  lemma {:induction false} NumberedLast(p: Path, base: int)
    requires Numbered(p, base)
    ensures p.end <= Last(p)
    decreases p
  {
    if p.left.Some? {
      NumberedLast(p.left.value, p.end + 1);
    }
    if p.right.Some? {
      var l := if p.left.Some? then Last(p.left.value) else p.end;
      NumberedLast(p.right.value, l + 1);
    }
  }

  /** The same tree of paths, apart from the start and end numbers. */
  ghost predicate SameShape(p: Path, q: Path)
    decreases p
  {
    && p.index == q.index
    && p.quadsStart == q.quadsStart && p.quadsIgnore == q.quadsIgnore && p.quadsEnd == q.quadsEnd
    && p.left.Some? == q.left.Some? && p.right.Some? == q.right.Some?
    && (p.left.Some? ==> SameShape(p.left.value, q.left.value))
    && (p.right.Some? ==> SameShape(p.right.value, q.right.value))
  }

  /** Checkpoint `k` of the list is number `base + k`. */
  ghost predicate Indexed(cps: seq<Checkpoint>, base: int) {
    forall k :: 0 <= k < |cps| ==> cps[k].index == base + k
  }

  /** One path's own chain in a list numbered from `base`: up and down links, and its two ends. */
  ghost predicate Chain(p: Path, cps: seq<Checkpoint>, base: int) {
    Run(p.start - base, p.end - base, cps, base)
  }

  /** Positions `s` to `e` of a list numbered from `base` are linked up and down, and to nothing beyond. */
  ghost predicate Run(s: int, e: int, cps: seq<Checkpoint>, base: int) {
    && 0 <= s < e < |cps|
    && (forall k :: s <= k < e ==> cps[k].up == base + k + 1)
    && (forall k :: s < k <= e ==> cps[k].down == base + k - 1)
    && cps[s].down == NoneCheckpoint && cps[e].up == NoneCheckpoint
  }

  /** Every path of the tree has its chain. */
  ghost predicate Links(p: Path, cps: seq<Checkpoint>, base: int) {
    forall n :: n in Nodes(p) ==> Chain(n, cps, base)
  }

  /**
   * The distances of one path's chain as GeneratePath stores them: `d` at
   * its last checkpoint, and each other one further than the next by the
   * step at the mirrored place of the chain (see `StepAt`).
   */
  ghost predicate ChainDists(g: Geometry, p: Path, cps: seq<Checkpoint>, base: int, d: real) {
    Steps(g, p.start - base, p.end - base, cps, d)
  }

  /** Distance `d` at position `e`, and each position from `s` on further than the next by a mirrored step. */
  ghost predicate Steps(g: Geometry, s: int, e: int, cps: seq<Checkpoint>, d: real) {
    && 0 <= s <= e < |cps|
    && cps[e].distFinish == d
    && forall k :: s <= k < e ==> StepAt(g, cps, s, e, k)
  }

  /**
   * Position `k` of the chain from `s` to `e` is further than the next one
   * by the step between positions s + e - k - 1 and s + e - k: the running
   * distances stored in reverse order step down by the steps taken from the
   * far end of the chain.
   */
  ghost predicate StepAt(g: Geometry, cps: seq<Checkpoint>, s: int, e: int, k: int) {
    && 0 <= s <= k < e < |cps|
    && cps[k].distFinish == cps[k + 1].distFinish + g.length(Sub(cps[s + e - k - 1].pos, cps[s + e - k].pos))
  }

  /**
   * Such distances are `d` plus the length of the chain from the first
   * checkpoint to the mirrored one: position k holds what GeneratePath
   * accumulated up to position s + e - k.
   */
  lemma {:induction false} StepsLength(g: Geometry, s: int, e: int, cps: seq<Checkpoint>, d: real, k: int)
    requires Steps(g, s, e, cps, d) && s <= k <= e
    ensures cps[k].distFinish == d + ChainLength(g, Positions(cps[s..s + e - k + 1]))
    decreases e - k
  {
    if k < e {
      StepsLength(g, s, e, cps, d, k + 1);
      StepBack(g, s, e, cps, d, k);
    } else {
      StepsEnd(g, s, e, cps, d, k);
    }
  }

  /** The base case of `StepsLength`: the last checkpoint holds `d`, and its chain is one checkpoint long. */
  lemma StepsEnd(g: Geometry, s: int, e: int, cps: seq<Checkpoint>, d: real, k: int)
    requires Steps(g, s, e, cps, d) && s <= k == e
    ensures cps[k].distFinish == d + ChainLength(g, Positions(cps[s..s + e - k + 1]))
  {
    assert s + e - k + 1 == s + 1;
    ChainSingle(g, cps, s);
  }

  /** The inductive step of `StepsLength`: from the checkpoint after `k` back to `k`. */
  lemma StepBack(g: Geometry, s: int, e: int, cps: seq<Checkpoint>, d: real, k: int)
    requires Steps(g, s, e, cps, d) && s <= k < e
    requires cps[k + 1].distFinish == d + ChainLength(g, Positions(cps[s..s + e - (k + 1) + 1]))
    ensures cps[k].distFinish == d + ChainLength(g, Positions(cps[s..s + e - k + 1]))
  {
    assert cps[s..s + e - (k + 1) + 1] == cps[s..s + e - k];
    assert StepAt(g, cps, s, e, k);
    ChainStep(g, cps, s, e, k);
  }

  /** The chain through one checkpoint has no length. */
  lemma ChainSingle(g: Geometry, cps: seq<Checkpoint>, s: int)
    requires 0 <= s < |cps|
    ensures ChainLength(g, Positions(cps[s..s + 1])) == 0.0
  {
    assert |Positions(cps[s..s + 1])| == 1;
  }

  /**
   * The chain through checkpoints s to s + e - k is the one through s to
   * s + e - k - 1 and one more step (the step `StepAt` names for `k`).
   */
  lemma ChainStep(g: Geometry, cps: seq<Checkpoint>, s: int, e: int, k: int)
    requires 0 <= s <= k < e < |cps|
    ensures ChainLength(g, Positions(cps[s..s + e - k + 1])) ==
      ChainLength(g, Positions(cps[s..s + e - k])) + g.length(Sub(cps[s + e - k - 1].pos, cps[s + e - k].pos))
  {
    var w, v := Positions(cps[s..s + e - k + 1]), Positions(cps[s..s + e - k]);
    assert w[..|w| - 1] == v;
    assert w[|w| - 2] == cps[s + e - k - 1].pos && w[|w| - 1] == cps[s + e - k].pos;
  }

  /** Every path of the tree has its distances, 0 at the last checkpoint of each. */
  ghost predicate Dists(g: Geometry, p: Path, cps: seq<Checkpoint>, base: int) {
    forall n :: n in Nodes(p) ==> ChainDists(g, n, cps, base, 0.0)
  }

  /**
   * The sideways links GeneratePath makes at the top of a tree: the first
   * and last own checkpoints link to the first and the last checkpoint of
   * the list of each sub-tree, on that sub-tree's side, and those two link
   * back; a side without a sub-tree has no links, nor has the middle of
   * the own chain.
   */
  ghost predicate Crossed(p: Path, cps: seq<Checkpoint>, base: int) {
    var s, e := p.start - base, p.end - base;
    && 0 <= s < e < |cps|
    && (forall k :: s < k < e ==> cps[k].left == NoneCheckpoint && cps[k].right == NoneCheckpoint)
    && (match p.left
        case None => cps[s].left == NoneCheckpoint && cps[e].left == NoneCheckpoint
        case Some(l) =>
          && cps[s].left == l.start && cps[e].left == Last(l)
          && base <= l.start <= Last(l) < base + |cps|
          && cps[l.start - base].right == p.start && cps[Last(l) - base].right == p.end)
    && (match p.right
        case None => cps[s].right == NoneCheckpoint && cps[e].right == NoneCheckpoint
        case Some(r) =>
          && cps[s].right == r.start && cps[e].right == Last(r)
          && base <= r.start <= Last(r) < base + |cps|
          && cps[r.start - base].left == p.start && cps[Last(r) - base].left == p.end)
  }

  // ---------------------------------------------------------------------
  // Moving and relinking checkpoint lists
  // ---------------------------------------------------------------------

  /** A checkpoint with its sideways links blanked out. */
  function Core(c: Checkpoint): Checkpoint {
    c.(left := 0, right := 0)
  }

  /** The list with every sideways link blanked out. */
  function Cores(cps: seq<Checkpoint>): (r: seq<Checkpoint>)
    ensures |r| == |cps|
  {
    seq(|cps|, k requires 0 <= k < |cps| => Core(cps[k]))
  }

  /** `big` holds `c` from position `off`, with the same numbers, positions, links up and down and distances. */
  ghost predicate Holds(big: seq<Checkpoint>, off: nat, c: seq<Checkpoint>) {
    off + |c| <= |big| && forall k :: 0 <= k < |c| ==> HeldAt(big, off, c, k)
  }

  /** Position `k` of `c` is position `off + k` of `big`, but for the sideways links. */
  ghost predicate HeldAt(big: seq<Checkpoint>, off: nat, c: seq<Checkpoint>, k: int) {
    0 <= k < |c| && off + k < |big| && Core(big[off + k]) == Core(c[k])
  }

  /** What a list holds at one position: the checkpoint apart from its sideways links. */
  lemma HoldsAt(big: seq<Checkpoint>, off: nat, c: seq<Checkpoint>, k: int)
    requires Holds(big, off, c) && 0 <= k < |c|
    ensures Core(big[off + k]) == Core(c[k])
  {
    assert HeldAt(big, off, c, k);
  }

  lemma RunMove(s: int, e: int, c: seq<Checkpoint>, base: int, big: seq<Checkpoint>, off: nat, to: int)
    requires Run(s, e, c, base) && Holds(big, off, c) && to == base - off
    ensures Run(s + off, e + off, big, to)
  {
    HoldsAt(big, off, c, s);
    HoldsAt(big, off, c, e);
    forall k | s + off <= k < e + off ensures big[k].up == to + k + 1 {
      HoldsAt(big, off, c, k - off);
    }
    forall k | s + off < k <= e + off ensures big[k].down == to + k - 1 {
      HoldsAt(big, off, c, k - off);
    }
  }

  lemma ChainMove(p: Path, c: seq<Checkpoint>, base: int, big: seq<Checkpoint>, off: nat, to: int)
    requires Chain(p, c, base) && Holds(big, off, c) && to == base - off
    ensures Chain(p, big, to)
  {
    RunMove(p.start - base, p.end - base, c, base, big, off, to);
    assert p.start - to == p.start - base + off && p.end - to == p.end - base + off;
  }

  lemma StepsMove(g: Geometry, s: int, e: int, c: seq<Checkpoint>, d: real, big: seq<Checkpoint>, off: nat)
    requires Steps(g, s, e, c, d) && Holds(big, off, c)
    ensures Steps(g, s + off, e + off, big, d)
  {
    HoldsAt(big, off, c, e);
    var s', e' := s + off, e + off;
    forall k | s' <= k < e' ensures StepAt(g, big, s', e', k) {
      assert StepAt(g, c, s, e, k - off);
      HoldsAt(big, off, c, k - off);
      HoldsAt(big, off, c, k - off + 1);
      HoldsAt(big, off, c, s + e - (k - off) - 1);
      HoldsAt(big, off, c, s + e - (k - off));
    }
  }

  lemma ChainDistsMove(g: Geometry, p: Path, c: seq<Checkpoint>, base: int, d: real, big: seq<Checkpoint>, off: nat, to: int)
    requires ChainDists(g, p, c, base, d) && Holds(big, off, c) && to == base - off
    ensures ChainDists(g, p, big, to, d)
  {
    StepsMove(g, p.start - base, p.end - base, c, d, big, off);
    assert p.start - to == p.start - base + off && p.end - to == p.end - base + off;
  }

  lemma LinksMove(p: Path, c: seq<Checkpoint>, base: int, big: seq<Checkpoint>, off: nat, to: int)
    requires Links(p, c, base) && Holds(big, off, c) && to == base - off
    ensures Links(p, big, to)
  {
    forall n | n in Nodes(p) ensures Chain(n, big, to) {
      ChainMove(n, c, base, big, off, to);
    }
  }

  lemma DistsMove(g: Geometry, p: Path, c: seq<Checkpoint>, base: int, big: seq<Checkpoint>, off: nat, to: int)
    requires Dists(g, p, c, base) && Holds(big, off, c) && to == base - off
    ensures Dists(g, p, big, to)
  {
    forall n | n in Nodes(p) ensures ChainDists(g, n, big, to, 0.0) {
      ChainDistsMove(g, n, c, base, 0.0, big, off, to);
    }
  }

  lemma SameButTagsTrans(q1: seq<Quadblock>, q2: seq<Quadblock>, q3: seq<Quadblock>)
    requires SameButTags(q1, q2) && SameButTags(q2, q3)
    ensures SameButTags(q1, q3)
  {
  }

  /** Both halves of a list of quads of the level are. */
  lemma BelowSplit(a: seq<nat>, b: seq<nat>, n: nat)
    requires Below(a + b, n)
    ensures Below(a, n) && Below(b, n)
  {
    assert forall k :: 0 <= k < |a| ==> (a + b)[k] == a[k];
    assert forall k :: 0 <= k < |b| ==> (a + b)[|a| + k] == b[k];
  }

  /** The quads a sub-tree lists are among the quads its parent lists. */
  lemma StartEndSub(p: Path, n: nat)
    requires Below(StartEnd(p), n)
    ensures p.left.Some? ==> Below(StartEnd(p.left.value), n)
    ensures p.right.Some? ==> Below(StartEnd(p.right.value), n)
  {
    var ls := if p.left.Some? then StartEnd(p.left.value) else [];
    var rs := if p.right.Some? then StartEnd(p.right.value) else [];
    assert StartEnd(p) == ls + rs + p.quadsStart + p.quadsIgnore + p.quadsEnd;
    BelowSplit(ls + rs + p.quadsStart + p.quadsIgnore, p.quadsEnd, n);
    BelowSplit(ls + rs + p.quadsStart, p.quadsIgnore, n);
    BelowSplit(ls + rs, p.quadsStart, n);
    BelowSplit(ls, rs, n);
  }

  // ---------------------------------------------------------------------
  // GeneratePath
  // ---------------------------------------------------------------------

  /** Two lists that differ at most in the sideways links. */
  ghost predicate SameButSides(a: seq<Checkpoint>, b: seq<Checkpoint>) {
    Cores(a) == Cores(b)
  }


  /**
   * The links GeneratePath makes to a left sub-tree's list `sub`: the
   * path's last and first own checkpoints link left to the last and first
   * of `sub`, and those link right back to them.
   */
  ghost predicate LinkedLeft(own: seq<Checkpoint>, own': seq<Checkpoint>, sub: seq<Checkpoint>, sub': seq<Checkpoint>)
    requires |own| >= 2 && |sub| >= 2
  {
    && SameButSides(own, own') && SameButSides(sub, sub')
    && own'[|own| - 1].left == sub[|sub| - 1].index && own'[0].left == sub[0].index
    && (forall k :: 0 < k < |own| - 1 ==> own'[k].left == own[k].left)
    && (forall k :: 0 <= k < |own| ==> own'[k].right == own[k].right)
    && sub'[|sub| - 1].right == own[|own| - 1].index && sub'[0].right == own[0].index
    && (forall k :: 0 < k < |sub| - 1 ==> sub'[k].right == sub[k].right)
    && (forall k :: 0 <= k < |sub| ==> sub'[k].left == sub[k].left)
  }

  /** The same for a right sub-tree, with the sides swapped. */
  ghost predicate LinkedRight(own: seq<Checkpoint>, own': seq<Checkpoint>, sub: seq<Checkpoint>, sub': seq<Checkpoint>)
    requires |own| >= 2 && |sub| >= 2
  {
    && SameButSides(own, own') && SameButSides(sub, sub')
    && own'[|own| - 1].right == sub[|sub| - 1].index && own'[0].right == sub[0].index
    && (forall k :: 0 < k < |own| - 1 ==> own'[k].right == own[k].right)
    && (forall k :: 0 <= k < |own| ==> own'[k].left == own[k].left)
    && sub'[|sub| - 1].left == own[|own| - 1].index && sub'[0].left == own[0].index
    && (forall k :: 0 < k < |sub| - 1 ==> sub'[k].left == sub[k].left)
    && (forall k :: 0 <= k < |sub| ==> sub'[k].right == sub[k].right)
  }

  method LinkLeft(own: seq<Checkpoint>, sub: seq<Checkpoint>) returns (own': seq<Checkpoint>, sub': seq<Checkpoint>)
    requires |own| >= 2 && |sub| >= 2
    ensures LinkedLeft(own, own', sub, sub')
  {
    own' := own[|own| - 1 := own[|own| - 1].(left := sub[|sub| - 1].index)];
    own' := own'[0 := own'[0].(left := sub[0].index)];
    sub' := sub[|sub| - 1 := sub[|sub| - 1].(right := own'[|own| - 1].index)];
    sub' := sub'[0 := sub'[0].(right := own'[0].index)];
  }

  method LinkRight(own: seq<Checkpoint>, sub: seq<Checkpoint>) returns (own': seq<Checkpoint>, sub': seq<Checkpoint>)
    requires |own| >= 2 && |sub| >= 2
    ensures LinkedRight(own, own', sub, sub')
  {
    own' := own[|own| - 1 := own[|own| - 1].(right := sub[|sub| - 1].index)];
    own' := own'[0 := own'[0].(right := sub[0].index)];
    sub' := sub[|sub| - 1 := sub[|sub| - 1].(left := own'[|own| - 1].index)];
    sub' := sub'[0 := sub'[0].(left := own'[0].index)];
  }

  /**
   * What GeneratePath promises of a tree `p` generated from `base` as `q`
   * with list `cps`.
   */
  ghost predicate Generated(g: Geometry, p: Path, q: Path, cps: seq<Checkpoint>, base: int) {
    && SameShape(p, q) && Numbered(q, base) && Last(q) == base + |cps| - 1
    && Indexed(cps, base)
    && Links(q, cps, base) && Dists(g, q, cps, base)
    && Crossed(q, cps, base)
  }

  /**
   * The path's own part, before any sub-tree is attached, as the tree `q`
   * numbers it: its chain and distances, its numbers, no sideways links.
   */
  ghost predicate OwnPart(g: Geometry, q: Path, own: seq<Checkpoint>, base: int) {
    && |own| >= 2 && q.start == base && q.end == base + |own| - 1
    && Indexed(own, base)
    && Chain(q, own, base) && ChainDists(g, q, own, base, 0.0)
    && (forall k :: 0 <= k < |own| ==> own[k].left == NoneCheckpoint && own[k].right == NoneCheckpoint)
  }

  lemma OwnPartOf(g: Geometry, quads: seq<Quadblock>, p: Path, q: Path, own: seq<Checkpoint>, base: int)
    requires Below(p.quadsStart, |quads|) && Below(p.quadsEnd, |quads|)
    requires OwnChain(g, quads, p, own, base)
    requires q.quadsStart == p.quadsStart && q.quadsEnd == p.quadsEnd
    requires q.start == base && q.end == base + |own| - 1
    ensures OwnPart(g, q, own, base)
  {
    var e := |own| - 1;
    forall k | 0 <= k < e ensures StepAt(g, own, 0, e, k) {
      assert OwnStepAt(g, own, k);
    }
  }

  /** Relinking sideways keeps the numbers. */
  lemma IndexedSides(a: seq<Checkpoint>, b: seq<Checkpoint>, base: int)
    requires Indexed(a, base) && SameButSides(a, b)
    ensures Indexed(b, base)
  {
    forall k | 0 <= k < |b| ensures b[k].index == base + k {
      assert Cores(b)[k] == Cores(a)[k];
    }
  }



  lemma HoldsSame(a: seq<Checkpoint>, b: seq<Checkpoint>)
    requires SameButSides(a, b)
    ensures Holds(b, 0, a)
  {
    forall k | 0 <= k < |a| ensures HeldAt(b, 0, a, k) {
      assert Cores(b)[k] == Cores(a)[k];
    }
  }

  /** Relinking sideways keeps the links up and down, the distances and the numbers. */
  lemma TreeSides(g: Geometry, q: Path, a: seq<Checkpoint>, b: seq<Checkpoint>, base: int)
    requires Links(q, a, base) && Dists(g, q, a, base) && Indexed(a, base) && SameButSides(a, b)
    ensures Links(q, b, base) && Dists(g, q, b, base) && Indexed(b, base)
  {
    HoldsSame(a, b);
    LinksMove(q, a, base, b, 0, base);
    DistsMove(g, q, a, base, b, 0, base);
    IndexedSides(a, b, base);
  }

  /**
   * One side of a tree, its shape: no sub-tree and no list, or a sub-tree
   * of the side's path numbered from `next` and ending where its list does.
   */
  ghost predicate SideShape(p: Option<Path>, q: Option<Path>, sub: seq<Checkpoint>, next: int) {
    match q
    case None => p.None? && sub == []
    case Some(t) =>
      && p.Some? && |sub| >= 2
      && SameShape(p.value, t) && Numbered(t, next) && Last(t) == next + |sub| - 1
  }

  /** A side's sub-tree, if any, has its chains and distances in `cps`. */
  ghost predicate Placed(g: Geometry, q: Option<Path>, cps: seq<Checkpoint>, base: int) {
    match q
    case None => true
    case Some(p) => Links(p, cps, base) && Dists(g, p, cps, base)
  }

  /** One side of a tree, its list: numbered from `next`, with the sub-tree's links and distances. */
  ghost predicate SideLists(g: Geometry, q: Option<Path>, sub: seq<Checkpoint>, next: int) {
    match q
    case None => Indexed(sub, next)
    case Some(p) => Indexed(sub, next) && Links(p, sub, next) && Dists(g, p, sub, next)
  }


  /**
   * The sideways links made to a left sub-tree `q` with list `sub`: the
   * first and last own checkpoints link left to the first and last of
   * the sub-tree's, and those link right back; nothing else changes.
   */
  ghost predicate AttachedLeft(own: seq<Checkpoint>, own': seq<Checkpoint>, sub: seq<Checkpoint>, q: Option<Path>) {
    && |own| >= 2 && SameButSides(own, own')
    && (match q
        case None => own' == own && sub == []
        case Some(t) =>
          && |sub| >= 2
          && sub[0].right == own[0].index && sub[|sub| - 1].right == own[|own| - 1].index
          && own'[0].left == t.start && own'[|own| - 1].left == Last(t)
          && (forall k :: 0 < k < |own| - 1 ==> own'[k].left == own[k].left)
          && (forall k :: 0 <= k < |own| ==> own'[k].right == own[k].right))
  }

  /** The same for a right sub-tree, with the sides swapped. */
  ghost predicate AttachedRight(own: seq<Checkpoint>, own': seq<Checkpoint>, sub: seq<Checkpoint>, q: Option<Path>) {
    && |own| >= 2 && SameButSides(own, own')
    && (match q
        case None => own' == own && sub == []
        case Some(t) =>
          && |sub| >= 2
          && sub[0].left == own[0].index && sub[|sub| - 1].left == own[|own| - 1].index
          && own'[0].right == t.start && own'[|own| - 1].right == Last(t)
          && (forall k :: 0 < k < |own| - 1 ==> own'[k].right == own[k].right)
          && (forall k :: 0 <= k < |own| ==> own'[k].left == own[k].left))
  }

  /** A generated tree, relinked sideways, is such a sub-tree. */
  lemma GeneratedSub(g: Geometry, p: Path, q: Path, sub: seq<Checkpoint>, sub': seq<Checkpoint>, next: int)
    requires Generated(g, p, q, sub, next) && SameButSides(sub, sub')
    ensures SideShape(Some(p), Some(q), sub', next) && SideLists(g, Some(q), sub', next)
  {
    TreeSides(g, q, sub, sub', next);
  }

  /** A generated left sub-tree, linked to the path's own ends, is attached. */
  lemma LeftAttached(g: Geometry, side: Option<Path>, q: Path, l: seq<Checkpoint>, own: seq<Checkpoint>,
                     own': seq<Checkpoint>, sub: seq<Checkpoint>, sp: Option<Path>, next: int)
    requires side.Some? && sp == Some(q) && |own| >= 2 && |l| >= 2
    requires Generated(g, side.value, q, l, next) && LinkedLeft(own, own', l, sub)
    ensures SideShape(side, sp, sub, next) && SideLists(g, sp, sub, next) && AttachedLeft(own, own', sub, sp)
  {
    GeneratedSub(g, side.value, q, l, sub, next);
  }

  /** The same for a right sub-tree. */
  lemma RightAttached(g: Geometry, side: Option<Path>, q: Path, r: seq<Checkpoint>, own: seq<Checkpoint>,
                      own': seq<Checkpoint>, sub: seq<Checkpoint>, sp: Option<Path>, next: int)
    requires side.Some? && sp == Some(q) && |own| >= 2 && |r| >= 2
    requires Generated(g, side.value, q, r, next) && LinkedRight(own, own', r, sub)
    ensures SideShape(side, sp, sub, next) && SideLists(g, sp, sub, next) && AttachedRight(own, own', sub, sp)
  {
    GeneratedSub(g, side.value, q, r, sub, next);
  }

  /**
   * GeneratePath's step for the left sub-tree, if there is one: generate
   * it from `next`, then link the ends of the path's own checkpoints to it.
   */
  method AttachLeft(g: Geometry, p: Path, quads: seq<Quadblock>, own: seq<Checkpoint>, next: nat)
    returns (own': seq<Checkpoint>, sub: seq<Checkpoint>, sp: Option<Path>, quads': seq<Quadblock>)
    requires Ready(p) && Below(StartEnd(p), |quads|) && |own| >= 2
    ensures SameButTags(quads, quads')
    ensures SideShape(p.left, sp, sub, next) && SideLists(g, sp, sub, next) && AttachedLeft(own, own', sub, sp)
    decreases p, 0
  {
    own', sub, sp, quads' := own, [], None, quads;
    if p.left.Some? {
      StartEndSub(p, |quads|);
      var l, lq, lp := GeneratePath(g, p.left.value, quads, next);
      own', sub := LinkLeft(own, l);
      sp, quads' := Some(lp), lq;
      LeftAttached(g, p.left, lp, l, own, own', sub, sp, next);
    }
  }

  /** The same for the right sub-tree, with the sides swapped. */
  method AttachRight(g: Geometry, p: Path, quads: seq<Quadblock>, own: seq<Checkpoint>, next: nat)
    returns (own': seq<Checkpoint>, sub: seq<Checkpoint>, sp: Option<Path>, quads': seq<Quadblock>)
    requires Ready(p) && Below(StartEnd(p), |quads|) && |own| >= 2
    ensures SameButTags(quads, quads')
    ensures SideShape(p.right, sp, sub, next) && SideLists(g, sp, sub, next) && AttachedRight(own, own', sub, sp)
    decreases p, 0
  {
    own', sub, sp, quads' := own, [], None, quads;
    if p.right.Some? {
      StartEndSub(p, |quads|);
      var r, rq, rp := GeneratePath(g, p.right.value, quads, next);
      own', sub := LinkRight(own, r);
      sp, quads' := Some(rp), rq;
      RightAttached(g, p.right, rp, r, own, own', sub, sp, next);
    }
  }

  /** The numbering and shape of the assembled tree. */
  lemma ShapeJoin(g: Geometry, p: Path, q: Path, m: int, lp: Option<Path>, left: seq<Checkpoint>,
                  rp: Option<Path>, right: seq<Checkpoint>, base: nat)
    requires m >= 2 && q == p.(start := base, end := base + m - 1, left := lp, right := rp)
    requires SideShape(p.left, lp, left, base + m) && SideShape(p.right, rp, right, base + m + |left|)
    ensures SameShape(p, q) && Numbered(q, base) && Last(q) == base + m + |left| + |right| - 1
    ensures lp.Some? ==> lp.value.start == base + m && Last(lp.value) == base + m + |left| - 1
    ensures rp.Some? ==> rp.value.start == base + m + |left| && Last(rp.value) == base + m + |left| + |right| - 1
  {
    SameShapeJoin(p, q, lp, left, rp, right, base + m);
    NumberedJoin(p, q, m, lp, left, rp, right, base);
    LastJoin(q, lp, left, rp, right, base + m);
  }

  lemma SameShapeJoin(p: Path, q: Path, lp: Option<Path>, left: seq<Checkpoint>,
                      rp: Option<Path>, right: seq<Checkpoint>, next: int)
    requires q.index == p.index && q.quadsStart == p.quadsStart && q.quadsIgnore == p.quadsIgnore && q.quadsEnd == p.quadsEnd
    requires q.left == lp && q.right == rp
    requires SideShape(p.left, lp, left, next) && SideShape(p.right, rp, right, next + |left|)
    ensures SameShape(p, q)
  {
  }

  lemma NumberedJoin(p: Path, q: Path, m: int, lp: Option<Path>, left: seq<Checkpoint>,
                     rp: Option<Path>, right: seq<Checkpoint>, base: int)
    requires m >= 2 && q.start == base && q.end == base + m - 1 && q.left == lp && q.right == rp
    requires SideShape(p.left, lp, left, base + m) && SideShape(p.right, rp, right, base + m + |left|)
    ensures Numbered(q, base)
  {
  }

  lemma LastJoin(q: Path, lp: Option<Path>, left: seq<Checkpoint>, rp: Option<Path>, right: seq<Checkpoint>, next: int)
    requires q.end == next - 1 && q.left == lp && q.right == rp
    requires match lp case None => left == [] case Some(t) => Last(t) == next + |left| - 1
    requires match rp case None => right == [] case Some(t) => Last(t) == next + |left| + |right| - 1
    ensures Last(q) == next + |left| + |right| - 1
  {
  }

  /** Each of three lists is held where it lies in their concatenation. */
  lemma Thirds(a: seq<Checkpoint>, b: seq<Checkpoint>, c: seq<Checkpoint>, big: seq<Checkpoint>, i: nat, j: nat)
    requires big == a + b + c && i == |a| && j == |a| + |b|
    ensures Holds(big, 0, a) && Holds(big, i, b) && Holds(big, j, c)
  {
    forall k | 0 <= k < |a| ensures HeldAt(big, 0, a, k) {
      assert big[k] == a[k];
    }
    forall k | 0 <= k < |b| ensures HeldAt(big, i, b, k) {
      assert big[i + k] == b[k];
    }
    forall k | 0 <= k < |c| ensures HeldAt(big, j, c, k) {
      assert big[j + k] == c[k];
    }
  }

  /** What holds a list holds any sideways relinking of it. */
  lemma HoldsSides(big: seq<Checkpoint>, off: nat, c: seq<Checkpoint>, c': seq<Checkpoint>)
    requires Holds(big, off, c') && SameButSides(c, c')
    ensures Holds(big, off, c)
  {
    forall k | 0 <= k < |c| ensures HeldAt(big, off, c, k) {
      assert HeldAt(big, off, c', k);
      assert Cores(c)[k] == Cores(c')[k];
    }
  }

  /** The own part placed first in the assembled list keeps its chain and distances there. */
  lemma OwnPlaced(g: Geometry, top: Path, q: Path, own: seq<Checkpoint>, big: seq<Checkpoint>, base: int)
    requires OwnPart(g, top, own, base) && Holds(big, 0, own) && q.start == top.start && q.end == top.end
    ensures Chain(q, big, base) && ChainDists(g, q, big, base, 0.0)
  {
    ChainMove(top, own, base, big, 0, base);
    ChainDistsMove(g, top, own, base, 0.0, big, 0, base);
  }

  /** Three numbered lists one after the other make one. */
  lemma IndexedJoin(a: seq<Checkpoint>, b: seq<Checkpoint>, c: seq<Checkpoint>, base: int)
    requires Indexed(a, base) && Indexed(b, base + |a|) && Indexed(c, base + |a| + |b|)
    ensures Indexed(a + b + c, base)
  {
    var big := a + b + c;
    forall k | 0 <= k < |big| ensures big[k].index == base + k {
      if k < |a| {
        assert big[k] == a[k];
      } else if k < |a| + |b| {
        assert big[k] == b[k - |a|];
      } else {
        assert big[k] == c[k - |a| - |b|];
      }
    }
  }

  /** A tree's chains: its own path's and its sub-trees'. */
  lemma TreeJoin(g: Geometry, q: Path, cps: seq<Checkpoint>, base: int)
    requires Chain(q, cps, base) && ChainDists(g, q, cps, base, 0.0)
    requires Placed(g, q.left, cps, base) && Placed(g, q.right, cps, base)
    ensures Links(q, cps, base) && Dists(g, q, cps, base)
  {
  }

  /** The sideways links of the assembled tree, at its top. */
  lemma CrossedJoin(q: Path, own: seq<Checkpoint>, ownL: seq<Checkpoint>, ownR: seq<Checkpoint>,
                    left: seq<Checkpoint>, right: seq<Checkpoint>, base: int)
    requires q.start == base && q.end == base + |own| - 1 && Indexed(own, base)
    requires forall k :: 0 <= k < |own| ==> own[k].left == NoneCheckpoint && own[k].right == NoneCheckpoint
    requires AttachedLeft(own, ownL, left, q.left) && AttachedRight(ownL, ownR, right, q.right)
    requires q.left.Some? ==> q.left.value.start == base + |own| && Last(q.left.value) == base + |own| + |left| - 1
    requires q.right.Some? ==> q.right.value.start == base + |own| + |left|
                               && Last(q.right.value) == base + |own| + |left| + |right| - 1
    ensures Crossed(q, ownR + left + right, base)
  {
    var cps := ownR + left + right;
    var m := |own|;
    IndexedSides(own, ownL, base);
    assert ownL[0].index == base && ownL[m - 1].index == base + m - 1;
    assert forall k :: 0 <= k < m ==> cps[k] == ownR[k];
    if q.left.Some? {
      assert cps[m] == left[0] && cps[m + |left| - 1] == left[|left| - 1];
    }
    if q.right.Some? {
      assert cps[m + |left|] == right[0] && cps[m + |left| + |right| - 1] == right[|right| - 1];
    }
  }

  /** GeneratePath's first step, stated as no more than the tree walk needs: the path's own chain, and quads changed in tags only. */
  method OwnOf(g: Geometry, p: Path, quads: seq<Quadblock>, base: nat) returns (own: seq<Checkpoint>, quads': seq<Quadblock>, m: nat)
    requires Ready(p) && Below(StartEnd(p), |quads|)
    ensures m == |own| >= 2 && OwnPart(g, p.(start := base, end := base + m - 1), own, base)
    ensures SameButTags(quads, quads')
  {
    ghost var chunks;
    own, quads', chunks := GenerateOwn(g, p, quads, base);
    m := |own|;
    TagChunksSame(quads, chunks, base);
    OwnPartOf(g, quads, p, p.(start := base, end := base + m - 1), own, base);
  }

  /** The assembled tree is generated, given its own part and its two sides. */
  lemma Assemble(g: Geometry, p: Path, own: seq<Checkpoint>, ownL: seq<Checkpoint>, ownR: seq<Checkpoint>,
                 left: seq<Checkpoint>, lp: Option<Path>, right: seq<Checkpoint>, rp: Option<Path>, base: nat, m: nat,
                 q: Path, cps: seq<Checkpoint>)
    requires m == |own| >= 2 && OwnPart(g, p.(start := base, end := base + m - 1), own, base)
    requires SideShape(p.left, lp, left, base + m) && SideLists(g, lp, left, base + m)
    requires SideShape(p.right, rp, right, base + m + |left|) && SideLists(g, rp, right, base + m + |left|)
    requires AttachedLeft(own, ownL, left, lp) && AttachedRight(ownL, ownR, right, rp)
    requires q == p.(start := base, end := base + m - 1, left := lp, right := rp) && cps == ownR + left + right
    ensures Generated(g, p, q, cps, base)
  {
    ShapeJoin(g, p, q, m, lp, left, rp, right, base);
    AssembleIndexed(own, ownL, ownR, left, right, cps, base, m);
    AssembleLists(g, p.(start := base, end := base + m - 1), q, own, ownL, ownR, left, right, cps, base, m);
    CrossedJoin(q, own, ownL, ownR, left, right, base);
  }

  /** The assembled list is numbered from `base`. */
  lemma AssembleIndexed(own: seq<Checkpoint>, ownL: seq<Checkpoint>, ownR: seq<Checkpoint>,
                        left: seq<Checkpoint>, right: seq<Checkpoint>, cps: seq<Checkpoint>, base: int, m: nat)
    requires m == |own| && Indexed(own, base) && SameButSides(own, ownL) && SameButSides(ownL, ownR)
    requires Indexed(left, base + m) && Indexed(right, base + m + |left|)
    requires cps == ownR + left + right
    ensures Indexed(cps, base)
  {
    IndexedSides(own, ownL, base);
    IndexedSides(ownL, ownR, base);
    IndexedJoin(ownR, left, right, base);
  }

  /** The links of a side, moved to where the side is placed. */
  lemma SideLinksMove(g: Geometry, q: Option<Path>, sub: seq<Checkpoint>, next: int, big: seq<Checkpoint>, off: nat, to: int)
    requires SideLists(g, q, sub, next) && q.Some? && Holds(big, off, sub) && to == next - off
    ensures Links(q.value, big, to)
  {
    LinksMove(q.value, sub, next, big, off, to);
  }

  /** The distances of a side, moved to where the side is placed. */
  lemma SideDistsMove(g: Geometry, q: Option<Path>, sub: seq<Checkpoint>, next: int, big: seq<Checkpoint>, off: nat, to: int)
    requires SideLists(g, q, sub, next) && q.Some? && Holds(big, off, sub) && to == next - off
    ensures Dists(g, q.value, big, to)
  {
    DistsMove(g, q.value, sub, next, big, off, to);
  }

  /** A side placed at `off` in the assembled list keeps its links and distances there. */
  lemma SideAt(g: Geometry, q: Option<Path>, sub: seq<Checkpoint>, next: int, big: seq<Checkpoint>, base: int, off: nat)
    requires SideLists(g, q, sub, next) && Holds(big, off, sub) && next == base + off
    ensures Placed(g, q, big, base)
  {
    if q.Some? {
      SideLinksMove(g, q, sub, next, big, off, base);
      SideDistsMove(g, q, sub, next, big, off, base);
    }
  }

  /** Both sides placed after the own part keep their links and distances there. */
  lemma SidesPlaced(g: Geometry, lp: Option<Path>, left: seq<Checkpoint>, rp: Option<Path>, right: seq<Checkpoint>,
                    ownR: seq<Checkpoint>, cps: seq<Checkpoint>, base: int, m: nat)
    requires |ownR| == m && cps == ownR + left + right
    requires SideLists(g, lp, left, base + m) && SideLists(g, rp, right, base + m + |left|)
    ensures Holds(cps, 0, ownR)
    ensures Placed(g, lp, cps, base) && Placed(g, rp, cps, base)
  {
    Thirds(ownR, left, right, cps, m, m + |left|);
    SideAt(g, lp, left, base + m, cps, base, m);
    SideAt(g, rp, right, base + m + |left|, cps, base, m + |left|);
  }

  /** The assembled list holds the chains and distances of the whole tree. */
  lemma AssembleLists(g: Geometry, top: Path, q: Path, own: seq<Checkpoint>, ownL: seq<Checkpoint>, ownR: seq<Checkpoint>,
                      left: seq<Checkpoint>, right: seq<Checkpoint>, cps: seq<Checkpoint>, base: int, m: nat)
    requires m == |own| && OwnPart(g, top, own, base) && q.start == top.start && q.end == top.end
    requires SideLists(g, q.left, left, base + m) && SideLists(g, q.right, right, base + m + |left|)
    requires SameButSides(own, ownL) && SameButSides(ownL, ownR)
    requires cps == ownR + left + right
    ensures Links(q, cps, base) && Dists(g, q, cps, base)
  {
    SidesPlaced(g, q.left, left, q.right, right, ownR, cps, base, m);
    HoldsSides(cps, 0, ownL, ownR);
    HoldsSides(cps, 0, own, ownL);
    OwnPlaced(g, top, q, own, cps, base);
    TreeJoin(g, q, cps, base);
  }

  /**
   * Path::GeneratePath: the path's own checkpoints numbered from `base`,
   * then the left sub-tree's and the right sub-tree's, each generated with
   * the quads as the previous step left them; the path records where its
   * own checkpoints start and end, and the ends are linked sideways to the
   * sub-trees'.
   */
  method GeneratePath(g: Geometry, p: Path, quads: seq<Quadblock>, base: nat)
    returns (cps: seq<Checkpoint>, quads': seq<Quadblock>, p': Path)
    requires Ready(p) && Below(StartEnd(p), |quads|)
    ensures Generated(g, p, p', cps, base)
    ensures SameButTags(quads, quads')
    decreases p, 1
  {
    var own, tagged, m := OwnOf(g, p, quads, base);
    var ownL, left, lp, qL := AttachLeft(g, p, tagged, own, base + m);
    SameButTagsTrans(quads, tagged, qL);
    var ownR, right, rp, qR := AttachRight(g, p, qL, ownL, base + m + |left|);
    SameButTagsTrans(quads, qL, qR);
    cps := ownR + left + right;
    p' := p.(start := base, end := base + m - 1, left := lp, right := rp);
    quads' := qR;
    Assemble(g, p, own, ownL, ownR, left, lp, right, rp, base, m, p', cps);
  }
}
