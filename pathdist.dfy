// Path::UpdateDist: once a path's checkpoints are generated, the distance
// from the end of the path to whatever follows it is added to the distance
// of every checkpoint of the path, and the same is done, from the path's
// last checkpoint, to its sub-paths.  The checkpoint list is the level's
// whole list, so numbers are positions (base 0).

module PathDist {
  import opened Wrappers
  import opened Geo
  import opened Paths
  import opened PathTree

  /** Every path of the tree has its own checkpoints inside a list of `n`. */
  ghost predicate Spans(p: Path, n: nat)
    decreases p
  {
    && p.start <= p.end < n
    && (p.left.Some? ==> Spans(p.left.value, n))
    && (p.right.Some? ==> Spans(p.right.value, n))
  }

  /** The distance to the finish from a checkpoint at `v`, the next point being `ref` at distance `dist`. */
  function Reach(g: Geometry, dist: real, ref: Vec3, v: Vec3): real {
    dist + g.length(Sub(ref, v))
  }

  /** Positions `s` to `e` further from the finish by `d`. */
  function AddDist(cps: seq<Checkpoint>, s: int, e: int, d: real): (r: seq<Checkpoint>)
    ensures |r| == |cps|
  {
    seq(|cps|, k requires 0 <= k < |cps| =>
      if s <= k <= e then cps[k].(distFinish := d + cps[k].distFinish) else cps[k])
  }

  /** What UpdateDist makes of the list: the path's own checkpoints raised, then its sub-trees from its last one. */
  function Raise(g: Geometry, p: Path, cps: seq<Checkpoint>, dist: real, ref: Vec3): (r: seq<Checkpoint>)
    requires Spans(p, |cps|)
    ensures |r| == |cps|
    decreases p
  {
    var d := Reach(g, dist, ref, cps[p.end].pos);
    var own := AddDist(cps, p.start, p.end, d);
    var l := if p.left.Some? then Raise(g, p.left.value, own, d, own[p.end].pos) else own;
    if p.right.Some? then Raise(g, p.right.value, l, d, l[p.end].pos) else l
  }

  /** Two checkpoint lists that differ at most in the distances to the finish. */
  ghost predicate SameButDist(a: seq<Checkpoint>, b: seq<Checkpoint>) {
    |a| == |b| && forall k :: 0 <= k < |a| ==> b[k] == a[k].(distFinish := b[k].distFinish)
  }

  /** Two lists equal at the positions from `lo` to `hi`. */
  ghost predicate Agree(a: seq<Checkpoint>, b: seq<Checkpoint>, lo: int, hi: int) {
    |a| == |b| && forall k :: 0 <= k < |a| && lo <= k <= hi ==> a[k] == b[k]
  }

  /** Two lists equal outside the positions from `lo` to `hi`. */
  ghost predicate AgreeOutside(a: seq<Checkpoint>, b: seq<Checkpoint>, lo: int, hi: int) {
    |a| == |b| && forall k :: 0 <= k < |a| && !(lo <= k <= hi) ==> a[k] == b[k]
  }

  /**
   * UpdateDist's promise for a tree whose distances were 0 at the end of
   * each path: every path's distances now end at the distance through the
   * point that follows it, the top path's being `ref` at `dist`, a sub-path's
   * being its parent's last checkpoint.
   */
  ghost predicate Continued(g: Geometry, p: Path, cps: seq<Checkpoint>, dist: real, ref: Vec3)
    decreases p
  {
    && 0 <= p.end < |cps|
    && var d := Reach(g, dist, ref, cps[p.end].pos);
    && ChainDists(g, p, cps, 0, d)
    && (p.left.Some? ==> Continued(g, p.left.value, cps, d, cps[p.end].pos))
    && (p.right.Some? ==> Continued(g, p.right.value, cps, d, cps[p.end].pos))
  }

  // ---------------------------------------------------------------------
  // The method
  // ---------------------------------------------------------------------

  /**
   * Path::UpdateDist: walk the down links from the path's last checkpoint
   * to its first adding the distance through `ref`, then do the same for
   * the sub-trees from the path's last checkpoint.
   */
  method UpdateDist(g: Geometry, p: Path, dist: real, ref: Vec3, cps: seq<Checkpoint>) returns (cps': seq<Checkpoint>)
    requires Links(p, cps, 0)
    ensures Spans(p, |cps|) && cps' == Raise(g, p, cps, dist, ref)
    decreases p
  {
    LinksSpans(p, cps);
    assert Chain(p, cps, 0);
    var d := dist + g.length(Sub(ref, cps[p.end].pos));
    cps' := cps;
    var cur := p.end;
    while true
      invariant p.start <= cur <= p.end
      invariant cps' == AddDist(cps, cur + 1, p.end, d)
      decreases cur
    {
      cps' := cps'[cur := cps'[cur].(distFinish := d + cps'[cur].distFinish)];
      if cur == p.start {
        assert cps' == AddDist(cps, p.start, p.end, d);
        break;
      }
      cur := cps'[cur].down;
    }
    AddDistSame(cps, p.start, p.end, d);
    if p.left.Some? {
      LinksSame(p, cps, cps');
      ghost var own := cps';
      cps' := UpdateDist(g, p.left.value, d, cps'[p.end].pos, cps');
      RaiseSame(g, p.left.value, own, d, own[p.end].pos);
      SameButDistTrans(cps, own, cps');
    }
    if p.right.Some? {
      LinksSame(p, cps, cps');
      cps' := UpdateDist(g, p.right.value, d, cps'[p.end].pos, cps');
    }
  }

  // ---------------------------------------------------------------------
  // What it changes
  // ---------------------------------------------------------------------

  lemma AddDistSame(cps: seq<Checkpoint>, s: int, e: int, d: real)
    ensures SameButDist(cps, AddDist(cps, s, e, d))
    ensures AgreeOutside(cps, AddDist(cps, s, e, d), s, e)
  {
  }

  /** The chains of the tree give each path a place in the list. */
  lemma {:induction false} LinksSpans(p: Path, cps: seq<Checkpoint>)
    requires Links(p, cps, 0)
    ensures Spans(p, |cps|)
    decreases p
  {
    assert Chain(p, cps, 0);
    if p.left.Some? {
      LinksSpans(p.left.value, cps);
    }
    if p.right.Some? {
      LinksSpans(p.right.value, cps);
    }
  }

  /** Chains only read numbers and links, which distances do not touch. */
  lemma LinksSame(p: Path, a: seq<Checkpoint>, b: seq<Checkpoint>)
    requires Links(p, a, 0) && SameButDist(a, b)
    ensures Links(p, b, 0)
    ensures p.left.Some? ==> Links(p.left.value, b, 0)
    ensures p.right.Some? ==> Links(p.right.value, b, 0)
  {
    forall n | n in Nodes(p) ensures Chain(n, b, 0) {
      assert Chain(n, a, 0);
    }
  }

  lemma SameButDistTrans(a: seq<Checkpoint>, b: seq<Checkpoint>, c: seq<Checkpoint>)
    requires SameButDist(a, b) && SameButDist(b, c)
    ensures SameButDist(a, c)
  {
  }

  /** UpdateDist changes distances only. */
  lemma {:induction false} RaiseSame(g: Geometry, p: Path, cps: seq<Checkpoint>, dist: real, ref: Vec3)
    requires Spans(p, |cps|)
    ensures SameButDist(cps, Raise(g, p, cps, dist, ref))
    decreases p
  {
    var d := Reach(g, dist, ref, cps[p.end].pos);
    var own := AddDist(cps, p.start, p.end, d);
    AddDistSame(cps, p.start, p.end, d);
    var l := own;
    if p.left.Some? {
      RaiseSame(g, p.left.value, own, d, own[p.end].pos);
      l := Raise(g, p.left.value, own, d, own[p.end].pos);
      SameButDistTrans(cps, own, l);
    }
    if p.right.Some? {
      RaiseSame(g, p.right.value, l, d, l[p.end].pos);
      SameButDistTrans(cps, l, Raise(g, p.right.value, l, d, l[p.end].pos));
    }
  }

  // ---------------------------------------------------------------------
  // What it promises
  // ---------------------------------------------------------------------

  /** The paths of a numbered tree lie between its first and its last checkpoint. */
  lemma {:induction false} NodesWithin(q: Path, base: int)
    requires Numbered(q, base)
    ensures forall n :: n in Nodes(q) ==> base <= n.start && n.end <= Last(q)
    decreases q
  {
    NumberedLast(q, base);
    if q.left.Some? {
      NodesWithin(q.left.value, q.end + 1);
      NumberedLast(q.left.value, q.end + 1);
    }
    if q.right.Some? {
      var l := if q.left.Some? then Last(q.left.value) else q.end;
      NodesWithin(q.right.value, l + 1);
    }
  }

  /**
   * Where the parts of a numbered tree lie: its own checkpoints, then the
   * left sub-tree's, then the right sub-tree's, all up to its last one.
   */
  lemma SubRanges(q: Path)
    requires Numbered(q, q.start)
    ensures q.start < q.end <= Last(q)
    ensures q.left.Some? ==>
      Numbered(q.left.value, q.left.value.start) && q.end < q.left.value.start && Last(q.left.value) <= Last(q)
    ensures q.right.Some? ==>
      Numbered(q.right.value, q.right.value.start) && Last(q.right.value) == Last(q) && q.end < q.right.value.start
    ensures q.left.Some? && q.right.Some? ==> Last(q.left.value) < q.right.value.start
  {
    NumberedLast(q, q.start);
    if q.left.Some? {
      NumberedLast(q.left.value, q.end + 1);
    }
    if q.right.Some? {
      var l := if q.left.Some? then Last(q.left.value) else q.end;
      NumberedLast(q.right.value, l + 1);
    }
  }

  lemma AgreeWithin(a: seq<Checkpoint>, b: seq<Checkpoint>, lo: int, hi: int, lo': int, hi': int)
    requires Agree(a, b, lo, hi) && lo <= lo' && hi' <= hi
    ensures Agree(a, b, lo', hi')
  {
  }

  /** Changes outside one range leave a range apart from it alone. */
  lemma AgreeApart(a: seq<Checkpoint>, b: seq<Checkpoint>, lo: int, hi: int, lo': int, hi': int)
    requires AgreeOutside(a, b, lo, hi) && (hi < lo' || hi' < lo)
    ensures Agree(a, b, lo', hi')
  {
  }

  /** Changes inside two ranges that lie within a third stay inside it. */
  lemma OutsideTrans(a: seq<Checkpoint>, b: seq<Checkpoint>, c: seq<Checkpoint>,
                     lo1: int, hi1: int, lo2: int, hi2: int, lo: int, hi: int)
    requires AgreeOutside(a, b, lo1, hi1) && AgreeOutside(b, c, lo2, hi2)
    requires lo <= lo1 && hi1 <= hi && lo <= lo2 && hi2 <= hi
    ensures AgreeOutside(a, c, lo, hi)
  {
  }

  /** Distances along positions `s` to `e` depend on those positions only. */
  lemma StepsAgree(g: Geometry, s: int, e: int, a: seq<Checkpoint>, b: seq<Checkpoint>, d: real)
    requires Steps(g, s, e, a, d) && Agree(a, b, s, e)
    ensures Steps(g, s, e, b, d)
  {
    assert forall k :: s <= k <= e ==> a[k] == b[k];
    forall k | s <= k < e ensures StepAt(g, b, s, e, k) {
      assert StepAt(g, a, s, e, k);
    }
  }

  /** Adding `d` along a chain keeps its steps and moves its end value by `d`. */
  lemma StepsShift(g: Geometry, s: int, e: int, cps: seq<Checkpoint>, d0: real, d: real)
    requires Steps(g, s, e, cps, d0)
    ensures Steps(g, s, e, AddDist(cps, s, e, d), d + d0)
  {
    forall k | s <= k < e ensures StepAt(g, AddDist(cps, s, e, d), s, e, k) {
      assert StepAt(g, cps, s, e, k);
    }
  }

  /** The distances of a numbered tree depend on its own positions only. */
  lemma DistsAgree(g: Geometry, q: Path, a: seq<Checkpoint>, b: seq<Checkpoint>)
    requires Numbered(q, q.start) && Dists(g, q, a, 0) && Agree(a, b, q.start, Last(q))
    ensures Dists(g, q, b, 0)
  {
    NodesWithin(q, q.start);
    forall n | n in Nodes(q) ensures ChainDists(g, n, b, 0, 0.0) {
      assert ChainDists(g, n, a, 0, 0.0);
      StepsAgree(g, n.start, n.end, a, b, 0.0);
    }
  }

  /** So does what UpdateDist promises of it. */
  lemma {:induction false} ContinuedAgree(g: Geometry, q: Path, a: seq<Checkpoint>, b: seq<Checkpoint>, dist: real, ref: Vec3)
    requires Numbered(q, q.start) && Continued(g, q, a, dist, ref) && Agree(a, b, q.start, Last(q))
    ensures Continued(g, q, b, dist, ref)
    decreases q
  {
    SubRanges(q);
    var d := Reach(g, dist, ref, a[q.end].pos);
    AgreeWithin(a, b, q.start, Last(q), q.start, q.end);
    StepsAgree(g, q.start, q.end, a, b, d);
    if q.left.Some? {
      var t := q.left.value;
      AgreeWithin(a, b, q.start, Last(q), t.start, Last(t));
      ContinuedAgree(g, t, a, b, d, a[q.end].pos);
    }
    if q.right.Some? {
      var t := q.right.value;
      AgreeWithin(a, b, q.start, Last(q), t.start, Last(t));
      ContinuedAgree(g, t, a, b, d, a[q.end].pos);
    }
  }

  /** UpdateDist leaves alone everything outside the tree's own checkpoints. */
  lemma {:induction false} RaiseOutside(g: Geometry, q: Path, cps: seq<Checkpoint>, dist: real, ref: Vec3)
    requires Numbered(q, q.start) && Spans(q, |cps|)
    ensures AgreeOutside(cps, Raise(g, q, cps, dist, ref), q.start, Last(q))
    decreases q
  {
    SubRanges(q);
    var d := Reach(g, dist, ref, cps[q.end].pos);
    var own := AddDist(cps, q.start, q.end, d);
    AddDistSame(cps, q.start, q.end, d);
    var l := own;
    if q.left.Some? {
      var t := q.left.value;
      RaiseOutside(g, t, own, d, own[q.end].pos);
      l := Raise(g, t, own, d, own[q.end].pos);
      OutsideTrans(cps, own, l, q.start, q.end, t.start, Last(t), q.start, Last(q));
    }
    if q.right.Some? {
      var t := q.right.value;
      RaiseOutside(g, t, l, d, l[q.end].pos);
      OutsideTrans(cps, l, Raise(g, t, l, d, l[q.end].pos), q.start, Last(q), t.start, Last(t), q.start, Last(q));
    }
  }

  /**
   * UpdateDist on a tree whose paths' distances end at 0 makes each end at
   * the distance through what follows the path.
   */
  lemma {:induction false} RaiseContinues(g: Geometry, p: Path, cps: seq<Checkpoint>, dist: real, ref: Vec3)
    requires Numbered(p, p.start) && Spans(p, |cps|) && Dists(g, p, cps, 0)
    ensures Continued(g, p, Raise(g, p, cps, dist, ref), dist, ref)
    decreases p
  {
    var s, e := p.start, p.end;
    var d := Reach(g, dist, ref, cps[e].pos);
    var own := AddDist(cps, s, e, d);
    var l := if p.left.Some? then Raise(g, p.left.value, own, d, own[e].pos) else own;
    var r := Raise(g, p, cps, dist, ref);
    SubRanges(p);
    RaiseSame(g, p, cps, dist, ref);
    AddDistSame(cps, s, e, d);
    assert ChainDists(g, p, cps, 0, 0.0);
    StepsShift(g, s, e, cps, 0.0, d);
    if p.left.Some? {
      var t := p.left.value;
      RaiseOutside(g, t, own, d, own[e].pos);
      RaiseSame(g, t, own, d, own[e].pos);
      assert Dists(g, t, cps, 0);
      AgreeApart(cps, own, s, e, t.start, Last(t));
      DistsAgree(g, t, cps, own);
      RaiseContinues(g, t, own, d, own[e].pos);
      AgreeApart(own, l, t.start, Last(t), s, e);
    }
    if p.right.Some? {
      var t := p.right.value;
      var lo := if p.left.Some? then p.left.value.start else t.start;
      RaiseOutside(g, t, l, d, l[e].pos);
      assert Dists(g, t, cps, 0);
      if p.left.Some? {
        OutsideTrans(cps, own, l, s, e, lo, Last(p.left.value), s, Last(p.left.value));
        AgreeApart(cps, l, s, Last(p.left.value), t.start, Last(t));
        AgreeApart(l, r, t.start, Last(t), lo, Last(p.left.value));
        ContinuedAgree(g, p.left.value, l, r, d, own[e].pos);
      } else {
        AgreeApart(cps, l, s, e, t.start, Last(t));
      }
      DistsAgree(g, t, cps, l);
      RaiseContinues(g, t, l, d, l[e].pos);
      AgreeApart(l, r, t.start, Last(t), s, e);
    }
    StepsAgree(g, s, e, own, r, d);
  }
}
