// The whole track's checkpoints, as Level::GenerateCheckpoints builds them
// from the level's top-level paths: each path generated after the one
// before it, the lists joined, the distances of each path continued from
// the start of the next one, and the ends of the paths linked into one
// loop.

module Track {
  import opened Wrappers
  import opened Geo
  import opened Paths
  import opened PathTree
  import opened PathDist

  // ---------------------------------------------------------------------
  // Joining the paths' lists
  // ---------------------------------------------------------------------

  /** The lists one after the other. */
  function Concat<T>(ls: seq<seq<T>>): seq<T>
    decreases |ls|
  {
    if ls == [] then [] else Concat(ls[..|ls| - 1]) + ls[|ls| - 1]
  }

  lemma ConcatSnoc<T>(ls: seq<seq<T>>, l: seq<T>)
    ensures Concat(ls + [l]) == Concat(ls) + l
  {
    assert (ls + [l])[..|ls|] == ls;
  }

  lemma {:induction false} ConcatAppend<T>(a: seq<seq<T>>, b: seq<seq<T>>)
    ensures Concat(a + b) == Concat(a) + Concat(b)
    decreases |b|
  {
    if b == [] {
      assert a + b == a;
    } else {
      var b', l := b[..|b| - 1], b[|b| - 1];
      assert b == b' + [l];
      assert a + b == (a + b') + [l];
      ConcatSnoc(a + b', l);
      ConcatSnoc(b', l);
      ConcatAppend(a, b');
    }
  }

  /** Where list `i` starts once the lists are joined. */
  function Offset<T>(ls: seq<seq<T>>, i: nat): nat
    requires i <= |ls|
  {
    |Concat(ls[..i])|
  }

  lemma OffsetStep<T>(ls: seq<seq<T>>, i: nat)
    requires i < |ls|
    ensures Offset(ls, i + 1) == Offset(ls, i) + |ls[i]|
  {
    assert ls[..i + 1] == ls[..i] + [ls[i]];
    ConcatSnoc(ls[..i], ls[i]);
  }

  lemma OffsetMono<T>(ls: seq<seq<T>>, i: nat, j: nat)
    requires i <= j <= |ls|
    ensures Offset(ls, i) <= Offset(ls, j) <= |Concat(ls)|
  {
    assert ls[..j] == ls[..i] + ls[i..j];
    ConcatAppend(ls[..i], ls[i..j]);
    assert ls == ls[..j] + ls[j..];
    ConcatAppend(ls[..j], ls[j..]);
  }

  /** The joined lists hold list `i` from its offset. */
  lemma ConcatHolds(ls: seq<seq<Checkpoint>>, i: nat)
    requires i < |ls|
    ensures Holds(Concat(ls), Offset(ls, i), ls[i])
  {
    ConcatAround(ls, i);
    Thirds(Concat(ls[..i]), ls[i], Concat(ls[i + 1..]), Concat(ls), Offset(ls, i), Offset(ls, i) + |ls[i]|);
  }

  /** A sequence around its element `i`. */
  lemma SplitAt<T>(s: seq<T>, i: nat)
    requires i < |s|
    ensures s == s[..i] + [s[i]] + s[i + 1..]
  {
    assert s[..i + 1] == s[..i] + [s[i]];
    assert s == s[..i + 1] + s[i + 1..];
  }

  lemma ConcatAround<T>(ls: seq<seq<T>>, i: nat)
    requires i < |ls|
    ensures Concat(ls) == Concat(ls[..i]) + ls[i] + Concat(ls[i + 1..])
  {
    var a, b, c := ls[..i], ls[i], ls[i + 1..];
    SplitAt(ls, i);
    ConcatAppend(a + [b], c);
    ConcatSnoc(a, b);
  }

  // ---------------------------------------------------------------------
  // The top-level paths, generated one after the other
  // ---------------------------------------------------------------------

  /**
   * Path `i` of `ps` was generated as `qs[i]` with list `lists[i]`,
   * numbered from where the lists before it end.
   */
  ghost predicate Laid(g: Geometry, ps: seq<Path>, qs: seq<Path>, lists: seq<seq<Checkpoint>>) {
    && |qs| == |ps| && |lists| == |ps|
    && forall i :: 0 <= i < |ps| ==> LaidOne(g, ps, qs, lists, i)
  }

  /** Path `i` of `ps` was generated as `qs[i]` with list `lists[i]`, from where the lists before it end. */
  ghost predicate LaidOne(g: Geometry, ps: seq<Path>, qs: seq<Path>, lists: seq<seq<Checkpoint>>, i: int) {
    0 <= i < |ps| && i < |qs| && i < |lists| && Generated(g, ps[i], qs[i], lists[i], Offset(lists, i))
  }

  lemma LaidSnoc(g: Geometry, ps: seq<Path>, qs: seq<Path>, lists: seq<seq<Checkpoint>>, p: Path, q: Path, c: seq<Checkpoint>)
    requires Laid(g, ps, qs, lists) && Generated(g, p, q, c, |Concat(lists)|)
    ensures Laid(g, ps + [p], qs + [q], lists + [c])
  {
    var lists' := lists + [c];
    forall i | 0 <= i < |ps| + 1 ensures LaidOne(g, ps + [p], qs + [q], lists', i) {
      if i == |ps| {
        assert lists'[..i] == lists;
      } else {
        assert LaidOne(g, ps, qs, lists, i);
        assert lists'[..i] == lists[..i];
      }
    }
  }

  /** The top-level paths' checkpoints take up a list of `n` one path after the other, from 0. */
  ghost predicate Tiled(qs: seq<Path>, n: nat) {
    && |qs| > 0 && qs[0].start == 0 && Last(qs[|qs| - 1]) == n - 1
    && (forall i :: 0 <= i < |qs| ==> Numbered(qs[i], qs[i].start) && Last(qs[i]) < n && Spans(qs[i], n))
    && (forall i :: 0 <= i < |qs| - 1 ==> qs[i + 1].start == Last(qs[i]) + 1)
  }

  /** Paths apart: every path's checkpoints before every later path's. */
  ghost predicate Apart(qs: seq<Path>) {
    forall i, j :: 0 <= i < j < |qs| ==> Last(qs[i]) < qs[j].start
  }

  /** A numbered tree inside a list of `n` spans it. */
  lemma {:induction false} NumberedSpans(q: Path, n: nat)
    requires Numbered(q, q.start) && Last(q) < n
    ensures Spans(q, n)
    decreases q
  {
    SubRanges(q);
    if q.left.Some? {
      NumberedSpans(q.left.value, n);
    }
    if q.right.Some? {
      NumberedSpans(q.right.value, n);
    }
  }

  /** Where a laid path lies in the joined list. */
  lemma LaidAt(g: Geometry, ps: seq<Path>, qs: seq<Path>, lists: seq<seq<Checkpoint>>, i: nat)
    requires Laid(g, ps, qs, lists) && i < |ps|
    ensures qs[i].start == Offset(lists, i) && Last(qs[i]) + 1 == Offset(lists, i + 1)
    ensures Numbered(qs[i], qs[i].start) && Last(qs[i]) < |Concat(lists)|
  {
    assert LaidOne(g, ps, qs, lists, i);
    OffsetStep(lists, i);
    OffsetMono(lists, i + 1, |lists|);
  }

  lemma LaidTiled(g: Geometry, ps: seq<Path>, qs: seq<Path>, lists: seq<seq<Checkpoint>>)
    requires Laid(g, ps, qs, lists) && |ps| > 0
    ensures Tiled(qs, |Concat(lists)|) && Apart(qs)
  {
    LaidWithin(g, ps, qs, lists);
    LaidAdjacent(g, ps, qs, lists);
    LaidApart(g, ps, qs, lists);
    LaidAt(g, ps, qs, lists, 0);
    LaidAt(g, ps, qs, lists, |qs| - 1);
    assert lists[..|lists|] == lists;
  }

  lemma LaidWithin(g: Geometry, ps: seq<Path>, qs: seq<Path>, lists: seq<seq<Checkpoint>>)
    requires Laid(g, ps, qs, lists)
    ensures forall i :: 0 <= i < |qs| ==>
      Numbered(qs[i], qs[i].start) && Last(qs[i]) < |Concat(lists)| && Spans(qs[i], |Concat(lists)|)
  {
    forall i | 0 <= i < |qs|
      ensures Numbered(qs[i], qs[i].start) && Last(qs[i]) < |Concat(lists)| && Spans(qs[i], |Concat(lists)|)
    {
      LaidAt(g, ps, qs, lists, i);
      NumberedSpans(qs[i], |Concat(lists)|);
    }
  }

  lemma LaidAdjacent(g: Geometry, ps: seq<Path>, qs: seq<Path>, lists: seq<seq<Checkpoint>>)
    requires Laid(g, ps, qs, lists)
    ensures forall i :: 0 <= i < |qs| - 1 ==> qs[i + 1].start == Last(qs[i]) + 1
  {
    forall i | 0 <= i < |qs| - 1 ensures qs[i + 1].start == Last(qs[i]) + 1 {
      LaidAt(g, ps, qs, lists, i);
      LaidAt(g, ps, qs, lists, i + 1);
    }
  }

  lemma LaidApart(g: Geometry, ps: seq<Path>, qs: seq<Path>, lists: seq<seq<Checkpoint>>)
    requires Laid(g, ps, qs, lists)
    ensures Apart(qs)
  {
    forall i, j | 0 <= i < j < |qs| ensures Last(qs[i]) < qs[j].start {
      LaidAt(g, ps, qs, lists, i);
      LaidAt(g, ps, qs, lists, j);
      OffsetMono(lists, i + 1, j);
    }
  }

  /** Each laid path keeps its links and distances in the joined list, numbered from 0. */
  lemma LaidPlaced(g: Geometry, ps: seq<Path>, qs: seq<Path>, lists: seq<seq<Checkpoint>>, i: nat)
    requires Laid(g, ps, qs, lists) && i < |ps|
    ensures Links(qs[i], Concat(lists), 0) && Dists(g, qs[i], Concat(lists), 0)
  {
    var off := Offset(lists, i);
    assert LaidOne(g, ps, qs, lists, i);
    ConcatHolds(lists, i);
    LinksMove(qs[i], lists[i], off, Concat(lists), off, 0);
    DistsMove(g, qs[i], lists[i], off, Concat(lists), off, 0);
  }

  /** The link list of GenerateCheckpoints: each path's first and last own checkpoint. */
  function LinkNodes(qs: seq<Path>): (ns: seq<nat>)
    ensures |ns| == 2 * |qs|
  {
    seq(2 * |qs|, j requires 0 <= j < 2 * |qs| => if j % 2 == 0 then qs[j / 2].start else qs[j / 2].end)
  }

  /**
   * Path::GeneratePath on each top-level path in turn, each numbered from
   * where the one before it ended, noting the ends of each path.
   */
  method GeneratePaths(g: Geometry, ps: seq<Path>, quads: seq<Quadblock>)
    returns (qs: seq<Path>, lists: seq<seq<Checkpoint>>, nodes: seq<nat>, quads': seq<Quadblock>)
    requires forall i :: 0 <= i < |ps| ==> Ready(ps[i]) && Below(StartEnd(ps[i]), |quads|)
    ensures Laid(g, ps, qs, lists) && nodes == LinkNodes(qs)
    ensures SameButTags(quads, quads')
  {
    var checkpointIndex: nat := 0;
    qs, lists, nodes, quads' := [], [], [], quads;
    var i := 0;
    while i < |ps|
      invariant i <= |ps|
      invariant Laid(g, ps[..i], qs, lists) && nodes == LinkNodes(qs)
      invariant checkpointIndex == |Concat(lists)|
      invariant SameButTags(quads, quads')
    {
      var cps, tagged, q := GeneratePath(g, ps[i], quads', checkpointIndex);
      LaidSnoc(g, ps[..i], qs, lists, ps[i], q, cps);
      assert ps[..i + 1] == ps[..i] + [ps[i]];
      SameButTagsTrans(quads, quads', tagged);
      ConcatSnoc(lists, cps);
      LinkNodesSnoc(qs, q);
      qs, lists, quads' := qs + [q], lists + [cps], tagged;
      checkpointIndex := checkpointIndex + |cps|;
      nodes := nodes + [q.start, q.end];
      i := i + 1;
    }
    assert ps[..i] == ps;
  }

  /** The lists joined into one, list by list. */
  method Join(lists: seq<seq<Checkpoint>>) returns (cps: seq<Checkpoint>)
    ensures cps == Concat(lists)
  {
    cps := [];
    var i := 0;
    while i < |lists|
      invariant i <= |lists| && cps == Concat(lists[..i])
    {
      assert lists[..i + 1] == lists[..i] + [lists[i]];
      ConcatSnoc(lists[..i], lists[i]);
      cps := cps + lists[i];
      i := i + 1;
    }
    assert lists[..i] == lists;
  }

  // ---------------------------------------------------------------------
  // Distances across the paths
  // ---------------------------------------------------------------------

  /**
   * The distance pass of GenerateCheckpoints from path `i` down: path
   * `i - 1` continued from the first checkpoint of path `i` with
   * Path::UpdateDist, then path `i - 2` from the first of path `i - 1`,
   * and so on to path 0.
   */
  function RaiseBelow(g: Geometry, qs: seq<Path>, cps: seq<Checkpoint>, i: nat): (r: seq<Checkpoint>)
    requires i < |qs| && forall j :: 0 <= j < |qs| ==> Spans(qs[j], |cps|)
    ensures |r| == |cps|
    decreases i
  {
    if i == 0 then cps
    else
      assert Spans(qs[i], |cps|);
      var c := cps[qs[i].start];
      RaiseBelow(g, qs, Raise(g, qs[i - 1], cps, c.distFinish, c.pos), i - 1)
  }

  /**
   * Distances to the finish across the track: every path but the last
   * continues from the first checkpoint of the next, as UpdateDist
   * promises, and the last path's distances end at 0.
   */
  ghost predicate Continues(g: Geometry, qs: seq<Path>, cps: seq<Checkpoint>) {
    && |qs| > 0
    && (forall j :: 0 < j < |qs| ==> FromNext(g, qs, cps, j))
    && Dists(g, qs[|qs| - 1], cps, 0)
  }

  /** Path `j - 1` continues from the first checkpoint of path `j`. */
  ghost predicate FromNext(g: Geometry, qs: seq<Path>, cps: seq<Checkpoint>, j: nat) {
    && 0 < j < |qs| && 0 <= qs[j].start < |cps|
    && Continued(g, qs[j - 1], cps, cps[qs[j].start].distFinish, cps[qs[j].start].pos)
  }

  /** The paths from `i` on already continue, those below still end at 0. */
  ghost predicate RaisedFrom(g: Geometry, qs: seq<Path>, cps: seq<Checkpoint>, i: nat) {
    && i < |qs|
    && (forall j :: 0 <= j < i ==> Dists(g, qs[j], cps, 0))
    && (forall j :: i < j < |qs| ==> FromNext(g, qs, cps, j))
    && Dists(g, qs[|qs| - 1], cps, 0)
  }

  /** One UpdateDist of the pass: path `i - 1` continued from path `i`, the others kept. */
  lemma RaiseStep(g: Geometry, qs: seq<Path>, cps: seq<Checkpoint>, i: nat, cps': seq<Checkpoint>)
    requires Tiled(qs, |cps|) && Apart(qs) && 0 < i < |qs| && RaisedFrom(g, qs, cps, i)
    requires cps' == Raise(g, qs[i - 1], cps, cps[qs[i].start].distFinish, cps[qs[i].start].pos)
    ensures RaisedFrom(g, qs, cps', i - 1)
  {
    var q, c := qs[i - 1], cps[qs[i].start];
    RaiseOutside(g, q, cps, c.distFinish, c.pos);
    RaiseContinues(g, q, cps, c.distFinish, c.pos);
    assert cps'[qs[i].start] == c;
    assert FromNext(g, qs, cps', i);
    forall j | 0 <= j < i - 1 ensures Dists(g, qs[j], cps', 0) {
      KeptBelow(g, qs, cps, i, cps', j);
    }
    forall j | i < j < |qs| ensures FromNext(g, qs, cps', j) {
      KeptAbove(g, qs, cps, i, cps', j);
    }
    KeptBelow(g, qs, cps, i, cps', |qs| - 1);
  }

  /** A path other than `i - 1` whose distances end at 0 keeps them. */
  lemma KeptBelow(g: Geometry, qs: seq<Path>, cps: seq<Checkpoint>, i: nat, cps': seq<Checkpoint>, j: nat)
    requires Tiled(qs, |cps|) && Apart(qs) && 0 < i < |qs| && j < |qs| && j != i - 1
    requires Dists(g, qs[j], cps, 0)
    requires cps' == Raise(g, qs[i - 1], cps, cps[qs[i].start].distFinish, cps[qs[i].start].pos)
    ensures Dists(g, qs[j], cps', 0)
  {
    var q, c := qs[i - 1], cps[qs[i].start];
    RaiseOutside(g, q, cps, c.distFinish, c.pos);
    AgreeApart(cps, cps', q.start, Last(q), qs[j].start, Last(qs[j]));
    DistsAgree(g, qs[j], cps, cps');
  }

  /** A path above `i - 1` that continues from the next keeps doing so. */
  lemma KeptAbove(g: Geometry, qs: seq<Path>, cps: seq<Checkpoint>, i: nat, cps': seq<Checkpoint>, j: nat)
    requires Tiled(qs, |cps|) && Apart(qs) && 0 < i < j < |qs|
    requires FromNext(g, qs, cps, j)
    requires cps' == Raise(g, qs[i - 1], cps, cps[qs[i].start].distFinish, cps[qs[i].start].pos)
    ensures FromNext(g, qs, cps', j)
  {
    var q, c := qs[i - 1], cps[qs[i].start];
    var p, n := qs[j - 1], cps[qs[j].start];
    RaiseOutside(g, q, cps, c.distFinish, c.pos);
    AgreeApart(cps, cps', q.start, Last(q), p.start, Last(p));
    assert cps'[qs[j].start] == n;
    ContinuedAgree(g, p, cps, cps', n.distFinish, n.pos);
  }

  /** The rest of the pass finishes the job: every path continues from the next. */
  lemma {:induction false} RaiseBelowContinues(g: Geometry, qs: seq<Path>, cps: seq<Checkpoint>, i: nat)
    requires Tiled(qs, |cps|) && Apart(qs) && RaisedFrom(g, qs, cps, i)
    ensures Continues(g, qs, RaiseBelow(g, qs, cps, i))
    decreases i
  {
    if i > 0 {
      var c := cps[qs[i].start];
      var cps' := Raise(g, qs[i - 1], cps, c.distFinish, c.pos);
      RaiseStep(g, qs, cps, i, cps');
      RaiseBelowContinues(g, qs, cps', i - 1);
    }
  }

  /** The whole pass on the joined list of freshly generated paths. */
  lemma PassContinues(g: Geometry, ps: seq<Path>, qs: seq<Path>, lists: seq<seq<Checkpoint>>)
    requires Laid(g, ps, qs, lists) && |ps| > 0
    ensures Tiled(qs, |Concat(lists)|)
    ensures Continues(g, qs, RaiseBelow(g, qs, Concat(lists), |qs| - 1))
  {
    LaidTiled(g, ps, qs, lists);
    forall j | 0 <= j < |qs| ensures Dists(g, qs[j], Concat(lists), 0) {
      LaidPlaced(g, ps, qs, lists, j);
    }
    RaiseBelowContinues(g, qs, Concat(lists), |qs| - 1);
  }

  /**
   * The distance loop of GenerateCheckpoints: from the next to last path
   * down to the first, UpdateDist from the first checkpoint of the path
   * after it.
   */
  method DistPass(g: Geometry, qs: seq<Path>, cps: seq<Checkpoint>) returns (r: seq<Checkpoint>)
    requires Tiled(qs, |cps|) && forall i :: 0 <= i < |qs| ==> Links(qs[i], cps, 0)
    ensures r == RaiseBelow(g, qs, cps, |qs| - 1)
    ensures SameButDist(cps, r)
  {
    var lastPathIndex := |qs| - 1;
    var currStart := qs[lastPathIndex].start;
    r := cps;
    var i := lastPathIndex - 1;
    while i >= 0
      invariant -1 <= i < lastPathIndex && currStart == qs[i + 1].start
      invariant SameButDist(cps, r)
      invariant RaiseBelow(g, qs, r, i + 1) == RaiseBelow(g, qs, cps, lastPathIndex)
      decreases i
    {
      LinksSame(qs[i], cps, r);
      ghost var r0 := r;
      r := UpdateDist(g, qs[i], r[currStart].distFinish, r[currStart].pos, r);
      RaiseSame(g, qs[i], r0, r0[currStart].distFinish, r0[currStart].pos);
      SameButDistTrans(cps, r0, r);
      currStart := qs[i].start;
      i := i - 1;
    }
  }

  // ---------------------------------------------------------------------
  // Closing the loop
  // ---------------------------------------------------------------------

  /**
   * What the link loop of GenerateCheckpoints does to the checkpoint at
   * entry `j` of the link list: at an even entry (a path's first
   * checkpoint) the down link becomes the entry before, the first entry
   * wrapping round to the last; at an odd entry (a path's last) the up
   * link becomes the entry after, the last wrapping round to the first.
   */
  function Relinked(c: Checkpoint, nodes: seq<nat>, j: nat): Checkpoint
    requires j < |nodes|
  {
    if j % 2 == 0 then c.(down := nodes[if j == 0 then |nodes| - 1 else j - 1])
    else c.(up := nodes[(j + 1) % |nodes|])
  }

  ghost predicate Increasing(nodes: seq<nat>) {
    forall j, k :: 0 <= j < k < |nodes| ==> nodes[j] < nodes[k]
  }

  /** `r` is `cps` with the first `n` entries of the link list relinked. */
  ghost predicate RelinkedUpTo(cps: seq<Checkpoint>, nodes: seq<nat>, n: nat, r: seq<Checkpoint>) {
    && n <= |nodes| && |r| == |cps|
    && (forall j :: 0 <= j < |nodes| ==> nodes[j] < |cps|)
    && (forall j :: 0 <= j < n ==> RelinkedAt(cps, nodes, r, j))
    && (forall k :: 0 <= k < |cps| && k !in nodes[..n] ==> r[k] == cps[k])
  }

  /** Entry `j` of the link list is relinked in `r`. */
  ghost predicate RelinkedAt(cps: seq<Checkpoint>, nodes: seq<nat>, r: seq<Checkpoint>, j: nat)
    requires j < |nodes|
  {
    nodes[j] < |cps| && nodes[j] < |r| && r[nodes[j]] == Relinked(cps[nodes[j]], nodes, j)
  }

  /** `r` is `cps` with every entry of the link list relinked, and nothing else changed. */
  ghost predicate LoopClosed(cps: seq<Checkpoint>, nodes: seq<nat>, r: seq<Checkpoint>) {
    && |r| == |cps|
    && (forall j :: 0 <= j < |nodes| ==> RelinkedAt(cps, nodes, r, j))
    && (forall k :: 0 <= k < |cps| && k !in nodes ==> r[k] == cps[k])
  }

  /** The link loop of GenerateCheckpoints. */
  method CloseLoop(cps: seq<Checkpoint>, nodes: seq<nat>) returns (r: seq<Checkpoint>)
    requires Increasing(nodes) && forall j :: 0 <= j < |nodes| ==> nodes[j] < |cps|
    ensures LoopClosed(cps, nodes, r)
  {
    r := cps;
    var i := 0;
    while i < |nodes|
      invariant i <= |nodes| && RelinkedUpTo(cps, nodes, i, r)
    {
      ghost var r0 := r;
      var node := r[nodes[i]];
      if i % 2 == 0 {
        var linkDown := if i == 0 then |nodes| - 1 else i - 1;
        node := node.(down := nodes[linkDown]);
      } else {
        var linkUp := (i + 1) % |nodes|;
        node := node.(up := nodes[linkUp]);
      }
      r := r[nodes[i] := node];
      RelinkStep(cps, nodes, i, r0, r);
      i := i + 1;
    }
    assert nodes[..i] == nodes;
  }

  lemma RelinkStep(cps: seq<Checkpoint>, nodes: seq<nat>, i: nat, r: seq<Checkpoint>, r': seq<Checkpoint>)
    requires Increasing(nodes) && i < |nodes| && RelinkedUpTo(cps, nodes, i, r)
    requires r' == r[nodes[i] := Relinked(r[nodes[i]], nodes, i)]
    ensures RelinkedUpTo(cps, nodes, i + 1, r')
  {
    assert forall j :: 0 <= j < i ==> nodes[j] < nodes[i];
    assert nodes[i] !in nodes[..i];
    forall j | 0 <= j < i + 1 ensures RelinkedAt(cps, nodes, r', j) {
      if j < i {
        assert RelinkedAt(cps, nodes, r, j);
        assert nodes[j] != nodes[i];
      }
    }
    forall k | 0 <= k < |cps| && k !in nodes[..i + 1] ensures r'[k] == cps[k] {
      assert nodes[..i + 1] == nodes[..i] + [nodes[i]];
    }
  }

  /** Entries `2 i` and `2 i + 1` of the link list: the first and the last checkpoint of path `i`. */
  lemma NodesOf(qs: seq<Path>, i: nat)
    requires i < |qs|
    ensures LinkNodes(qs)[2 * i] == qs[i].start && LinkNodes(qs)[2 * i + 1] == qs[i].end
  {
    assert (2 * i) / 2 == i && (2 * i) % 2 == 0;
    assert (2 * i + 1) / 2 == i && (2 * i + 1) % 2 == 1;
  }

  /** Entry `j` of the link list: the first checkpoint of path `j / 2` at an even entry, its last at an odd one. */
  lemma NodeAt(qs: seq<Path>, j: nat)
    requires j < 2 * |qs|
    ensures j / 2 < |qs|
    ensures LinkNodes(qs)[j] == if j % 2 == 0 then qs[j / 2].start else qs[j / 2].end
  {
  }

  /** One more path adds its first and last checkpoint to the link list. */
  lemma LinkNodesSnoc(qs: seq<Path>, q: Path)
    ensures LinkNodes(qs + [q]) == LinkNodes(qs) + [q.start, q.end]
  {
    var qs' := qs + [q];
    forall j | 0 <= j < 2 * |qs'| ensures LinkNodes(qs')[j] == (LinkNodes(qs) + [q.start, q.end])[j] {
      NodeAt(qs', j);
      if j < 2 * |qs| {
        NodeAt(qs, j);
      }
    }
  }

  /** The link list runs up the track: each path's first checkpoint, then its last, path after path. */
  lemma LinkNodesIncreasing(qs: seq<Path>, n: nat)
    requires Tiled(qs, n) && Apart(qs)
    ensures Increasing(LinkNodes(qs))
    ensures forall j :: 0 <= j < |LinkNodes(qs)| ==> LinkNodes(qs)[j] < n
  {
    var ns := LinkNodes(qs);
    forall a | 0 <= a < |qs| ensures qs[a].start < qs[a].end <= Last(qs[a]) {
      SubRanges(qs[a]);
    }
    forall j, k | 0 <= j < k < |ns| ensures ns[j] < ns[k] {
      NodeAt(qs, j);
      NodeAt(qs, k);
    }
    forall j | 0 <= j < |ns| ensures ns[j] < n {
      NodeAt(qs, j);
    }
  }

  /** What closing the loop does along path `i`: its ends relinked to the neighbouring paths, its middle kept. */
  lemma ClosedAt(qs: seq<Path>, ns: seq<nat>, cps: seq<Checkpoint>, r: seq<Checkpoint>, i: nat)
    requires Tiled(qs, |cps|) && Apart(qs) && i < |qs| && ns == LinkNodes(qs) && LoopClosed(cps, ns, r)
    ensures qs[i].start < qs[i].end < |cps|
    ensures r[qs[i].start] == cps[qs[i].start].(down := if i == 0 then qs[|qs| - 1].end else qs[i - 1].end)
    ensures r[qs[i].end] == cps[qs[i].end].(up := qs[(i + 1) % |qs|].start)
    ensures forall k :: qs[i].start < k < qs[i].end ==> r[k] == cps[k]
  {
    LinkNodesIncreasing(qs, |cps|);
    SubRanges(qs[i]);
    ClosedStart(qs, ns, cps, r, i);
    ClosedEnd(qs, ns, cps, r, i);
    forall k | qs[i].start < k < qs[i].end ensures r[k] == cps[k] {
      ClosedMiddle(qs, ns, cps, r, i, k);
    }
  }

  /** The first checkpoint of path `i` links down to the last of the path before, the first path's to the last path's. */
  lemma ClosedStart(qs: seq<Path>, ns: seq<nat>, cps: seq<Checkpoint>, r: seq<Checkpoint>, i: nat)
    requires i < |qs| && ns == LinkNodes(qs) && LoopClosed(cps, ns, r)
    ensures qs[i].start < |cps| && qs[i].start < |r|
    ensures r[qs[i].start] == cps[qs[i].start].(down := if i == 0 then qs[|qs| - 1].end else qs[i - 1].end)
  {
    var j := 2 * i;
    NodesOf(qs, i);
    assert j % 2 == 0;
    assert RelinkedAt(cps, ns, r, j);
    var prev := if j == 0 then |ns| - 1 else j - 1;
    assert r[qs[i].start] == cps[qs[i].start].(down := ns[prev]);
    if i == 0 {
      NodesOf(qs, |qs| - 1);
      assert prev == 2 * (|qs| - 1) + 1;
    } else {
      NodesOf(qs, i - 1);
      assert prev == 2 * (i - 1) + 1;
    }
  }

  /** The last checkpoint of path `i` links up to the first of the next path, the last path's to the first path's. */
  lemma ClosedEnd(qs: seq<Path>, ns: seq<nat>, cps: seq<Checkpoint>, r: seq<Checkpoint>, i: nat)
    requires i < |qs| && ns == LinkNodes(qs) && LoopClosed(cps, ns, r)
    ensures qs[i].end < |cps| && qs[i].end < |r|
    ensures r[qs[i].end] == cps[qs[i].end].(up := qs[(i + 1) % |qs|].start)
  {
    var m := |qs|;
    assert RelinkedAt(cps, ns, r, 2 * i + 1);
    NodesOf(qs, i);
    WrapNext(2 * i + 1, 2 * m);
    WrapNext(i, m);
    if i + 1 < m {
      NodesOf(qs, i + 1);
    } else {
      NodesOf(qs, 0);
    }
  }

  /** The entry after `j` in a round list of `n`. */
  lemma WrapNext(j: nat, n: nat)
    requires j < n
    ensures (j + 1) % n == if j + 1 == n then 0 else j + 1
  {
  }

  /** Checkpoints strictly inside path `i`'s own run are on no entry of the link list and are kept. */
  lemma ClosedMiddle(qs: seq<Path>, ns: seq<nat>, cps: seq<Checkpoint>, r: seq<Checkpoint>, i: nat, k: int)
    requires i < |qs| && ns == LinkNodes(qs) && Increasing(ns) && LoopClosed(cps, ns, r)
    requires qs[i].start < k < qs[i].end < |cps|
    ensures r[k] == cps[k]
  {
    NodesOf(qs, i);
    forall j | 0 <= j < |ns| ensures ns[j] != k {
      if j <= 2 * i {
        assert ns[j] <= ns[2 * i];
      } else {
        assert ns[2 * i + 1] <= ns[j];
      }
    }
  }

  /**
   * The top-level paths' own checkpoints linked into one loop: along a
   * path each checkpoint's up link is the next and that one's down link
   * comes back, and the last checkpoint of a path links up to the first
   * of the next path, the last path's to the first path's, and back down.
   */
  ghost predicate Cycle(qs: seq<Path>, cps: seq<Checkpoint>) {
    |qs| > 0 && forall i :: 0 <= i < |qs| ==> Looped(qs, cps, i)
  }

  ghost predicate Looped(qs: seq<Path>, cps: seq<Checkpoint>, i: nat) {
    && i < |qs| && 0 <= qs[i].start < qs[i].end < |cps|
    && (forall k :: qs[i].start <= k < qs[i].end ==> cps[k].up == k + 1)
    && (forall k :: qs[i].start < k <= qs[i].end ==> cps[k].down == k - 1)
    && var next := qs[(i + 1) % |qs|].start;
       0 <= next < |cps| && cps[qs[i].end].up == next && cps[next].down == qs[i].end
  }

  /** Closing the loop over generated paths gives the cycle. */
  lemma ClosedCycle(qs: seq<Path>, ns: seq<nat>, cps: seq<Checkpoint>, r: seq<Checkpoint>)
    requires Tiled(qs, |cps|) && Apart(qs) && ns == LinkNodes(qs) && LoopClosed(cps, ns, r)
    requires forall i :: 0 <= i < |qs| ==> Links(qs[i], cps, 0)
    ensures Cycle(qs, r)
  {
    forall i | 0 <= i < |qs| ensures Looped(qs, r, i) {
      LoopedAt(qs, ns, cps, r, i);
    }
  }

  lemma LoopedAt(qs: seq<Path>, ns: seq<nat>, cps: seq<Checkpoint>, r: seq<Checkpoint>, i: nat)
    requires Tiled(qs, |cps|) && Apart(qs) && ns == LinkNodes(qs) && LoopClosed(cps, ns, r) && i < |qs|
    requires Links(qs[i], cps, 0)
    ensures Looped(qs, r, i)
  {
    var m := |qs|;
    WrapNext(i, m);
    var i' := (i + 1) % m;
    ClosedAt(qs, ns, cps, r, i);
    ClosedAt(qs, ns, cps, r, i');
    assert Chain(qs[i], cps, 0);
    RunRelinked(qs, cps, r, i, i');
  }

  /** A path's chain survives closing the loop, and its last checkpoint now leads to the next path's first. */
  lemma RunRelinked(qs: seq<Path>, cps: seq<Checkpoint>, r: seq<Checkpoint>, i: nat, i': nat)
    requires i < |qs| && i' == (i + 1) % |qs| && i' == (if i + 1 == |qs| then 0 else i + 1) && |r| == |cps|
    requires Run(qs[i].start, qs[i].end, cps, 0)
    requires r[qs[i].start] == cps[qs[i].start].(down := if i == 0 then qs[|qs| - 1].end else qs[i - 1].end)
    requires r[qs[i].end] == cps[qs[i].end].(up := qs[i'].start)
    requires forall k :: qs[i].start < k < qs[i].end ==> r[k] == cps[k]
    requires qs[i'].start < |cps| && r[qs[i'].start] == cps[qs[i'].start].(down := if i' == 0 then qs[|qs| - 1].end else qs[i' - 1].end)
    ensures Looped(qs, r, i)
  {
    var q := qs[i];
    forall k | q.start <= k < q.end ensures r[k].up == k + 1 {
      assert cps[k].up == k + 1;
    }
    forall k | q.start < k <= q.end ensures r[k].down == k - 1 {
      assert cps[k].down == k - 1;
    }
  }

  // ---------------------------------------------------------------------
  // Closing the loop keeps the distances
  // ---------------------------------------------------------------------

  /** Same positions and distances everywhere. */
  ghost predicate SamePlaces(a: seq<Checkpoint>, b: seq<Checkpoint>) {
    |a| == |b| && forall k :: 0 <= k < |a| ==> a[k].pos == b[k].pos && a[k].distFinish == b[k].distFinish
  }

  lemma ClosedPlaces(cps: seq<Checkpoint>, nodes: seq<nat>, r: seq<Checkpoint>)
    requires LoopClosed(cps, nodes, r)
    ensures SamePlaces(cps, r)
  {
    forall k | 0 <= k < |cps| ensures r[k].pos == cps[k].pos && r[k].distFinish == cps[k].distFinish {
      if k in nodes {
        var j :| 0 <= j < |nodes| && nodes[j] == k;
        assert RelinkedAt(cps, nodes, r, j);
      }
    }
  }

  lemma StepsPlaces(g: Geometry, s: int, e: int, a: seq<Checkpoint>, b: seq<Checkpoint>, d: real)
    requires Steps(g, s, e, a, d) && SamePlaces(a, b)
    ensures Steps(g, s, e, b, d)
  {
    forall k | s <= k < e ensures StepAt(g, b, s, e, k) {
      assert StepAt(g, a, s, e, k);
    }
  }

  lemma {:induction false} ContinuedPlaces(g: Geometry, q: Path, a: seq<Checkpoint>, b: seq<Checkpoint>, dist: real, ref: Vec3)
    requires Continued(g, q, a, dist, ref) && SamePlaces(a, b)
    ensures Continued(g, q, b, dist, ref)
    decreases q
  {
    var d := Reach(g, dist, ref, a[q.end].pos);
    StepsPlaces(g, q.start, q.end, a, b, d);
    if q.left.Some? {
      ContinuedPlaces(g, q.left.value, a, b, d, a[q.end].pos);
    }
    if q.right.Some? {
      ContinuedPlaces(g, q.right.value, a, b, d, a[q.end].pos);
    }
  }

  lemma DistsPlaces(g: Geometry, q: Path, a: seq<Checkpoint>, b: seq<Checkpoint>)
    requires Dists(g, q, a, 0) && SamePlaces(a, b)
    ensures Dists(g, q, b, 0)
  {
    forall n | n in Nodes(q) ensures ChainDists(g, n, b, 0, 0.0) {
      assert ChainDists(g, n, a, 0, 0.0);
      StepsPlaces(g, n.start, n.end, a, b, 0.0);
    }
  }

  lemma ContinuesPlaces(g: Geometry, qs: seq<Path>, a: seq<Checkpoint>, b: seq<Checkpoint>)
    requires Continues(g, qs, a) && SamePlaces(a, b)
    ensures Continues(g, qs, b)
  {
    forall j | 0 < j < |qs| ensures FromNext(g, qs, b, j) {
      assert FromNext(g, qs, a, j);
      ContinuedPlaces(g, qs[j - 1], a, b, a[qs[j].start].distFinish, a[qs[j].start].pos);
    }
    DistsPlaces(g, qs[|qs| - 1], a, b);
  }

  // ---------------------------------------------------------------------
  // The whole pass
  // ---------------------------------------------------------------------

  /**
   * What the checkpoint pass leaves: the paths `qs` generated from `ps`
   * with their lists, tiling the joined list; the loop closed over the
   * distances carried back; and in the final list `cps` the paths tile it,
   * lie apart, continue their distances and form one cycle.
   */
  ghost predicate Compiled(g: Geometry, ps: seq<Path>, qs: seq<Path>, lists: seq<seq<Checkpoint>>, cps: seq<Checkpoint>) {
    && Laid(g, ps, qs, lists) && Tiled(qs, |Concat(lists)|)
    && LoopClosed(RaiseBelow(g, qs, Concat(lists), |qs| - 1), LinkNodes(qs), cps)
    && Tiled(qs, |cps|) && Apart(qs)
    && Continues(g, qs, cps) && Cycle(qs, cps)
  }

  /**
   * The checkpoint pass of GenerateCheckpoints over ready paths: generate
   * the paths in turn, join their lists, carry the distances back from
   * path to path, and close the loop.  The paths tile the list, the
   * distances continue from path to path down to 0 at the last path's
   * end, and the paths' checkpoints form one cycle.
   */
  method Compile(g: Geometry, ps: seq<Path>, quads: seq<Quadblock>)
    returns (qs: seq<Path>, lists: seq<seq<Checkpoint>>, cps: seq<Checkpoint>, quads': seq<Quadblock>)
    requires |ps| > 0 && forall i :: 0 <= i < |ps| ==> Ready(ps[i]) && Below(StartEnd(ps[i]), |quads|)
    ensures Compiled(g, ps, qs, lists, cps)
    ensures SameButTags(quads, quads')
  {
    var nodes;
    qs, lists, nodes, quads' := GeneratePaths(g, ps, quads);
    var joined := Join(lists);
    LaidTiled(g, ps, qs, lists);
    forall j | 0 <= j < |qs| ensures Links(qs[j], joined, 0) {
      LaidPlaced(g, ps, qs, lists, j);
    }
    var raised := DistPass(g, qs, joined);
    forall j | 0 <= j < |qs| ensures Links(qs[j], raised, 0) {
      LinksSame(qs[j], joined, raised);
    }
    LinkNodesIncreasing(qs, |raised|);
    cps := CloseLoop(raised, nodes);
    ClosedCycle(qs, nodes, raised, cps);
    PassContinues(g, ps, qs, lists);
    ClosedPlaces(raised, nodes, cps);
    ContinuesPlaces(g, qs, raised, cps);
  }
}
