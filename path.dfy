// Checkpoint paths: the tree of paths a level's checkpoints are generated
// from, and the generator itself.
//
// A path names the quads its checkpoints start on, the quads they end on
// and quads to skip.  Generation floods outwards from the start quads,
// one ring of neighbours per checkpoint, until the flood finds nothing
// new, then numbers one checkpoint per ring and links them into a chain.
// A path may have a left and a right sub-path, generated after it.
//
// The quadblock queries the generator relies on but which are not part of
// this model (neighbourhood, the closest vertex to a point, the length of
// a vector) are passed in as a `Geometry`.

module Paths {
  import opened Wrappers
  import opened Dedup
  import opened Geo

  /** A path and its sub-paths; `start` and `end` are set by generation. */
  datatype Path = Path(
    index: nat,
    start: nat,
    end: nat,
    left: Option<Path>,
    right: Option<Path>,
    quadsStart: seq<nat>,
    quadsIgnore: seq<nat>,
    quadsEnd: seq<nat>)

  /** The quadblock queries the generator uses. */
  datatype Geometry = Geometry(
    neighbours: (nat, nat) -> bool,
    closest: (nat, Vec3) -> (real, Vec3),
    length: Vec3 -> real)

  /** Lengths are never negative. */
  ghost predicate Metric(g: Geometry) {
    forall v :: g.length(v) >= 0.0
  }

  /** Link value of a checkpoint without a neighbour in that direction. */
  const NoneCheckpoint: int := -1

  /** A checkpoint: its number, position, quad name, distance to the finish and its four links. */
  datatype Checkpoint = Checkpoint(
    index: int,
    pos: Vec3,
    name: string,
    distFinish: real,
    up: int,
    down: int,
    left: int,
    right: int)

  function NewCheckpoint(index: int, pos: Vec3, name: string): (c: Checkpoint)
    ensures c.index == index && c.pos == pos && c.name == name && c.distFinish == 0.0
  {
    Checkpoint(index, pos, name, 0.0, NoneCheckpoint, NoneCheckpoint, NoneCheckpoint, NoneCheckpoint)
  }

  // ---------------------------------------------------------------------
  // The tree
  // ---------------------------------------------------------------------

  /** Path::Ready: start and end quads chosen, and every present sub-path ready. */
  predicate Ready(p: Path)
    decreases p
  {
    && (p.left.Some? ==> Ready(p.left.value))
    && (p.right.Some? ==> Ready(p.right.value))
    && p.quadsStart != [] && p.quadsEnd != []
  }

  /** The paths of the tree: the path, then its left sub-tree, then its right one. */
  function Nodes(p: Path): (ns: seq<Path>)
    ensures ns != [] && ns[0] == p
    decreases p
  {
    [p] + (if p.left.Some? then Nodes(p.left.value) else [])
        + (if p.right.Some? then Nodes(p.right.value) else [])
  }

  /** A tree is ready exactly when every one of its paths has start and end quads. */
  lemma {:induction false} ReadyNodes(p: Path)
    ensures Ready(p) <==> forall q :: q in Nodes(p) ==> q.quadsStart != [] && q.quadsEnd != []
    decreases p
  {
    if p.left.Some? {
      ReadyNodes(p.left.value);
    }
    if p.right.Some? {
      ReadyNodes(p.right.value);
    }
  }

  /** The quads GetStartEndIndexes collects: sub-trees first, then start, ignore and end quads. */
  function StartEnd(p: Path): seq<nat>
    decreases p
  {
    (if p.left.Some? then StartEnd(p.left.value) else [])
    + (if p.right.Some? then StartEnd(p.right.value) else [])
    + p.quadsStart + p.quadsIgnore + p.quadsEnd
  }

  /** A quad is collected exactly when some path of the tree names it. */
  lemma {:induction false} StartEndNodes(p: Path, x: nat)
    ensures x in StartEnd(p) <==> exists q :: q in Nodes(p) && (x in q.quadsStart || x in q.quadsIgnore || x in q.quadsEnd)
    decreases p
  {
    if p.left.Some? {
      StartEndNodes(p.left.value, x);
    }
    if p.right.Some? {
      StartEndNodes(p.right.value, x);
    }
  }

  /** GetStartEndIndexes: append the quads the tree names to `out`. */
  method GetStartEndIndexes(p: Path, out: seq<nat>) returns (res: seq<nat>)
    ensures res == out + StartEnd(p)
    decreases p
  {
    ghost var l: seq<nat> := if p.left.Some? then StartEnd(p.left.value) else [];
    ghost var r: seq<nat> := if p.right.Some? then StartEnd(p.right.value) else [];
    res := out;
    if p.left.Some? {
      res := GetStartEndIndexes(p.left.value, res);
    } else {
      assert out + l == out;
    }
    if p.right.Some? {
      res := GetStartEndIndexes(p.right.value, res);
    } else {
      assert res + r == res;
    }
    Assoc(out, l, r);
    res := res + p.quadsStart;
    Assoc(out, l + r, p.quadsStart);
    res := res + p.quadsIgnore;
    Assoc(out, l + r + p.quadsStart, p.quadsIgnore);
    res := res + p.quadsEnd;
    Assoc(out, l + r + p.quadsStart + p.quadsIgnore, p.quadsEnd);
  }

  lemma Assoc<T>(a: seq<T>, b: seq<T>, c: seq<T>)
    ensures a + b + c == a + (b + c)
  {
  }

  // ---------------------------------------------------------------------
  // The flood
  // ---------------------------------------------------------------------

  /** Every index is a quad of a level with `n` quads. */
  ghost predicate Below(s: seq<nat>, n: nat) {
    forall k :: 0 <= k < |s| ==> s[k] < n
  }

  /** Quads that take no checkpoint. */
  function Excluded(quads: seq<Quadblock>): nat
    decreases |quads|
  {
    if quads == [] then 0
    else Excluded(quads[..|quads| - 1]) + (if quads[|quads| - 1].checkpointStatus then 0 else 1)
  }

  /** Cells of `v` still false. */
  function FalseCount(v: seq<bool>): nat
    decreases |v|
  {
    if v == [] then 0 else FalseCount(v[..|v| - 1]) + (if v[|v| - 1] then 0 else 1)
  }

  /** Setting cells of `a` can only lower the count; setting a false one lowers it. */
  lemma {:induction false} FalseCountDown(a: seq<bool>, b: seq<bool>, i: nat)
    requires |a| == |b| && forall j :: 0 <= j < |a| && a[j] ==> b[j]
    ensures FalseCount(b) <= FalseCount(a)
    ensures i < |a| && !a[i] && b[i] ==> FalseCount(b) < FalseCount(a)
    decreases |a|
  {
    if a != [] {
      var n := |a| - 1;
      FalseCountDown(a[..n], b[..n], i);
    }
  }

  /** Each quad of `next` is a quad, unvisited in `v`, and listed once. */
  ghost predicate NewQuads(v: seq<bool>, next: seq<nat>) {
    && (forall k :: 0 <= k < |next| ==> next[k] < |v| && !v[next[k]])
    && NoDuplicates(next)
  }

  /** Every neighbour of the frontier is visited. */
  ghost predicate Closed(g: Geometry, v: seq<bool>, frontier: seq<nat>) {
    forall f, i :: f in frontier && 0 <= i < |v| && g.neighbours(f, i) ==> v[i]
  }

  /** `v` is `v0` with the quads of `s` visited. */
  ghost predicate VisitedWith(v0: seq<bool>, v: seq<bool>, s: seq<nat>) {
    |v| == |v0| && forall i :: 0 <= i < |v| ==> (v[i] <==> v0[i] || i in s)
  }

  /**
   * The first part of GeneratePath: the quads the tree names, and every quad
   * that takes no checkpoint, are visited.  `count` adds one per listed
   * index, so a quad listed twice counts twice.
   */
  method InitialVisited(quads: seq<Quadblock>, startEnd: seq<nat>) returns (visited: array<bool>, count: nat)
    requires Below(startEnd, |quads|)
    ensures fresh(visited) && visited.Length == |quads|
    ensures forall i :: 0 <= i < |quads| ==> (visited[i] <==> i in startEnd || !quads[i].checkpointStatus)
    ensures count == |startEnd| + Excluded(quads)
  {
    visited := new bool[|quads|](_ => false);
    count := 0;
    for k := 0 to |startEnd|
      invariant forall i :: 0 <= i < |quads| ==> (visited[i] <==> i in startEnd[..k])
      invariant count == k
    {
      assert startEnd[..k + 1] == startEnd[..k] + [startEnd[k]];
      visited[startEnd[k]] := true;
      count := count + 1;
    }
    assert startEnd[..|startEnd|] == startEnd;
    for i := 0 to |quads|
      invariant forall j :: 0 <= j < |quads| ==> (visited[j] <==> j in startEnd || (j < i && !quads[j].checkpointStatus))
      invariant count == |startEnd| + Excluded(quads[..i])
    {
      assert quads[..i + 1][..i] == quads[..i];
      if !quads[i].checkpointStatus {
        visited[i] := true;
        count := count + 1;
      }
    }
    assert quads[..|quads|] == quads;
  }

  /**
   * One round of the flood: unless `count` says every quad is visited,
   * each unvisited neighbour of each frontier quad is collected, in order,
   * and marked visited.
   */
  method ExpandRound(g: Geometry, visited: array<bool>, count: nat, frontier: seq<nat>) returns (next: seq<nat>, count': nat)
    requires Below(frontier, visited.Length)
    modifies visited
    ensures count >= visited.Length ==> next == []
    ensures count < visited.Length ==> Closed(g, visited[..], frontier)
    ensures NewQuads(old(visited[..]), next)
    ensures VisitedWith(old(visited[..]), visited[..], next)
    ensures forall x :: x in next ==> exists f :: f in frontier && g.neighbours(f, x)
    ensures count' == count + |next|
  {
    next, count' := [], count;
    if count >= visited.Length {
      return;
    }
    ghost var v0 := visited[..];
    for k := 0 to |frontier|
      invariant NewQuads(v0, next) && VisitedWith(v0, visited[..], next)
      invariant Closed(g, visited[..], frontier[..k])
      invariant forall x :: x in next ==> exists f :: f in frontier && g.neighbours(f, x)
      invariant count' == count + |next|
    {
      var index := frontier[k];
      for i := 0 to visited.Length
        invariant NewQuads(v0, next) && VisitedWith(v0, visited[..], next)
        invariant Closed(g, visited[..], frontier[..k])
        invariant forall j :: 0 <= j < i && g.neighbours(index, j) ==> visited[j]
        invariant forall x :: x in next ==> exists f :: f in frontier && g.neighbours(f, x)
        invariant count' == count + |next|
      {
        if !visited[i] && g.neighbours(index, i) {
          next := next + [i];
          visited[i] := true;
          count' := count' + 1;
        }
      }
      assert frontier[..k + 1] == frontier[..k] + [index];
    }
    assert frontier[..|frontier|] == frontier;
  }

  /** The chunks after the first, one after the other. */
  function Flatten(chunks: seq<seq<nat>>): seq<nat>
    decreases |chunks|
  {
    if chunks == [] then [] else Flatten(chunks[..|chunks| - 1]) + chunks[|chunks| - 1]
  }

  lemma FlattenSnoc(chunks: seq<seq<nat>>, c: seq<nat>)
    ensures Flatten(chunks + [c]) == Flatten(chunks) + c
  {
    assert (chunks + [c])[..|chunks|] == chunks;
  }

  /** Quads new to `v0`, then quads new once those are visited, are new to `v0` together. */
  lemma NewQuadsAppend(v0: seq<bool>, v: seq<bool>, a: seq<nat>, b: seq<nat>)
    requires NewQuads(v0, a) && VisitedWith(v0, v, a) && NewQuads(v, b)
    ensures NewQuads(v0, a + b)
  {
    forall i, j | 0 <= i < j < |a + b| ensures (a + b)[i] != (a + b)[j] {
      if j >= |a| && i < |a| {
        assert v[a[i]];
      }
    }
  }

  /** Visiting `a` and then `b` visits `a + b`. */
  lemma VisitedWithAppend(v0: seq<bool>, v1: seq<bool>, v2: seq<bool>, a: seq<nat>, b: seq<nat>)
    requires VisitedWith(v0, v1, a) && VisitedWith(v1, v2, b)
    ensures VisitedWith(v0, v2, a + b)
  {
  }

  /** Every quad of `c` neighbours a quad of `prev`. */
  ghost predicate Grows(g: Geometry, prev: seq<nat>, c: seq<nat>) {
    forall x :: x in c ==> exists f :: f in prev && g.neighbours(f, x)
  }

  /** Every chunk after the first grows from the chunk before it. */
  ghost predicate Grown(g: Geometry, chunks: seq<seq<nat>>) {
    forall k :: 1 <= k < |chunks| ==> Grows(g, chunks[k - 1], chunks[k])
  }

  /** The facts the flood keeps about its chunks `all`, started from visited cells `v0`. */
  ghost predicate FloodSoFar(g: Geometry, v0: seq<bool>, v: seq<bool>, all: seq<seq<nat>>) {
    && all != []
    && (forall k :: 1 <= k < |all| ==> all[k] != [])
    && NewQuads(v0, Flatten(all[1..]))
    && VisitedWith(v0, v, Flatten(all[1..]))
    && Grown(g, all)
  }

  /** A round that found `next` extends the flood by one chunk. */
  lemma FloodStep(g: Geometry, v0: seq<bool>, v1: seq<bool>, v2: seq<bool>, all: seq<seq<nat>>, next: seq<nat>)
    requires FloodSoFar(g, v0, v1, all)
    requires next != [] && NewQuads(v1, next) && VisitedWith(v1, v2, next) && Grows(g, all[|all| - 1], next)
    ensures FloodSoFar(g, v0, v2, all + [next])
    ensures Flatten((all + [next])[1..]) == Flatten(all[1..]) + next
  {
    var all' := all + [next];
    assert all'[1..] == all[1..] + [next];
    FlattenSnoc(all[1..], next);
    NewQuadsAppend(v0, v1, Flatten(all[1..]), next);
    VisitedWithAppend(v0, v1, v2, Flatten(all[1..]), next);
    GrownSnoc(g, all, next, all');
    assert forall k :: 1 <= k < |all'| ==> all'[k] != [] by {
      forall k | 1 <= k < |all'| ensures all'[k] != [] {
        if k < |all| {
          assert all'[k] == all[k];
        }
      }
    }
  }

  /** A chunk that grows from the last one extends a grown flood. */
  lemma GrownSnoc(g: Geometry, all: seq<seq<nat>>, next: seq<nat>, all': seq<seq<nat>>)
    requires all != [] && all' == all + [next]
    requires Grown(g, all) && Grows(g, all[|all| - 1], next)
    ensures Grown(g, all')
  {
    forall k | 1 <= k < |all'| ensures Grows(g, all'[k - 1], all'[k]) {
      if k < |all| {
        assert all'[k] == all[k] && all'[k - 1] == all[k - 1];
      }
    }
  }

  /**
   * The flood of GeneratePath: starting from the start quads, repeat
   * rounds until one finds nothing.  The chunks are the start quads and
   * then one chunk per round that found something.
   */
  method Flood(g: Geometry, visited: array<bool>, count: nat, start: seq<nat>) returns (chunks: seq<seq<nat>>)
    requires Below(start, visited.Length)
    modifies visited
    ensures chunks != [] && chunks[0] == start
    ensures FloodSoFar(g, old(visited[..]), visited[..], chunks)
    ensures count + |Flatten(chunks[1..])| < visited.Length ==> Closed(g, visited[..], chunks[|chunks| - 1])
  {
    ghost var v0 := visited[..];
    var cur := start;
    var c := count;
    chunks := [];
    ghost var all := [start];
    while true
      invariant all == chunks + [cur] && all[0] == start
      invariant Below(cur, visited.Length)
      invariant FloodSoFar(g, v0, visited[..], all)
      invariant c == count + |Flatten(all[1..])|
      decreases FalseCount(visited[..])
    {
      ghost var v1 := visited[..];
      var next, c' := ExpandRound(g, visited, c, cur);
      FalseCountDown(v1, visited[..], if next == [] then 0 else next[0]);
      chunks := chunks + [cur];
      if next == [] {
        assert all == chunks;
        assert visited[..] == v1;
        return;
      }
      FloodStep(g, v0, v1, visited[..], all, next);
      all := all + [next];
      cur, c := next, c';
    }
  }

  // ---------------------------------------------------------------------
  // One checkpoint per chunk
  // ---------------------------------------------------------------------

  /** A box grown to hold `b` too. */
  function Grow(box: BoundingBox, b: BoundingBox): BoundingBox {
    BoundingBox(
      Vec3(Min(box.min.x, b.min.x), Min(box.min.y, b.min.y), Min(box.min.z, b.min.z)),
      Vec3(Max(box.max.x, b.max.x), Max(box.max.y, b.max.y), Max(box.max.z, b.max.z)))
  }

  /** The box the generator starts a chunk with: min at FLT_MAX, max at -FLT_MAX. */
  const EmptyBox := BoundingBox(Vec3(FltMax, FltMax, FltMax), Vec3(-FltMax, -FltMax, -FltMax))

  /** The bounding box of the quads of a chunk, grown one quad at a time. */
  function ChunkBox(quads: seq<Quadblock>, chunk: seq<nat>): BoundingBox
    requires Below(chunk, |quads|)
    decreases |chunk|
  {
    if chunk == [] then EmptyBox
    else Grow(ChunkBox(quads, chunk[..|chunk| - 1]), quads[chunk[|chunk| - 1]].bbox)
  }

  /** `a` lies inside `box`, component by component. */
  predicate Inside(a: BoundingBox, box: BoundingBox) {
    && box.min.x <= a.min.x && box.min.y <= a.min.y && box.min.z <= a.min.z
    && a.max.x <= box.max.x && a.max.y <= box.max.y && a.max.z <= box.max.z
  }

  /** The chunk's box holds the box of every quad of the chunk. */
  lemma {:induction false} ChunkBoxHolds(quads: seq<Quadblock>, chunk: seq<nat>, k: nat)
    requires Below(chunk, |quads|) && k < |chunk|
    ensures Inside(quads[chunk[k]].bbox, ChunkBox(quads, chunk))
    decreases |chunk|
  {
    var n := |chunk| - 1;
    if k < n {
      ChunkBoxHolds(quads, chunk[..n], k);
    }
  }

  /**
   * The closest-vertex search over distances `ds`: the best distance so far,
   * starting from FLT_MAX, and where it was found; only a strictly smaller
   * distance replaces it.
   */
  function Closest(ds: seq<real>): (real, Option<nat>)
    decreases |ds|
  {
    if ds == [] then (FltMax, None)
    else
      var prev := Closest(ds[..|ds| - 1]);
      if ds[|ds| - 1] < prev.0 then (ds[|ds| - 1], Some(|ds| - 1)) else prev
  }

  /**
   * The search finds the first smallest distance below FLT_MAX, and finds
   * nothing only when no distance is below FLT_MAX.
   */
  lemma {:induction false} ClosestFirstMinimum(ds: seq<real>)
    ensures Closest(ds).1.None? <==> forall k :: 0 <= k < |ds| ==> ds[k] >= FltMax
    ensures Closest(ds).1.None? ==> Closest(ds).0 == FltMax
    ensures Closest(ds).1.Some? ==> var j := Closest(ds).1.value;
      && j < |ds| && ds[j] == Closest(ds).0 < FltMax
      && (forall k :: 0 <= k < |ds| ==> ds[j] <= ds[k])
      && (forall k :: 0 <= k < j ==> ds[j] < ds[k])
    decreases |ds|
  {
    if ds != [] {
      ClosestFirstMinimum(ds[..|ds| - 1]);
    }
  }

  /** The point the chunk's checkpoint is placed near: the centre of its box. */
  function ChunkCenter(quads: seq<Quadblock>, chunk: seq<nat>): Vec3
    requires Below(chunk, |quads|)
  {
    Midpoint(ChunkBox(quads, chunk))
  }

  /** Distance from the chunk's quads to its centre. */
  function ChunkDists(g: Geometry, quads: seq<Quadblock>, chunk: seq<nat>): (ds: seq<real>)
    requires Below(chunk, |quads|)
    ensures |ds| == |chunk|
  {
    var c := ChunkCenter(quads, chunk);
    seq(|chunk|, k requires 0 <= k < |chunk| => g.closest(chunk[k], c).0)
  }

  /** Position in the chunk of the quad holding the chosen vertex. */
  function ChunkPick(g: Geometry, quads: seq<Quadblock>, chunk: seq<nat>): Option<nat>
    requires Below(chunk, |quads|)
  {
    Closest(ChunkDists(g, quads, chunk)).1
  }

  /** The checkpoint's position: the chosen closest vertex, or the origin when none was chosen. */
  function ChunkVertex(g: Geometry, quads: seq<Quadblock>, chunk: seq<nat>): Vec3
    requires Below(chunk, |quads|)
  {
    ClosestFirstMinimum(ChunkDists(g, quads, chunk));
    match ChunkPick(g, quads, chunk)
    case Some(j) => g.closest(chunk[j], ChunkCenter(quads, chunk)).1
    case None => Origin
  }

  /** The quad the checkpoint takes its name from: the chosen one, or quad 0. */
  function ChunkQuad(g: Geometry, quads: seq<Quadblock>, chunk: seq<nat>): (q: nat)
    requires Below(chunk, |quads|)
  {
    ClosestFirstMinimum(ChunkDists(g, quads, chunk));
    match ChunkPick(g, quads, chunk)
    case Some(j) => chunk[j]
    case None => 0
  }

  /** SetCheckpoint on every quad of a chunk. */
  function Tag(quads: seq<Quadblock>, chunk: seq<nat>, index: int): (r: seq<Quadblock>)
    ensures |r| == |quads|
  {
    seq(|quads|, i requires 0 <= i < |quads| => if i in chunk then quads[i].(checkpoint := index) else quads[i])
  }

  /** The first inner loop of GeneratePath's chunk loop: the chunk's bounding box. */
  method GrowChunkBox(quads: seq<Quadblock>, chunk: seq<nat>) returns (box: BoundingBox)
    requires Below(chunk, |quads|)
    ensures box == ChunkBox(quads, chunk)
  {
    box := EmptyBox;
    for k := 0 to |chunk|
      invariant box == ChunkBox(quads, chunk[..k])
    {
      assert chunk[..k + 1][..k] == chunk[..k];
      box := Grow(box, quads[chunk[k]].bbox);
    }
    assert chunk[..|chunk|] == chunk;
  }

  /**
   * The body of GeneratePath's loop for one chunk: grow the chunk's box,
   * pick the vertex closest to its centre, and tag every quad of the chunk
   * with the checkpoint number.
   */
  method ChunkCheckpoint(g: Geometry, quads: seq<Quadblock>, chunk: seq<nat>, index: int)
    returns (vertex: Vec3, quadIndex: nat, quads': seq<Quadblock>)
    requires Below(chunk, |quads|)
    ensures vertex == ChunkVertex(g, quads, chunk) && quadIndex == ChunkQuad(g, quads, chunk)
    ensures quads' == Tag(quads, chunk, index)
  {
    var box := GrowChunkBox(quads, chunk);
    var center := Midpoint(box);
    ghost var ds := ChunkDists(g, quads, chunk);
    vertex, quadIndex := Origin, 0;
    var closestDist := FltMax;
    ghost var pick: Option<nat> := None;
    quads' := quads;
    for k := 0 to |chunk|
      invariant (closestDist, pick) == Closest(ds[..k])
      invariant pick.None? ==> vertex == Origin && quadIndex == 0
      invariant pick.Some? ==> pick.value < k && vertex == g.closest(chunk[pick.value], center).1 && quadIndex == chunk[pick.value]
      invariant Tagged(quads, quads', chunk[..k], index)
    {
      assert ds[..k + 1][..k] == ds[..k];
      var index' := chunk[k];
      TagStep(quads, quads', chunk, k, index);
      var (dist, closestVertex) := g.closest(index', center);
      if dist < closestDist {
        closestDist := dist;
        vertex := closestVertex;
        quadIndex := index';
        pick := Some(k);
      }
      quads' := quads'[index' := quads'[index'].(checkpoint := index)];
    }
    assert ds[..|chunk|] == ds;
    assert chunk[..|chunk|] == chunk;
    TaggedAll(quads, quads', chunk, index);
    ChunkPicked(g, quads, chunk, center, pick, vertex, quadIndex);
  }

  /** `q` is `quads` with the quads listed in `done` tagged with `index`. */
  ghost predicate Tagged(quads: seq<Quadblock>, q: seq<Quadblock>, done: seq<nat>, index: int) {
    && |q| == |quads|
    && forall i :: 0 <= i < |quads| ==> q[i] == if i in done then quads[i].(checkpoint := index) else quads[i]
  }

  /** Tagging the next quad of the chunk extends what is tagged by that quad. */
  lemma TagStep(quads: seq<Quadblock>, q: seq<Quadblock>, chunk: seq<nat>, k: nat, index: int)
    requires Below(chunk, |quads|) && k < |chunk| && Tagged(quads, q, chunk[..k], index)
    ensures Tagged(quads, q[chunk[k] := q[chunk[k]].(checkpoint := index)], chunk[..k + 1], index)
  {
    assert chunk[..k + 1] == chunk[..k] + [chunk[k]];
  }

  /** Once the whole chunk is tagged, the list is `Tag`'s. */
  lemma TaggedAll(quads: seq<Quadblock>, q: seq<Quadblock>, chunk: seq<nat>, index: int)
    requires Tagged(quads, q, chunk, index)
    ensures q == Tag(quads, chunk, index)
  {
  }

  /** What the search loop keeps is the chunk's vertex and quad. */
  lemma ChunkPicked(g: Geometry, quads: seq<Quadblock>, chunk: seq<nat>, center: Vec3, pick: Option<nat>, vertex: Vec3, quadIndex: nat)
    requires Below(chunk, |quads|) && center == ChunkCenter(quads, chunk)
    requires pick == Closest(ChunkDists(g, quads, chunk)).1
    requires pick.None? ==> vertex == Origin && quadIndex == 0
    requires pick.Some? ==> pick.value < |chunk| && vertex == g.closest(chunk[pick.value], center).1 && quadIndex == chunk[pick.value]
    ensures vertex == ChunkVertex(g, quads, chunk) && quadIndex == ChunkQuad(g, quads, chunk)
  {
  }

  /** Two quad lists that differ at most in the checkpoint numbers. */
  ghost predicate SameButTags(q1: seq<Quadblock>, q2: seq<Quadblock>) {
    |q1| == |q2| && forall i :: 0 <= i < |q1| ==> q2[i] == q1[i].(checkpoint := q2[i].checkpoint)
  }

  lemma {:induction false} ChunkBoxSame(q1: seq<Quadblock>, q2: seq<Quadblock>, chunk: seq<nat>)
    requires SameButTags(q1, q2) && Below(chunk, |q1|)
    ensures ChunkBox(q1, chunk) == ChunkBox(q2, chunk)
    decreases |chunk|
  {
    if chunk != [] {
      ChunkBoxSame(q1, q2, chunk[..|chunk| - 1]);
    }
  }

  /** Tagging changes nothing the choice of a chunk's checkpoint looks at. */
  lemma ChunkChoiceSame(g: Geometry, q1: seq<Quadblock>, q2: seq<Quadblock>, chunk: seq<nat>)
    requires SameButTags(q1, q2) && Below(chunk, |q1|)
    ensures ChunkVertex(g, q1, chunk) == ChunkVertex(g, q2, chunk)
    ensures ChunkQuad(g, q1, chunk) == ChunkQuad(g, q2, chunk)
  {
    ChunkBoxSame(q1, q2, chunk);
    assert ChunkDists(g, q1, chunk) == ChunkDists(g, q2, chunk);
  }

  /** Tagging keeps the names. */
  lemma TagNames(quads: seq<Quadblock>, chunk: seq<nat>, index: int, i: nat)
    requires i < |quads|
    ensures Tag(quads, chunk, index)[i].name == quads[i].name
  {
  }

  /** The quads after tagging the chunks in order: chunk k with number base + k. */
  function TagChunks(quads: seq<Quadblock>, chunks: seq<seq<nat>>, base: int): (r: seq<Quadblock>)
    ensures |r| == |quads|
    decreases |chunks|
  {
    if chunks == [] then quads
    else Tag(TagChunks(quads, chunks[..|chunks| - 1], base), chunks[|chunks| - 1], base + |chunks| - 1)
  }

  /** The last chunk holding quad `i`. */
  ghost predicate LastHolding(chunks: seq<seq<nat>>, i: nat, k: nat) {
    k < |chunks| && i in chunks[k] && forall k' :: k < k' < |chunks| ==> i !in chunks[k']
  }

  /** Tagging changes only checkpoint numbers. */
  lemma {:induction false} TagChunksSame(quads: seq<Quadblock>, chunks: seq<seq<nat>>, base: int)
    ensures SameButTags(quads, TagChunks(quads, chunks, base))
    decreases |chunks|
  {
    if chunks != [] {
      TagChunksSame(quads, chunks[..|chunks| - 1], base);
    }
  }

  /**
   * Tagging the chunks in order leaves each quad tagged with the number of
   * the last chunk holding it, and a quad no chunk holds untouched.
   */
  lemma {:induction false} TagChunksLast(quads: seq<Quadblock>, chunks: seq<seq<nat>>, base: int, i: nat)
    requires i < |quads|
    ensures (forall k :: 0 <= k < |chunks| ==> i !in chunks[k]) ==> TagChunks(quads, chunks, base)[i] == quads[i]
    ensures forall k: nat :: LastHolding(chunks, i, k) ==> TagChunks(quads, chunks, base)[i].checkpoint == base + k
    decreases |chunks|
  {
    if chunks != [] {
      var n := |chunks| - 1;
      var init, last := chunks[..n], chunks[n];
      TagChunksLast(quads, init, base, i);
      var t := TagChunks(quads, init, base);
      assert TagChunks(quads, chunks, base)[i] == if i in last then t[i].(checkpoint := base + n) else t[i];
      assert forall k :: 0 <= k < n ==> init[k] == chunks[k];
      forall k: nat | LastHolding(chunks, i, k) ensures TagChunks(quads, chunks, base)[i].checkpoint == base + k {
        if k < n {
          assert LastHolding(init, i, k);
        }
      }
    }
  }

  /** The quad a non-empty chunk's checkpoint is named after is a quad of the level. */
  lemma ChunkQuadBelow(g: Geometry, quads: seq<Quadblock>, chunk: seq<nat>)
    requires Below(chunk, |quads|) && chunk != []
    ensures ChunkQuad(g, quads, chunk) < |quads|
  {
    ClosestFirstMinimum(ChunkDists(g, quads, chunk));
    assert chunk[0] < |quads|;
  }

  /** Non-empty chunks of quads of the level. */
  ghost predicate ChunksBelow(chunks: seq<seq<nat>>, n: nat) {
    forall k :: 0 <= k < |chunks| ==> Below(chunks[k], n) && chunks[k] != []
  }

  /**
   * The checkpoint GeneratePath makes for a chunk, numbered `index`: at the
   * chunk's vertex, named after the quad that vertex was found on, linked
   * up and down to the numbers either side, before the ends of the chain
   * are cut and the distances set.
   */
  function PointOf(g: Geometry, quads: seq<Quadblock>, chunk: seq<nat>, index: int): (c: Checkpoint)
    requires Below(chunk, |quads|) && chunk != []
  {
    ChunkQuadBelow(g, quads, chunk);
    NewCheckpoint(index, ChunkVertex(g, quads, chunk), quads[ChunkQuad(g, quads, chunk)].name).(up := index + 1, down := index - 1)
  }

  /** The checkpoints of the chunks, numbered from `base`. */
  function Points(g: Geometry, quads: seq<Quadblock>, chunks: seq<seq<nat>>, base: int): (r: seq<Checkpoint>)
    requires ChunksBelow(chunks, |quads|)
    ensures |r| == |chunks|
    decreases |chunks|
  {
    if chunks == [] then []
    else Points(g, quads, chunks[..|chunks| - 1], base) + [PointOf(g, quads, chunks[|chunks| - 1], base + |chunks| - 1)]
  }

  lemma PointsSnoc(g: Geometry, quads: seq<Quadblock>, chunks: seq<seq<nat>>, base: int, k: nat)
    requires ChunksBelow(chunks, |quads|) && k < |chunks|
    ensures ChunksBelow(chunks[..k], |quads|) && ChunksBelow(chunks[..k + 1], |quads|)
    ensures Points(g, quads, chunks[..k + 1], base) == Points(g, quads, chunks[..k], base) + [PointOf(g, quads, chunks[k], base + k)]
  {
    assert chunks[..k + 1][..k] == chunks[..k];
  }

  /** Checkpoint `k` is the one of chunk `k`, numbered `base + k`. */
  lemma {:induction false} PointsAt(g: Geometry, quads: seq<Quadblock>, chunks: seq<seq<nat>>, base: int, k: nat)
    requires ChunksBelow(chunks, |quads|) && k < |chunks|
    ensures Points(g, quads, chunks, base)[k] == PointOf(g, quads, chunks[k], base + k)
    decreases |chunks|
  {
    var n := |chunks| - 1;
    if k < n {
      assert ChunksBelow(chunks[..n], |quads|);
      PointsAt(g, quads, chunks[..n], base, k);
    }
  }

  /**
   * One round of GeneratePath's chunk loop: chunk `k`'s checkpoint, and its
   * quads tagged with the checkpoint's number.
   */
  method PlaceChunk(g: Geometry, quads: seq<Quadblock>, tagged: seq<Quadblock>, chunks: seq<seq<nat>>, base: int, k: nat)
    returns (c: Checkpoint, tagged': seq<Quadblock>)
    requires ChunksBelow(chunks, |quads|) && k < |chunks|
    requires tagged == TagChunks(quads, chunks[..k], base)
    ensures c == PointOf(g, quads, chunks[k], base + k)
    ensures tagged' == TagChunks(quads, chunks[..k + 1], base)
  {
    var chunk := chunks[k];
    assert chunks[..k + 1] == chunks[..k] + [chunk];
    TagChunksSame(quads, chunks[..k], base);
    ChunkChoiceSame(g, quads, tagged, chunk);
    ChunkQuadBelow(g, quads, chunk);
    var vertex, quadIndex;
    vertex, quadIndex, tagged' := ChunkCheckpoint(g, tagged, chunk, base + k);
    TagNames(tagged, chunk, base + k, quadIndex);
    c := NewCheckpoint(base + k, vertex, tagged'[quadIndex].name).(up := base + k + 1, down := base + k - 1);
  }

  /**
   * GeneratePath's loop over the chunks: one checkpoint per chunk, numbered
   * from `base`, with every quad tagged by the last chunk holding it.
   */
  method PlaceChunks(g: Geometry, quads: seq<Quadblock>, chunks: seq<seq<nat>>, base: int)
    returns (cps: seq<Checkpoint>, quads': seq<Quadblock>)
    requires ChunksBelow(chunks, |quads|)
    ensures cps == Points(g, quads, chunks, base)
    ensures quads' == TagChunks(quads, chunks, base)
  {
    cps, quads' := [], quads;
    for k := 0 to |chunks|
      invariant quads' == TagChunks(quads, chunks[..k], base)
      invariant cps == Points(g, quads, chunks[..k], base)
    {
      var c;
      c, quads' := PlaceChunk(g, quads, quads', chunks, base, k);
      PointsSnoc(g, quads, chunks, base, k);
      cps := cps + [c];
    }
    assert chunks[..|chunks|] == chunks;
  }

  /** Positions of checkpoints. */
  function Positions(cps: seq<Checkpoint>): (vs: seq<Vec3>)
    ensures |vs| == |cps|
    ensures forall k :: 0 <= k < |cps| ==> vs[k] == cps[k].pos
  {
    seq(|cps|, k requires 0 <= k < |cps| => cps[k].pos)
  }

  /** The length of the polyline through `vs`: the sum of its steps. */
  ghost function ChainLength(g: Geometry, vs: seq<Vec3>): real
    decreases |vs|
  {
    if |vs| <= 1 then 0.0
    else ChainLength(g, vs[..|vs| - 1]) + g.length(Sub(vs[|vs| - 2], vs[|vs| - 1]))
  }

  /** A polyline from `a` on to `t` is the step to `t`'s first vertex longer than `t`. */
  lemma ChainCons(g: Geometry, a: Vec3, t: seq<Vec3>)
    requires t != []
    ensures ChainLength(g, [a] + t) == g.length(Sub(a, t[0])) + ChainLength(g, t)
  {
    var vs := [a] + t;
    ChainSplit(g, vs, 1);
    assert vs[1..] == t;
    assert vs[..2] == [a, t[0]];
    assert ChainLength(g, vs[..2]) == g.length(Sub(a, t[0])) by {
      assert vs[..2][..1] == [a];
    }
  }

  /** Cutting a polyline at a vertex splits its length. */
  lemma {:induction false} ChainSplit(g: Geometry, vs: seq<Vec3>, j: nat)
    requires j < |vs|
    ensures ChainLength(g, vs) == ChainLength(g, vs[..j + 1]) + ChainLength(g, vs[j..])
    decreases |vs|
  {
    var n := |vs| - 1;
    if j < n {
      var init := vs[..n];
      ChainSplit(g, init, j);
      assert init[..j + 1] == vs[..j + 1];
      var t := vs[j..];
      assert t[..|t| - 1] == init[j..];
      assert t[|t| - 2] == vs[n - 1] && t[|t| - 1] == vs[n];
    } else {
      assert vs[..j + 1] == vs;
    }
  }

  /** A polyline is never shorter than 0 when lengths are not negative. */
  lemma {:induction false} ChainNonNegative(g: Geometry, vs: seq<Vec3>)
    requires Metric(g)
    ensures ChainLength(g, vs) >= 0.0
    decreases |vs|
  {
    if |vs| > 1 {
      ChainNonNegative(g, vs[..|vs| - 1]);
    }
  }

  /** The running distance: 0 at the first vertex, then the length of each step between vertices. */
  ghost predicate RunningDists(g: Geometry, vs: seq<Vec3>, ds: seq<real>) {
    && |ds| == |vs|
    && (|ds| > 0 ==> ds[0] == 0.0)
    && forall k :: 1 <= k < |ds| ==> ds[k] == ds[k - 1] + g.length(Sub(vs[k - 1], vs[k]))
  }

  /** Each running distance is the length of the polyline up to its vertex. */
  lemma {:induction false} RunningChain(g: Geometry, vs: seq<Vec3>, ds: seq<real>, k: nat)
    requires RunningDists(g, vs, ds) && k < |ds|
    ensures ds[k] == ChainLength(g, vs[..k + 1])
    decreases k
  {
    if k > 0 {
      RunningChain(g, vs, ds, k - 1);
      assert vs[..k + 1][..k] == vs[..k];
    }
  }

  /**
   * The distance GeneratePath accumulates over the chunk vertices:
   * nothing before the first, then each step from the previous vertex.
   */
  method RunningDistances(g: Geometry, vs: seq<Vec3>) returns (ds: seq<real>)
    ensures RunningDists(g, vs, ds)
  {
    ds := [];
    var distFinish := 0.0;
    for k := 0 to |vs|
      invariant |ds| == k
      invariant RunningDists(g, vs[..k], ds)
      invariant k > 0 ==> distFinish == ds[k - 1]
      invariant k == 0 ==> distFinish == 0.0
    {
      if k > 0 {
        distFinish := distFinish + g.length(Sub(vs[k - 1], vs[k]));
      }
      ds := ds + [distFinish];
    }
    assert vs[..|vs|] == vs;
  }

  /** Running distances never decrease when lengths are not negative. */
  lemma RunningGrows(g: Geometry, vs: seq<Vec3>, ds: seq<real>, i: nat, j: nat)
    requires Metric(g) && RunningDists(g, vs, ds) && i <= j < |ds|
    ensures ds[i] <= ds[j]
  {
    RunningChain(g, vs, ds, i);
    RunningChain(g, vs, ds, j);
    var w := vs[..j + 1];
    ChainSplit(g, w, i);
    assert w[..i + 1] == vs[..i + 1];
    ChainNonNegative(g, w[i..]);
  }

  /** The running distances as GeneratePath stores them: in reverse order. */
  function ReversedDists(ds: seq<real>): (r: seq<real>)
    ensures |r| == |ds|
  {
    seq(|ds|, j requires 0 <= j < |ds| => ds[|ds| - 1 - j])
  }

  /**
   * The reversed running distances keep the shape a distance to the finish
   * has: 0 at the last checkpoint and never growing along the chain.
   */
  lemma ReversedDistsShape(g: Geometry, vs: seq<Vec3>, ds: seq<real>)
    requires Metric(g) && RunningDists(g, vs, ds) && ds != []
    ensures ReversedDists(ds)[|ds| - 1] == 0.0
    ensures forall i, j :: 0 <= i <= j < |ds| ==> ReversedDists(ds)[i] >= ReversedDists(ds)[j]
  {
    forall i, j | 0 <= i <= j < |ds| ensures ReversedDists(ds)[i] >= ReversedDists(ds)[j] {
      RunningGrows(g, vs, ds, |ds| - 1 - j, |ds| - 1 - i);
    }
  }

  /**
   * The reversed running distances step down by the steps taken from the
   * far end: position j is further than position j + 1 by the step between
   * vertices m - 2 - j and m - 1 - j.
   */
  lemma ReversedDistsSteps(g: Geometry, vs: seq<Vec3>, ds: seq<real>)
    requires RunningDists(g, vs, ds) && ds != []
    ensures ReversedDists(ds)[|ds| - 1] == 0.0
    ensures forall j :: 0 <= j < |ds| - 1 ==>
      ReversedDists(ds)[j] == ReversedDists(ds)[j + 1] + g.length(Sub(vs[|ds| - 2 - j], vs[|ds| - 1 - j]))
  {
  }

  /**
   * ...but they are not the distance to the finish: with steps of 1 and 2
   * the middle checkpoint gets 1, the length of the step before it, while
   * the finish is 2 away from it.
   */
  lemma ReversedDistsCounterexample()
    ensures exists g: Geometry, vs: seq<Vec3>, ds: seq<real> ::
      && Metric(g) && RunningDists(g, vs, ds) && |ds| == 3
      && ReversedDists(ds)[1] != ChainLength(g, vs[1..])
  {
    var g := Geometry((a: nat, b: nat) => false, (i: nat, p: Vec3) => (0.0, p), (v: Vec3) => if v.x < 0.0 then -v.x else v.x);
    var vs := [Vec3(0.0, 0.0, 0.0), Vec3(1.0, 0.0, 0.0), Vec3(3.0, 0.0, 0.0)];
    var ds := [0.0, 1.0, 3.0];
    ReversedDistsOnLine(g, vs, ds);
  }

  /** The counterexample's numbers: on a line, steps of 1 and 2. */
  lemma ReversedDistsOnLine(g: Geometry, vs: seq<Vec3>, ds: seq<real>)
    requires forall v :: g.length(v) == if v.x < 0.0 then -v.x else v.x
    requires vs == [Vec3(0.0, 0.0, 0.0), Vec3(1.0, 0.0, 0.0), Vec3(3.0, 0.0, 0.0)] && ds == [0.0, 1.0, 3.0]
    ensures Metric(g) && RunningDists(g, vs, ds) && |ds| == 3
    ensures ReversedDists(ds)[1] != ChainLength(g, vs[1..])
  {
    assert g.length(Sub(vs[0], vs[1])) == 1.0;
    assert g.length(Sub(vs[1], vs[2])) == 2.0;
    var t := vs[1..];
    assert t == [vs[1], vs[2]];
    assert ChainLength(g, t[..1]) == 0.0;
    assert ChainLength(g, t) == 2.0;
    assert ReversedDists(ds)[1] == 1.0;
  }

  /** The distance from each checkpoint to the last one along the chain. */
  function ToFinish(ds: seq<real>): (r: seq<real>)
    ensures |r| == |ds|
  {
    seq(|ds|, j requires 0 <= j < |ds| => ds[|ds| - 1] - ds[j])
  }

  /**
   * Subtracting each running distance from the total gives the length of
   * the chain from each checkpoint to the last: 0 at the last, never
   * growing along the chain.
   */
  lemma ToFinishChain(g: Geometry, vs: seq<Vec3>, ds: seq<real>)
    requires RunningDists(g, vs, ds)
    ensures forall j :: 0 <= j < |ds| ==> ToFinish(ds)[j] == ChainLength(g, vs[j..])
    ensures Metric(g) ==> forall i, j :: 0 <= i <= j < |ds| ==> ToFinish(ds)[i] >= ToFinish(ds)[j]
  {
    var r := ToFinish(ds);
    var m := |ds| - 1;
    forall j | 0 <= j < |ds| ensures r[j] == ChainLength(g, vs[j..]) {
      RunningChain(g, vs, ds, m);
      RunningChain(g, vs, ds, j);
      ChainSplit(g, vs, j);
      assert vs[..m + 1] == vs;
    }
    if Metric(g) {
      forall i, j | 0 <= i <= j < |ds| ensures r[i] >= r[j] {
        RunningGrows(g, vs, ds, i, j);
      }
    }
  }

  /** The distances to the last checkpoint step down by the length of each step. */
  lemma ToFinishSteps(g: Geometry, vs: seq<Vec3>, ds: seq<real>)
    requires RunningDists(g, vs, ds) && ds != []
    ensures ToFinish(ds)[|ds| - 1] == 0.0
    ensures forall j :: 0 <= j < |ds| - 1 ==> ToFinish(ds)[j] == ToFinish(ds)[j + 1] + g.length(Sub(vs[j], vs[j + 1]))
  {
  }

  /**
   * The end of GeneratePath's own part: checkpoint j gets running distance
   * m - 1 - j (the running distances in reverse order), the first loses its
   * down link and the last its up link.
   */
  method FinishChain(cps: seq<Checkpoint>, ds: seq<real>) returns (r: seq<Checkpoint>)
    requires |ds| == |cps| > 0
    ensures |r| == |cps|
    ensures forall j :: 0 <= j < |r| ==> r[j] == cps[j].(
      distFinish := ReversedDists(ds)[j],
      down := if j == 0 then NoneCheckpoint else cps[j].down,
      up := if j == |cps| - 1 then NoneCheckpoint else cps[j].up)
  {
    r := cps;
    var m := |cps|;
    var j := 0;
    var i := m - 1;
    while i >= 0
      invariant |r| == m
      invariant -1 <= i < m && j == m - 1 - i
      invariant forall k :: 0 <= k < j ==> r[k] == cps[k].(distFinish := ReversedDists(ds)[k])
      invariant forall k :: j <= k < m ==> r[k] == cps[k]
    {
      r := r[j := r[j].(distFinish := ds[i])];
      j := j + 1;
      i := i - 1;
    }
    r := r[0 := r[0].(down := NoneCheckpoint)];
    r := r[m - 1 := r[m - 1].(up := NoneCheckpoint)];
  }

  // ---------------------------------------------------------------------
  // A path's own checkpoints
  // ---------------------------------------------------------------------

  /** A quad of a later chunk is one of the chunks after the first, flattened. */
  lemma {:induction false} FlattenHas(chunks: seq<seq<nat>>, k: nat, x: nat)
    requires k < |chunks| && x in chunks[k]
    ensures x in Flatten(chunks)
    decreases |chunks|
  {
    var n := |chunks| - 1;
    if k < n {
      FlattenHas(chunks[..n], k, x);
    }
  }

  /** The flood's chunks, then the end quads, are non-empty chunks of quads of the level. */
  lemma FloodChunksBelow(g: Geometry, v0: seq<bool>, v: seq<bool>, chunks: seq<seq<nat>>, last: seq<nat>)
    requires FloodSoFar(g, v0, v, chunks)
    requires Below(chunks[0], |v0|) && chunks[0] != [] && Below(last, |v0|) && last != []
    ensures ChunksBelow(chunks + [last], |v0|)
  {
    var all := chunks + [last];
    var rest := Flatten(chunks[1..]);
    forall k | 0 <= k < |all| ensures Below(all[k], |v0|) && all[k] != [] {
      if 1 <= k < |chunks| {
        forall i | 0 <= i < |all[k]| ensures all[k][i] < |v0| {
          FlattenHas(chunks[1..], k - 1, all[k][i]);
          var j :| 0 <= j < |rest| && rest[j] == all[k][i];
        }
      }
    }
  }

  /**
   * The own checkpoints of a path numbered from `base`: a chain running up
   * from the first to the last, with no other links, from the vertex of the
   * start quads to the vertex of the end quads, the last checkpoint at
   * distance 0 and each other one further than the next by the step at the
   * mirrored place of the chain (the running distances in reverse order).
   */
  ghost predicate OwnChain(g: Geometry, quads: seq<Quadblock>, p: Path, own: seq<Checkpoint>, base: int)
    requires Below(p.quadsStart, |quads|) && Below(p.quadsEnd, |quads|)
  {
    && |own| >= 2
    && (forall k :: 0 <= k < |own| ==> own[k].index == base + k)
    && (forall k :: 0 <= k < |own| - 1 ==> own[k].up == base + k + 1)
    && (forall k :: 0 < k < |own| ==> own[k].down == base + k - 1)
    && own[0].down == NoneCheckpoint && own[|own| - 1].up == NoneCheckpoint
    && (forall k :: 0 <= k < |own| ==> own[k].left == NoneCheckpoint && own[k].right == NoneCheckpoint)
    && own[0].pos == ChunkVertex(g, quads, p.quadsStart)
    && own[|own| - 1].pos == ChunkVertex(g, quads, p.quadsEnd)
    && OwnDists(g, own)
  }

  /**
   * The distances of an own chain: 0 at the last checkpoint, and each other
   * one further than the next by the step at the mirrored place.
   */
  ghost predicate OwnDists(g: Geometry, own: seq<Checkpoint>) {
    && |own| > 0
    && own[|own| - 1].distFinish == 0.0
    && (forall k :: 0 <= k < |own| - 1 ==> OwnStepAt(g, own, k))
  }

  /** Checkpoint `k` is further than the next by the step between checkpoints m - 2 - k and m - 1 - k. */
  ghost predicate OwnStepAt(g: Geometry, own: seq<Checkpoint>, k: int) {
    && 0 <= k < |own| - 1
    && own[k].distFinish == own[k + 1].distFinish + g.length(Sub(own[|own| - 2 - k].pos, own[|own| - 1 - k].pos))
  }

  /** The finished checkpoints of the chunks, numbered from `base`, form the path's own chain. */
  lemma FinishedChain(g: Geometry, quads: seq<Quadblock>, p: Path, chunks: seq<seq<nat>>, base: int,
                      cps: seq<Checkpoint>, ds: seq<real>, own: seq<Checkpoint>)
    requires ChunksBelow(chunks, |quads|) && |chunks| >= 2
    requires chunks[0] == p.quadsStart && chunks[|chunks| - 1] == p.quadsEnd
    requires cps == Points(g, quads, chunks, base)
    requires RunningDists(g, Positions(cps), ds)
    requires |own| == |cps| == |ds|
    requires forall j :: 0 <= j < |own| ==> own[j] == cps[j].(
      distFinish := ReversedDists(ds)[j],
      down := if j == 0 then NoneCheckpoint else cps[j].down,
      up := if j == |cps| - 1 then NoneCheckpoint else cps[j].up)
    ensures OwnChain(g, quads, p, own, base)
  {
    var m := |own|;
    forall k | 0 <= k < m
      ensures own[k].index == base + k && own[k].left == NoneCheckpoint && own[k].right == NoneCheckpoint
      ensures k < m - 1 ==> own[k].up == base + k + 1
      ensures 0 < k ==> own[k].down == base + k - 1
      ensures own[k].pos == ChunkVertex(g, quads, chunks[k])
    {
      PointsAt(g, quads, chunks, base, k);
    }
    forall j | 0 <= j < m ensures own[j].distFinish == ReversedDists(ds)[j] && own[j].pos == cps[j].pos {
    }
    OwnSteps(g, cps, ds, own);
  }

  /** The reversed running distances of the chain, as the own checkpoints carry them. */
  lemma OwnSteps(g: Geometry, cps: seq<Checkpoint>, ds: seq<real>, own: seq<Checkpoint>)
    requires RunningDists(g, Positions(cps), ds) && |own| == |cps| == |ds| > 0
    requires forall j :: 0 <= j < |own| ==> own[j].distFinish == ReversedDists(ds)[j] && own[j].pos == cps[j].pos
    ensures OwnDists(g, own)
  {
    var vs := Positions(cps);
    ReversedDistsSteps(g, vs, ds);
    forall k | 0 <= k < |own| - 1 ensures OwnStepAt(g, own, k) {
      assert own[|own| - 2 - k].pos == vs[|ds| - 2 - k];
      assert own[|own| - 1 - k].pos == vs[|ds| - 1 - k];
    }
  }

  /**
   * GeneratePath for the path itself, numbered from `base`: visit what the
   * tree lists and what takes no checkpoint, flood from the start quads,
   * add the end quads as the last chunk, make one checkpoint per chunk and
   * finish the chain.  The chunks are returned alongside.
   */
  method GenerateOwn(g: Geometry, p: Path, quads: seq<Quadblock>, base: int)
    returns (own: seq<Checkpoint>, quads': seq<Quadblock>, ghost chunks: seq<seq<nat>>)
    requires p.quadsStart != [] && p.quadsEnd != []
    requires Below(StartEnd(p), |quads|)
    ensures Below(p.quadsStart, |quads|) && Below(p.quadsEnd, |quads|)
    ensures OwnChain(g, quads, p, own, base)
    ensures |chunks| == |own| && chunks[0] == p.quadsStart && chunks[|chunks| - 1] == p.quadsEnd
    ensures Grown(g, chunks[..|chunks| - 1])
    ensures ChunksBelow(chunks, |quads|) && forall k :: 0 <= k < |own| ==> own[k].pos == ChunkVertex(g, quads, chunks[k])
    ensures quads' == TagChunks(quads, chunks, base)
  {
    StartEndOwn(p, |quads|);
    var startEnd := GetStartEndIndexes(p, []);
    var visited, count := InitialVisited(quads, startEnd);
    ghost var v0 := visited[..];
    var flood := Flood(g, visited, count, p.quadsStart);
    FloodChunksBelow(g, v0, visited[..], flood, p.quadsEnd);
    var all := flood + [p.quadsEnd];
    assert all[..|all| - 1] == flood;
    var cps;
    cps, quads' := PlaceChunks(g, quads, all, base);
    var ds := RunningDistances(g, Positions(cps));
    own := FinishChain(cps, ds);
    FinishedChain(g, quads, p, all, base, cps, ds, own);
    chunks := all;
    forall k | 0 <= k < |own| ensures own[k].pos == ChunkVertex(g, quads, chunks[k]) {
      PointsAt(g, quads, chunks, base, k);
    }
  }

  /** The start and end quads are among the quads the tree lists. */
  lemma StartEndOwn(p: Path, n: nat)
    requires Below(StartEnd(p), n)
    ensures Below(p.quadsStart, n) && Below(p.quadsEnd, n)
  {
    var pre := (if p.left.Some? then StartEnd(p.left.value) else []) + (if p.right.Some? then StartEnd(p.right.value) else []);
    assert StartEnd(p) == pre + p.quadsStart + p.quadsIgnore + p.quadsEnd;
    forall k | 0 <= k < |p.quadsStart| ensures p.quadsStart[k] < n {
      assert StartEnd(p)[|pre| + k] == p.quadsStart[k];
    }
    forall k | 0 <= k < |p.quadsEnd| ensures p.quadsEnd[k] < n {
      assert StartEnd(p)[|pre| + |p.quadsStart| + |p.quadsIgnore| + k] == p.quadsEnd[k];
    }
  }
}
