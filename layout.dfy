// The layout of the .lev file SaveLEV writes.
//
// SaveLEV walks the level once, keeping a running offset: every region of
// the file (header, mesh info, texture groups, animated-texture data,
// quadblocks, visibility bitsets, visible sets, vertices, BSP nodes,
// checkpoints, ghosts, extra header, navigation headers, visibility memory,
// the built-in cactus instance) is given the offset reached so far, and the
// offset then advances by the region's size.  Along the way it fills the
// dedup tables (texture layouts, vertices, visible sets), builds the 32-bit
// visibility bitsets, and collects the pointer map: the offset of every
// field of the file that holds a pointer, so that the loader can relocate
// it.  The file is then written in one go: the pointer map's offset, the
// regions in the same order, padding to a multiple of four, the pointer
// map's size in bytes and the pointer map.
//
// The record formats (the PSX structs) are parameters: their sizes and the
// offsets of their pointer fields come from `Formats`.

module LevLayout {
  import opened Dedup
  import opened Pixels
  import opened Vrm

  // ---------------------------------------------------------------------
  // Visibility bitsets
  // ---------------------------------------------------------------------

  /** The number of 32-bit words for `n` bits: ceil(n / 32). */
  function Words(n: nat): (w: nat)
    ensures n <= 32 * w < n + 32
  {
    (n + 31) / 32
  }

  /** Bit `k` of a word. */
  predicate Bit(w: bv32, k: bv32)
    requires k < 32
  {
    (w >> k) & 1 == 1
  }

  /** The position of bit `i` inside its word, `i % 32`, as a shift amount. */
  function Slot(i: nat): (k: bv32)
    ensures k < 32
  {
    ((i % 32) as bv5) as bv32
  }

  /** `w &= ~(1 << k)`. */
  function Unset(w: bv32, k: bv32): bv32
    requires k < 32
  {
    w & !(1 << k)
  }

  /** Unset clears bit `k` and no other. */
  lemma UnsetBit(w: bv32, k: bv32, j: bv32)
    requires k < 32 && j < 32
    ensures Bit(Unset(w, k), j) <==> Bit(w, j) && j != k
  {
  }

  /** Every bit of 0xFFFFFFFF is set. */
  lemma AllOnes(k: bv32)
    requires k < 32
    ensures Bit(0xFFFF_FFFF, k)
  {
  }

  /** Two small numbers are equal exactly when their 5-bit shift amounts are. */
  lemma SlotInjective(a: nat, b: nat)
    requires a < 32 && b < 32
    ensures ((a as bv5) as bv32 == (b as bv5) as bv32) <==> a == b
  {
    assert ((a as bv5) as bv32 == (b as bv5) as bv32) <==> a as bv5 == b as bv5;
  }

  /** Two bits of the same word are the same bit exactly when they have the same slot. */
  lemma SlotSame(i: nat, j: nat)
    requires i / 32 == j / 32
    ensures Slot(i) == Slot(j) <==> i == j
  {
    SlotInjective(i % 32, j % 32);
  }

  /**
   * The bitset after the first `upto` entries of `hidden` were visited: bit
   * `i` (bit i % 32 of word i / 32) is clear exactly for the hidden
   * entries visited, and set for every other position of every word.
   */
  ghost predicate Cleared(words: seq<bv32>, hidden: seq<bool>, upto: nat)
    requires upto <= |hidden|
  {
    forall i :: 0 <= i < 32 * |words| ==> (Bit(words[i / 32], Slot(i)) <==> !(i < upto && hidden[i]))
  }

  /** The words after visiting entry `i`: its bit cleared when it is hidden. */
  function Visit(words: seq<bv32>, hidden: seq<bool>, i: nat): (r: seq<bv32>)
    requires i < |hidden| && i / 32 < |words|
    ensures |r| == |words|
  {
    if hidden[i] then words[i / 32 := Unset(words[i / 32], Slot(i))] else words
  }

  /** All-ones words have every bit set. */
  lemma ClearedStart(w: nat, hidden: seq<bool>)
    ensures Cleared(seq(w, _ => 0xFFFF_FFFF), hidden, 0)
  {
    var words: seq<bv32> := seq(w, _ => 0xFFFF_FFFF);
    forall j | 0 <= j < 32 * w ensures Bit(words[j / 32], Slot(j)) {
      AllOnes(Slot(j));
    }
  }

  /** Visiting one more entry clears its bit when hidden and leaves every other bit. */
  lemma ClearedStep(words: seq<bv32>, hidden: seq<bool>, i: nat)
    requires i < |hidden| <= 32 * |words| && Cleared(words, hidden, i)
    ensures Cleared(Visit(words, hidden, i), hidden, i + 1)
  {
    var r := Visit(words, hidden, i);
    forall j | 0 <= j < 32 * |r|
      ensures Bit(r[j / 32], Slot(j)) <==> !(j < i + 1 && hidden[j])
    {
      if hidden[i] && j / 32 == i / 32 {
        UnsetBit(words[i / 32], Slot(i), Slot(j));
        SlotSame(i, j);
      }
    }
  }

  /**
   * A visibility bitset (visibleNodeAll, visibleQuadsAll): ceil(n / 32)
   * words of 0xFFFFFFFF, then, for every hidden entry in turn, bit
   * i % 32 of word i / 32 cleared.  The entries must fit in the words.
   */
  method Bitset(n: nat, hidden: seq<bool>) returns (words: seq<bv32>)
    requires |hidden| <= 32 * Words(n)
    ensures |words| == Words(n)
    ensures Cleared(words, hidden, |hidden|)
  {
    words := seq(Words(n), _ => 0xFFFF_FFFF);
    ClearedStart(Words(n), hidden);
    var i := 0;
    while i < |hidden|
      invariant i <= |hidden| && |words| == Words(n)
      invariant Cleared(words, hidden, i)
    {
      ClearedStep(words, hidden, i);
      if hidden[i] {
        words := words[i / 32 := Unset(words[i / 32], Slot(i))];
      }
      i := i + 1;
    }
  }

  // ---------------------------------------------------------------------
  // Dedup tables
  // ---------------------------------------------------------------------

  /**
   * Interning every value of `xs` in turn into a table that already holds
   * the values of `seen`: the table and the ids continue the
   * first-occurrence numbering of `seen + xs`.
   */
  method InternEach<T(==,!new)>(table: InternTable<T>, ghost seen: seq<T>, ids: seq<nat>, xs: seq<T>)
    returns (ids': seq<nat>)
    requires table.Valid() && table.entries == Distinct(seen) && ids == Numbering(seen)
    modifies table
    ensures table.Valid() && table.entries == Distinct(seen + xs) && ids' == Numbering(seen + xs)
  {
    ids' := ids;
    var k := 0;
    assert seen + xs[..0] == seen;
    while k < |xs|
      invariant k <= |xs| && table.Valid()
      invariant table.entries == Distinct(seen + xs[..k]) && ids' == Numbering(seen + xs[..k])
    {
      ghost var s := seen + xs[..k];
      var id := table.Intern(xs[k]);
      DistinctSnoc(s, xs[k]);
      InternedId(s, xs[k], id);
      PrefixSnoc(seen, xs, k);
      ids' := ids' + [id];
      k := k + 1;
    }
    assert xs[..k] == xs;
  }

  /** One more element of `xs` extends the prefix by it. */
  lemma PrefixSnoc<T>(seen: seq<T>, xs: seq<T>, k: nat)
    requires k < |xs|
    ensures seen + xs[..k + 1] == (seen + xs[..k]) + [xs[k]]
  {
    assert xs[..k + 1] == xs[..k] + [xs[k]];
  }

  /** The id a table hands out for one more value is that value's number. */
  lemma InternedId<T(!new)>(s: seq<T>, x: T, id: nat)
    requires id < |Distinct(s + [x])| && Distinct(s + [x])[id] == x
    ensures Numbering(s + [x]) == Numbering(s) + [id]
  {
    NumberingSnoc(s, x);
    DistinctSnoc(s, x);
    if x in Distinct(s) {
      IndexOfUnique(Distinct(s), id);
    } else {
      assert id == |Distinct(s)|;
    }
  }

  /**
   * A dedup table built from scratch (texGroups with savedLayouts): the
   * distinct values in order of first occurrence, and for every value the
   * position of its entry.
   */
  method InternAll<T(==,!new)>(xs: seq<T>) returns (entries: seq<T>, ids: seq<nat>)
    ensures entries == Distinct(xs) && ids == Numbering(xs)
    ensures forall i :: 0 <= i < |xs| ==> ids[i] < |entries| && entries[ids[i]] == xs[i]
    ensures forall i, j :: 0 <= i < j < |entries| ==> entries[i] != entries[j]
  {
    var table := new InternTable<T>();
    assert [] + xs == xs;
    ids := InternEach(table, [], [], xs);
    entries := table.entries;
  }

  // ---------------------------------------------------------------------
  // Quadblocks, vertices and BSP nodes
  // ---------------------------------------------------------------------

  /** A BSP node as SaveLEV reads it; SaveLEV lists the nodes by id. */
  datatype NodeInfo = NodeInfo(branch: bool, indexes: seq<nat>, invisible: bool)

  /**
   * Sizes of the PSX records and the offsets of their pointer fields.  The
   * record definitions are not part of this model.
   */
  datatype Formats = Formats(
    header: nat, meshInfo: nat, texGroup: nat, quad: nat, visibleSet: nat, vertex: nat,
    branch: nat, leaf: nat, checkpoint: nat, extraHeader: nat, navHeader: nat, visMem: nat,
    instDef: nat, model: nat, modelHeader: nat, modelFrame: nat, texLayout: nat,
    headerPtrs: seq<nat>, meshPtrs: seq<nat>, visMemPtrs: seq<nat>,
    instDefOffModel: nat, modelOffHeaders: nat, modelHeaderPtrs: seq<nat>,
    extraTropy: nat, extraOxide: nat, quadPtrs: seq<nat>, leafOffQuads: nat, setPtrs: seq<nat>)

  /**
   * The formats as SaveLEV uses them: nine pointer fields in the header,
   * three in the mesh info and in the visibility memory, four in the
   * cactus's model header, six in a quadblock, three in a visible set, and
   * every one of them, like the model pointer of the cactus's InstDef, the
   * header pointer of its Model, the ghost offsets of the extra header and
   * a leaf's offQuads, a 4-byte field inside its record.
   */
  predicate FormatsOk(f: Formats) {
    && f.header > 0
    && |f.headerPtrs| == 9 && |f.meshPtrs| == 3 && |f.visMemPtrs| == 3 && |f.modelHeaderPtrs| == 4
    && |f.quadPtrs| == 6 && |f.setPtrs| == 3
    && (forall k :: 0 <= k < |f.headerPtrs| ==> f.headerPtrs[k] + 4 <= f.header)
    && (forall k :: 0 <= k < |f.meshPtrs| ==> f.meshPtrs[k] + 4 <= f.meshInfo)
    && (forall k :: 0 <= k < |f.visMemPtrs| ==> f.visMemPtrs[k] + 4 <= f.visMem)
    && (forall k :: 0 <= k < |f.modelHeaderPtrs| ==> f.modelHeaderPtrs[k] + 4 <= f.modelHeader)
    && (forall k :: 0 <= k < |f.quadPtrs| ==> f.quadPtrs[k] + 4 <= f.quad)
    && (forall k :: 0 <= k < |f.setPtrs| ==> f.setPtrs[k] + 4 <= f.visibleSet)
    && f.instDefOffModel + 4 <= f.instDef && f.modelOffHeaders + 4 <= f.model
    && f.extraTropy + 4 <= f.extraHeader && f.extraOxide + 4 <= f.extraHeader
    && f.leafOffQuads + 4 <= f.leaf
  }

  /** Every node's quadblock indexes name one of `n` quadblocks. */
  predicate NodesIn(nodes: seq<NodeInfo>, n: nat) {
    forall i, k :: 0 <= i < |nodes| && 0 <= k < |nodes[i].indexes| ==> nodes[i].indexes[k] < n
  }

  /** orderedQuads: the quadblock indexes of the leaves, leaf by leaf in id order. */
  function LeafQuads(nodes: seq<NodeInfo>): seq<nat>
    decreases |nodes|
  {
    if nodes == [] then []
    else
      var last := nodes[|nodes| - 1];
      LeafQuads(nodes[..|nodes| - 1]) + (if last.branch then [] else last.indexes)
  }

  /** The leaf quads only name quadblocks the nodes name. */
  lemma {:induction false} LeafQuadsIn(nodes: seq<NodeInfo>, n: nat)
    requires NodesIn(nodes, n)
    ensures forall k :: 0 <= k < |LeafQuads(nodes)| ==> LeafQuads(nodes)[k] < n
    decreases |nodes|
  {
    if nodes != [] {
      var init := nodes[..|nodes| - 1];
      assert NodesIn(init, n) by {
        forall i, k | 0 <= i < |init| && 0 <= k < |init[i].indexes| ensures init[i].indexes[k] < n {
          assert init[i] == nodes[i];
        }
      }
      LeafQuadsIn(init, n);
    }
  }

  /** bspSize: the bytes of the serialised nodes, a branch record or a leaf record each. */
  function NodeBytes(nodes: seq<NodeInfo>, f: Formats): nat
    decreases |nodes|
  {
    if nodes == [] then 0
    else
      NodeBytes(nodes[..|nodes| - 1], f) + (if nodes[|nodes| - 1].branch then f.branch else f.leaf)
  }

  /** The vertices of the quads `qs`, quad after quad. */
  function Stream<V>(qs: seq<nat>, quadVertices: seq<seq<V>>): seq<V>
    requires forall k :: 0 <= k < |qs| ==> qs[k] < |quadVertices|
    decreases |qs|
  {
    if qs == [] then []
    else Stream(qs[..|qs| - 1], quadVertices) + quadVertices[qs[|qs| - 1]]
  }

  /** One more quad appends its vertices to the stream. */
  lemma StreamSnoc<V>(qs: seq<nat>, q: nat, quadVertices: seq<seq<V>>)
    requires forall k :: 0 <= k < |qs| ==> qs[k] < |quadVertices|
    requires q < |quadVertices|
    ensures Stream(qs + [q], quadVertices) == Stream(qs, quadVertices) + quadVertices[q]
  {
    assert (qs + [q])[..|qs|] == qs;
  }

  /** One more node appends its leaf quads and its record's bytes. */
  lemma NodesSnoc(nodes: seq<NodeInfo>, i: nat, f: Formats)
    requires i < |nodes|
    ensures LeafQuads(nodes[..i + 1]) == LeafQuads(nodes[..i]) + (if nodes[i].branch then [] else nodes[i].indexes)
    ensures NodeBytes(nodes[..i + 1], f) == NodeBytes(nodes[..i], f) + (if nodes[i].branch then f.branch else f.leaf)
  {
    assert nodes[..i + 1][..i] == nodes[..i];
  }

  /** What the mesh loop keeps after the first `i` nodes. */
  ghost predicate MeshSoFar<V(!new)>(nodes: seq<NodeInfo>, quadVertices: seq<seq<V>>, f: Formats, offQuadblocks: nat,
                                         i: nat, nodeArgs: seq<nat>, orderedQuads: seq<nat>, vertices: seq<V>,
                                         vertexIds: seq<nat>, bspSize: nat, currOffset: nat)
  {
    && i <= |nodes| && |nodeArgs| == i
    && orderedQuads == LeafQuads(nodes[..i])
    && (forall k :: 0 <= k < |orderedQuads| ==> orderedQuads[k] < |quadVertices|)
    && vertices == Distinct(Stream(orderedQuads, quadVertices))
    && vertexIds == Numbering(Stream(orderedQuads, quadVertices))
    && bspSize == NodeBytes(nodes[..i], f)
    && OffsetAt(offQuadblocks, f.quad, |orderedQuads|, currOffset)
    && ArgsSoFar(nodes, f, offQuadblocks, nodeArgs)
  }

  /** The offsets the first nodes were serialised at: the offset each leaf's quads start at. */
  ghost predicate ArgsSoFar(nodes: seq<NodeInfo>, f: Formats, offQuadblocks: nat, nodeArgs: seq<nat>) {
    && |nodeArgs| <= |nodes|
    && forall j :: 0 <= j < |nodeArgs| ==> nodeArgs[j] == offQuadblocks + f.quad * |LeafQuads(nodes[..j])|
  }

  /** One more node serialised at the running offset. */
  lemma ArgsStep(nodes: seq<NodeInfo>, f: Formats, offQuadblocks: nat, nodeArgs: seq<nat>, currOffset: nat)
    requires ArgsSoFar(nodes, f, offQuadblocks, nodeArgs) && |nodeArgs| < |nodes|
    requires currOffset == offQuadblocks + f.quad * |LeafQuads(nodes[..|nodeArgs|])|
    ensures ArgsSoFar(nodes, f, offQuadblocks, nodeArgs + [currOffset])
  {
  }

  /** The indexes of one node name quadblocks. */
  lemma NodeIn(nodes: seq<NodeInfo>, n: nat, i: nat)
    requires NodesIn(nodes, n) && i < |nodes|
    ensures forall k :: 0 <= k < |nodes[i].indexes| ==> nodes[i].indexes[k] < n
  {
  }

  /** The offset reached after `count` records of `size` bytes from `base`. */
  ghost predicate OffsetAt(base: nat, size: nat, count: nat, offset: nat) {
    offset == base + size * count
  }

  /** The running offset after `b` more records of `size` bytes. */
  lemma OffsetStep(base: nat, size: nat, a: nat, b: nat, c: nat, offset: nat, offset': nat)
    requires OffsetAt(base, size, a, offset) && offset' == offset + size * b && c == a + b
    ensures OffsetAt(base, size, c, offset')
  {
  }

  /** The mesh loop's state after one more node. */
  lemma MeshStep<V(!new)>(nodes: seq<NodeInfo>, quadVertices: seq<seq<V>>, f: Formats, offQuadblocks: nat, i: nat,
                          nodeArgs: seq<nat>, quads: seq<nat>, vertices: seq<V>, vertexIds: seq<nat>, currOffset: nat,
                          quads': seq<nat>, vertices': seq<V>, vertexIds': seq<nat>, currOffset': nat)
    requires i < |nodes|
    requires MeshSoFar(nodes, quadVertices, f, offQuadblocks, i, nodeArgs, quads, vertices, vertexIds,
                       NodeBytes(nodes[..i], f), currOffset)
    requires nodes[i].branch ==> quads' == quads && vertices' == vertices && vertexIds' == vertexIds && currOffset' == currOffset
    requires !nodes[i].branch ==> quads' == quads + nodes[i].indexes && currOffset' == currOffset + f.quad * |nodes[i].indexes|
    requires forall k :: 0 <= k < |quads'| ==> quads'[k] < |quadVertices|
    requires vertices' == Distinct(Stream(quads', quadVertices)) && vertexIds' == Numbering(Stream(quads', quadVertices))
    ensures MeshSoFar(nodes, quadVertices, f, offQuadblocks, i + 1, nodeArgs + [currOffset], quads', vertices', vertexIds',
                      NodeBytes(nodes[..i], f) + (if nodes[i].branch then f.branch else f.leaf), currOffset')
  {
    NodesSnoc(nodes, i, f);
    ArgsStep(nodes, f, offQuadblocks, nodeArgs, currOffset);
    if !nodes[i].branch {
      OffsetStep(offQuadblocks, f.quad, |quads|, |nodes[i].indexes|, |quads'|, currOffset, currOffset');
    }
  }

  /**
   * A leaf's quads, as the mesh loop serialises them: every vertex of each
   * quad interned into the vertex table, the quad appended to the ordered
   * list, and the offset advanced by one quadblock record.
   */
  method LeafQuadsInto<V(==,!new)>(table: InternTable<V>, idx: seq<nat>, quadVertices: seq<seq<V>>, f: Formats,
                                   orderedQuads: seq<nat>, vertexIds: seq<nat>, currOffset: nat)
    returns (orderedQuads': seq<nat>, vertexIds': seq<nat>, currOffset': nat)
    requires forall k :: 0 <= k < |idx| ==> idx[k] < |quadVertices|
    requires forall k :: 0 <= k < |orderedQuads| ==> orderedQuads[k] < |quadVertices|
    requires table.Valid() && table.entries == Distinct(Stream(orderedQuads, quadVertices))
    requires vertexIds == Numbering(Stream(orderedQuads, quadVertices))
    modifies table
    ensures orderedQuads' == orderedQuads + idx && currOffset' == currOffset + f.quad * |idx|
    ensures forall k :: 0 <= k < |orderedQuads'| ==> orderedQuads'[k] < |quadVertices|
    ensures table.Valid() && table.entries == Distinct(Stream(orderedQuads', quadVertices))
    ensures vertexIds' == Numbering(Stream(orderedQuads', quadVertices))
  {
    orderedQuads', vertexIds', currOffset' := orderedQuads, vertexIds, currOffset;
    var k := 0;
    assert orderedQuads + idx[..0] == orderedQuads;
    while k < |idx|
      invariant k <= |idx| && orderedQuads' == orderedQuads + idx[..k] && OffsetAt(currOffset, f.quad, k, currOffset')
      invariant forall m :: 0 <= m < |orderedQuads'| ==> orderedQuads'[m] < |quadVertices|
      invariant table.Valid() && table.entries == Distinct(Stream(orderedQuads', quadVertices))
      invariant vertexIds' == Numbering(Stream(orderedQuads', quadVertices))
    {
      var index := idx[k];
      vertexIds' := InternQuad(table, orderedQuads', index, quadVertices, vertexIds');
      orderedQuads' := orderedQuads' + [index];
      PrefixSnoc(orderedQuads, idx, k);
      OffsetStep(currOffset, f.quad, k, 1, k + 1, currOffset', currOffset' + f.quad);
      currOffset' := currOffset' + f.quad;
      k := k + 1;
    }
    assert idx[..k] == idx;
  }

  /** One quad of a leaf: its vertices go through the dedup table after those of the quads before it. */
  method InternQuad<V(==,!new)>(table: InternTable<V>, orderedQuads: seq<nat>, index: nat, quadVertices: seq<seq<V>>,
                                vertexIds: seq<nat>)
    returns (vertexIds': seq<nat>)
    requires index < |quadVertices|
    requires forall k :: 0 <= k < |orderedQuads| ==> orderedQuads[k] < |quadVertices|
    requires table.Valid() && table.entries == Distinct(Stream(orderedQuads, quadVertices))
    requires vertexIds == Numbering(Stream(orderedQuads, quadVertices))
    modifies table
    ensures table.Valid() && table.entries == Distinct(Stream(orderedQuads + [index], quadVertices))
    ensures vertexIds' == Numbering(Stream(orderedQuads + [index], quadVertices))
  {
    StreamSnoc(orderedQuads, index, quadVertices);
    vertexIds' := InternEach(table, Stream(orderedQuads, quadVertices), vertexIds, quadVertices[index]);
  }

  /**
   * The mesh loop of SaveLEV over the nodes in id order: every node is
   * serialised, a leaf's record being given the offset its first quad will
   * have (`nodeArgs`); the leaves' quads are laid out leaf after leaf, and
   * their vertices go through the vertex dedup table.
   */
  method SerializeMesh<V(==,!new)>(nodes: seq<NodeInfo>, quadVertices: seq<seq<V>>, f: Formats, offQuadblocks: nat)
    returns (nodeArgs: seq<nat>, orderedQuads: seq<nat>, vertices: seq<V>, vertexIds: seq<nat>, bspSize: nat, currOffset: nat)
    requires NodesIn(nodes, |quadVertices|)
    ensures orderedQuads == LeafQuads(nodes) && bspSize == NodeBytes(nodes, f)
    ensures forall k :: 0 <= k < |orderedQuads| ==> orderedQuads[k] < |quadVertices|
    ensures currOffset == offQuadblocks + f.quad * |orderedQuads|
    ensures |nodeArgs| == |nodes|
    ensures forall j :: 0 <= j < |nodes| ==> nodeArgs[j] == offQuadblocks + f.quad * |LeafQuads(nodes[..j])|
    ensures vertices == Distinct(Stream(orderedQuads, quadVertices))
    ensures vertexIds == Numbering(Stream(orderedQuads, quadVertices))
  {
    var table := new InternTable<V>();
    nodeArgs, orderedQuads, vertexIds, bspSize, currOffset := [], [], [], 0, offQuadblocks;
    var i := 0;
    assert nodes[..0] == [];
    while i < |nodes|
      invariant MeshSoFar(nodes, quadVertices, f, offQuadblocks, i, nodeArgs, orderedQuads, table.entries,
                          vertexIds, bspSize, currOffset)
      invariant table.Valid()
    {
      var node := nodes[i];
      var offset0 := currOffset;
      ghost var (quads0, entries0, ids0) := (orderedQuads, table.entries, vertexIds);
      if node.branch {
        bspSize := bspSize + f.branch;
      } else {
        bspSize := bspSize + f.leaf;
        NodeIn(nodes, |quadVertices|, i);
        orderedQuads, vertexIds, currOffset := LeafQuadsInto(table, node.indexes, quadVertices, f,
                                                             orderedQuads, vertexIds, currOffset);
      }
      MeshStep(nodes, quadVertices, f, offQuadblocks, i, nodeArgs, quads0, entries0, ids0, offset0,
               orderedQuads, table.entries, vertexIds, currOffset);
      nodeArgs := nodeArgs + [offset0];
      i := i + 1;
    }
    assert nodes[..i] == nodes;
    vertices := table.entries;
  }

  // ---------------------------------------------------------------------
  // Animated-texture data
  // ---------------------------------------------------------------------

  /**
   * An animated texture as SaveLEV serialises it: for every face of its
   * quadblocks (texgroupIndexesPerFrame), the texture-group index each
   * frame shows.
   */
  datatype AnimFaces = AnimFaces(faces: seq<seq<nat>>)

  /** Every list shows at least one frame (the first one is handed to AnimTexture::Serialize). */
  predicate NonEmptyLists(ds: seq<seq<nat>>) {
    forall k :: 0 <= k < |ds| ==> |ds[k]| > 0
  }

  /** Every face of every animation shows at least one frame. */
  predicate FacesNonEmpty(anims: seq<AnimFaces>) {
    forall a :: 0 <= a < |anims| ==> NonEmptyLists(anims[a].faces)
  }

  /** The distinct faces of an animation are among its faces, so they show frames too. */
  lemma DistinctNonEmpty(faces: seq<seq<nat>>)
    requires NonEmptyLists(faces)
    ensures NonEmptyLists(Distinct(faces))
  {
    forall k | 0 <= k < |Distinct(faces)| ensures |Distinct(faces)[k]| > 0 {
      DistinctMembers(faces, Distinct(faces)[k]);
    }
  }

  /** A 32-bit little-endian word holding the low 32 bits of `n`, as a memcpy of a uint32_t lays it out. */
  function Word(n: nat): (bs: seq<u8>)
    ensures |bs| == 4
  {
    U32Bytes(n % 0x1_0000_0000)
  }

  /** The file offset of texture group `index`. */
  function GroupAddress(index: nat, offTexture: nat, groupSize: nat): nat {
    index * groupSize + offTexture
  }

  /** A face's frame words: the address of every frame's texture group. */
  function FrameWords(targets: seq<nat>, offTexture: nat, groupSize: nat): (bs: seq<u8>)
    ensures |bs| == 4 * |targets|
    decreases |targets|
  {
    if targets == [] then []
    else
      FrameWords(targets[..|targets| - 1], offTexture, groupSize)
      + Word(GroupAddress(targets[|targets| - 1], offTexture, groupSize))
  }

  /** Frame word `j` holds the address of frame `j`'s texture group. */
  lemma {:induction false} FrameWordAt(targets: seq<nat>, offTexture: nat, groupSize: nat, j: nat)
    requires j < |targets|
    ensures FrameWords(targets, offTexture, groupSize)[4 * j .. 4 * j + 4]
         == Word(GroupAddress(targets[j], offTexture, groupSize))
    decreases |targets|
  {
    var init := targets[..|targets| - 1];
    var w := FrameWords(init, offTexture, groupSize);
    if j < |init| {
      FrameWordAt(init, offTexture, groupSize, j);
      assert targets[j] == init[j];
    }
    assert FrameWords(targets, offTexture, groupSize) == w + Word(GroupAddress(targets[|targets| - 1], offTexture, groupSize));
  }

  /** The relocation entries of the frame words starting at `at`, one per frame. */
  function FramePtrs(at: nat, n: nat): (ps: seq<nat>)
    ensures |ps| == n
  {
    if n == 0 then [] else FramePtrs(at, n - 1) + [at + 4 * (n - 1)]
  }

  /** Entry `j` is the position of frame word `j`. */
  lemma {:induction false} FramePtrAt(at: nat, n: nat, j: nat)
    requires j < n
    ensures FramePtrs(at, n)[j] == at + 4 * j
  {
    if j < n - 1 {
      FramePtrAt(at, n - 1, j);
    }
  }

  /** A face's relocation entries: the start of its AnimTexture::Serialize buffer, then its frame words. */
  function FacePtrs(at: nat, bodySize: nat, frames: nat): seq<nat> {
    [at] + FramePtrs(at + bodySize, frames)
  }

  /**
   * The data of one animation: for every distinct face list, in order of
   * first occurrence, the buffer AnimTexture::Serialize gives for its first
   * frame's group, then its frame words.
   */
  function AnimBytes(ds: seq<seq<nat>>, body: nat -> seq<u8>, offTexture: nat, groupSize: nat): seq<u8>
    requires NonEmptyLists(ds)
    decreases |ds|
  {
    if ds == [] then []
    else
      var d := ds[|ds| - 1];
      AnimBytes(ds[..|ds| - 1], body, offTexture, groupSize) + body(d[0]) + FrameWords(d, offTexture, groupSize)
  }

  /** The relocation entries of AnimBytes, for data placed at `start`. */
  function AnimPtrs(start: nat, ds: seq<seq<nat>>, body: nat -> seq<u8>, offTexture: nat, groupSize: nat): seq<nat>
    requires NonEmptyLists(ds)
    decreases |ds|
  {
    if ds == [] then []
    else
      var d := ds[|ds| - 1];
      var init := ds[..|ds| - 1];
      AnimPtrs(start, init, body, offTexture, groupSize)
      + FacePtrs(start + |AnimBytes(init, body, offTexture, groupSize)|, |body(d[0])|, |d|)
  }

  /** One more distinct face appends its block to the data and its entries to the list. */
  lemma AnimSnoc(ds: seq<seq<nat>>, d: seq<nat>, body: nat -> seq<u8>, offTexture: nat, groupSize: nat, start: nat)
    requires NonEmptyLists(ds) && |d| > 0
    ensures NonEmptyLists(ds + [d])
    ensures AnimBytes(ds + [d], body, offTexture, groupSize)
         == AnimBytes(ds, body, offTexture, groupSize) + body(d[0]) + FrameWords(d, offTexture, groupSize)
    ensures AnimPtrs(start, ds + [d], body, offTexture, groupSize)
         == AnimPtrs(start, ds, body, offTexture, groupSize)
            + FacePtrs(start + |AnimBytes(ds, body, offTexture, groupSize)|, |body(d[0])|, |d|)
  {
    assert (ds + [d])[..|ds|] == ds;
  }

  /**
   * One face's block (lines of the face loop): the position of the
   * serialised buffer recorded, the buffer appended, then for every frame
   * the position of a 4-byte word recorded and the word, holding the
   * address of the frame's texture group, appended.
   */
  method EmitFace(data: seq<u8>, ptrs: seq<nat>, body: seq<u8>, targets: seq<nat>, offTexture: nat, groupSize: nat)
    returns (data': seq<u8>, ptrs': seq<nat>)
    ensures data' == data + body + FrameWords(targets, offTexture, groupSize)
    ensures ptrs' == ptrs + FacePtrs(|data|, |body|, |targets|)
  {
    ptrs' := ptrs + [|data|];
    data' := data + body;
    var j := 0;
    while j < |targets|
      invariant j <= |targets|
      invariant data' == data + body + FrameWords(targets[..j], offTexture, groupSize)
      invariant ptrs' == ptrs + [|data|] + FramePtrs(|data| + |body|, j)
    {
      assert targets[..j + 1][..j] == targets[..j];
      ptrs' := ptrs' + [|data'|];
      data' := data' + Word(GroupAddress(targets[j], offTexture, groupSize));
      j := j + 1;
    }
    assert targets[..j] == targets;
  }

  /** Whether face `i` shows the same frames as an earlier face (the inner `j < i` search). */
  method SeenBefore(faces: seq<seq<nat>>, i: nat) returns (found: bool)
    requires i < |faces|
    ensures found <==> faces[i] in faces[..i]
  {
    found := false;
    var j := 0;
    while j < i
      invariant j <= i && !found
      invariant forall k :: 0 <= k < j ==> faces[k] != faces[i]
    {
      if faces[i] == faces[j] {
        found := true;
        return;
      }
      j := j + 1;
    }
  }

  /** The distinct faces after one more face. */
  lemma FacesSnoc(faces: seq<seq<nat>>, i: nat)
    requires i < |faces|
    ensures Distinct(faces[..i + 1])
         == if faces[i] in faces[..i] then Distinct(faces[..i]) else Distinct(faces[..i]) + [faces[i]]
  {
    assert faces[..i + 1] == faces[..i] + [faces[i]];
    DistinctSnoc(faces[..i], faces[i]);
    DistinctMembers(faces[..i], faces[i]);
  }

  /** The loop's data after emitting one more distinct face. */
  lemma AnimStepBytes(data: seq<u8>, ds: seq<seq<nat>>, d: seq<nat>, body: nat -> seq<u8>,
                      offTexture: nat, groupSize: nat, data0: seq<u8>, data1: seq<u8>)
    requires NonEmptyLists(ds) && |d| > 0
    requires data0 == data + AnimBytes(ds, body, offTexture, groupSize)
    requires data1 == data0 + body(d[0]) + FrameWords(d, offTexture, groupSize)
    ensures NonEmptyLists(ds + [d])
    ensures data1 == data + AnimBytes(ds + [d], body, offTexture, groupSize)
  {
    AnimSnoc(ds, d, body, offTexture, groupSize, |data|);
    var a := AnimBytes(ds, body, offTexture, groupSize);
    Associative(data, a + body(d[0]), FrameWords(d, offTexture, groupSize));
    Associative(data, a, body(d[0]));
  }

  /** The loop's entries after emitting one more distinct face. */
  lemma AnimStepPtrs(data: seq<u8>, ptrs: seq<nat>, ds: seq<seq<nat>>, d: seq<nat>, body: nat -> seq<u8>,
                     offTexture: nat, groupSize: nat, data0: seq<u8>, ptrs0: seq<nat>, ptrs1: seq<nat>)
    requires NonEmptyLists(ds) && |d| > 0
    requires data0 == data + AnimBytes(ds, body, offTexture, groupSize)
    requires ptrs0 == ptrs + AnimPtrs(|data|, ds, body, offTexture, groupSize)
    requires ptrs1 == ptrs0 + FacePtrs(|data0|, |body(d[0])|, |d|)
    ensures NonEmptyLists(ds + [d])
    ensures ptrs1 == ptrs + AnimPtrs(|data|, ds + [d], body, offTexture, groupSize)
  {
    AnimSnoc(ds, d, body, offTexture, groupSize, |data|);
    Associative(ptrs, AnimPtrs(|data|, ds, body, offTexture, groupSize), FacePtrs(|data0|, |body(d[0])|, |d|));
  }

  /** Appending is associative. */
  lemma Associative<T>(a: seq<T>, b: seq<T>, c: seq<T>)
    ensures a + (b + c) == (a + b) + c
  {
  }

  /**
   * The faces of one animation: a face showing the same frames as an
   * earlier face shares its block; every other face gets a block of its
   * own.  The blocks are those of the distinct face lists.
   */
  method AnimInto(data: seq<u8>, ptrs: seq<nat>, faces: seq<seq<nat>>, body: nat -> seq<u8>, offTexture: nat, groupSize: nat)
    returns (data': seq<u8>, ptrs': seq<nat>)
    requires NonEmptyLists(faces)
    ensures NonEmptyLists(Distinct(faces))
    ensures data' == data + AnimBytes(Distinct(faces), body, offTexture, groupSize)
    ensures ptrs' == ptrs + AnimPtrs(|data|, Distinct(faces), body, offTexture, groupSize)
  {
    data', ptrs' := data, ptrs;
    var i := 0;
    assert faces[..0] == [];
    while i < |faces|
      invariant i <= |faces| && AnimSoFar(data, ptrs, faces, i, body, offTexture, groupSize, data', ptrs')
    {
      var seen := SeenBefore(faces, i);
      ghost var (data0, ptrs0) := (data', ptrs');
      if !seen {
        data', ptrs' := EmitFace(data', ptrs', body(faces[i][0]), faces[i], offTexture, groupSize);
      }
      AnimFaceStep(data, ptrs, faces, i, body, offTexture, groupSize, data0, ptrs0, seen, data', ptrs');
      i := i + 1;
    }
    assert faces[..i] == faces;
  }

  /** The face loop's state after the first `i` faces. */
  ghost predicate AnimSoFar(data: seq<u8>, ptrs: seq<nat>, faces: seq<seq<nat>>, i: nat, body: nat -> seq<u8>,
                            offTexture: nat, groupSize: nat, data': seq<u8>, ptrs': seq<nat>)
    requires i <= |faces|
  {
    && NonEmptyLists(Distinct(faces[..i]))
    && data' == data + AnimBytes(Distinct(faces[..i]), body, offTexture, groupSize)
    && ptrs' == ptrs + AnimPtrs(|data|, Distinct(faces[..i]), body, offTexture, groupSize)
  }

  /** The face loop's state after face `i`, emitted when not seen before. */
  lemma AnimFaceStep(data: seq<u8>, ptrs: seq<nat>, faces: seq<seq<nat>>, i: nat, body: nat -> seq<u8>,
                     offTexture: nat, groupSize: nat, data0: seq<u8>, ptrs0: seq<nat>, seen: bool,
                     data1: seq<u8>, ptrs1: seq<nat>)
    requires i < |faces| && NonEmptyLists(faces)
    requires AnimSoFar(data, ptrs, faces, i, body, offTexture, groupSize, data0, ptrs0)
    requires seen <==> faces[i] in faces[..i]
    requires seen ==> data1 == data0 && ptrs1 == ptrs0
    requires !seen ==> data1 == data0 + body(faces[i][0]) + FrameWords(faces[i], offTexture, groupSize)
    requires !seen ==> ptrs1 == ptrs0 + FacePtrs(|data0|, |body(faces[i][0])|, |faces[i]|)
    ensures AnimSoFar(data, ptrs, faces, i + 1, body, offTexture, groupSize, data1, ptrs1)
  {
    FacesSnoc(faces, i);
    var ds := Distinct(faces[..i]);
    if !seen {
      assert Distinct(faces[..i + 1]) == ds + [faces[i]];
      AnimStepBytes(data, ds, faces[i], body, offTexture, groupSize, data0, data1);
      AnimStepPtrs(data, ptrs, ds, faces[i], body, offTexture, groupSize, data0, ptrs0, ptrs1);
    }
  }

  /** The bytes of every animation, one after the other. */
  function AllAnimBytes(anims: seq<AnimFaces>, serialize: (nat, nat) -> seq<u8>, offTexture: nat, groupSize: nat): seq<u8>
    requires FacesNonEmpty(anims)
    decreases |anims|
  {
    if anims == [] then []
    else
      var a := |anims| - 1;
      DistinctNonEmpty(anims[a].faces);
      AllAnimBytes(anims[..a], serialize, offTexture, groupSize)
      + AnimBytes(Distinct(anims[a].faces), (x: nat) => serialize(a, x), offTexture, groupSize)
  }

  /** The relocation entries of AllAnimBytes, relative to the start of the data. */
  function AllAnimPtrs(anims: seq<AnimFaces>, serialize: (nat, nat) -> seq<u8>, offTexture: nat, groupSize: nat): seq<nat>
    requires FacesNonEmpty(anims)
    decreases |anims|
  {
    if anims == [] then []
    else
      var a := |anims| - 1;
      DistinctNonEmpty(anims[a].faces);
      AllAnimPtrs(anims[..a], serialize, offTexture, groupSize)
      + AnimPtrs(|AllAnimBytes(anims[..a], serialize, offTexture, groupSize)|, Distinct(anims[a].faces),
                 (x: nat) => serialize(a, x), offTexture, groupSize)
  }

  /**
   * The animation loop of SaveLEV: the data and relocation entries of
   * every animation in turn.  `serialize(a, g)` is the buffer
   * AnimTexture::Serialize gives animation `a` for texture group `g`.
   */
  method AnimData(anims: seq<AnimFaces>, serialize: (nat, nat) -> seq<u8>, offTexture: nat, groupSize: nat)
    returns (data: seq<u8>, ptrs: seq<nat>)
    requires FacesNonEmpty(anims)
    ensures data == AllAnimBytes(anims, serialize, offTexture, groupSize)
    ensures ptrs == AllAnimPtrs(anims, serialize, offTexture, groupSize)
  {
    data, ptrs := [], [];
    var a := 0;
    while a < |anims|
      invariant a <= |anims|
      invariant data == AllAnimBytes(anims[..a], serialize, offTexture, groupSize)
      invariant ptrs == AllAnimPtrs(anims[..a], serialize, offTexture, groupSize)
    {
      assert anims[..a + 1][..a] == anims[..a];
      data, ptrs := AnimInto(data, ptrs, anims[a].faces, (x: nat) => serialize(a, x), offTexture, groupSize);
      a := a + 1;
    }
    assert anims[..a] == anims;
  }

  /** The word at a frame entry of a face block holds the address of that frame's texture group. */
  lemma FaceWordAt(data: seq<u8>, body: seq<u8>, targets: seq<nat>, offTexture: nat, groupSize: nat, j: nat)
    requires j < |targets|
    ensures var block := data + body + FrameWords(targets, offTexture, groupSize);
      var p := FacePtrs(|data|, |body|, |targets|)[j + 1];
      p + 4 <= |block| && block[p .. p + 4] == Word(GroupAddress(targets[j], offTexture, groupSize))
  {
    FramePtrAt(|data| + |body|, |targets|, j);
    FrameWordAt(targets, offTexture, groupSize, j);
    SliceRight(data + body, FrameWords(targets, offTexture, groupSize), 4 * j, 4 * j + 4);
  }

  /** A slice of the right part of a concatenation. */
  lemma SliceRight<T>(a: seq<T>, w: seq<T>, i: nat, j: nat)
    requires i <= j <= |w|
    ensures (a + w)[|a| + i .. |a| + j] == w[i..j]
  {
  }

  /**
   * The animated-texture data and its relocation entries (lines 587-706).
   * When the VRAM was packed and there are animations, their data, then a
   * closing 4-byte word holding offAnimData; otherwise (no animation, or no
   * VRAM) only that word.  The position of the closing word is the last
   * entry, so a level without animations has the single entry 0.
   */
  method AnimSection(vramOk: bool, anims: seq<AnimFaces>, serialize: (nat, nat) -> seq<u8>, offTexture: nat,
                     groupSize: nat, offAnimData: nat)
    returns (data: seq<u8>, ptrs: seq<nat>)
    requires FacesNonEmpty(anims)
    ensures var live := vramOk && anims != [];
      var body := if live then AllAnimBytes(anims, serialize, offTexture, groupSize) else [];
      && data == body + Word(offAnimData)
      && ptrs == (if live then AllAnimPtrs(anims, serialize, offTexture, groupSize) else []) + [|body|]
    ensures !(vramOk && anims != []) ==> data == Word(offAnimData) && ptrs == [0]
    ensures |ptrs| > 0 && ptrs[|ptrs| - 1] + 4 == |data| && data[ptrs[|ptrs| - 1]..] == Word(offAnimData)
  {
    if vramOk && anims != [] {
      data, ptrs := AnimData(anims, serialize, offTexture, groupSize);
      ptrs := ptrs + [|data|];
      data := data + Word(offAnimData);
    } else {
      data := Word(offAnimData);
      ptrs := [0];
    }
  }

  // ---------------------------------------------------------------------
  // Texture groups and visible sets
  // ---------------------------------------------------------------------

  /**
   * The texture groups (texGroups with savedLayouts): when the VRAM was
   * packed, the distinct layouts of the faces in the order SaveLEV visits
   * them, and for every face the index of its group; otherwise the single
   * default group.  A group holds its layout four times and is modelled by
   * the layout.
   */
  method TextureGroups<L(==,!new)>(vramOk: bool, layouts: seq<L>, defaultLayout: L)
    returns (groups: seq<L>, ids: seq<nat>)
    ensures vramOk ==> groups == Distinct(layouts) && ids == Numbering(layouts)
    ensures !vramOk ==> groups == [defaultLayout] && ids == []
    ensures vramOk ==> forall i :: 0 <= i < |layouts| ==> ids[i] < |groups| && groups[ids[i]] == layouts[i]
  {
    if vramOk {
      groups, ids := InternAll(layouts);
    } else {
      groups, ids := [defaultLayout], [];
    }
  }

  /** A visible set: the offsets of the node bitset, the quad bitset and the instance list, and a spare word. */
  datatype VisibleSet = VisibleSet(nodes: nat, quads: nat, instances: nat, extra: nat)

  /** The same value `n` times. */
  function Repeat<T>(x: T, n: nat): (r: seq<T>)
    ensures |r| == n && forall k :: 0 <= k < n ==> r[k] == x
  {
    if n == 0 then [] else Repeat(x, n - 1) + [x]
  }

  /** The same value `n` times holds one distinct value (none when `n` is 0). */
  lemma {:induction false} RepeatDistinct<T(!new)>(x: T, n: nat)
    ensures Distinct(Repeat(x, n)) == if n == 0 then [] else [x]
  {
    if n > 0 {
      var s := Repeat(x, n - 1);
      assert Repeat(x, n) == s + [x];
      RepeatDistinct(x, n - 1);
      DistinctSnoc(s, x);
      if n > 1 {
        assert x in Distinct(s);
      }
    }
  }

  /** ... and every copy is numbered 0. */
  lemma {:induction false} RepeatNumbering<T(!new)>(x: T, n: nat)
    ensures Numbering(Repeat(x, n)) == Repeat(0, n)
  {
    if n > 0 {
      var s := Repeat(x, n - 1);
      RepeatNumbering(x, n - 1);
      RepeatDistinct(x, n - 1);
      NumberingSnoc(s, x);
      if n > 1 {
        assert Distinct(s) == [x];
        assert IndexOf(Distinct(s), x) == 0;
      }
    }
  }

  /**
   * The visible-set loop: every quad's set interned in turn, and the quad
   * given the offset of its set's entry.  Without a visibility tree every
   * quad has the same set, so there is one entry (none without quads) and
   * every quad points at offVisibleSet.
   */
  method VisibleSets(count: nat, vs: VisibleSet, offVisibleSet: nat, setSize: nat)
    returns (sets: seq<VisibleSet>, quadSets: seq<nat>)
    ensures sets == Distinct(Repeat(vs, count))
    ensures sets == if count == 0 then [] else [vs]
    ensures |quadSets| == count && forall k :: 0 <= k < count ==> quadSets[k] == offVisibleSet
  {
    var table := new InternTable<VisibleSet>();
    quadSets := [];
    var k := 0;
    while k < count
      invariant k <= count && table.Valid()
      invariant table.entries == if k == 0 then [] else [vs]
      invariant |quadSets| == k && forall j :: 0 <= j < k ==> quadSets[j] == offVisibleSet
    {
      var id := table.Intern(vs);
      quadSets := quadSets + [offVisibleSet + setSize * id];
      k := k + 1;
    }
    sets := table.entries;
    RepeatDistinct(vs, count);
  }

  /** Every set's instance list becomes `offInstances` (the sets are re-keyed once the cactus list is placed). */
  method RetargetInstances(sets: seq<VisibleSet>, offInstances: nat) returns (sets': seq<VisibleSet>)
    ensures |sets'| == |sets|
    ensures forall k :: 0 <= k < |sets| ==> sets'[k] == sets[k].(instances := offInstances)
  {
    sets' := sets;
    var k := 0;
    while k < |sets|
      invariant k <= |sets| && |sets'| == |sets|
      invariant forall j :: 0 <= j < |sets| ==> sets'[j] == if j < k then sets[j].(instances := offInstances) else sets[j]
    {
      sets' := sets'[k := sets'[k].(instances := offInstances)];
      k := k + 1;
    }
  }

  // ---------------------------------------------------------------------
  // The pointer map
  // ---------------------------------------------------------------------

  /** The sizes of the fixed cactus regions and of the navigation headers. */
  const PtrArraySize: nat := 8
  const CommandListSize: nat := 352
  const CactusVertexSize: nat := 420
  const CactusLayoutCount: nat := 18
  const ClutSize: nat := 256
  const BotPathCount: nat := 3

  /** The offsets, from the start of the pointer array, of the 18 texture-layout pointers. */
  const LayoutPtrFields: seq<nat> := [0, 4, 8, 12, 16, 20, 24, 28, 32, 36, 40, 44, 48, 52, 56, 60, 64, 68]

  /**
   * The region offsets SaveLEV computes (offHeader is 0): the start of
   * every region in write order, and offPointerMap, where the last region
   * ends.  tropyGhost and oxideGhost are where the ghost regions start
   * even when they are empty.
   */
  datatype Offsets = Offsets(
    meshInfo: nat, texture: nat, animData: nat, quadblocks: nat, visibleNodes: nat, visibleQuads: nat,
    visibleInstances: nat, visibleSet: nat, vertices: nat, bsp: nat, checkpoints: nat, tropyGhost: nat,
    oxideGhost: nat, extraHeader: nat, navHeaders: nat, visMemNodes: nat, visMemQuads: nat, visMemBsp: nat,
    visMem: nat, cactus: nat, instDefList: nat, instDefList2: nat, cactusModel: nat, modelList: nat,
    modelHeader: nat, commandList: nat, modelFrame: nat, cactusVertices: nat, cactusLayouts: nat,
    cactusLayoutPtrs: nat, clut: nat, pointerMap: nat)

  /** The entries for the pointer fields `fields` of a record at `base`. */
  function Fields(base: nat, fields: seq<nat>): (r: seq<nat>)
    ensures |r| == |fields| && forall k :: 0 <= k < |fields| ==> r[k] == base + fields[k]
  {
    seq(|fields|, k requires 0 <= k < |fields| => base + fields[k])
  }

  /** One more field gives one more entry. */
  lemma FieldsSnoc(base: nat, fields: seq<nat>, i: nat)
    requires i < |fields|
    ensures Fields(base, fields[..i + 1]) == Fields(base, fields[..i]) + [base + fields[i]]
  {
  }

  /**
   * The fixed head of the pointer map: the nine header pointers, the mesh
   * info's three, the visibility memory's three, the cactus's model and
   * model-header pointers, its model header's four, the three pointer
   * arrays' first slots, and the 18 texture-layout pointers.
   */
  function HeadEntries(f: Formats, o: Offsets): seq<nat> {
    Fields(0, f.headerPtrs) + Fields(o.meshInfo, f.meshPtrs) + Fields(o.visMem, f.visMemPtrs)
    + [o.cactus + f.instDefOffModel, o.cactusModel + f.modelOffHeaders] + Fields(o.modelHeader, f.modelHeaderPtrs)
    + [o.instDefList, o.instDefList2, o.modelList] + Fields(o.cactusLayoutPtrs, LayoutPtrFields)
  }

  /** The extra header's ghost fields, each listed only when that ghost's field is not 0. */
  function GhostEntries(f: Formats, o: Offsets, tropyField: nat, oxideField: nat): seq<nat> {
    (if tropyField != 0 then [o.extraHeader + f.extraTropy] else [])
    + (if oxideField != 0 then [o.extraHeader + f.extraOxide] else [])
  }

  /** The entries of `n` consecutive records of `size` bytes from `base`, record by record. */
  function RecordEntries(base: nat, size: nat, fields: seq<nat>, n: nat): seq<nat>
    decreases n
  {
    if n == 0 then [] else Fields(base, fields) + RecordEntries(base + size, size, fields, n - 1)
  }

  /** The size of a serialized node. */
  function NodeSize(f: Formats, node: NodeInfo): nat {
    if node.branch then f.branch else f.leaf
  }

  /**
   * The entries of the nodes from `offNode` on, whose visibility-memory
   * slot pairs start at `offSlot`: for every leaf, its second slot and its
   * offQuads field.
   */
  function LeafEntries(f: Formats, nodes: seq<NodeInfo>, offNode: nat, offSlot: nat): seq<nat>
    decreases |nodes|
  {
    if nodes == [] then []
    else
      (if nodes[0].branch then [] else [offSlot + 4, offNode + f.leafOffQuads])
      + LeafEntries(f, nodes[1..], offNode + NodeSize(f, nodes[0]), offSlot + 8)
  }

  /** visMemBSPP1: two words per node, the second holding a leaf's own offset, every other 0. */
  function BspSlots(f: Formats, nodes: seq<NodeInfo>, offNode: nat): (r: seq<nat>)
    ensures |r| == 2 * |nodes|
    decreases |nodes|
  {
    if nodes == [] then []
    else [0, if nodes[0].branch then 0 else offNode] + BspSlots(f, nodes[1..], offNode + NodeSize(f, nodes[0]))
  }

  /** The number of leaves. */
  function LeafCount(nodes: seq<NodeInfo>): nat
    decreases |nodes|
  {
    if nodes == [] then 0 else (if nodes[0].branch then 0 else 1) + LeafCount(nodes[1..])
  }

  /**
   * The pointer map: the fixed head, the ghost fields, the animation
   * entries moved by offAnimData, six per quadblock, two per leaf and
   * three per visible set.
   */
  function PointerMap(f: Formats, o: Offsets, tropyField: nat, oxideField: nat, animPtrs: seq<nat>,
                      quadCount: nat, nodes: seq<NodeInfo>, setCount: nat): seq<nat>
  {
    HeadEntries(f, o) + GhostEntries(f, o, tropyField, oxideField) + Fields(o.animData, animPtrs)
    + RecordEntries(o.quadblocks, f.quad, f.quadPtrs, quadCount)
    + LeafEntries(f, nodes, o.bsp, o.visMemBsp)
    + RecordEntries(o.visibleSet, f.visibleSet, f.setPtrs, setCount)
  }

  /** `n` records hold `n` times their fields' entries. */
  lemma {:induction false} RecordEntriesLength(base: nat, size: nat, fields: seq<nat>, n: nat)
    ensures |RecordEntries(base, size, fields, n)| == |fields| * n
    decreases n
  {
    if n > 0 {
      RecordEntriesLength(base + size, size, fields, n - 1);
    }
  }

  /** Two entries per leaf. */
  lemma {:induction false} LeafEntriesLength(f: Formats, nodes: seq<NodeInfo>, offNode: nat, offSlot: nat)
    ensures |LeafEntries(f, nodes, offNode, offSlot)| == 2 * LeafCount(nodes)
    decreases |nodes|
  {
    if nodes != [] {
      LeafEntriesLength(f, nodes[1..], offNode + NodeSize(f, nodes[0]), offSlot + 8);
    }
  }

  /**
   * The size of the pointer map: 42 fixed entries, one per ghost present,
   * one per animation entry, six per quadblock, two per leaf and three per
   * visible set.
   */
  lemma PointerMapCount(f: Formats, o: Offsets, tropyField: nat, oxideField: nat, animPtrs: seq<nat>,
                        quadCount: nat, nodes: seq<NodeInfo>, setCount: nat)
    requires FormatsOk(f)
    ensures |PointerMap(f, o, tropyField, oxideField, animPtrs, quadCount, nodes, setCount)|
      == 42 + (if tropyField != 0 then 1 else 0) + (if oxideField != 0 then 1 else 0) + |animPtrs|
         + 6 * quadCount + 2 * LeafCount(nodes) + 3 * setCount
  {
    RecordEntriesLength(o.quadblocks, f.quad, f.quadPtrs, quadCount);
    RecordEntriesLength(o.visibleSet, f.visibleSet, f.setPtrs, setCount);
    LeafEntriesLength(f, nodes, o.bsp, o.visMemBsp);
  }

  /** The serialized nodes before the first `i + 1` split into the first node and the rest. */
  lemma {:induction false} NodeBytesCons(nodes: seq<NodeInfo>, f: Formats, i: nat)
    requires i < |nodes|
    ensures NodeBytes(nodes[..i + 1], f) == NodeSize(f, nodes[0]) + NodeBytes(nodes[1..][..i], f)
    decreases i
  {
    if i > 0 {
      NodeBytesCons(nodes, f, i - 1);
      assert nodes[..i + 1][..i] == nodes[..i];
      assert nodes[1..][..i][..i - 1] == nodes[1..][..i - 1];
    } else {
      assert nodes[..1][..0] == [];
    }
  }

  /**
   * In visMemBSPP1, word 2i is 0 and word 2i+1 holds, for a leaf, its
   * offset in the BSP region (the nodes before it serialized from
   * `offNode`), and 0 for a branch.
   */
  lemma {:induction false} BspSlotsAt(f: Formats, nodes: seq<NodeInfo>, offNode: nat, i: nat)
    requires i < |nodes|
    ensures |BspSlots(f, nodes, offNode)| == 2 * |nodes|
    ensures BspSlots(f, nodes, offNode)[2 * i] == 0
    ensures BspSlots(f, nodes, offNode)[2 * i + 1] == if nodes[i].branch then 0 else offNode + NodeBytes(nodes[..i], f)
    decreases |nodes|
  {
    var rest := BspSlots(f, nodes[1..], offNode + NodeSize(f, nodes[0]));
    if i == 0 {
      if |nodes| > 1 {
        BspSlotsAt(f, nodes[1..], offNode + NodeSize(f, nodes[0]), 0);
      }
      assert nodes[..0] == [];
    } else {
      BspSlotsAt(f, nodes[1..], offNode + NodeSize(f, nodes[0]), i - 1);
      NodeBytesCons(nodes, f, i - 1);
      assert nodes[1..][i - 1] == nodes[i];
    }
    if |nodes| == 1 {
      assert rest == [];
    }
  }

  /** One more record laid at `base`: its fields, then the records after it. */
  lemma RecordStep(pm: seq<nat>, base: nat, size: nat, fields: seq<nat>, n: nat)
    requires n > 0
    ensures (pm + Fields(base, fields)) + RecordEntries(base + size, size, fields, n - 1)
      == pm + RecordEntries(base, size, fields, n)
  {
    Associative(pm, Fields(base, fields), RecordEntries(base + size, size, fields, n - 1));
  }

  /**
   * The loop over `n` records of `size` bytes from `base`: the entries of
   * each record's pointer fields appended in turn.
   */
  method AppendRecords(pm: seq<nat>, base: nat, size: nat, fields: seq<nat>, n: nat) returns (pm': seq<nat>)
    ensures pm' == pm + RecordEntries(base, size, fields, n)
  {
    pm' := pm;
    var cur: nat := base;
    var i := 0;
    while i < n
      invariant i <= n
      invariant pm' + RecordEntries(cur, size, fields, n - i) == pm + RecordEntries(base, size, fields, n)
    {
      RecordStep(pm', cur, size, fields, n - i);
      pm' := pm' + Fields(cur, fields);
      cur := cur + size;
      i := i + 1;
    }
  }

  /** The node loop's state: the entries and slots of the nodes before `i`, `offNode` where node `i` starts. */
  ghost predicate LeavesSoFar(f: Formats, nodes: seq<NodeInfo>, o: Offsets, i: nat, pm: seq<nat>, pm0: seq<nat>,
                              slots: seq<nat>, offNode: nat)
  {
    && i <= |nodes| && |slots| == 2 * |nodes|
    && pm + LeafEntries(f, nodes[i..], offNode, o.visMemBsp + 8 * i) == pm0 + LeafEntries(f, nodes, o.bsp, o.visMemBsp)
    && slots[..2 * i] + BspSlots(f, nodes[i..], offNode) == BspSlots(f, nodes, o.bsp)
    && forall k :: 2 * i <= k < |slots| ==> slots[k] == 0
  }

  /** The node loop's state after node `i`: a leaf's two entries and its slot, and the offset past the node. */
  lemma LeavesStep(f: Formats, nodes: seq<NodeInfo>, o: Offsets, i: nat, pm0: seq<nat>,
                   pm: seq<nat>, slots: seq<nat>, offNode: nat, pm': seq<nat>, slots': seq<nat>, offNode': nat)
    requires i < |nodes| && LeavesSoFar(f, nodes, o, i, pm, pm0, slots, offNode)
    requires offNode' == offNode + NodeSize(f, nodes[i])
    requires nodes[i].branch ==> pm' == pm && slots' == slots
    requires !nodes[i].branch ==> pm' == pm + [o.visMemBsp + (2 * i + 1) * 4, offNode + f.leafOffQuads]
    requires !nodes[i].branch ==> slots' == slots[2 * i + 1 := offNode]
    ensures LeavesSoFar(f, nodes, o, i + 1, pm', pm0, slots', offNode')
  {
    var leaf := !nodes[i].branch;
    var mine := if leaf then [o.visMemBsp + (2 * i + 1) * 4, offNode + f.leafOffQuads] else [];
    assert nodes[i..][1..] == nodes[i + 1..];
    assert LeafEntries(f, nodes[i..], offNode, o.visMemBsp + 8 * i)
      == mine + LeafEntries(f, nodes[i + 1..], offNode', o.visMemBsp + 8 * (i + 1));
    Associative(pm, mine, LeafEntries(f, nodes[i + 1..], offNode', o.visMemBsp + 8 * (i + 1)));
    assert BspSlots(f, nodes[i..], offNode) == [0, if leaf then offNode else 0] + BspSlots(f, nodes[i + 1..], offNode');
    assert slots'[..2 * (i + 1)] == slots[..2 * i] + [0, if leaf then offNode else 0];
    Associative(slots[..2 * i], [0, if leaf then offNode else 0], BspSlots(f, nodes[i + 1..], offNode'));
  }

  /** The loop over the animation entries: each moved by `offset`. */
  method AppendMoved(pm: seq<nat>, offset: nat, animPtrs: seq<nat>) returns (pm': seq<nat>)
    ensures pm' == pm + Fields(offset, animPtrs)
  {
    pm' := pm;
    var i := 0;
    while i < |animPtrs|
      invariant i <= |animPtrs| && pm' == pm + Fields(offset, animPtrs[..i])
    {
      FieldsSnoc(offset, animPtrs, i);
      pm' := pm' + [animPtrs[i] + offset];
      i := i + 1;
    }
    assert animPtrs[..i] == animPtrs;
  }

  /**
   * The node loop: the running offset advancing by each node's size, every
   * leaf's second visMemBSPP1 slot set to the leaf's offset, and the slot's
   * position and the leaf's offQuads field appended.
   */
  method AppendLeaves(pm: seq<nat>, f: Formats, o: Offsets, nodes: seq<NodeInfo>) returns (pm': seq<nat>, visMemBsp: seq<nat>)
    ensures pm' == pm + LeafEntries(f, nodes, o.bsp, o.visMemBsp)
    ensures visMemBsp == BspSlots(f, nodes, o.bsp)
  {
    pm' := pm;
    visMemBsp := Repeat(0, 2 * |nodes|);
    var offNode: nat := o.bsp;
    var i := 0;
    assert nodes[0..] == nodes;
    while i < |nodes|
      invariant LeavesSoFar(f, nodes, o, i, pm', pm, visMemBsp, offNode)
    {
      ghost var (pm0, slots0, offNode0) := (pm', visMemBsp, offNode);
      if nodes[i].branch {
        offNode := offNode + f.branch;
      } else {
        visMemBsp := visMemBsp[2 * i + 1 := offNode];
        pm' := pm' + [o.visMemBsp + (2 * i + 1) * 4, offNode + f.leafOffQuads];
        offNode := offNode + f.leaf;
      }
      LeavesStep(f, nodes, o, i, pm, pm0, slots0, offNode0, pm', visMemBsp, offNode);
      i := i + 1;
    }
    assert visMemBsp[..2 * i] == visMemBsp;
    assert nodes[i..] == [];
  }

  /** The ghost fields of the extra header, each appended when that ghost's field is not 0. */
  method AppendGhosts(pm: seq<nat>, f: Formats, o: Offsets, tropyField: nat, oxideField: nat) returns (pm': seq<nat>)
    ensures pm' == pm + GhostEntries(f, o, tropyField, oxideField)
  {
    pm' := pm;
    if tropyField != 0 {
      pm' := pm' + [o.extraHeader + f.extraTropy];
    }
    if oxideField != 0 {
      pm' := pm' + [o.extraHeader + f.extraOxide];
    }
    Associative(pm, if tropyField != 0 then [o.extraHeader + f.extraTropy] else [],
                if oxideField != 0 then [o.extraHeader + f.extraOxide] else []);
  }

  /**
   * The pointer map SaveLEV collects, with visMemBSPP1: the fixed head,
   * the ghost fields present, the animation entries moved by offAnimData,
   * the quadblocks' six fields each, the leaves' two entries each, and the
   * visible sets' three fields each.
   */
  method BuildPointerMap(f: Formats, o: Offsets, tropyField: nat, oxideField: nat, animPtrs: seq<nat>,
                         quadCount: nat, nodes: seq<NodeInfo>, setCount: nat)
    returns (pm: seq<nat>, visMemBsp: seq<nat>)
    ensures pm == PointerMap(f, o, tropyField, oxideField, animPtrs, quadCount, nodes, setCount)
    ensures visMemBsp == BspSlots(f, nodes, o.bsp)
  {
    pm := HeadEntries(f, o);
    pm := AppendGhosts(pm, f, o, tropyField, oxideField);
    pm := AppendMoved(pm, o.animData, animPtrs);
    pm := AppendRecords(pm, o.quadblocks, f.quad, f.quadPtrs, quadCount);
    pm, visMemBsp := AppendLeaves(pm, f, o, nodes);
    pm := AppendRecords(pm, o.visibleSet, f.visibleSet, f.setPtrs, setCount);
  }

  /**
   * The relocation work of SaveLEV once every offset is known: the visible
   * sets re-keyed to the cactus's instance list (lines 972-978), then the
   * pointer map and visMemBSPP1 (lines 1177-1269).
   */
  method Relocate(f: Formats, o: Offsets, tropyField: nat, oxideField: nat, animPtrs: seq<nat>, quadCount: nat,
                  nodes: seq<NodeInfo>, sets: seq<VisibleSet>)
    returns (sets': seq<VisibleSet>, pm: seq<nat>, visMemBsp: seq<nat>)
    ensures |sets'| == |sets| && forall k :: 0 <= k < |sets| ==> sets'[k] == sets[k].(instances := o.instDefList2)
    ensures pm == PointerMap(f, o, tropyField, oxideField, animPtrs, quadCount, nodes, |sets'|)
    ensures visMemBsp == BspSlots(f, nodes, o.bsp)
  {
    sets' := RetargetInstances(sets, o.instDefList2);
    pm, visMemBsp := BuildPointerMap(f, o, tropyField, oxideField, animPtrs, quadCount, nodes, |sets'|);
  }


  // ---------------------------------------------------------------------
  // The regions, the padding and the whole file
  // ---------------------------------------------------------------------

  /** extraHeader.count: 0 without a Tropy ghost, N_OXIDE_GHOST with only that one, COUNT with both. */
  datatype ExtraCount = ExtraNone | ExtraUpToOxide | ExtraAll

  /** What SaveLEV's texture pass produces: the texture groups, each face's group, the animation data and its entries. */
  datatype TexturePart<L> = TexturePart(groups: seq<L>, ids: seq<nat>, animData: seq<u8>, animPtrs: seq<nat>)

  /**
   * The texture pass laid out from offTexture (lines 554-706): with the
   * VRAM packed, the distinct layouts in first-visit order and each face's
   * number among them; without it, the default layout alone.  Then, at
   * offAnimData just after the groups, the animated-texture section.
   */
  ghost predicate TexturesLaid<L(!new)>(f: Formats, vramOk: bool, layouts: seq<L>, defaultLayout: L,
                                        anims: seq<AnimFaces>, serialize: (nat, nat) -> seq<u8>, offTexture: nat,
                                        t: TexturePart<L>)
    requires FacesNonEmpty(anims)
  {
    && (vramOk ==> t.groups == Distinct(layouts) && t.ids == Numbering(layouts))
    && (!vramOk ==> t.groups == [defaultLayout] && t.ids == [])
    && var live := vramOk && anims != [];
       var body := if live then AllAnimBytes(anims, serialize, offTexture, f.texGroup) else [];
       && t.animData == body + Word(End(offTexture, Bytes(|t.groups|, f.texGroup)))
       && t.animPtrs == (if live then AllAnimPtrs(anims, serialize, offTexture, f.texGroup) else []) + [|body|]
  }

  /** The texture pass of SaveLEV: the texture groups, then the animated-texture section after them. */
  method LayTextures<L(==,!new)>(f: Formats, vramOk: bool, layouts: seq<L>, defaultLayout: L,
                                 anims: seq<AnimFaces>, serialize: (nat, nat) -> seq<u8>, offTexture: nat)
    returns (t: TexturePart<L>)
    requires FacesNonEmpty(anims)
    ensures TexturesLaid(f, vramOk, layouts, defaultLayout, anims, serialize, offTexture, t)
  {
    var groups, ids := TextureGroups(vramOk, layouts, defaultLayout);
    var offAnimData := End(offTexture, Bytes(|groups|, f.texGroup));
    var animData, animPtrs := AnimSection(vramOk, anims, serialize, offTexture, f.texGroup, offAnimData);
    t := TexturePart(groups, ids, animData, animPtrs);
  }

  /**
   * What SaveLEV's mesh pass produces: per node its argument, the laid-out
   * quadblocks, the distinct vertices and each visited vertex's number, the
   * bytes of the BSP nodes, the two visibility bitsets, the visible sets
   * (their instance pointer still at the dummy word) and each quad's set.
   */
  datatype MeshPart<V> = MeshPart(nodeArgs: seq<nat>, quads: seq<nat>, vertices: seq<V>, vertexIds: seq<nat>,
                                  bspSize: nat, visibleNodes: seq<bv32>, visibleQuads: seq<bv32>,
                                  sets: seq<VisibleSet>, quadSets: seq<nat>)

  /**
   * The mesh pass laid out from offQuadblocks (lines 708-835, 837-858): the
   * leaves' quadblocks in node order, each node's argument the offset of
   * the quadblocks before it, the vertices numbered in first-visit order,
   * bitsets of one bit per node and per quadblock slot, cleared for the
   * invisible ones and set for the rest, and one visible set pointing at
   * the two bitsets and the dummy instance word, shared by every quad.
   */
  ghost predicate MeshLaid<V(!new)>(f: Formats, nodes: seq<NodeInfo>, quadVertices: seq<seq<V>>, quadHidden: seq<bool>,
                                    offQuadblocks: nat, m: MeshPart<V>)
    requires NodesIn(nodes, |quadVertices|)
  {
    && m.quads == LeafQuads(nodes) && m.bspSize == NodeBytes(nodes, f)
    && (forall k :: 0 <= k < |m.quads| ==> m.quads[k] < |quadVertices|)
    && |m.nodeArgs| == |nodes|
    && (forall j :: 0 <= j < |nodes| ==> m.nodeArgs[j] == offQuadblocks + f.quad * |LeafQuads(nodes[..j])|)
    && m.vertices == Distinct(Stream(m.quads, quadVertices))
    && m.vertexIds == Numbering(Stream(m.quads, quadVertices))
    && |m.visibleNodes| == Words(|nodes|) && Cleared(m.visibleNodes, NodeHidden(nodes), |nodes|)
    && |m.visibleQuads| == Words(|quadVertices|)
    && |quadHidden| == |quadVertices|
    && Cleared(m.visibleQuads, QuadHidden(m.quads, quadHidden), |m.quads|)
    && var offVisibleNodes := End(offQuadblocks, Bytes(|m.quads|, f.quad));
       var offVisibleQuads := End(offVisibleNodes, 4 * |m.visibleNodes|);
       var offVisibleInstances := End(offVisibleQuads, 4 * |m.visibleQuads|);
       && m.sets == (if m.quads == [] then [] else [VisibleSet(offVisibleNodes, offVisibleQuads, offVisibleInstances, 0)])
       && |m.quadSets| == |m.quads|
       && forall k :: 0 <= k < |m.quadSets| ==> m.quadSets[k] == End(offVisibleInstances, 4)
  }

  /**
   * The mesh pass of SaveLEV: the quadblocks, vertices and BSP nodes, the
   * two visibility bitsets after them, then the visible sets.
   */
  method LayMesh<V(==,!new)>(f: Formats, nodes: seq<NodeInfo>, quadVertices: seq<seq<V>>, quadHidden: seq<bool>,
                             offQuadblocks: nat)
    returns (m: MeshPart<V>)
    requires NodesIn(nodes, |quadVertices|)
    requires |quadHidden| == |quadVertices| && |LeafQuads(nodes)| <= 32 * Words(|quadVertices|)
    ensures MeshLaid(f, nodes, quadVertices, quadHidden, offQuadblocks, m)
  {
    var nodeArgs, quads, vertices, vertexIds, bspSize, _ := SerializeMesh(nodes, quadVertices, f, offQuadblocks);
    var visibleNodes := Bitset(|nodes|, NodeHidden(nodes));
    var visibleQuads := Bitset(|quadVertices|, QuadHidden(quads, quadHidden));
    var offVisibleNodes := End(offQuadblocks, Bytes(|quads|, f.quad));
    var offVisibleQuads := End(offVisibleNodes, 4 * |visibleNodes|);
    var offVisibleInstances := End(offVisibleQuads, 4 * |visibleQuads|);
    var sets, quadSets := VisibleSets(|quads|, VisibleSet(offVisibleNodes, offVisibleQuads, offVisibleInstances, 0),
                                      End(offVisibleInstances, 4), f.visibleSet);
    m := MeshPart(nodeArgs, quads, vertices, vertexIds, bspSize, visibleNodes, visibleQuads, sets, quadSets);
  }

  /** Where the texture groups start: after the header and the mesh info. */
  function TextureStart(f: Formats): nat {
    End(f.header, f.meshInfo)
  }

  /** Where the quadblocks start: after the texture groups and the animated-texture section. */
  function QuadblockStart<L>(f: Formats, t: TexturePart<L>): nat {
    End(End(TextureStart(f), Bytes(|t.groups|, f.texGroup)), |t.animData|)
  }

  /** The passes of SaveLEV before the vertices: the textures, then the mesh after them. */
  method LayFront<L(==,!new), V(==,!new)>(f: Formats, vramOk: bool, layouts: seq<L>, defaultLayout: L,
                                          anims: seq<AnimFaces>, serialize: (nat, nat) -> seq<u8>,
                                          nodes: seq<NodeInfo>, quadVertices: seq<seq<V>>, quadHidden: seq<bool>)
    returns (tex: TexturePart<L>, mesh: MeshPart<V>)
    requires FacesNonEmpty(anims) && NodesIn(nodes, |quadVertices|)
    requires |quadHidden| == |quadVertices| && |LeafQuads(nodes)| <= 32 * Words(|quadVertices|)
    ensures TexturesLaid(f, vramOk, layouts, defaultLayout, anims, serialize, TextureStart(f), tex)
    ensures MeshLaid(f, nodes, quadVertices, quadHidden, QuadblockStart(f, tex), mesh)
  {
    tex := LayTextures(f, vramOk, layouts, defaultLayout, anims, serialize, TextureStart(f));
    mesh := LayMesh(f, nodes, quadVertices, quadHidden, QuadblockStart(f, tex));
  }

  /** The start of every region in write order, then offPointerMap. */
  function Starts(o: Offsets): (r: seq<nat>)
    ensures |r| == 33
  {
    [0, o.meshInfo, o.texture, o.animData] + [o.quadblocks, o.visibleNodes, o.visibleQuads, o.visibleInstances] +
    [o.visibleSet, o.vertices, o.bsp, o.checkpoints] + [o.tropyGhost, o.oxideGhost, o.extraHeader, o.navHeaders] +
    [o.visMemNodes, o.visMemQuads, o.visMemBsp, o.visMem] + [o.cactus, o.instDefList, o.instDefList2, o.cactusModel] +
    [o.modelList, o.modelHeader, o.commandList, o.modelFrame] +
    [o.cactusVertices, o.cactusLayouts, o.cactusLayoutPtrs, o.clut] + [o.pointerMap]
  }

  /** The number of bytes SaveLEV writes for every region, in write order. */
  function RegionSizes<L, V>(f: Formats, tex: TexturePart<L>, mesh: MeshPart<V>,
                              setCount: nat, checkpointCount: nat, tropySize: nat, oxideSize: nat, slotCount: nat): (r: seq<nat>)
    ensures |r| == 32
  {
    [f.header, f.meshInfo, Bytes(|tex.groups|, f.texGroup), |tex.animData|] +
    [Bytes(|mesh.quads|, f.quad), 4 * |mesh.visibleNodes|, 4 * |mesh.visibleQuads|, 4] +
    [Bytes(setCount, f.visibleSet), Bytes(|mesh.vertices|, f.vertex), mesh.bspSize, Bytes(checkpointCount, f.checkpoint)] +
    [tropySize, oxideSize, f.extraHeader, Bytes(BotPathCount, f.navHeader)] +
    [4 * |mesh.visibleNodes|, 4 * |mesh.visibleQuads|, 4 * slotCount, f.visMem] +
    [f.instDef, PtrArraySize, PtrArraySize, f.model] +
    [PtrArraySize, f.modelHeader, CommandListSize, f.modelFrame] +
    [CactusVertexSize, Bytes(CactusLayoutCount, f.texLayout), 4 * CactusLayoutCount, ClutSize]
  }

  /** The bytes of `count` records of `size` bytes. */
  function Bytes(count: nat, size: nat): nat {
    count * size
  }

  /** The end of a region: where the region after it starts. */
  function End(start: nat, size: nat): (e: nat)
    ensures start <= e
  {
    start + size
  }

  /** Bytes is the product. */
  lemma BytesIs(count: nat, size: nat)
    ensures Bytes(count, size) == size * count
  {
  }

  /** A sequence of one element. */
  lemma Singleton<T>(s: seq<T>, x: T)
    requires |s| == 1 && s[0] == x
    ensures s == [x]
  {
  }

  /** Regions `lo` to `hi` follow one another: each starts where the one before it ends. */
  ghost predicate ConsecutiveIn(starts: seq<nat>, sizes: seq<nat>, lo: nat, hi: nat) {
    && lo <= hi <= |sizes| < |starts|
    && forall k :: lo <= k < hi ==> starts[k + 1] == starts[k] + sizes[k]
  }

  /** The sum of the sizes. */
  function Sum(sizes: seq<nat>): nat
    decreases |sizes|
  {
    if sizes == [] then 0 else Sum(sizes[..|sizes| - 1]) + sizes[|sizes| - 1]
  }

  /** Consecutive regions end at the first one's start plus the sum of their sizes. */
  lemma {:induction false} ConsecutiveSum(starts: seq<nat>, sizes: seq<nat>, n: nat)
    requires ConsecutiveIn(starts, sizes, 0, n)
    ensures starts[n] == starts[0] + Sum(sizes[..n])
  {
    if n > 0 {
      ConsecutiveSum(starts, sizes, n - 1);
      assert sizes[..n][..n - 1] == sizes[..n - 1];
    }
  }

  /**
   * The running offset of SaveLEV: every region starts where the one
   * written before it ends, the header at 0.
   */
  ghost predicate LaidOut<L, V>(o: Offsets, f: Formats, tex: TexturePart<L>, mesh: MeshPart<V>,
                                setCount: nat, checkpointCount: nat, tropySize: nat, oxideSize: nat, slotCount: nat) {
    && o.meshInfo == f.header
    && o.texture == End(o.meshInfo, f.meshInfo)
    && o.animData == End(o.texture, Bytes(|tex.groups|, f.texGroup))
    && o.quadblocks == End(o.animData, |tex.animData|)
    && o.visibleNodes == End(o.quadblocks, Bytes(|mesh.quads|, f.quad))
    && o.visibleQuads == End(o.visibleNodes, 4 * |mesh.visibleNodes|)
    && o.visibleInstances == End(o.visibleQuads, 4 * |mesh.visibleQuads|)
    && o.visibleSet == End(o.visibleInstances, 4)
    && o.vertices == End(o.visibleSet, Bytes(setCount, f.visibleSet))
    && o.bsp == End(o.vertices, Bytes(|mesh.vertices|, f.vertex))
    && o.checkpoints == End(o.bsp, mesh.bspSize)
    && o.tropyGhost == End(o.checkpoints, Bytes(checkpointCount, f.checkpoint))
    && o.oxideGhost == End(o.tropyGhost, tropySize)
    && o.extraHeader == End(o.oxideGhost, oxideSize)
    && o.navHeaders == End(o.extraHeader, f.extraHeader)
    && o.visMemNodes == End(o.navHeaders, Bytes(BotPathCount, f.navHeader))
    && o.visMemQuads == End(o.visMemNodes, 4 * |mesh.visibleNodes|)
    && o.visMemBsp == End(o.visMemQuads, 4 * |mesh.visibleQuads|)
    && o.visMem == End(o.visMemBsp, 4 * slotCount)
    && o.cactus == End(o.visMem, f.visMem)
    && o.instDefList == End(o.cactus, f.instDef)
    && o.instDefList2 == End(o.instDefList, PtrArraySize)
    && o.cactusModel == End(o.instDefList2, PtrArraySize)
    && o.modelList == End(o.cactusModel, f.model)
    && o.modelHeader == End(o.modelList, PtrArraySize)
    && o.commandList == End(o.modelHeader, f.modelHeader)
    && o.modelFrame == End(o.commandList, CommandListSize)
    && o.cactusVertices == End(o.modelFrame, f.modelFrame)
    && o.cactusLayouts == End(o.cactusVertices, CactusVertexSize)
    && o.cactusLayoutPtrs == End(o.cactusLayouts, Bytes(CactusLayoutCount, f.texLayout))
    && o.clut == End(o.cactusLayoutPtrs, 4 * CactusLayoutCount)
    && o.pointerMap == End(o.clut, ClutSize)
  }

  /** Regions 0 to 3 follow one another in write order. */
  lemma Chain0<L, V>(o: Offsets, f: Formats, tex: TexturePart<L>, mesh: MeshPart<V>,
                     setCount: nat, checkpointCount: nat, tropySize: nat, oxideSize: nat, slotCount: nat)
    requires LaidOut(o, f, tex, mesh, setCount, checkpointCount, tropySize, oxideSize, slotCount)
    ensures ConsecutiveIn(Starts(o), RegionSizes(f, tex, mesh, setCount, checkpointCount, tropySize, oxideSize, slotCount),
                          0, 4)
  {
  }

  /** Regions 4 to 7 follow one another in write order. */
  lemma Chain1<L, V>(o: Offsets, f: Formats, tex: TexturePart<L>, mesh: MeshPart<V>,
                     setCount: nat, checkpointCount: nat, tropySize: nat, oxideSize: nat, slotCount: nat)
    requires LaidOut(o, f, tex, mesh, setCount, checkpointCount, tropySize, oxideSize, slotCount)
    ensures ConsecutiveIn(Starts(o), RegionSizes(f, tex, mesh, setCount, checkpointCount, tropySize, oxideSize, slotCount),
                          4, 8)
  {
  }

  /** Regions 8 to 11 follow one another in write order. */
  lemma Chain2<L, V>(o: Offsets, f: Formats, tex: TexturePart<L>, mesh: MeshPart<V>,
                     setCount: nat, checkpointCount: nat, tropySize: nat, oxideSize: nat, slotCount: nat)
    requires LaidOut(o, f, tex, mesh, setCount, checkpointCount, tropySize, oxideSize, slotCount)
    ensures ConsecutiveIn(Starts(o), RegionSizes(f, tex, mesh, setCount, checkpointCount, tropySize, oxideSize, slotCount),
                          8, 12)
  {
  }

  /** Regions 12 to 15 follow one another in write order. */
  lemma Chain3<L, V>(o: Offsets, f: Formats, tex: TexturePart<L>, mesh: MeshPart<V>,
                     setCount: nat, checkpointCount: nat, tropySize: nat, oxideSize: nat, slotCount: nat)
    requires LaidOut(o, f, tex, mesh, setCount, checkpointCount, tropySize, oxideSize, slotCount)
    ensures ConsecutiveIn(Starts(o), RegionSizes(f, tex, mesh, setCount, checkpointCount, tropySize, oxideSize, slotCount),
                          12, 16)
  {
  }

  /** Regions 16 to 19 follow one another in write order. */
  lemma Chain4<L, V>(o: Offsets, f: Formats, tex: TexturePart<L>, mesh: MeshPart<V>,
                     setCount: nat, checkpointCount: nat, tropySize: nat, oxideSize: nat, slotCount: nat)
    requires LaidOut(o, f, tex, mesh, setCount, checkpointCount, tropySize, oxideSize, slotCount)
    ensures ConsecutiveIn(Starts(o), RegionSizes(f, tex, mesh, setCount, checkpointCount, tropySize, oxideSize, slotCount),
                          16, 20)
  {
  }

  /** Regions 20 to 23 follow one another in write order. */
  lemma Chain5<L, V>(o: Offsets, f: Formats, tex: TexturePart<L>, mesh: MeshPart<V>,
                     setCount: nat, checkpointCount: nat, tropySize: nat, oxideSize: nat, slotCount: nat)
    requires LaidOut(o, f, tex, mesh, setCount, checkpointCount, tropySize, oxideSize, slotCount)
    ensures ConsecutiveIn(Starts(o), RegionSizes(f, tex, mesh, setCount, checkpointCount, tropySize, oxideSize, slotCount),
                          20, 24)
  {
  }

  /** Regions 24 to 27 follow one another in write order. */
  lemma Chain6<L, V>(o: Offsets, f: Formats, tex: TexturePart<L>, mesh: MeshPart<V>,
                     setCount: nat, checkpointCount: nat, tropySize: nat, oxideSize: nat, slotCount: nat)
    requires LaidOut(o, f, tex, mesh, setCount, checkpointCount, tropySize, oxideSize, slotCount)
    ensures ConsecutiveIn(Starts(o), RegionSizes(f, tex, mesh, setCount, checkpointCount, tropySize, oxideSize, slotCount),
                          24, 28)
  {
  }

  /** Regions 28 to 31 follow one another in write order. */
  lemma Chain7<L, V>(o: Offsets, f: Formats, tex: TexturePart<L>, mesh: MeshPart<V>,
                     setCount: nat, checkpointCount: nat, tropySize: nat, oxideSize: nat, slotCount: nat)
    requires LaidOut(o, f, tex, mesh, setCount, checkpointCount, tropySize, oxideSize, slotCount)
    ensures ConsecutiveIn(Starts(o), RegionSizes(f, tex, mesh, setCount, checkpointCount, tropySize, oxideSize, slotCount),
                          28, 32)
  {
  }

  /** The running offsets are the write order: the regions in the order written follow one another. */
  lemma LaidOutConsecutive<L, V>(o: Offsets, f: Formats, tex: TexturePart<L>, mesh: MeshPart<V>,
                                 setCount: nat, checkpointCount: nat, tropySize: nat, oxideSize: nat, slotCount: nat)
    requires LaidOut(o, f, tex, mesh, setCount, checkpointCount, tropySize, oxideSize, slotCount)
    ensures ConsecutiveIn(Starts(o), RegionSizes(f, tex, mesh, setCount, checkpointCount, tropySize, oxideSize, slotCount),
                          0, 32)
  {
    Chain0(o, f, tex, mesh, setCount, checkpointCount, tropySize, oxideSize, slotCount);
    Chain1(o, f, tex, mesh, setCount, checkpointCount, tropySize, oxideSize, slotCount);
    Chain2(o, f, tex, mesh, setCount, checkpointCount, tropySize, oxideSize, slotCount);
    Chain3(o, f, tex, mesh, setCount, checkpointCount, tropySize, oxideSize, slotCount);
    Chain4(o, f, tex, mesh, setCount, checkpointCount, tropySize, oxideSize, slotCount);
    Chain5(o, f, tex, mesh, setCount, checkpointCount, tropySize, oxideSize, slotCount);
    Chain6(o, f, tex, mesh, setCount, checkpointCount, tropySize, oxideSize, slotCount);
    Chain7(o, f, tex, mesh, setCount, checkpointCount, tropySize, oxideSize, slotCount);
  }

  /**
   * offPointerMap is the number of bytes of all the regions: the regions
   * follow one another from offset 0 with nothing in between.
   */
  lemma PointerMapOffset<L, V>(o: Offsets, f: Formats, tex: TexturePart<L>, mesh: MeshPart<V>,
                               setCount: nat, checkpointCount: nat, tropySize: nat, oxideSize: nat, slotCount: nat)
    requires ConsecutiveIn(Starts(o), RegionSizes(f, tex, mesh, setCount, checkpointCount, tropySize, oxideSize, slotCount), 0, 32)
    ensures o.pointerMap == Sum(RegionSizes(f, tex, mesh, setCount, checkpointCount, tropySize, oxideSize, slotCount))
  {
    ConsecutiveSum(Starts(o), RegionSizes(f, tex, mesh, setCount, checkpointCount, tropySize, oxideSize, slotCount), 32);
    assert RegionSizes(f, tex, mesh, setCount, checkpointCount, tropySize, oxideSize, slotCount)[..32] == RegionSizes(f, tex, mesh, setCount, checkpointCount, tropySize, oxideSize, slotCount);
  }

  /**
   * The padding written before the pointer map: 4 - offset % 4, and none
   * instead of 4.  It is the one amount below 4 that makes the offset a
   * multiple of 4, so it is 0 exactly when the offset already is.
   */
  function Padding(offset: nat): (p: nat)
    ensures p < 4 && (offset + p) % 4 == 0
    ensures p == 0 <==> offset % 4 == 0
  {
    var p := 4 - offset % 4;
    if p == 4 then 0 else p
  }

  /** Which of the ghosts the extra header counts. */
  function ExtraCountOf(tropyField: nat, oxideField: nat): ExtraCount {
    if tropyField > 0 then (if oxideField > 0 then ExtraAll else ExtraUpToOxide) else ExtraNone
  }

  /** For every node, whether it is invisible. */
  function NodeHidden(nodes: seq<NodeInfo>): (r: seq<bool>)
    ensures |r| == |nodes| && forall i :: 0 <= i < |nodes| ==> r[i] == nodes[i].invisible
  {
    seq(|nodes|, i requires 0 <= i < |nodes| => nodes[i].invisible)
  }

  /** For every laid-out quad, whether its quadblock is invisible (or an invisible trigger). */
  function QuadHidden(quads: seq<nat>, hidden: seq<bool>): (r: seq<bool>)
    requires forall k :: 0 <= k < |quads| ==> quads[k] < |hidden|
    ensures |r| == |quads| && forall k :: 0 <= k < |quads| ==> r[k] == hidden[quads[k]]
  {
    seq(|quads|, k requires 0 <= k < |quads| => hidden[quads[k]])
  }

  /**
   * Where the mesh pass put the visible set: one set when there are quads,
   * its node and quad bitsets at their offsets after the quadblocks.
   */
  ghost predicate SetsAfterQuads<L, V>(f: Formats, tex: TexturePart<L>, mesh: MeshPart<V>) {
    var offVisibleNodes := End(QuadblockStart(f, tex), Bytes(|mesh.quads|, f.quad));
    var offVisibleQuads := End(offVisibleNodes, 4 * |mesh.visibleNodes|);
    var offVisibleInstances := End(offVisibleQuads, 4 * |mesh.visibleQuads|);
    mesh.sets == (if mesh.quads == [] then [] else [VisibleSet(offVisibleNodes, offVisibleQuads, offVisibleInstances, 0)])
  }

  /**
   * The rest of SaveLEV's running offset once the textures and the mesh
   * are laid: the offsets of every region in write order, the visible sets
   * re-keyed to the cactus's instance list, the ghosts and the extra
   * header's count, visMemBSPP1, the padding and the pointer map.
   */
  method LayOffsets<L, V>(f: Formats, tex: TexturePart<L>, mesh: MeshPart<V>, nodes: seq<NodeInfo>,
                          checkpointCount: nat, tropySize: nat, oxideSize: nat)
    returns (o: Offsets, sets: seq<VisibleSet>, tropyField: nat, oxideField: nat, extraCount: ExtraCount,
             visMemBsp: seq<nat>, padding: nat, pointerMap: seq<nat>)
    requires FormatsOk(f) && SetsAfterQuads(f, tex, mesh)
    ensures LaidOut(o, f, tex, mesh, |sets|, checkpointCount, tropySize, oxideSize, |visMemBsp|)
    ensures sets == if mesh.quads == [] then [] else [VisibleSet(o.visibleNodes, o.visibleQuads, o.instDefList2, 0)]
    ensures tropyField == (if tropySize == 0 then 0 else o.tropyGhost)
    ensures oxideField == (if oxideSize == 0 then 0 else o.oxideGhost)
    ensures extraCount == if tropySize == 0 then ExtraNone else if oxideSize == 0 then ExtraUpToOxide else ExtraAll
    ensures visMemBsp == BspSlots(f, nodes, o.bsp)
    ensures padding == Padding(o.pointerMap)
    ensures pointerMap == PointerMap(f, o, tropyField, oxideField, tex.animPtrs, |mesh.quads|, nodes, |sets|)
  {
    var offMeshInfo := f.header;
    var offTexture := TextureStart(f);
    var offAnimData := End(offTexture, Bytes(|tex.groups|, f.texGroup));
    var offQuadblocks := QuadblockStart(f, tex);
    var offVisibleNodes := End(offQuadblocks, Bytes(|mesh.quads|, f.quad));
    var offVisibleQuads := End(offVisibleNodes, 4 * |mesh.visibleNodes|);
    var offVisibleInstances := End(offVisibleQuads, 4 * |mesh.visibleQuads|);
    var offVisibleSet := End(offVisibleInstances, 4);

    var offVertices := End(offVisibleSet, Bytes(|mesh.sets|, f.visibleSet));
    var offBsp := End(offVertices, Bytes(|mesh.vertices|, f.vertex));
    var offCheckpoints := End(offBsp, mesh.bspSize);
    var offTropy := End(offCheckpoints, Bytes(checkpointCount, f.checkpoint));
    tropyField := if tropySize == 0 then 0 else offTropy;
    var offOxide := End(offTropy, tropySize);
    oxideField := if oxideSize == 0 then 0 else offOxide;
    extraCount := ExtraCountOf(tropyField, oxideField);
    var offExtraHeader := End(offOxide, oxideSize);
    var offNavHeaders := End(offExtraHeader, f.extraHeader);
    var offVisMemNodes := End(offNavHeaders, Bytes(BotPathCount, f.navHeader));
    var offVisMemQuads := End(offVisMemNodes, 4 * |mesh.visibleNodes|);
    var offVisMemBsp := End(offVisMemQuads, 4 * |mesh.visibleQuads|);
    var offVisMem := End(offVisMemBsp, 4 * (2 * |nodes|));

    var offCactus := End(offVisMem, f.visMem);
    var offInstDefList := End(offCactus, f.instDef);
    var offInstDefList2 := End(offInstDefList, PtrArraySize);
    var offCactusModel := End(offInstDefList2, PtrArraySize);
    var offModelList := End(offCactusModel, f.model);
    var offModelHeader := End(offModelList, PtrArraySize);
    var offCommandList := End(offModelHeader, f.modelHeader);
    var offModelFrame := End(offCommandList, CommandListSize);
    var offCactusVertices := End(offModelFrame, f.modelFrame);
    var offCactusLayouts := End(offCactusVertices, CactusVertexSize);
    var offCactusLayoutPtrs := End(offCactusLayouts, Bytes(CactusLayoutCount, f.texLayout));
    var offClut := End(offCactusLayoutPtrs, 4 * CactusLayoutCount);
    var offPointerMap := End(offClut, ClutSize);
    padding := Padding(offPointerMap);

    o := Offsets(offMeshInfo, offTexture, offAnimData, offQuadblocks, offVisibleNodes, offVisibleQuads,
                 offVisibleInstances, offVisibleSet, offVertices, offBsp, offCheckpoints, offTropy, offOxide,
                 offExtraHeader, offNavHeaders, offVisMemNodes, offVisMemQuads, offVisMemBsp, offVisMem, offCactus,
                 offInstDefList, offInstDefList2, offCactusModel, offModelList, offModelHeader, offCommandList,
                 offModelFrame, offCactusVertices, offCactusLayouts, offCactusLayoutPtrs, offClut, offPointerMap);
    sets, pointerMap, visMemBsp := Relocate(f, o, tropyField, oxideField, tex.animPtrs, |mesh.quads|, nodes, mesh.sets);
    if mesh.quads != [] {
      Singleton(sets, VisibleSet(offVisibleNodes, offVisibleQuads, offInstDefList2, 0));
    }
  }

  /**
   * SaveLEV, up to the writes: the texture groups and the animated-texture
   * data, the quadblocks, vertices, BSP nodes and visibility bitsets of the
   * mesh pass, then the offsets of every region in write order, the
   * visible sets, the ghosts and the extra header's count, visMemBSPP1,
   * the padding and the pointer map.
   * `layouts` are the faces' texture layouts in the order SaveLEV visits
   * them; `serialize(a, g)` is AnimTexture::Serialize of animation `a` for
   * texture group `g`; `quadHidden` says which quadblocks are invisible.
   */
  method SaveLev<L(==,!new), V(==,!new)>(f: Formats, vramOk: bool, layouts: seq<L>, defaultLayout: L,
                                         anims: seq<AnimFaces>, serialize: (nat, nat) -> seq<u8>, nodes: seq<NodeInfo>,
                                         quadVertices: seq<seq<V>>, quadHidden: seq<bool>, checkpointCount: nat,
                                         tropySize: nat, oxideSize: nat)
    returns (o: Offsets, tex: TexturePart<L>, mesh: MeshPart<V>, sets: seq<VisibleSet>, tropyField: nat,
             oxideField: nat, extraCount: ExtraCount, visMemBsp: seq<nat>, padding: nat, pointerMap: seq<nat>)
    requires FormatsOk(f) && FacesNonEmpty(anims) && NodesIn(nodes, |quadVertices|)
    requires |quadHidden| == |quadVertices| && |LeafQuads(nodes)| <= 32 * Words(|quadVertices|)
    ensures LaidOut(o, f, tex, mesh, |sets|, checkpointCount, tropySize, oxideSize, |visMemBsp|)
    ensures TexturesLaid(f, vramOk, layouts, defaultLayout, anims, serialize, TextureStart(f), tex)
    ensures MeshLaid(f, nodes, quadVertices, quadHidden, QuadblockStart(f, tex), mesh)
    ensures sets == if mesh.quads == [] then [] else [VisibleSet(o.visibleNodes, o.visibleQuads, o.instDefList2, 0)]
    ensures tropyField == (if tropySize == 0 then 0 else o.tropyGhost)
    ensures oxideField == (if oxideSize == 0 then 0 else o.oxideGhost)
    ensures extraCount == if tropySize == 0 then ExtraNone else if oxideSize == 0 then ExtraUpToOxide else ExtraAll
    ensures visMemBsp == BspSlots(f, nodes, o.bsp)
    ensures padding == Padding(o.pointerMap)
    ensures pointerMap == PointerMap(f, o, tropyField, oxideField, tex.animPtrs, |mesh.quads|, nodes, |sets|)
  {
    tex, mesh := LayFront(f, vramOk, layouts, defaultLayout, anims, serialize, nodes, quadVertices, quadHidden);
    o, sets, tropyField, oxideField, extraCount, visMemBsp, padding, pointerMap :=
      LayOffsets(f, tex, mesh, nodes, checkpointCount, tropySize, oxideSize);
  }
}
