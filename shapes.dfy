// The colour classes ("shapes") of a paletted texture and the equivalence
// test the VRAM packer uses to let two textures share one image.
//
// A shape is the set of pixel positions that use one palette entry.  The
// source keeps it in an ordered set; here it is the ascending sequence of
// those positions, so that its first element is the set's smallest.

module ColorShapes {
  import opened Wrappers
  import opened Dedup
  import opened Pixels

  /** The positions of `idx` holding palette index `c`, ascending. */
  function Positions(idx: seq<nat>, c: nat): seq<nat>
    decreases |idx|
  {
    if idx == [] then []
    else Positions(idx[..|idx| - 1], c) + (if idx[|idx| - 1] == c then [|idx| - 1] else [])
  }

  /** A shape holds exactly the positions whose index is its palette index. */
  lemma {:induction false} PositionsMembers(idx: seq<nat>, c: nat, j: nat)
    ensures j in Positions(idx, c) <==> j < |idx| && idx[j] == c
    decreases |idx|
  {
    if idx != [] {
      var p := idx[..|idx| - 1];
      PositionsMembers(p, c, j);
      if j < |p| {
        assert idx[j] == p[j];
      }
    }
  }

  ghost predicate Ascending(s: seq<nat>) {
    forall i, j :: 0 <= i < j < |s| ==> s[i] < s[j]
  }

  /** Shapes are listed in ascending order, so the first member is the smallest. */
  lemma {:induction false} PositionsAscending(idx: seq<nat>, c: nat)
    ensures Ascending(Positions(idx, c))
    decreases |idx|
  {
    if idx != [] {
      var p := idx[..|idx| - 1];
      PositionsAscending(p, c);
      var q := Positions(p, c);
      forall x | x in q ensures x < |p| {
        PositionsMembers(p, c, x);
      }
      var r := Positions(idx, c);
      assert r == q + (if idx[|idx| - 1] == c then [|p|] else []);
      forall i, j | 0 <= i < j < |r| ensures r[i] < r[j] {
        if j < |q| {
          assert r[i] == q[i] && r[j] == q[j];
        } else {
          assert r[i] == q[i] && q[i] in q;
        }
      }
    }
  }

  /** Extending the pixels by one extends each shape by at most that position. */
  lemma PositionsSnoc(idx: seq<nat>, x: nat, c: nat)
    ensures Positions(idx + [x], c) == Positions(idx, c) + (if x == c then [|idx|] else [])
  {
    assert (idx + [x])[..|idx|] == idx;
  }

  /** The shapes of a texture with `k` palette entries, one per entry. */
  function Shapes(idx: seq<nat>, k: nat): (r: seq<seq<nat>>)
    ensures |r| == k
  {
    seq(k, c requires 0 <= c < k => Positions(idx, c))
  }

  /**
   * FillShapes: nothing for a direct-colour texture; otherwise, for every
   * palette entry in turn, the positions of the pixels that use it.
   */
  method FillShapes(colorIndexes: seq<nat>, clutSize: nat) returns (shapes: seq<seq<nat>>)
    ensures shapes == if GetBpp(clutSize) == Bpp16 then [] else Shapes(colorIndexes, clutSize)
  {
    shapes := [];
    if GetBpp(clutSize) == Bpp16 {
      return;
    }
    var i := 0;
    while i < clutSize
      invariant i <= clutSize
      invariant shapes == Shapes(colorIndexes, i)
    {
      var shape: seq<nat> := [];
      var j := 0;
      while j < |colorIndexes|
        invariant j <= |colorIndexes|
        invariant shape == Positions(colorIndexes[..j], i)
      {
        assert colorIndexes[..j + 1][..j] == colorIndexes[..j];
        if colorIndexes[j] == i {
          shape := shape + [j];
        }
        j := j + 1;
      }
      assert colorIndexes[..j] == colorIndexes;
      shapes := shapes + [shape];
      i := i + 1;
    }
  }

  /**
   * The shapes partition the pixels: shape `c` holds pixel `j` iff pixel `j`
   * uses palette entry `c`.
   */
  lemma ShapesMembers(idx: seq<nat>, k: nat, c: nat, j: nat)
    requires c < k
    ensures j in Shapes(idx, k)[c] <==> j < |idx| && idx[j] == c
  {
    PositionsMembers(idx, c, j);
  }

  /** Every palette entry some pixel uses has a non-empty shape. */
  lemma ShapesNonEmpty(idx: seq<nat>, k: nat, j: nat)
    requires j < |idx| && idx[j] < k
    ensures Shapes(idx, k)[idx[j]] != []
  {
    PositionsMembers(idx, idx[j], j);
  }

  // ---------------------------------------------------------------------
  // Equivalence
  // ---------------------------------------------------------------------

  /** The first shape of `shapes` holding position `x`. */
  function FirstContaining(shapes: seq<seq<nat>>, x: nat): (r: Option<nat>)
    ensures r.Some? ==> r.value < |shapes| && x in shapes[r.value]
    ensures r.Some? ==> forall l :: 0 <= l < r.value ==> x !in shapes[l]
    ensures r.None? ==> forall l :: 0 <= l < |shapes| ==> x !in shapes[l]
  {
    if shapes == [] then None
    else if x in shapes[0] then Some(0)
    else
      match FirstContaining(shapes[1..], x)
      case None => None
      case Some(l) => Some(l + 1)
  }

  /** Every member of `b` is a member of `a`. */
  predicate Within(b: seq<nat>, a: seq<nat>) {
    forall y :: y in b ==> y in a
  }

  /**
   * The test CompareEquivalency makes for one shape `a` of the first texture:
   * some shape of the second holds a's smallest position, and the first such
   * shape lies within `a` (and, when `both`, `a` lies within it).
   */
  predicate ShapeMatched(a: seq<nat>, bs: seq<seq<nat>>, both: bool) {
    && a != []
    && var f := FirstContaining(bs, a[0]);
    && f.Some?
    && Within(bs[f.value], a)
    && (both ==> Within(a, bs[f.value]))
  }

  predicate ShapesMatch(aShapes: seq<seq<nat>>, bShapes: seq<seq<nat>>, both: bool) {
    forall k :: 0 <= k < |aShapes| ==> ShapeMatched(aShapes[k], bShapes, both)
  }

  /**
   * CompareEquivalency as the source writes it: paletted, same size, same
   * depth, and for each shape of the first texture the shape of the second
   * holding its smallest position lies within it.
   */
  predicate EquivalentAsWritten(aWidth: nat, aHeight: nat, aClutSize: nat, aShapes: seq<seq<nat>>,
                                bWidth: nat, bHeight: nat, bClutSize: nat, bShapes: seq<seq<nat>>) {
    && GetBpp(aClutSize) != Bpp16
    && aWidth == bWidth && aHeight == bHeight
    && GetBpp(aClutSize) == GetBpp(bClutSize)
    && ShapesMatch(aShapes, bShapes, false)
  }

  /** CompareEquivalency with the inclusion checked both ways: the two shapes are equal as sets. */
  predicate Equivalent(aWidth: nat, aHeight: nat, aClutSize: nat, aShapes: seq<seq<nat>>,
                       bWidth: nat, bHeight: nat, bClutSize: nat, bShapes: seq<seq<nat>>) {
    && GetBpp(aClutSize) != Bpp16
    && aWidth == bWidth && aHeight == bHeight
    && GetBpp(aClutSize) == GetBpp(bClutSize)
    && ShapesMatch(aShapes, bShapes, true)
  }

  /** Every index of `idx` is below `k`. */
  ghost predicate IndexesUnder(idx: seq<nat>, k: nat) {
    forall j :: 0 <= j < |idx| ==> idx[j] < k
  }

  /**
   * With the shapes matched both ways, pixel `p`'s class in the first
   * texture is its class in the second.
   */
  lemma MatchedClass(ia: seq<nat>, ka: nat, ib: seq<nat>, kb: nat, p: nat)
    requires |ia| == |ib| && p < |ia|
    requires IndexesUnder(ia, ka) && IndexesUnder(ib, kb)
    requires ShapesMatch(Shapes(ia, ka), Shapes(ib, kb), true)
    ensures forall x :: 0 <= x < |ia| ==> (ia[x] == ia[p] <==> ib[x] == ib[p])
  {
    var c := ia[p];
    var a := Positions(ia, c);
    assert a == Shapes(ia, ka)[c];
    PositionsMembers(ia, c, p);
    assert ShapeMatched(a, Shapes(ib, kb), true);
    var m := a[0];
    PositionsMembers(ia, c, m);
    var j := FirstContaining(Shapes(ib, kb), m).value;
    var b := Positions(ib, j);
    assert b == Shapes(ib, kb)[j];
    assert Within(b, a) && Within(a, b);
    forall x | 0 <= x < |ia| ensures ia[x] == c <==> ib[x] == j {
      PositionsMembers(ia, c, x);
      PositionsMembers(ib, j, x);
    }
  }

  /** Matched shapes mean the two index sequences have the same equalities. */
  lemma MatchSamePattern(ia: seq<nat>, ka: nat, ib: seq<nat>, kb: nat)
    requires |ia| == |ib|
    requires IndexesUnder(ia, ka) && IndexesUnder(ib, kb)
    requires ShapesMatch(Shapes(ia, ka), Shapes(ib, kb), true)
    ensures SamePattern(ia, ib)
  {
    forall p, q | 0 <= p < |ia| && 0 <= q < |ia| ensures ia[p] == ia[q] <==> ib[p] == ib[q] {
      MatchedClass(ia, ka, ib, kb, p);
    }
  }

  /** The shape of a one-colour 2x2 texture. */
  lemma UniformShapes()
    ensures Shapes([0, 0, 0, 0], 1) == [[0, 1, 2, 3]]
  {
    var s0: seq<nat> := [];
    var s1 := s0 + [0];
    var s2 := s1 + [0];
    var s3 := s2 + [0];
    var s4 := s3 + [0];
    PositionsSnoc(s0, 0, 0);
    PositionsSnoc(s1, 0, 0);
    PositionsSnoc(s2, 0, 0);
    PositionsSnoc(s3, 0, 0);
    assert s4 == [0, 0, 0, 0];
    assert Positions(s4, 0) == [0, 1, 2, 3];
    assert Shapes(s4, 1)[0] == Positions(s4, 0);
  }

  /** The shapes of a 2x2 texture whose pixel 1 has a second colour. */
  lemma MixedShapes()
    ensures Shapes([0, 1, 0, 0], 2) == [[0, 2, 3], [1]]
  {
    var s0: seq<nat> := [];
    var s1 := s0 + [0];
    var s2 := s1 + [1];
    var s3 := s2 + [0];
    var s4 := s3 + [0];
    PositionsSnoc(s0, 0, 0);
    PositionsSnoc(s1, 1, 0);
    PositionsSnoc(s2, 0, 0);
    PositionsSnoc(s3, 0, 0);
    PositionsSnoc(s0, 0, 1);
    PositionsSnoc(s1, 1, 1);
    PositionsSnoc(s2, 0, 1);
    PositionsSnoc(s3, 0, 1);
    assert s4 == [0, 1, 0, 0];
    assert Positions(s4, 0) == [0, 2, 3];
    assert Positions(s4, 1) == [1];
    assert Shapes(s4, 2)[0] == Positions(s4, 0);
    assert Shapes(s4, 2)[1] == Positions(s4, 1);
  }

  /**
   * The one-way test accepts a one-colour 2x2 texture against a two-colour
   * one (pixel 1 differs): its only shape {0,1,2,3} contains the shape {0,2,3}
   * holding position 0.  The two-way test rejects it.
   */
  lemma EquivalentAsWrittenCounterexample()
    ensures Shapes([0, 0, 0, 0], 1) == [[0, 1, 2, 3]]
    ensures Shapes([0, 1, 0, 0], 2) == [[0, 2, 3], [1]]
    ensures EquivalentAsWritten(2, 2, 1, [[0, 1, 2, 3]], 2, 2, 2, [[0, 2, 3], [1]])
    ensures !Equivalent(2, 2, 1, [[0, 1, 2, 3]], 2, 2, 2, [[0, 2, 3], [1]])
  {
    UniformShapes();
    MixedShapes();
    var sa: seq<seq<nat>> := [[0, 1, 2, 3]];
    var sb: seq<seq<nat>> := [[0, 2, 3], [1]];
    assert FirstContaining(sb, 0) == Some(0);
    assert 1 in sa[0] && 1 !in sb[0];
    assert ShapeMatched(sa[0], sb, false);
    assert !ShapeMatched(sa[0], sb, true);
  }

  /** ... and the two textures it calls equivalent pack to different images. */
  lemma CounterexampleImagesDiffer()
    ensures Packed([0, 0, 0, 0], 2, 4) == [0, 0]
    ensures Packed([0, 1, 0, 0], 2, 4) == [16, 0]
  {
    PowValues();
    var z: seq<nat> := [0, 0];
    var m: seq<nat> := [0, 1];
    assert z[..1] == [0] && m[..1] == [0];
    assert Word([0], 4) == 0;
    assert Word(z, 4) == 0;
    assert Word(m, 4) == 16;
    assert Chunks(z, 4) == [0];
    assert Chunks(m, 4) == [16];
    var a: seq<nat> := [0, 0, 0, 0];
    var b: seq<nat> := [0, 1, 0, 0];
    assert a[..2] == z && a[2..] == z;
    assert b[..2] == m && b[2..] == z;
    assert PackedRows(a, 2, 4) == Chunks(z, 4) + PackedRows(z, 2, 4);
    assert PackedRows(b, 2, 4) == Chunks(m, 4) + PackedRows(z, 2, 4);
  }
}
