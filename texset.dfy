// The texture list UpdateVRM hands to the packer: every texture of the
// level in turn, each either added as a new representative or, when it is
// `==`-equal to one already added, recorded as a copy of that one.

module TextureSet {
  import opened Wrappers
  import opened Pixels
  import opened Textures
  import opened Vram
  import opened Vrm

  /** The position of the first texture of `reps` that `t` equals. */
  function FindEqual(reps: seq<Texture>, t: Texture): (r: Option<nat>)
    ensures r.Some? ==> r.value < |reps| && t.Equals(reps[r.value])
    ensures r.Some? ==> forall j :: 0 <= j < r.value ==> !t.Equals(reps[j])
    ensures r.None? <==> forall j :: 0 <= j < |reps| ==> !t.Equals(reps[j])
    decreases |reps|
  {
    if reps == [] then None
    else
      var r := FindEqual(reps[..|reps| - 1], t);
      if r.Some? then r
      else if t.Equals(reps[|reps| - 1]) then Some(|reps| - 1)
      else None
  }

  /** The representatives: the textures not equal to any earlier one, in order. */
  function Reps(ts: seq<Texture>): seq<Texture>
    decreases |ts|
  {
    if ts == [] then []
    else
      var reps := Reps(ts[..|ts| - 1]);
      if FindEqual(reps, ts[|ts| - 1]).Some? then reps else reps + [ts[|ts| - 1]]
  }

  /** The copies: each later texture with the representative it equals. */
  function Copies(ts: seq<Texture>): seq<(Texture, Texture)>
    decreases |ts|
  {
    if ts == [] then []
    else
      var reps := Reps(ts[..|ts| - 1]);
      var t := ts[|ts| - 1];
      match FindEqual(reps, t)
      case Some(j) => Copies(ts[..|ts| - 1]) + [(reps[j], t)]
      case None => Copies(ts[..|ts| - 1])
  }

  /** One more texture: added as a representative, or recorded as a copy. */
  lemma RepsSnoc(ts: seq<Texture>, t: Texture)
    ensures Reps(ts + [t]) == if FindEqual(Reps(ts), t).Some? then Reps(ts) else Reps(ts) + [t]
    ensures Copies(ts + [t]) == match FindEqual(Reps(ts), t)
      case Some(j) => Copies(ts) + [(Reps(ts)[j], t)]
      case None => Copies(ts)
  {
    assert (ts + [t])[..|ts|] == ts;
  }

  /** No two representatives are equal. */
  ghost predicate Unequal(reps: seq<Texture>) {
    forall i, j :: 0 <= i < j < |reps| ==> !reps[j].Equals(reps[i])
  }

  /** The first equal texture of a prefix stays the first after more are added. */
  lemma FindEqualPrefix(reps: seq<Texture>, more: seq<Texture>, t: Texture)
    requires FindEqual(reps, t).Some?
    ensures FindEqual(reps + more, t) == FindEqual(reps, t)
  {
    var r := FindEqual(reps + more, t);
    var j := FindEqual(reps, t).value;
    assert (reps + more)[j] == reps[j];
    assert r.Some?;
  }

  /** In a set of representatives no two are equal, each texture of the list equals one, and each is in the list. */
  lemma {:induction false} RepsCover(ts: seq<Texture>)
    ensures Unequal(Reps(ts))
    ensures forall t :: t in ts ==> FindEqual(Reps(ts), t).Some?
    ensures forall r :: r in Reps(ts) ==> r in ts
    decreases |ts|
  {
    if ts != [] {
      var init := ts[..|ts| - 1];
      var t := ts[|ts| - 1];
      RepsCover(init);
      var reps := Reps(init);
      assert ts == init + [t];
      forall u | u in ts ensures FindEqual(Reps(ts), u).Some? {
        if u in init {
          if FindEqual(reps, t).None? {
            FindEqualPrefix(reps, [t], u);
          }
        } else {
          assert u == t;
          if FindEqual(reps, t).None? {
            assert t.Equals((reps + [t])[|reps|]);
          }
        }
      }
    }
  }

  /**
   * Every copy pairs a later texture with the representative it equals,
   * the first (and only) representative it equals in the whole list.
   */
  lemma {:induction false} CopiesOfReps(ts: seq<Texture>)
    ensures forall k :: 0 <= k < |Copies(ts)| ==> Copies(ts)[k].1 in ts
    ensures forall k :: 0 <= k < |Copies(ts)| ==>
      FindEqual(Reps(ts), Copies(ts)[k].1).Some? &&
      Reps(ts)[FindEqual(Reps(ts), Copies(ts)[k].1).value] == Copies(ts)[k].0
    decreases |ts|
  {
    if ts != [] {
      var init := ts[..|ts| - 1];
      var t := ts[|ts| - 1];
      CopiesOfReps(init);
      var reps := Reps(init);
      var cs := Copies(init);
      assert ts == init + [t];
      forall k | 0 <= k < |Copies(ts)|
        ensures Copies(ts)[k].1 in ts
        ensures FindEqual(Reps(ts), Copies(ts)[k].1).Some?
        ensures Reps(ts)[FindEqual(Reps(ts), Copies(ts)[k].1).value] == Copies(ts)[k].0
      {
        if k < |cs| {
          assert Copies(ts)[k] == cs[k];
          if FindEqual(reps, t).None? {
            FindEqualPrefix(reps, [t], cs[k].1);
            assert (reps + [t])[FindEqual(reps, cs[k].1).value] == reps[FindEqual(reps, cs[k].1).value];
          }
        }
      }
    }
  }

  /** Every texture of the list is a representative or the later half of a copy. */
  lemma {:induction false} RepOrCopy(ts: seq<Texture>, t: Texture)
    requires t in ts
    ensures t in Reps(ts) || exists k :: 0 <= k < |Copies(ts)| && Copies(ts)[k].1 == t
    decreases |ts|
  {
    var init := ts[..|ts| - 1];
    var last := ts[|ts| - 1];
    assert ts == init + [last];
    RepsSnoc(init, last);
    if t != last {
      RepOrCopy(init, t);
      if t !in Reps(init) {
        var k :| 0 <= k < |Copies(init)| && Copies(init)[k].1 == t;
        assert Copies(ts)[k] == Copies(init)[k];
      }
    } else if FindEqual(Reps(init), last).Some? {
      assert Copies(ts)[|Copies(init)|].1 == t;
    }
  }

  /** A representative's own first equal representative is itself. */
  lemma RepFindsItself(reps: seq<Texture>, t: Texture)
    requires Unequal(reps) && t in reps
    ensures FindEqual(reps, t).Some? && reps[FindEqual(reps, t).value] == t
  {
    var i :| 0 <= i < |reps| && reps[i] == t;
  }

  /** A copy whose later half is itself a representative copies from itself. */
  lemma CopyOfRep(ts: seq<Texture>, k: nat)
    requires k < |Copies(ts)| && Copies(ts)[k].1 in Reps(ts)
    ensures Copies(ts)[k].0 == Copies(ts)[k].1
  {
    RepsCover(ts);
    CopiesOfReps(ts);
    RepFindsItself(Reps(ts), Copies(ts)[k].1);
  }

  /** Two copies of the same texture copy from the same representative. */
  lemma CopiesAgree(ts: seq<Texture>, j: nat, k: nat)
    requires j < |Copies(ts)| && k < |Copies(ts)| && Copies(ts)[j].1 == Copies(ts)[k].1
    ensures Copies(ts)[j].0 == Copies(ts)[k].0
  {
    CopiesOfReps(ts);
  }

  // ---------------------------------------------------------------------
  // The two loops of UpdateVRM around the packer
  // ---------------------------------------------------------------------

  /** The inner search: the first representative `t` equals, or |reps| when there is none. */
  method FirstEqual(reps: seq<Texture>, t: Texture) returns (j: nat)
    ensures j <= |reps| && FindEqual(reps, t) == if j < |reps| then Some(j) else None
  {
    j := 0;
    while j < |reps| && !t.Equals(reps[j])
      invariant j <= |reps|
      invariant forall m :: 0 <= m < j ==> !t.Equals(reps[m])
    {
      j := j + 1;
    }
  }

  /**
   * The search loop: each texture compared with the representatives
   * so far, recorded as a copy of the first it equals or added as a new one.
   */
  method Representatives(all: seq<Texture>) returns (textures: seq<Texture>, copies: seq<(Texture, Texture)>)
    ensures textures == Reps(all) && copies == Copies(all)
  {
    textures, copies := [], [];
    var i := 0;
    while i < |all|
      invariant i <= |all|
      invariant textures == Reps(all[..i]) && copies == Copies(all[..i])
    {
      var texture := all[i];
      var j := FirstEqual(textures, texture);
      assert all[..i + 1] == all[..i] + [texture];
      RepsSnoc(all[..i], texture);
      if j < |textures| {
        copies := copies + [(textures[j], texture)];
      } else {
        textures := textures + [texture];
      }
      i := i + 1;
    }
    assert all[..i] == all;
  }

  /** Both halves of every copy are textures of the list, the first a representative. */
  lemma {:induction false} CopiesFrom(ts: seq<Texture>)
    ensures forall k :: 0 <= k < |Copies(ts)| ==> Copies(ts)[k].0 in Reps(ts) && Copies(ts)[k].1 in ts
    decreases |ts|
  {
    if ts != [] {
      var init := ts[..|ts| - 1];
      var t := ts[|ts| - 1];
      CopiesFrom(init);
      assert ts == init + [t];
      var reps := Reps(init);
      forall k | 0 <= k < |Copies(ts)| ensures Copies(ts)[k].0 in Reps(ts) && Copies(ts)[k].1 in ts {
        if k < |Copies(init)| {
          assert Copies(ts)[k] == Copies(init)[k];
        }
      }
    }
  }

  /**
   * Once every copy sits where the texture it copies sits, every texture of
   * the list sits where the representative it equals sits.
   */
  lemma CopiesSettle(ts: seq<Texture>)
    requires forall k :: 0 <= k < |Copies(ts)| ==> PlaceOf(Copies(ts)[k].1) == PlaceOf(Copies(ts)[k].0)
    ensures forall t :: t in ts ==>
      FindEqual(Reps(ts), t).Some? && PlaceOf(t) == PlaceOf(Reps(ts)[FindEqual(Reps(ts), t).value])
  {
    RepsCover(ts);
    CopiesOfReps(ts);
    forall t | t in ts
      ensures FindEqual(Reps(ts), t).Some? && PlaceOf(t) == PlaceOf(Reps(ts)[FindEqual(Reps(ts), t).value])
    {
      RepOrCopy(ts, t);
      if t in Reps(ts) {
        RepFindsItself(Reps(ts), t);
      } else {
        var k :| 0 <= k < |Copies(ts)| && Copies(ts)[k].1 == t;
      }
    }
  }

  /**
   * The copy loop: every copy takes over its representative's coordinates.
   * Afterwards the representatives keep theirs (and so what the packer
   * stored for them stays where they point), every texture has the
   * coordinates of the representative it equals, and no blend mode changes.
   */
  method CopyAttributes(all: seq<Texture>, textures: seq<Texture>, copies: seq<(Texture, Texture)>)
    requires textures == Reps(all) && copies == Copies(all)
    modifies set t | t in all
    ensures forall r :: r in textures ==> PlaceOf(r) == old(PlaceOf(r))
    ensures forall t :: t in all ==>
      FindEqual(textures, t).Some? && PlaceOf(t) == PlaceOf(textures[FindEqual(textures, t).value])
    ensures forall t :: t in all ==> t.blendMode == old(t.blendMode)
  {
    CopiesFrom(all);
    CopiesShape(all);
    ApplyCopies(copies, textures);
    CopiesSettle(all);
  }

  /**
   * The copy loop after packing, its outcome recorded in `places`: the
   * representatives keep the coordinates `packed` gave them, and every
   * texture has those of the representative it equals.
   */
  method ShareCoordinates(all: seq<Texture>, textures: seq<Texture>, copies: seq<(Texture, Texture)>,
                          ghost packed: map<Texture, VramPlace>)
    returns (ghost places: map<Texture, VramPlace>)
    requires textures == Reps(all) && copies == Copies(all)
    requires (forall r :: r in textures ==> r in all) && PlacesOf(textures, packed)
    modifies set t | t in all
    ensures PlacesOf(all, places)
    ensures forall r :: r in textures ==> r in places && places[r] == packed[r]
    ensures forall t :: t in all ==>
      FindEqual(textures, t).Some? && places[t] == places[textures[FindEqual(textures, t).value]]
  {
    CopyAttributes(all, textures, copies);
    assert PlacesOf(textures, packed);
    places := map t | t in all :: PlaceOf(t);
    SettledPlaces(all, textures, packed, places);
  }

  /**
   * The coordinates after the copy loop, as a map: the representatives'
   * are the ones they were packed at, and every texture's are those of the
   * representative it equals.
   */
  lemma SettledPlaces(all: seq<Texture>, textures: seq<Texture>, packed: map<Texture, VramPlace>,
                      places: map<Texture, VramPlace>)
    requires forall r :: r in textures ==> r in all
    requires PlacesOf(textures, packed)
    requires forall t :: t in all ==>
      FindEqual(textures, t).Some? && PlaceOf(t) == PlaceOf(textures[FindEqual(textures, t).value])
    requires places == map t | t in all :: PlaceOf(t)
    ensures PlacesOf(all, places)
    ensures forall r :: r in textures ==> r in places && places[r] == packed[r]
    ensures forall t :: t in all ==>
      FindEqual(textures, t).Some? && places[t] == places[textures[FindEqual(textures, t).value]]
  {
    forall t | t in all
      ensures FindEqual(textures, t).Some? && places[t] == places[textures[FindEqual(textures, t).value]]
    {
      var r := textures[FindEqual(textures, t).value];
      assert r in all;
    }
  }

  /** No two representatives are `==`-equal, so none appears twice. */
  lemma UnequalSeparate(reps: seq<Texture>)
    requires Unequal(reps)
    ensures Separate(reps)
  {
    forall i, j | 0 <= i < j < |reps| ensures Apart(reps, i, j) {
      assert !reps[j].Equals(reps[i]);
    }
  }

  /** A copy of a representative is the representative itself, and a texture copied twice copies the same one twice. */
  lemma CopiesShape(ts: seq<Texture>)
    ensures forall k :: 0 <= k < |Copies(ts)| && Copies(ts)[k].1 in Reps(ts) ==> Copies(ts)[k].0 == Copies(ts)[k].1
    ensures forall j, k :: 0 <= j < |Copies(ts)| && 0 <= k < |Copies(ts)| && Copies(ts)[j].1 == Copies(ts)[k].1 ==>
      Copies(ts)[j].0 == Copies(ts)[k].0
  {
    forall k | 0 <= k < |Copies(ts)| && Copies(ts)[k].1 in Reps(ts) ensures Copies(ts)[k].0 == Copies(ts)[k].1 {
      CopyOfRep(ts, k);
    }
    forall j, k | 0 <= j < |Copies(ts)| && 0 <= k < |Copies(ts)| && Copies(ts)[j].1 == Copies(ts)[k].1
      ensures Copies(ts)[j].0 == Copies(ts)[k].0
    {
      CopiesAgree(ts, j, k);
    }
  }

  /**
   * The loop itself, over copies shaped as CopiesShape says: each copy's
   * texture takes over the coordinates of the texture it copies, so the
   * representatives keep theirs and each copy ends where its source is.
   */
  method ApplyCopies(copies: seq<(Texture, Texture)>, reps: seq<Texture>)
    requires forall k :: 0 <= k < |copies| ==> copies[k].0 in reps
    requires forall k :: 0 <= k < |copies| && copies[k].1 in reps ==> copies[k].0 == copies[k].1
    requires forall j, k :: 0 <= j < |copies| && 0 <= k < |copies| && copies[j].1 == copies[k].1 ==> copies[j].0 == copies[k].0
    modifies set k | 0 <= k < |copies| :: copies[k].1
    ensures forall r :: r in reps ==> PlaceOf(r) == old(PlaceOf(r))
    ensures forall k :: 0 <= k < |copies| ==> PlaceOf(copies[k].1) == PlaceOf(copies[k].0)
    ensures forall k :: 0 <= k < |copies| ==> copies[k].1.blendMode == old(copies[k].1.blendMode)
  {
    var k := 0;
    while k < |copies|
      invariant k <= |copies|
      invariant forall r :: r in reps ==> PlaceOf(r) == old(PlaceOf(r))
      invariant forall m :: 0 <= m < k ==> PlaceOf(copies[m].1) == PlaceOf(copies[m].0)
      invariant forall m :: 0 <= m < |copies| ==> copies[m].1.blendMode == old(copies[m].1.blendMode)
    {
      var from, to := copies[k].0, copies[k].1;
      to.CopyVramAttributes(from);
      k := k + 1;
    }
  }

  /** Representatives that kept their places keep what the packer stored for them. */
  lemma Settle(grid: seq<u16>, taken: seq<bool>, reps: seq<Texture>, packed: map<Texture, VramPlace>,
               places: map<Texture, VramPlace>)
    requires forall r :: r in reps ==> r in packed && r in places && places[r] == packed[r]
    requires ClutsAt(grid, taken, reps, packed)
    requires AllFit(reps) && Separate(reps) ==> ImagesShown(grid, taken, reps, reps, packed)
    ensures ClutsAt(grid, taken, reps, places)
    ensures AllFit(reps) && Separate(reps) ==> ImagesShown(grid, taken, reps, reps, places)
  {
    ClutsMoved(grid, taken, reps, packed, places);
    if AllFit(reps) && Separate(reps) {
      ShownMoved(grid, taken, reps, reps, packed, places);
    }
  }

  /**
   * The body of UpdateVRM over the level's textures `all`: the
   * representatives packed, and when the result is not empty, the copies
   * given their representatives' coordinates.  `places` records where every
   * texture ends up.  On success every representative's palette is stored
   * at its place; when every representative's image fits its rectangle,
   * every representative shows the stored image of itself or of one
   * CompareEquivalency accepted for it; and every texture has the place of
   * the representative it equals.
   */
  method PackTextures(all: seq<Texture>)
    returns (vrm: seq<u8>, ghost grid: seq<u16>, ghost taken: seq<bool>, ghost places: map<Texture, VramPlace>)
    requires forall t :: t in all ==> t.Valid()
    modifies set t | t in all
    ensures PlacesOf(all, places)
    ensures forall r :: r in Reps(all) ==> r in places
    ensures (forall t :: t in all ==> t.Empty()) ==> vrm == []
    ensures vrm != [] ==> |grid| == VramCells && |vrm| == VrmSize && vrm == VrmFile(grid)
    ensures vrm != [] ==> ClutsAt(grid, taken, Reps(all), places)
    ensures vrm != [] && AllFit(Reps(all)) ==> ImagesShown(grid, taken, Reps(all), Reps(all), places)
    ensures vrm != [] ==> forall t :: t in all ==>
      FindEqual(Reps(all), t).Some? && places[t] == places[Reps(all)[FindEqual(Reps(all), t).value]]
    ensures vrm == [] ==>
      (forall t :: t in all ==> t.Empty()) ||
      (exists t :: t in Reps(all) && (NoRoomForImage(taken, t) || NoRoomForClut(taken, t)))
  {
    var textures, copyTextureAttributes := Representatives(all);
    RepsCover(all);
    UnequalSeparate(textures);
    ghost var packed;
    vrm, grid, taken, packed := PackVrm(textures);
    if vrm == [] {
      places := map t | t in all :: PlaceOf(t);
      if forall r :: r in textures ==> r.Empty() {
        forall t | t in all
          ensures t.Empty()
        {
          assert textures[FindEqual(textures, t).value] in textures;
        }
      }
      return;
    }
    places := ShareCoordinates(all, textures, copyTextureAttributes, packed);
    Settle(grid, taken, textures, packed, places);
  }
}
