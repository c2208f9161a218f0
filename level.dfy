// The level object and the three compiler passes that update it in place:
// checkpoint generation from the checkpoint paths, turbo-pad maintenance on
// the quadblock list, and building the .vrm image from the level's
// textures.

module Levels {
  import opened Wrappers
  import opened Geo
  import opened Paths
  import opened PathTree
  import opened PathDist
  import opened Track
  import opened Pixels
  import opened Textures
  import opened Vram
  import opened Vrm
  import opened TurboPads
  import opened TextureSet

  /** An animated texture: its textures, and per frame the index of the texture shown. */
  datatype AnimTexture = AnimTexture(textures: seq<Texture>, frames: seq<nat>)

  /** Every frame names one of its animation's textures. */
  predicate FramesInRange(anims: seq<AnimTexture>) {
    forall i, k :: 0 <= i < |anims| && 0 <= k < |anims[i].frames| ==> anims[i].frames[k] < |anims[i].textures|
  }

  /** The textures of the frames, animation by animation, frame by frame. */
  function FrameTextures(anims: seq<AnimTexture>): seq<Texture>
    requires FramesInRange(anims)
    decreases |anims|
  {
    if anims == [] then []
    else
      var a := anims[|anims| - 1];
      FrameTextures(anims[..|anims| - 1]) + seq(|a.frames|, k requires 0 <= k < |a.frames| => a.textures[a.frames[k]])
  }

  class Level {
    var quadblocks: seq<Quadblock>
    var checkpointPaths: seq<Path>
    var checkpoints: seq<Checkpoint>
    /** The textures of m_materialToTexture, in the map's iteration order. */
    var materialTextures: seq<Texture>
    var animTextures: seq<AnimTexture>
    var vrm: seq<u8>

    /** The textures UpdateVRM visits: the materials' first, then every animation frame's. */
    function VramTextures(): seq<Texture>
      reads this`materialTextures, this`animTextures
      requires FramesInRange(animTextures)
    {
      materialTextures + FrameTextures(animTextures)
    }

    // -------------------------------------------------------------------
    // GenerateCheckpoints
    // -------------------------------------------------------------------

    /**
     * Level::GenerateCheckpoints: with no path or a path not ready, false
     * and nothing changed.  Otherwise every path generated in turn, numbered
     * from where the one before ended (`lists` holds the lists generated),
     * the lists joined, the distances carried from each path's first
     * checkpoint back to the path before, and the paths' ends linked into
     * one loop.  The result: the paths tile the list, the distances
     * continue from path to path down to 0 at the last path's end, and the
     * paths' checkpoints form one cycle.
     */
    method GenerateCheckpoints(g: Geometry) returns (ok: bool, ghost lists: seq<seq<Checkpoint>>)
      requires forall i :: 0 <= i < |checkpointPaths| ==> Ready(checkpointPaths[i]) ==> Below(StartEnd(checkpointPaths[i]), |quadblocks|)
      modifies this
      ensures ok == (|old(checkpointPaths)| > 0 && forall i :: 0 <= i < |old(checkpointPaths)| ==> Ready(old(checkpointPaths)[i]))
      ensures !ok ==> quadblocks == old(quadblocks) && checkpointPaths == old(checkpointPaths) && checkpoints == old(checkpoints)
      ensures ok ==> Compiled(g, old(checkpointPaths), checkpointPaths, lists, checkpoints)
      ensures SameButTags(old(quadblocks), quadblocks)
      ensures materialTextures == old(materialTextures) && animTextures == old(animTextures) && vrm == old(vrm)
    {
      lists := [];
      if |checkpointPaths| == 0 {
        return false, lists;
      }
      var i := 0;
      while i < |checkpointPaths|
        invariant i <= |checkpointPaths|
        invariant forall j :: 0 <= j < i ==> Ready(checkpointPaths[j])
      {
        if !Ready(checkpointPaths[i]) {
          return false, lists;
        }
        i := i + 1;
      }
      var ps := checkpointPaths;
      var qs, pathCheckpoints, cps, quads' := Compile(g, ps, quadblocks);
      checkpointPaths, checkpoints, quadblocks, lists := qs, cps, quads', pathCheckpoints;
      ok := true;
    }

    // -------------------------------------------------------------------
    // ManageTurbopad
    // -------------------------------------------------------------------

    /**
     * Level::ManageTurbopad on the quadblock at `qi`: the list becomes
     * `Managed` of the old one.  `lift` is the translation of the copy
     * along the quad's normal; `none` is TURBO_PAD_INDEX_NONE.
     */
    method ManageTurbopad(qi: nat, lift: Quadblock -> Quadblock, none: nat)
      requires qi < |quadblocks| && InRange(quadblocks, qi, none)
      modifies this
      ensures quadblocks == Managed(old(quadblocks), qi, lift, none)
      ensures checkpointPaths == old(checkpointPaths) && checkpoints == old(checkpoints)
      ensures materialTextures == old(materialTextures) && animTextures == old(animTextures) && vrm == old(vrm)
    {
      var stp := true;
      var turboPadIndex := none;
      var clearTurboPadIndex := false;
      var quadblock := quadblocks[qi];
      match quadblock.trigger {
        case TurboPadTrigger | SuperTurboPadTrigger =>
          stp := quadblock.trigger == SuperTurboPadTrigger;
          var turboPad := PadCopy(quadblock, stp, lift, none);
          var index := |quadblocks|;
          turboPadIndex := quadblock.turboPadIndex;
          quadblocks := quadblocks[qi := quadblock.(turboPadIndex := index)] + [turboPad];
          if turboPadIndex == none {
            return;
          }
        case NoTrigger =>
          clearTurboPadIndex := true;
          turboPadIndex := quadblock.turboPadIndex;
          if turboPadIndex == none {
            return;
          }
      }
      var qs := Renumber(quadblocks, turboPadIndex);
      if clearTurboPadIndex {
        qs := qs[qi := qs[qi].(turboPadIndex := none)];
      }
      quadblocks := qs[..turboPadIndex] + qs[turboPadIndex + 1..];
    }

    // -------------------------------------------------------------------
    // UpdateVRM
    // -------------------------------------------------------------------

    /**
     * Level::UpdateVRM: the textures packed are the representatives of the
     * level's textures (each texture not `==`-equal to an earlier one); an
     * empty .vrm gives false.  `places` is where every texture ends up.  On
     * success every representative's palette is stored at its place in the
     * packed grid; when every representative's image fits the rectangle
     * reserved for it, every representative shows the stored image of
     * itself or of one CompareEquivalency accepted for it; and every
     * texture has the place of the representative it equals.
     */
    method UpdateVrm()
      returns (ok: bool, ghost grid: seq<u16>, ghost taken: seq<bool>, ghost places: map<Texture, VramPlace>)
      requires FramesInRange(animTextures)
      requires forall t :: t in VramTextures() ==> t.Valid()
      modifies this, set t | t in VramTextures()
      ensures quadblocks == old(quadblocks) && checkpointPaths == old(checkpointPaths) && checkpoints == old(checkpoints)
      ensures materialTextures == old(materialTextures) && animTextures == old(animTextures)
      ensures PlacesOf(VramTextures(), places)
      ensures forall r :: r in Reps(VramTextures()) ==> r in places
      ensures ok == (vrm != [])
      ensures (forall t :: t in VramTextures() ==> t.Empty()) ==> !ok
      ensures ok ==> |grid| == VramCells && |vrm| == VrmSize && vrm == VrmFile(grid)
      ensures ok ==> ClutsAt(grid, taken, Reps(VramTextures()), places)
      ensures ok && AllFit(Reps(VramTextures())) ==>
        ImagesShown(grid, taken, Reps(VramTextures()), Reps(VramTextures()), places)
      ensures ok ==> forall t :: t in VramTextures() ==>
        FindEqual(Reps(VramTextures()), t).Some? && places[t] == places[Reps(VramTextures())[FindEqual(Reps(VramTextures()), t).value]]
      ensures !ok ==>
        (forall t :: t in VramTextures() ==> t.Empty()) ||
        (exists t :: t in Reps(VramTextures()) && (NoRoomForImage(taken, t) || NoRoomForClut(taken, t)))
    {
      var all := materialTextures + FrameTextures(animTextures);
      assert VramTextures() == all;
      var packed;
      packed, grid, taken, places := PackTextures(all);
      vrm := packed;
      ok := vrm != [];
    }
  }
}
