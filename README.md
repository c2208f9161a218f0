# CrashTeamEditor level compiler: a Dafny model

CrashTeamEditor builds race-track levels for Crash Team Racing. Its level
compiler turns the in-memory level into two binary images: the `.lev` file and
the `.vrm` video-memory image. This project models the compiler's deterministic
core and proves what each pass promises.

The model is split into these modules:

- **BspTree** (`bsp.dfy`): the spatial partition tree.
  - Every node takes its id from the global counter when it is constructed.
  - `Generate` gives a node the bounding box of its quads, splits the list at the box midpoint on each axis, scores the three splits and hands the best halves to new children, which are generated in turn.
  - `Clear` walks the tree with a worklist.
  - Branch and leaf records are serialised.
  - The nodes are objects linked by `left` and `right` fields. Each node keeps a ghost value of its subtree, and the value function `Grown` says what `Generate` makes of it.
- **Paths**, **PathTree**, **PathDist** and **Track** (`path.dfy`, `pathtree.dfy`, `pathdist.dfy`, `track.dfy`): checkpoint generation.
  - `Path::Ready` and `Path::GetStartEndIndexes`.
  - The breadth-first flood over a visited array that cuts the track into chunks.
  - Contiguous numbering of the checkpoints of a path tree, with up/down and sideways links.
  - The distances to the finish, and `Path::UpdateDist`.
  - `Level::GenerateCheckpoints`, which joins the top-level paths, carries distances from path to path and closes the loop.
- **Pixels**, **ColorShapes**, **Textures**, **Vram**, **Vrm** and **TextureSet** (`pixels.dfy`, `shapes.dfy`, `texture.dfy`, `vram.dfy`, `vrm.dfy`, `texset.dfy`): the VRAM texture packer.
  - RGBA to 16-bit colour.
  - The palette loop and index packing.
  - The colour shapes behind `CompareEquivalency`.
  - The `Texture` object with its VRAM coordinates.
  - `TestRect`, the first-fit `FindAvailableSpace` and `BufferToVRM` on a 512x512 grid of 16-bit words, the right half of the 1024x512 VRAM (stored x coordinates are offset by 512).
  - `PackVRM` and the `.vrm` file it returns.
  - `Level::UpdateVRM`'s deduplication of equal textures.
- **LevLayout** (`layout.dfy`): the bookkeeping of `Level::SaveLEV`.
  - The running offset of every region.
  - The deduplication tables (texture groups, vertices, visible sets).
  - The 32-bit visibility bitsets.
  - The animated-texture section.
  - The padding to a multiple of four.
  - The pointer map.
- **TurboPads** (`turbopad.dfy`): `Level::ManageTurbopad`'s maintenance of the invisible turbo-pad copies in the quadblock list.
- **Materials** (`material.dfy`): `MaterialProperty<T>`'s preview/backup store.
- **Levels** (`level.dfy`): the `Level` object whose fields the passes update in place. This is where `GenerateCheckpoints`, `ManageTurbopad` and `UpdateVRM` live.
- **Dedup**, **Geo** and **Wrappers**: shared definitions.
  - Dedup: first-occurrence deduplication with its numbering, and the intern table used by SaveLEV.
  - Geo: vectors, boxes and the quadblock record.
  - Wrappers: `Option`.

Where the code does something surprising, the model follows the code:

- `Level::GenerateBSP` always makes the root a branch, even for a level small enough for a single leaf.
- `ComputeBoundingBox` starts the maximum at `FLT_MIN`, the smallest positive float, not the lowest float.
- `SaveLEV` takes the pointer map's offset before the padding is added.
- `TestRect` rejects `x + w >= 512`. This is reproduced.
- `ConvertColor` tests for black on the raw 8-bit bytes, so an opaque near-black pixel such as (4, 4, 4, 255) becomes the transparent 0. Textures are built with `Pixels.ConvertColorAsWritten`.
- A 16 bpp texture's image is its palette (`m_image = m_clut`), not one colour per pixel. `Textures.Texture.constructor` stores `Textures.DirectImageAsWritten`.
- `GetVRAMWidth` rounds the row width down. `Textures.Texture.VramWords` is that floor, and the packer reserves `VramWords()` by `height` words for an image. A paletted image whose width is not a whole number of words is longer than that rectangle (`Textures.Texture.RowsFitIff`), and `BufferToVRM` folds its rows at the narrower width.
- `CompareEquivalency` only checks that, for each shape of this texture, the first shape of the other holding its smallest position lies within it. The cache search of `PackVRM` uses exactly this test, so a texture may reuse the image of a texture with a different picture.
- `Path::GeneratePath` stores the running distances from the start in reverse order. Every checkpoint chain carries these reversed distances (`Paths.ReversedDists`): 0 at the last checkpoint and never growing, but not the distance along the chain.

One behaviour of the code has no defined result, so the model gives it the corrected reading and models the code's reading beside it: `CreateTexture` reads three bytes per pixel from `i * channels` whatever the channel count. For one- and two-channel pictures that reads the next pixels' bytes and, at the last pixel, past the buffer. `Pixels.PixelColor` reads a grey byte as red, green and blue.

For each of these, the intended behaviour is modelled beside the code's and proved to have the property the code misses; the table under "## Findings" names both.

## Model

| member | source | states |
|---|---|---|
| BspTree.BoxBounds | src/bsp.cpp:156-170 | the node's box holds every listed quad's box on each axis; its min never exceeds FLT_MAX and its max is never below FLT_MIN, the smallest positive float the max starts from |
| BspTree.BoxAttained | src/bsp.cpp:156-170 | each bound of the box is either its start value (FLT_MAX, FLT_MIN) or the matching bound of one listed quad |
| BspTree.Side | src/bsp.cpp:172-193 | one side of Split is no longer than the node's list and names only existing quadblocks |
| BspTree.SidePartition | src/bsp.cpp:172-193 | along an axis the two sides are together a permutation of the list; an index is on the right iff it is listed and its quad's centre on the axis is greater than the midpoint, on the left iff it is listed and not |
| BspTree.AllLeft | src/bsp.cpp:172-193 | when no listed quad lies beyond the midpoint, the right side is empty and the left side is the whole list, in order |
| BspTree.Score | src/bsp.cpp:194-196 | the split score is never negative |
| BspTree.ScoreMeaning | src/bsp.cpp:194-196 | with both sides non-empty the score is 0 exactly when the right side is twice the left, and below 1/2 exactly when the left side is the smaller |
| BspTree.Ratio | src/bsp.cpp:194-196 | the ratio of the left count to the right is positive, below 1 exactly when the left side is the smaller, and 1/2 exactly when the right side is twice the left |
| BspTree.BestAxis | src/bsp.cpp:121-136 | Generate's choice: X exactly when its score is no larger than Y's and Z's, Z exactly when X is not chosen and Z's is no larger than Y's, Y exactly when its score is strictly below both others |
| BspTree.SplitAxis | src/bsp.cpp:117-136 | the axis chosen for a node is a real axis whose split score is no larger than that of any of the three axes |
| BspTree.Grown | src/bsp.cpp:113-137 | Generate keeps the node's id, type, flags and list and never moves the id counter back |
| BspTree.Offspring | src/bsp.cpp:199-214 | GenerateOffspring keeps the node's id, type, flags and list and never moves the id counter back |
| BspTree.Child | src/bsp.cpp:201-213 | an empty half leaves the child pointer and the counter unchanged; a non-empty half gets a new node numbered with the current counter, holding that half, a leaf exactly when the half is shorter than maxQuadsPerLeaf |
| BspTree.GrownBranch | src/bsp.cpp:113-137 | (proof step) Generate on a branch is: the box, the best axis, then GenerateOffspring on that axis's two halves |
| BspTree.GrownIds | src/bsp.cpp:199-214 | generating a childless node numbers the nodes it creates with consecutive ids from the counter, in pre-order, and leaves the counter just past them |
| BspTree.OffspringIds | src/bsp.cpp:199-214 | GenerateOffspring numbers its new nodes consecutively from the counter in pre-order, left subtree first |
| BspTree.ChildIds | src/bsp.cpp:201-206 | one new child and its generated subtree take the consecutive ids from the counter, the child first |
| BspTree.DenseIds | src/bsp.cpp:97-111 | after Clear (root id 0, counter reset to 1) Generate numbers the tree 0, 1, ..., n - 1, each id once, in pre-order |
| BspTree.GrownSound | src/bsp.cpp:113-214 | generating a node fresh from its constructor gives a sound subtree: every node has the box of its own quads and the flags of its type, a leaf has no children, a node's children split its list between them, each child is a leaf exactly when its list is shorter than maxQuadsPerLeaf, and no child is empty |
| BspTree.OffspringSound | src/bsp.cpp:199-214 | GenerateOffspring on halves that partition a branch's list gives a sound subtree |
| BspTree.BranchSound | src/bsp.cpp:113-137 | (proof step) the branch case of GrownSound: boxing, splitting on the best axis and generating the offspring gives a sound subtree |
| BspTree.LeafSound | src/bsp.cpp:113-137 | (proof step) the leaf case of GrownSound: a leaf only takes its box, and is sound |
| BspTree.ChildSound | src/bsp.cpp:201-213 | the child made for a half holds exactly that half, is of the size-chosen type and is sound; an empty half gives no child |
| BspTree.HeldOnce | src/bsp.cpp:172-214 | in a sound subtree every quadblock of the root is held by exactly one childless node (as multisets) |
| BspTree.Stalls | src/bsp.cpp:113-137 | a branch whose quads all have their centres at or below the midpoint on every axis gets only a left child, again a branch with the same list, so Generate makes no progress there |
| BspTree.OneQuadOneChild | src/bsp.cpp:113-137 | a fresh branch over a single quad gets exactly one child, since the quad goes to one side of the split and the other side stays empty |
| BspTree.U16 | src/bsp.cpp:221 | a cast to uint16_t is below 2^16 and is the identity on values that fit |
| BspTree.U32 | src/bsp.cpp:251-252 | a cast to uint32_t is below 2^32 and is the identity on values that fit |
| BspTree.WithLeafBit | src/bsp.cpp:232 | `\|= 0x4000` on a 16-bit value sets bit 14 and keeps the bits below it |
| BspTree.ChildRef | src/bsp.cpp:231-234 | a child reference fits in 16 bits |
| BspTree.ChildRefDecodes | src/bsp.cpp:231-234 | for an id below 0x4000, bit 0x4000 of the reference is set exactly when the child is a leaf, and the bits below it are the id |
| BspTree.SerializeBranch | src/bsp.cpp:215-239 | a branch record names the split axis as the component holding 0x1000, carries the node's flags, and holds its id when the id is below 0x1_0000; both children must exist |
| BspTree.BranchRecordDecodes | src/bsp.cpp:216-240 | a branch record holds the node's id, the split axis as the one component holding 0x1000, both children's references and the constants 0xFF40, 0, 0 |
| BspTree.LeafRecordDecodes | src/bsp.cpp:242-256 | a leaf record holds the node's id, numQuads equal to the size of its list, offQuads equal to the argument, and zero hitbox offset and unk1 |
| BspTree.IdCounter.constructor | src/bsp.cpp:4 | g_id starts at 0 |
| BspTree.WorklistStart | src/bsp.cpp:99-100 | the worklist holding just the root, with nothing visited, satisfies the walk's invariant |
| BspTree.WorklistStep | src/bsp.cpp:101-106 | visiting the next entry (appending its right child, then its left one) keeps the invariant and leaves one node fewer to visit |
| BspTree.WorklistDone | src/bsp.cpp:101-107 | once every entry is visited the worklist holds exactly the nodes of the root's subtree |
| BspTree.Bsp.constructor | src/bsp.cpp:6-16 | BSP(): a childless branch with no quads, no axis and no flags, numbered with the counter, which moves up by one |
| BspTree.Bsp.Node | src/bsp.cpp:18-28 | BSP(type, indexes): a childless node of that type holding the list, flagged LEAF exactly when it is a leaf, numbered with the counter, which moves up by one |
| BspTree.Bsp.SetQuadblockIndexes | src/bsp.cpp:92-95 | only the node's list changes |
| BspTree.Bsp.Nodes | src/bsp.cpp:99-106 | Clear's walk lists this node first, no node twice, and exactly the nodes of its subtree |
| BspTree.Bsp.Clear | src/bsp.cpp:97-111 | every node below this one is handed back for deletion exactly once; this node loses its children and keeps its own list, id and box; the counter is 1 |
| BspTree.Bsp.ComputeBoundingBox | src/bsp.cpp:156-170 | the node's box becomes the box of its quads; nothing else changes |
| BspTree.Bsp.Split | src/bsp.cpp:172-197 | the halves are the two sides of the node's list along the axis, in list order, and the score is Score of their sizes |
| BspTree.Bsp.Generate | src/bsp.cpp:113-137 | the subtree and counter afterwards are Grown of the node and counter before, only fresh nodes being added |
| BspTree.Bsp.BestSplit | src/bsp.cpp:117-136 | the axis is SplitAxis of the node's list and box, with that axis's two halves |
| BspTree.Bsp.GenerateOffspring | src/bsp.cpp:199-214 | the subtree and counter afterwards are Offspring of the node, the halves and the counter before |
| BspTree.Bsp.GrowLeft | src/bsp.cpp:201-206 | m_left becomes the new generated child for the left half; nothing else of the node changes |
| BspTree.Bsp.GrowRight | src/bsp.cpp:208-213 | m_right becomes the new generated child for the right half; nothing else of the node changes |
| BspTree.Bsp.SetAxis | src/bsp.cpp:124 | only the node's axis changes |
| BspTree.Bsp.SetLeft | src/bsp.cpp:203-204 | the node's left child becomes the given subtree |
| BspTree.Bsp.SetRight | src/bsp.cpp:210-211 | the node's right child becomes the given subtree |
| BspTree.Bsp.NewChild | src/bsp.cpp:203-205 | the new child is numbered with the counter, of the size-chosen type, holding the half, and generated in turn |
| Dedup.Distinct | src/level.cpp:729-738 | the vertex list built by the deduplication loop has no repeated entry and is never longer than its input |
| Dedup.DistinctMembers | src/level.cpp:729-738 | a value is in the deduplicated list iff it occurs in the input |
| Dedup.DistinctRepeat | src/level.cpp:729-738 | an input with a repeated value yields a strictly shorter list |
| Dedup.DistinctSnoc | src/level.cpp:731-737 | (proof step) one more value leaves the list unchanged when already present, and appends it otherwise |
| Dedup.IndexOf | src/level.cpp:737 | the id looked up for a value is the position of its first occurrence |
| Dedup.IndexOfUnique | src/level.cpp:737 | in a list without repeats, the id of the entry at position i is i |
| Dedup.IndexOfIs | src/level.cpp:737 | a position holding the value with no earlier occurrence is its id |
| Dedup.IndexOfAppend | src/level.cpp:733-735 | appending new entries never changes the id of an existing one |
| Dedup.Numbering | src/level.cpp:729-738 | one id per input value, each naming the list entry equal to that value |
| Dedup.NumberingPrefix | src/level.cpp:729-738 | the ids already handed out do not change when more values arrive |
| Dedup.NumberingLast | src/level.cpp:731-737 | a new value's id is the old list length, a seen value's id is its existing id |
| Dedup.NumberingSnoc | src/level.cpp:729-738 | the ids of an extended input are the old ids plus the last value's id |
| Dedup.PatternRepeat | src/level.cpp:729-738 | two inputs with the same numbering map equal positions to ids of equal rank |
| Dedup.PatternStep | src/level.cpp:729-738 | one step of PatternNumbering: inputs with the same equality pattern keep the same numbering and list length when extended |
| Dedup.PatternNumbering | src/level.cpp:729-738 | the numbering depends only on which input values are equal to which, not on the values themselves |
| Dedup.NumberingNumbering | src/level.cpp:729-738 | numbering a numbering changes nothing: ids come out in first-use order 0, 1, 2, ... |
| Dedup.InternTable.constructor | src/level.cpp:556 | a new table is empty and valid |
| Dedup.InternTable.Intern | src/level.cpp:571-583 | a seen value returns its recorded id and leaves the table unchanged; a new value is appended and gets the old length as id; the table stays free of repeats with every id naming its entry |
| Dedup.InternTable.Contains | src/level.cpp:571 | answers whether the value has an id, changing nothing |
| Materials.Filled | src/material.cpp:39-42 | reading `m_backup[material]` for every listed material: the listed materials gain a backup, a missing one the default value, and existing backups are unchanged |
| Materials.Restored | src/material.cpp:34-44 | after Restore the changed list is empty, and with nothing changed the store is unchanged |
| Materials.RestoredValues | src/material.cpp:34-44 | every changed material previews its backup, the default value when it had none; every other material keeps its preview and its backup |
| Materials.RestoreLoopAll | src/material.cpp:39-42 | the loop over the changed list, one material at a time, ends in the state Restored describes |
| Materials.RestoredIdempotent | src/material.cpp:34-44 | restoring twice is the same as restoring once |
| Materials.PreviewUndone | src/material.cpp:15-44 | a material given a default value, then a preview, previews the default value again after Restore |
| Materials.WriteSurvives | src/material.cpp:34-58 | a preview written through GetPreview's reference for a material not listed as changed survives Restore |
| Materials.MaterialProperty.constructor | src/material.cpp:7-12 | a new property has empty preview and backup maps and no changed material |
| Materials.MaterialProperty.SetPreview | src/material.cpp:14-19 | only the material's preview changes, and the material is appended to the changed list |
| Materials.MaterialProperty.SetBackup | src/material.cpp:21-25 | only the material's backup changes |
| Materials.MaterialProperty.SetDefaultValue | src/material.cpp:27-32 | preview and backup of the material both become the value; no change is recorded |
| Materials.MaterialProperty.Restore | src/material.cpp:34-44 | the store afterwards is Restored of the store before |
| Materials.MaterialProperty.Clear | src/material.cpp:46-52 | both maps and the changed list are empty |
| Materials.MaterialProperty.GetPreview | src/material.cpp:54-58 | the material's preview is read, inserted with the default value when absent; the backup and the changed list are unchanged (a write through the returned reference is WritePreview) |
| Materials.MaterialProperty.WritePreview | src/material.cpp:54-58 | an assignment through the reference GetPreview returns, as at src/level.cpp:248: the preview becomes the value, and neither the backup nor the changed list changes |
| Pixels.Channel | src/texture.cpp:272-277 | a scaled 8-bit channel is always a 5-bit value |
| Pixels.ChannelInRange | src/texture.cpp:272-277 | the 0x1F mask never removes bits: the scaled channel is already below 32 |
| Pixels.AssembleZero | src/texture.cpp:272-277 | the shift-and-or assembly gives the transparent value 0 only when the alpha bit and all three channels are 0 |
| Pixels.ConvertColor | src/texture.cpp:265-281 | (corrected) with the black test on the scaled channels, an opaque pixel never converts to the transparent value 0, and an alpha-0 pixel always converts to 0 |
| Pixels.OpaqueColor | src/texture.cpp:267-271 | (corrected) the opaque branch of the corrected conversion never yields 0; the code's own branch can (OpaqueZeroAsWritten) |
| Pixels.TransparentColor | src/texture.cpp:272 | the alpha-0 branch yields 0 |
| Pixels.ConvertColorFields | src/texture.cpp:265-281 | for the conversion as written, with a non-zero alpha: bit 15 is set iff the alpha is below 255; blue is at bits 10-14, green at 5-9 and red at 0-4, each the scaled channel, and an opaque pixel whose raw bytes are all 0 has its blue byte taken as 8 |
| Pixels.OpaqueZeroAsWritten | src/texture.cpp:267-277 | an opaque pixel converts to the transparent 0 exactly when its raw bytes are not all 0 but each scales to 0 |
| Pixels.SemiTransparentAsWritten | src/texture.cpp:273-277 | a semi-transparent pixel always has bit 15 set, so it is never 0 |
| Pixels.ConvertColorTransparent | src/texture.cpp:272 | alpha 0 gives 0 whatever the colour, in both the as-written and the corrected conversion |
| Pixels.ConvertColorOpaqueBlack | src/texture.cpp:267-271 | opaque pure black becomes 0x0400, not the transparent 0 |
| Pixels.ConvertColorAsWrittenNearBlack | src/texture.cpp:267-271 | the raw-byte test misses opaque near-black: (4, 4, 4, 255) converts to the transparent 0 |
| Pixels.ConvertColorAgrees | src/texture.cpp:265-281 | the two conversions differ exactly on opaque colours that are not pure black but whose channels all scale to 0 |
| Pixels.OpaqueAgrees | src/texture.cpp:267-271 | the same characterisation for the opaque branch alone |
| Pixels.Colors | src/texture.cpp:240-246 | one converted colour per pixel, each read from its own bytes; a picture without an alpha channel is read as opaque, and a grey byte stands for red, green and blue |
| Pixels.PixelColorAgrees | src/texture.cpp:240-247 | on three- and four-channel pictures the code reads every pixel from its own bytes, exactly as PixelColor does |
| Pixels.ShortChannelsPastBuffer | src/texture.cpp:240-247 | (as written) on a one- or two-channel picture the read of the last pixel runs past the end of the decoded buffer |
| Pixels.GreyAsWrittenCounterexample | src/texture.cpp:240-247 | (as written) on the one-channel picture black, white, white the first pixel is read from the bytes of all three pixels and differs from its own grey |
| Pixels.PixelColorOwnBytes | src/texture.cpp:240-247 | (corrected) the colour of pixel i depends on its own channels bytes alone |
| Pixels.FindColor | src/texture.cpp:247-252 | the palette search reports whether the colour is in the palette; if it is, the first position holding it, and if not, the palette length |
| Pixels.PaletteStep | src/texture.cpp:244-254 | one pixel of the palette loop keeps the palette equal to the distinct colours so far and every index naming its pixel's colour |
| Pixels.PaletteDone | src/texture.cpp:244-254 | at the end of the loop the palette is the first-occurrence list of the colours and the indices are their numbering |
| Pixels.ConvertPixel | src/texture.cpp:245-246 | the colour computed for pixel i is the i-th entry of Colors |
| Pixels.BuildPalette | src/texture.cpp:238-254 | the palette is the distinct converted colours in first-occurrence order, and the index list is the first-occurrence numbering of the pixels |
| Pixels.PaletteLookup | src/texture.cpp:244-254 | looking a pixel's index up in the palette gives back the pixel's colour |
| Pixels.IndexesPerWord | src/texture.cpp:256-257 | a paletted depth packs 2 or 4 indices per word |
| Pixels.IndexesFit | src/texture.cpp:34-40 | every palette index of a 4 bpp texture fits 4 bits, and of an 8 bpp texture 8 bits, so the packed fields do not overlap |
| Pixels.WordBound | src/texture.cpp:292-294 | a word of n indices, each below 2^shift, is below 2^(shift*n) |
| Pixels.ChunksBounded | src/texture.cpp:283-298 | every packed word fits 16 bits |
| Pixels.ChunksLength | src/texture.cpp:283-298 | a row of n indices takes ceil(n / indexes-per-word) words |
| Pixels.PackedRowsLength | src/texture.cpp:283-298 | an image of height full rows takes height * ceil(width / indexes-per-word) words |
| Pixels.AsNat | src/texture.cpp:283-298 | the words as numbers, one per word |
| Pixels.PackFits | src/texture.cpp:293 | the word being filled always fits 16 bits, so the cast to uint16_t loses nothing |
| Pixels.PackStart | src/texture.cpp:285-288 | before the first index, the packing invariant holds with nothing consumed and nothing pushed |
| Pixels.PackAdd | src/texture.cpp:293-295 | or-ing one index into the word being filled keeps the packing invariant |
| Pixels.PackWordEnd | src/texture.cpp:292 | pushing a full word inside a row keeps the packing invariant |
| Pixels.PackRowEnd | src/texture.cpp:291 | pushing the word that ends a row keeps the packing invariant, and a fresh word starts the next row |
| Pixels.PackDone | src/texture.cpp:297 | the final push completes the packed image |
| Pixels.ConvertPixels | src/texture.cpp:283-298 | the image words are the indices packed row by row, each row starting a fresh word, 16/ipp bits per index; with no indices the image is one 0 word |
| ColorShapes.PositionsMembers | src/texture.cpp:211-225 | a shape holds exactly the pixel positions whose index is its palette entry |
| ColorShapes.PositionsAscending | src/texture.cpp:211-225 | a shape lists its positions in ascending order, so its first element is the smallest, as in the source's ordered set |
| ColorShapes.PositionsSnoc | src/texture.cpp:218-221 | one more pixel adds at most its own position to a shape |
| ColorShapes.Shapes | src/texture.cpp:211-225 | one shape per palette entry |
| ColorShapes.FillShapes | src/texture.cpp:211-225 | a direct-colour texture gets no shapes; a paletted one gets, per palette entry, the positions of the pixels that use it |
| ColorShapes.ShapesMembers | src/texture.cpp:211-225 | the shapes partition the pixels: shape c holds pixel j iff pixel j uses entry c |
| ColorShapes.ShapesNonEmpty | src/texture.cpp:211-225 | a palette entry that some pixel uses has a non-empty shape |
| ColorShapes.FirstContaining | src/texture.cpp:183-187 | the first shape holding a position; none only when no shape holds it |
| ColorShapes.MatchedClass | src/texture.cpp:176-198 | when shapes match in both directions, two pixels share a colour in one texture iff they share one in the other |
| ColorShapes.MatchSamePattern | src/texture.cpp:176-198 | when shapes match in both directions, the two index sequences have the same equality pattern |
| ColorShapes.UniformShapes | src/texture.cpp:211-225 | the shapes of a one-colour 2x2 texture |
| ColorShapes.MixedShapes | src/texture.cpp:211-225 | the shapes of a 2x2 texture whose pixel 1 has a second colour |
| ColorShapes.EquivalentAsWrittenCounterexample | src/texture.cpp:176-198 | the one-way test accepts a one-colour texture against a two-colour one; the two-way test rejects it |
| ColorShapes.CounterexampleImagesDiffer | src/texture.cpp:283-298 | the two textures of that counterexample pack to different image words |
| Textures.StoredLoaded | src/texture.cpp:86-116 | the getters return the x stored by a setter, for every size_t, through the +512/-512 offset with wrap-around |
| Textures.LoadedStored | src/texture.cpp:86-116 | storing what a getter returns leaves the stored coordinate unchanged |
| Textures.DirectImage | src/texture.cpp:260 | (corrected) a direct-colour image has one word per pixel |
| Textures.DirectImageColors | src/texture.cpp:260 | the corrected direct-colour image is the picture's colours, pixel by pixel |
| Textures.DirectImageAsWritten | src/texture.cpp:260 | (as written) the image is the palette itself |
| Textures.DirectImageAsWrittenShort | src/texture.cpp:260 | for a direct-colour picture with a repeated colour, the as-written image has fewer words than pixels |
| Textures.NumberingFits | src/texture.cpp:256-257 | every palette index of a paletted picture fits the field width of its depth |
| Textures.PaletteEntriesUsed | src/texture.cpp:211-225 | every palette entry is used by some pixel, so no shape is empty and taking a shape's first element is safe |
| Textures.AsNatInjective | src/texture.cpp:206-209 | equal word values mean equal images |
| Textures.RowWords | src/texture.cpp:47-54 | the corrected VRAM width of a paletted row is ceil(width / indexes-per-word) |
| Textures.Texture.constructor | src/texture.cpp:237-263 | CreateTexture: the texture is Valid, so its palette is the distinct colours, its image the packed indices or the colours, and its shapes the colour classes; its coordinates are cleared |
| Textures.Texture.ImageFillsRect | src/texture.cpp:255-258 | a paletted image has height rows of ceil(width / indexes-per-word) words; a 16 bpp image, being the palette, has at most VramWords() * height words |
| Textures.Texture.VramWords | src/texture.cpp:47-54 | GetVRAMWidth: a 16 bpp row is its pixel width; a paletted row is the width divided by the indexes per word rounded down, the largest w with w * indexes-per-word <= width |
| Textures.Texture.RowsFitIff | src/texture.cpp:47-54 | the image fits the VramWords() by height rectangle the packer reserves exactly when the texture is 16 bpp or its width is a whole number of words |
| Textures.Texture.NonEmptyExtent | src/texture.cpp:71-74 | a non-empty texture has a palette entry, a row and an image word, and its rectangle is at least one word wide when the image fits it |
| Textures.Texture.SetImageCoords | src/texture.cpp:106-110 | GetImageX returns x afterwards; y is stored as given; palette coordinates and blend mode unchanged |
| Textures.Texture.SetClutCoords | src/texture.cpp:112-116 | GetCLUTX returns x afterwards; y is stored as given; image coordinates and blend mode unchanged |
| Textures.Texture.SetBlendMode | src/texture.cpp:118-121 | the blend mode is the argument truncated to 16 bits; coordinates unchanged |
| Textures.Texture.CopyVramAttributes | src/texture.cpp:200-204 | image and palette coordinates become those of the other texture, also when it is this one; the blend mode is kept |
| Textures.Texture.CompareEquivalency | src/texture.cpp:176-198 | true iff this texture is paletted, both have the same size and depth, and for every shape of this texture the first shape of the other holding its smallest position exists and lies within it |
| Textures.Contained | src/texture.cpp:189-192 | true iff every member of the first shape is in the second |
| Textures.MatchShape | src/texture.cpp:180-196 | the inner loop for one shape: true iff the first shape of the other texture holding its smallest position exists and is a subset of it |
| Textures.EquivalentSameImage | src/texture.cpp:176-198 | (corrected) two textures whose shapes match in both directions have equal index sequences and equal image words, so sharing one VRAM image would be sound |
| Textures.EquivalentAsWrittenSameRect | src/texture.cpp:176-198 | a texture CompareEquivalency accepts against a cached one has the same row width in words, the same height and an image of the same length, and fits its rectangle iff the other does |
| Textures.SamePictureEquals | src/texture.cpp:206-209 | two textures of one size showing the same picture are equal under operator== |
| Textures.VramWidthAsWrittenShort | src/texture.cpp:47-54 | a 4 bpp texture 6 pixels wide gets 1 word per row from GetVRAMWidth, but its packed rows are 2 words wide |
| Vram.RowBelow | src/texture.cpp:328-333 | a cell numbered below w * h in row-major order lies in one of the h rows |
| Vram.LastRow | src/texture.cpp:328-333 | once all w * h cells are numbered, the scan stands at the end of the last row |
| Vram.ScanCovers | src/texture.cpp:328-333 | a row-major scan that has numbered all w * h cells has covered the whole rectangle |
| Vram.TestRect | src/texture.cpp:319-338 | true iff the rectangle ends left of column 512 and above row 512, neither corner is on reserved page 6 or 7, an image keeps both corners on one page, and every cell is free |
| Vram.NextCandidate | src/texture.cpp:340-358 | no candidate position lies between a candidate and the next one the scan tries |
| Vram.ScanStep | src/texture.cpp:353-354 | stepping past a candidate that does not fit keeps "nothing earlier fits", and palettes stay on 16-column steps |
| Vram.ScanFound | src/texture.cpp:347-352 | a fitting candidate with nothing fitting before it is the first fit |
| Vram.ScanWrap | src/texture.cpp:346 | column 512 of a row is column 0 of the next row |
| Vram.ScanPastEnd | src/texture.cpp:355 | after the early break, no candidate anywhere fits |
| Vram.ScanDone | src/texture.cpp:344 | once the scan leaves the grid, every candidate has been tried and none fits |
| Vram.FindAvailableSpace | src/texture.cpp:340-358 | a result, when found, is the first candidate in row-major order (columns in steps of 16 for a palette) at which TestRect accepts the rectangle; when none is found, no candidate fits |
| Vram.LocInjective | src/texture.cpp:300-303 | inside the 512-column grid, a word index determines its column and row |
| Vram.IndexUnique | src/texture.cpp:305-317 | a row-major number determines its row and column |
| Vram.CellsDiffer | src/texture.cpp:305-317 | distinct cells of a rectangle inside the grid are distinct words |
| Vram.PlaceStep | src/texture.cpp:312-314 | writing the next buffer word extends the placed prefix by one |
| Vram.MarkStep | src/texture.cpp:312-314 | marking the next cell extends the marked prefix by one |
| Vram.BufferToVram | src/texture.cpp:305-317 | the buffer is in the grid row by row, width words per row from (x, y); those cells are marked taken; outside the rectangle neither the grid nor the bitmap changed |
| Vrm.FreeInRect | src/texture.cpp:319-338 | every cell inside a rectangle TestRect found free is free |
| Vrm.KeepStored | src/texture.cpp:305-317 | copying into a free rectangle leaves every buffer stored earlier in place and marked |
| Vrm.FindEquivalent | src/texture.cpp:370-379 | the first cached texture CompareEquivalency (the one-way shape test, as written) accepts; when none is found, no cached texture is accepted |
| Vrm.U16Bytes | src/texture.cpp:430-437 | a 16-bit header field is two bytes |
| Vrm.U32Bytes | src/texture.cpp:430-437 | a 32-bit header field is four bytes |
| Vrm.Header | src/texture.cpp:430-437 | a VRMHeader is 24 bytes |
| Vrm.WordBytes | src/texture.cpp:439-444 | memcpy of n words gives 2n bytes |
| Vrm.TopBlock | src/texture.cpp:439-444 | the first block holds the 384 columns by 256 rows left of the reserved pages |
| Vrm.BottomBlock | src/texture.cpp:455-456 | the second block holds the 512 columns by 256 rows of the lower half |
| Vrm.VrmFileSize | src/texture.cpp:418-456 | the file is exactly the 0x70038 bytes the packer allocates |
| Vrm.WordBytesAt | src/texture.cpp:439-444 | each word is two consecutive file bytes, low byte first |
| Vrm.TopRowMajor | src/texture.cpp:439-444 | position i of the first block is column i % 384 of row i / 384 |
| Vrm.TopCell | src/texture.cpp:439-444 | a cell of the upper-left block sits in the file at its offset, low byte first |
| Vrm.BottomCell | src/texture.cpp:455-456 | a cell of the lower half sits in the file at its offset, low byte first |
| Vrm.VrmFileCell | src/texture.cpp:418-456 | every cell of the two blocks is in the file at its offset, low byte first |
| Vrm.PageParts | src/texture.cpp:13-16 | page numbers are column page plus eight times row page, so equal pages mean equal column and row pages |
| Vrm.PlacedInFile | src/texture.cpp:319-327 | every cell of a rectangle the placement rules accept is one the file holds: an image stays inside one page other than 6 and 7, and a palette is a single row not on those pages |
| Vrm.KeepImages | src/texture.cpp:305-317 | copying into a free rectangle keeps the image of every other texture stored |
| Vrm.KeepShown | src/texture.cpp:305-317 | copying into a free rectangle keeps every texture showing the stored image it showed |
| Vrm.ShownSnoc | src/texture.cpp:365-392 | (proof step) a texture that shows a stored image joins the textures showing one |
| Vrm.ShownInLargerPool | src/texture.cpp:365-392 | a pool holding every texture of a smaller pool shows whatever the smaller one shows |
| Vrm.KeepCluts | src/texture.cpp:405-410 | copying a palette into a free rectangle keeps every palette stored earlier and adds this texture's palette at its new place |
| Vrm.PlaceImage | src/texture.cpp:370-392 | the texture takes the image coordinates of the first cached texture CompareEquivalency accepts, or, when none is accepted, those of the first fit of its VramWords() by height rectangle, and is cached; its palette coordinates and blend mode are unchanged; when every image fits its rectangle and no texture appears twice, every cached image stays stored and every texture so far, this one included, shows a stored cached image at its coordinates; it fails only when no cached texture is accepted and no free rectangle of the grid takes the image, and then the grid is unchanged |
| Vrm.PlaceClut | src/texture.cpp:400-410 | the palette goes to the first fit of a one-row rectangle on a 16-column step; image coordinates and blend mode are unchanged; on success every palette placed so far, this one included, is stored at its texture's coordinates, and every shown image stays shown; it fails only when no free 16-aligned row of the grid takes the palette, and then the grid is unchanged |
| Vrm.PlaceNext | src/texture.cpp:365-392 | one step of the image loop: an empty texture is skipped and any other is placed; the loop invariant Packing (cache contents, the empty flag, and, when images fit and are distinct, every texture so far showing a stored cached image) advances by one texture; on failure this texture has an image that no cached texture stands for and that no free rectangle of the grid takes |
| Vrm.PackingDone | src/texture.cpp:365-394 | at the end of the image loop, empty is true iff every texture is empty, and when images fit and are distinct every texture shows a stored image of the list |
| Vrm.PlaceImages | src/texture.cpp:365-392 | after the image loop, with room for every image, empty is true iff every texture is empty; when every image fits its rectangle and no texture appears twice, every non-empty texture shows, at its image coordinates, the stored image of itself or of a texture CompareEquivalency accepted for it; on failure some texture has an image that no free rectangle of the grid takes |
| Vrm.PaletteNext | src/texture.cpp:396-411 | one step of the palette loop: a texture without a palette is skipped and keeps its place; the loop invariant Paletting (palettes so far stored, shown images still shown) advances by one texture; on failure this texture has a palette that no free 16-aligned row of the grid takes |
| Vrm.PlaceCluts | src/texture.cpp:396-411 | after the palette loop, on success every non-empty paletted texture's palette is stored at its coordinates; shown images stay shown; empty and 16 bpp textures keep their coordinates; on failure some texture has a palette that no free 16-aligned row of the grid takes |
| Vrm.PackVrm | src/texture.cpp:360-457 | when every texture is empty the result is empty, and an empty result means that every texture is empty or that some texture has an image or a palette no free place of the final grid takes; a non-empty result is the 0x70038-byte file of a 512x512 grid in which every non-empty paletted texture's palette sits at its coordinates, and, when every image fits its rectangle and no texture appears twice, every non-empty texture shows at its coordinates the stored image of itself or of one CompareEquivalency accepted for it |
| Vrm.StoredInFile | src/texture.cpp:418-456 | a stored buffer reaches the file: each word sits at the file offset of its grid cell |
| Vrm.ImageInFile | src/texture.cpp:418-456 | every word of a stored image that lies inside its VramWords() by height rectangle is in the file, at the cell given by the texture's image coordinates |
| Vrm.ClutInFile | src/texture.cpp:418-456 | every palette entry of a stored palette is in the file, on the palette's row at its coordinates |
| Vrm.U16RoundTrip | src/texture.cpp:430-437 | reading back the bytes of a 16-bit field gives the value |
| Vrm.U32RoundTrip | src/texture.cpp:430-437 | reading back the bytes of a 32-bit field gives the value |
| Vrm.VrmFileHeaders | src/texture.cpp:421-448 | the file starts with magic 0x20 and the first header (size, 0x10, 0x2, length, x 512, y 0, 384 x 256); the second header (y 256, 512 x 256) follows the first block |
| TextureSet.FindEqual | src/level.cpp:1800-1808 | the position of the first added texture that is operator==-equal to t; none iff no added texture is equal |
| TextureSet.RepsSnoc | src/level.cpp:1798-1812 | one more texture is either recorded as a copy of the first equal representative or added as a new representative |
| TextureSet.FindEqualPrefix | src/level.cpp:1800-1808 | adding more representatives does not change which one a texture first equals |
| TextureSet.RepsCover | src/level.cpp:1794-1834 | no two representatives are equal; every texture equals some representative; every representative is one of the level's textures |
| TextureSet.CopiesOfReps | src/level.cpp:1794-1834 | each copy pairs a texture with the first representative it equals in the final list |
| TextureSet.RepOrCopy | src/level.cpp:1794-1834 | every texture is a representative or the later half of a copy |
| TextureSet.RepFindsItself | src/level.cpp:1800-1808 | a representative's first equal representative is itself |
| TextureSet.CopyOfRep | src/level.cpp:1794-1834 | a copy whose later half is itself a representative copies from itself |
| TextureSet.CopiesAgree | src/level.cpp:1794-1834 | two copies of the same texture copy from the same representative |
| TextureSet.FirstEqual | src/level.cpp:1800-1808 | the inner search returns the first equal representative's position, or the list length when there is none |
| TextureSet.Representatives | src/level.cpp:1796-1834 | the list handed to PackVRM is the representatives, and the copy list records each other texture with its representative |
| TextureSet.CopiesFrom | src/level.cpp:1794-1834 | both halves of every copy are level textures, and the first half is a representative |
| TextureSet.CopiesSettle | src/level.cpp:1839-1842 | once every copy has its representative's coordinates, every texture has the coordinates of the representative it equals |
| TextureSet.CopyAttributes | src/level.cpp:1839-1842 | the copy loop: representatives keep their coordinates; every texture ends at the coordinates of the representative it equals; no blend mode changes |
| TextureSet.ShareCoordinates | src/level.cpp:1839-1842 | the copy loop after packing, recorded as a map: representatives keep the places the packer gave them, and every texture has the place of the representative it equals |
| TextureSet.SettledPlaces | src/level.cpp:1839-1842 | the coordinates after the copy loop, as a map, are the packed places of the representatives and their representatives' places for the other textures |
| TextureSet.Settle | src/level.cpp:1836-1842 | representatives that kept their places keep the palettes and shown images the packer stored for them |
| TextureSet.UnequalSeparate | src/level.cpp:1794-1834 | no two representatives are operator==-equal, so no texture appears twice in the list handed to PackVRM |
| TextureSet.CopiesShape | src/level.cpp:1794-1834 | the copy list has the shape the copy loop needs: a representative copies only itself, and a texture copied twice copies the same representative both times |
| TextureSet.ApplyCopies | src/level.cpp:1839-1842 | each copy's texture takes its representative's coordinates, the representatives keep theirs, and no blend mode changes |
| TextureSet.PackTextures | src/level.cpp:1794-1845 | UpdateVRM: when every texture is empty the result is empty, and an empty result means that every texture is empty or that some representative has an image or a palette no free place of the grid takes; otherwise it is the .vrm file of a grid in which every representative's palette is stored at its place, and, when every representative's image fits its rectangle, every representative shows at its place the stored image of itself or of one CompareEquivalency accepted for it; every level texture has the place of the representative it equals |
| Paths.NewCheckpoint | src/path.cpp:157 | a new checkpoint carries the given number, position and quad name, at distance 0 |
| Paths.Nodes | src/path.cpp:202-209 | the tree's paths start with the path itself |
| Paths.ReadyNodes | src/path.cpp:46-51 | a tree is ready iff every path in it has start quads and end quads |
| Paths.StartEndNodes | src/path.cpp:202-209 | a quad is collected iff some path of the tree lists it among its start, ignore or end quads |
| Paths.GetStartEndIndexes | src/path.cpp:202-209 | appends the left sub-tree's quads, then the right's, then the path's start, ignore and end quads |
| Paths.FalseCountDown | src/path.cpp:76-93 | marking quads visited never raises the count of unvisited ones, and marking an unvisited one lowers it |
| Paths.InitialVisited | src/path.cpp:76-93 | a quad starts visited iff the tree lists it or it takes no checkpoint; the count is the number of listed indexes, repeats included, plus the number of quads taking no checkpoint |
| Paths.ExpandRound | src/path.cpp:99-114 | when the count has reached the quad count, nothing is found; otherwise every neighbour of the frontier ends visited; the found quads are distinct, were unvisited, neighbour the frontier and are exactly the newly visited ones, and the count grows by their number |
| Paths.FlattenSnoc | src/path.cpp:115 | (proof step) flattening one more chunk appends it |
| Paths.NewQuadsAppend | src/path.cpp:97-118 | quads new in one round and new in the next are, together, new to the start of both rounds |
| Paths.VisitedWithAppend | src/path.cpp:97-118 | visiting a and then b visits a + b |
| Paths.FloodStep | src/path.cpp:97-118 | a round that found quads extends the flood by one chunk and keeps its invariant |
| Paths.GrownSnoc | src/path.cpp:117 | a chunk grown from the last one extends a grown flood |
| Paths.Flood | src/path.cpp:95-118 | the chunks begin with the start quads; every later chunk is non-empty, grows from the one before, and holds only quads unvisited at the start, each once; the visited quads are the initial ones plus the chunks; unless the count ran out, the last chunk has no unvisited neighbour |
| Paths.ChunkBoxHolds | src/path.cpp:128-137 | a chunk's box holds the bounding box of every quad in the chunk |
| Paths.ClosestFirstMinimum | src/path.cpp:142-154 | the search keeps the first smallest distance below FLT_MAX, and finds nothing only when no distance is below FLT_MAX |
| Paths.ChunkDists | src/path.cpp:143-146 | one distance per quad of the chunk |
| Paths.Tag | src/path.cpp:153 | tagging keeps the number of quads |
| Paths.GrowChunkBox | src/path.cpp:128-137 | the box loop computes the chunk's box |
| Paths.ChunkCheckpoint | src/path.cpp:128-154 | the chunk's vertex and quad are those closest to the centre of its box; every quad of the chunk is tagged with the checkpoint number |
| Paths.ChunkPicked | src/path.cpp:139-152 | what the search loop keeps is the chunk's vertex and quad, the origin and quad 0 when nothing is closer than FLT_MAX |
| Paths.ChunkBoxSame | src/path.cpp:153 | tagging does not change any chunk's box |
| Paths.ChunkChoiceSame | src/path.cpp:153 | tagging does not change which vertex and quad a chunk picks |
| Paths.TagNames | src/path.cpp:153 | tagging keeps quad names |
| Paths.TagChunks | src/path.cpp:126-162 | tagging all chunks keeps the number of quads |
| Paths.TagChunksSame | src/path.cpp:126-162 | tagging all chunks changes only checkpoint numbers |
| Paths.TagChunksLast | src/path.cpp:126-162 | each quad ends tagged with the number of the last chunk holding it; a quad no chunk holds is untouched |
| Paths.ChunkQuadBelow | src/path.cpp:157 | the quad a non-empty chunk's checkpoint is named after is a quad of the level |
| Paths.Points | src/path.cpp:126-162 | one checkpoint per chunk |
| Paths.PointsSnoc | src/path.cpp:157-160 | one more chunk appends its checkpoint, numbered base + k |
| Paths.PointsAt | src/path.cpp:157-160 | checkpoint k is chunk k's, numbered base + k, linked up to base + k + 1 and down to base + k - 1 |
| Paths.PlaceChunk | src/path.cpp:128-161 | one round of the chunk loop: chunk k's checkpoint, with its quads tagged |
| Paths.PlaceChunks | src/path.cpp:121-162 | one checkpoint per chunk numbered from base, and every quad tagged by the last chunk holding it |
| Paths.Positions | src/path.cpp:155 | the checkpoints' positions, in order |
| Paths.ChainCons | src/path.cpp:155 | a polyline from a on to t is the step to t's first vertex plus t's length |
| Paths.ChainSplit | src/path.cpp:155 | cutting a polyline at a vertex splits its length |
| Paths.ChainNonNegative | src/path.cpp:155 | a polyline's length is never negative |
| Paths.RunningChain | src/path.cpp:155-156 | each running distance is the length of the polyline up to its vertex |
| Paths.RunningDistances | src/path.cpp:122-162 | 0 at the first vertex, then each value is the previous one plus the step from the previous vertex |
| Paths.RunningGrows | src/path.cpp:155-156 | running distances never decrease |
| Paths.ReversedDists | src/path.cpp:167-171 | (as written) the running distances in reverse order |
| Paths.ReversedDistsShape | src/path.cpp:167-171 | the reversed distances look like a distance to the finish: 0 at the last checkpoint and never growing along the chain |
| Paths.ReversedDistsSteps | src/path.cpp:167-171 | the reversed distances are 0 at the last checkpoint, and position j exceeds position j + 1 by the step between checkpoints m - 2 - j and m - 1 - j, counted from the far end |
| Paths.ReversedDistsCounterexample | src/path.cpp:167-171 | yet they are not one: for some three-checkpoint chain the middle checkpoint's value differs from its distance to the last |
| Paths.ReversedDistsOnLine | src/path.cpp:167-171 | on a line with steps 1 and 2, the middle checkpoint gets 1, while its distance to the last is 2 |
| Paths.ToFinish | src/path.cpp:167-171 | (corrected) one distance per checkpoint |
| Paths.ToFinishChain | src/path.cpp:167-171 | each corrected value is the polyline length from that checkpoint to the last one; the values never grow along the chain |
| Paths.ToFinishSteps | src/path.cpp:167-171 | the corrected values are 0 at the last checkpoint, and each is the next one plus the step to it |
| Paths.FinishChain | src/path.cpp:167-174 | checkpoint j gets the running distance of checkpoint m - 1 - j, that is the running distances in reverse order as the code stores them; the first loses its down link, the last its up link, and nothing else changes |
| Paths.FlattenHas | src/path.cpp:115 | a quad of a chunk is in the flattened chunks |
| Paths.FloodChunksBelow | src/path.cpp:119 | the flood's chunks, followed by the end quads, are non-empty chunks of level quads |
| Paths.FinishedChain | src/path.cpp:121-174 | the finished checkpoints form the path's own chain: numbered from base, linked up and down in order with open ends and no side links, from the start quads' vertex to the end quads' vertex, 0 at the end, and each further than the next by the step at the mirrored place of the chain |
| Paths.OwnSteps | src/path.cpp:167-171 | checkpoints carrying the reversed running distances have those mirrored steps down to 0 |
| Paths.GenerateOwn | src/path.cpp:68-175 | GeneratePath for the path itself: its own chain, one checkpoint per flood chunk plus one for the end quads, with each chunk grown from the one before and the quads tagged |
| Paths.StartEndOwn | src/path.cpp:202-209 | a path's start and end quads are among those the tree lists |
| PathDist.AddDist | src/path.cpp:57-63 | adding a distance to a range keeps the list length |
| PathDist.Raise | src/path.cpp:53-66 | what UpdateDist makes of the list keeps its length |
| PathDist.UpdateDist | src/path.cpp:53-66 | the walk down from the path's last checkpoint to its first, followed by the recursive calls, produces exactly Raise of the list; it stays inside the list whenever the tree's chains are linked in it |
| PathDist.AddDistSame | src/path.cpp:57-63 | adding a distance changes only distances, and only inside the range |
| PathDist.LinksSpans | src/path.cpp:53-66 | a tree whose chains are linked in the list has every path's range inside it |
| PathDist.LinksSame | src/path.cpp:53-66 | a list changed only in distances keeps every chain, so the recursive calls walk the same links |
| PathDist.RaiseSame | src/path.cpp:53-66 | UpdateDist changes distances only |
| PathDist.NodesWithin | src/path.cpp:176-199 | every path of a numbered tree lies between the tree's first and last checkpoint |
| PathDist.SubRanges | src/path.cpp:176-199 | a numbered tree holds its own checkpoints first, then the left sub-tree's, then the right's, up to its last one |
| PathDist.AgreeApart | src/path.cpp:53-66 | changes outside one range leave a disjoint range alone |
| PathDist.StepsAgree | src/path.cpp:53-66 | the distance steps along a range depend only on the checkpoints in it |
| PathDist.StepsShift | src/path.cpp:57-63 | adding d along a chain keeps every step and moves its end value by d |
| PathDist.DistsAgree | src/path.cpp:53-66 | a tree's distances depend only on its own range of the list |
| PathDist.ContinuedAgree | src/path.cpp:53-66 | so does what UpdateDist promises of the tree |
| PathDist.RaiseOutside | src/path.cpp:53-66 | UpdateDist leaves every checkpoint outside the tree's range unchanged |
| PathDist.RaiseContinues | src/path.cpp:53-66 | on a generated tree, whose chains end at 0, UpdateDist makes each path's last checkpoint sit at the distance to the point that follows it: for the top path, `ref` plus `dist`; for a sub-path, its parent's last checkpoint plus the parent's new distance; every step along each chain is kept |
| PathTree.NumberedLast | src/path.cpp:176-199 | a numbered tree ends no earlier than its own checkpoints |
| PathTree.StepsLength | src/path.cpp:167-171 | distances that step down by the mirrored steps equal the end value plus the length of the chain from the first checkpoint to the mirrored position |
| PathTree.StepsEnd | src/path.cpp:167-171 | (proof step) at the last position the chain to the mirrored position is one checkpoint long, of length 0 |
| PathTree.StepBack | src/path.cpp:167-171 | (proof step) one position back adds the mirrored step to the chain length |
| PathTree.ChainStep | src/path.cpp:167-171 | (proof step) a chain one checkpoint longer is longer by its last step |
| PathTree.Cores | src/path.cpp:181-193 | blanking the sideways links keeps the list length |
| PathTree.HoldsAt | src/path.cpp:196-197 | a list that holds another at an offset agrees with it position by position, apart from the sideways links |
| PathTree.BelowSplit | src/path.cpp:202-209 | both halves of a list of level quads are lists of level quads |
| PathTree.StartEndSub | src/path.cpp:202-209 | the quads a sub-tree lists are among those its parent lists |
| PathTree.LinkLeft | src/path.cpp:181-184 | the own chain's last and first checkpoints link left to the sub-tree's last and first, and those link right back; nothing else changes |
| PathTree.LinkRight | src/path.cpp:190-193 | the same for the right sub-tree, with the sides swapped |
| PathTree.OwnPartOf | src/path.cpp:121-174 | the path's own chain is its own part of the tree |
| PathTree.IndexedSides | src/path.cpp:181-193 | relinking sideways keeps the numbers |
| PathTree.TreeSides | src/path.cpp:181-193 | relinking sideways keeps every chain, every distance and the numbering |
| PathTree.GeneratedSub | src/path.cpp:180-193 | a generated sub-tree, relinked sideways, is a side of its parent |
| PathTree.LeftAttached | src/path.cpp:180-185 | a generated left sub-tree linked to the path's own ends is attached |
| PathTree.RightAttached | src/path.cpp:189-193 | a generated right sub-tree linked to the path's own ends is attached |
| PathTree.AttachLeft | src/path.cpp:176-186 | the left sub-tree, if any, is generated from the next free number, and its ends and the path's own ends are linked both ways; quads change only in checkpoint tags |
| PathTree.AttachRight | src/path.cpp:187-194 | the same for the right sub-tree, numbered after the left one |
| PathTree.ShapeJoin | src/path.cpp:176-199 | the assembled tree keeps the path's shape, is numbered from base, and its sub-trees follow the own chain, left before right |
| PathTree.Thirds | src/path.cpp:196-197 | each of the three lists is held where it lies in their concatenation |
| PathTree.HoldsSides | src/path.cpp:181-193 | what holds a list also holds any sideways relinking of it |
| PathTree.OwnPlaced | src/path.cpp:196-199 | the own chain placed first in the result keeps its links and distances there |
| PathTree.IndexedJoin | src/path.cpp:196-197 | three consecutively numbered lists make one numbered list |
| PathTree.TreeJoin | src/path.cpp:176-199 | a tree has its chains and distances when its own path and both sub-trees have theirs |
| PathTree.CrossedJoin | src/path.cpp:178-194 | at the top of the assembled tree, the own chain's ends are linked sideways to the sub-trees' ends, and no other own checkpoint has a sideways link |
| PathTree.OwnOf | src/path.cpp:76-174 | the path's own chain, at least two checkpoints numbered from base; quads change only in checkpoint tags |
| PathTree.Assemble | src/path.cpp:176-199 | the own chain followed by the two sides is a generated tree |
| PathTree.AssembleIndexed | src/path.cpp:196-197 | the assembled list is numbered from base |
| PathTree.SideLinksMove | src/path.cpp:196-197 | a side's links, moved to where the side is placed |
| PathTree.SideDistsMove | src/path.cpp:196-197 | a side's distances, moved to where the side is placed |
| PathTree.SideAt | src/path.cpp:196-197 | a side placed at its offset keeps its links and distances there |
| PathTree.SidesPlaced | src/path.cpp:196-197 | both sides placed after the own chain keep their links and distances there |
| PathTree.AssembleLists | src/path.cpp:176-199 | the assembled list holds the chains and distances of the whole tree |
| PathTree.GeneratePath | src/path.cpp:68-200 | the result keeps the tree's shape and is numbered consecutively from base: each path's own chain, then its left sub-tree, then its right; every chain is linked up and down with open ends; distances are 0 at each chain's end and each checkpoint exceeds the next by the step at the mirrored place of its chain (the reversed running distances); the ends are linked sideways to the sub-trees' ends; quads change only in tags |
| Track.ConcatSnoc | src/level.cpp:134-140 | (proof step) one more list adds its checkpoints at the end of the joined list |
| Track.ConcatAppend | src/level.cpp:134-140 | joining two runs of lists is joining each and appending |
| Track.OffsetStep | src/level.cpp:129 | each path is numbered from where the one before it ended |
| Track.OffsetMono | src/level.cpp:129 | the numbering offsets grow and stay within the joined list |
| Track.ConcatHolds | src/level.cpp:134-140 | the joined list holds each path's list at that path's offset |
| Track.ConcatAround | src/level.cpp:134-140 | the joined list is the lists before a path, its list, and the lists after it |
| Track.LaidSnoc | src/level.cpp:126-132 | generating one more path from the end of the list keeps every path generated where it belongs |
| Track.NumberedSpans | src/level.cpp:126-132 | a tree numbered within the list has every path's range inside it |
| Track.LaidAt | src/level.cpp:126-132 | each generated path starts at its offset and ends just before the next offset |
| Track.LaidTiled | src/level.cpp:126-140 | the generated paths tile the joined list from 0 to its end, one after the other |
| Track.LaidWithin | src/level.cpp:126-140 | every generated path lies within the joined list |
| Track.LaidAdjacent | src/level.cpp:126-140 | each path starts right after the one before it ends |
| Track.LaidApart | src/level.cpp:126-140 | every path's checkpoints come before every later path's |
| Track.LaidPlaced | src/level.cpp:126-140 | each path keeps its chains and distances in the joined list |
| Track.LinkNodes | src/level.cpp:130-131 | two link nodes per path |
| Track.GeneratePaths | src/level.cpp:123-132 | every path is generated from where the one before it ended, and the link list holds each path's first and last checkpoint; quads change only in checkpoint tags |
| Track.Join | src/level.cpp:133-140 | the joined list is the lists one after the other |
| Track.RaiseBelow | src/level.cpp:142-148 | the distance pass keeps the list length |
| Track.RaiseStep | src/level.cpp:145-147 | one UpdateDist continues path `i - 1` from path `i`, and every later path still continues from the next |
| Track.KeptBelow | src/level.cpp:145-147 | one UpdateDist leaves the distances of every other path alone |
| Track.KeptAbove | src/level.cpp:145-147 | one UpdateDist keeps the later paths continuing from the next |
| Track.RaiseBelowContinues | src/level.cpp:142-148 | the rest of the pass makes every path continue from the next |
| Track.PassContinues | src/level.cpp:123-148 | on the joined list of freshly generated paths, after the pass each path's distances continue from the first checkpoint of the next path, and the last path ends at 0 |
| Track.DistPass | src/level.cpp:142-148 | the loop from the next to last path down to the first computes the distance pass and changes only distances |
| Track.CloseLoop | src/level.cpp:150-163 | each path's first checkpoint links down to the node before it in the link list, the first wrapping to the last; each path's last links up to the node after it, the last wrapping to the first; every other checkpoint is kept |
| Track.RelinkStep | src/level.cpp:152-162 | one step of the link loop relinks one more node and leaves the rest alone |
| Track.NodesOf | src/level.cpp:130-131 | link entries `2 i` and `2 i + 1` are path `i`'s first and last checkpoint |
| Track.NodeAt | src/level.cpp:130-131 | an even link entry is a path's first checkpoint, an odd one its last |
| Track.LinkNodesSnoc | src/level.cpp:130-131 | (proof step) one more path adds its first and last checkpoint to the link list |
| Track.LinkNodesIncreasing | src/level.cpp:130-131 | the link list runs strictly up the joined list |
| Track.ClosedAt | src/level.cpp:150-163 | after the link loop, path `i`'s first checkpoint links down to the previous path's last, its last links up to the next path's first, and its middle is kept |
| Track.ClosedStart | src/level.cpp:154-156 | path `i`'s first checkpoint links down to the last of the path before; the first path's links to the last path's |
| Track.ClosedEnd | src/level.cpp:160-161 | path `i`'s last checkpoint links up to the first of the next path; the last path's links to the first path's |
| Track.WrapNext | src/level.cpp:160 | the entry after the last wraps round to the first |
| Track.ClosedMiddle | src/level.cpp:150-163 | checkpoints strictly inside a path are not link nodes and are kept |
| Track.ClosedCycle | src/level.cpp:150-163 | after the link loop the paths' checkpoints form one cycle: up and down along each path, and from each path's last checkpoint to the next path's first and back |
| Track.LoopedAt | src/level.cpp:150-163 | each path is linked into the cycle |
| Track.RunRelinked | src/level.cpp:150-163 | a path's chain survives the link loop, and its last checkpoint now leads to the next path's first |
| Track.ClosedPlaces | src/level.cpp:150-163 | the link loop changes no position and no distance |
| Track.StepsPlaces | src/level.cpp:150-163 | so the distance steps along a chain survive it |
| Track.ContinuedPlaces | src/level.cpp:150-163 | so do the continued distances of a tree |
| Track.DistsPlaces | src/level.cpp:150-163 | and the distances down to 0 of a tree |
| Track.ContinuesPlaces | src/level.cpp:150-163 | the paths still continue from path to path after the link loop |
| Track.Compile | src/level.cpp:123-163 | the paths tile the checkpoint list, each path's distances (its reversed running distances) continue from the next path's first checkpoint down to 0 at the last path's end, and the checkpoints form one cycle; quads change only in checkpoint tags |
| TurboPads.Decremented | src/level.cpp:423-427 | the renumbering keeps the list length |
| TurboPads.Renumber | src/level.cpp:423-427 | the loop decrements every stored index above the removed one and keeps the others |
| TurboPads.Erase | src/level.cpp:430 | erasing one element shortens the list by one |
| TurboPads.Removed | src/level.cpp:423-430 | renumbering and erasing shortens the list by one |
| TurboPads.ManagedAppends | src/level.cpp:392-412 | a triggered quad without a copy gains one copy, appended at the end, with the pad's name suffix, flags and terrain, hidden and without a copy of its own; the quad points to it and nothing else changes |
| TurboPads.ManagedKeeps | src/level.cpp:413-421 | a quad without a trigger and without a copy leaves the list unchanged |
| TurboPads.RemovedAt | src/level.cpp:423-430 | after removing element `t`, every other element moves down past it with its index renumbered |
| TurboPads.RemovedFrom | src/level.cpp:423-430 | every element of the shortened list comes from one of the original list |
| TurboPads.ManagedRemoves | src/level.cpp:413-432 | a quad without a trigger that has a copy loses it: the list shrinks by one, the quad's index is cleared, and every other quad moves down past the copy with its index renumbered |
| TurboPads.ManagedReplaces | src/level.cpp:392-432 | a triggered quad that already has a copy gets a fresh one at the end and the old one is removed: the list keeps its length, the quad points to the new copy and the others are renumbered |
| TurboPads.SentinelLowered | src/level.cpp:423-427 | the renumbering also decrements a stored "no copy" sentinel that is above the removed index |
| TurboPads.RemovedConsistent | src/level.cpp:423-430 | removing an element nobody points to keeps every index naming a distinct copy |
| TurboPads.AppendedConsistent | src/level.cpp:404-408 | appending a copy and pointing to it keeps every index naming a distinct copy |
| TurboPads.ManagedConsistent | src/level.cpp:388-434 | when every stored index names a distinct copy and the sentinel is below all of them, ManageTurbopad keeps that so |
| Levels.Level.GenerateCheckpoints | src/level.cpp:117-166 | false, with nothing changed, exactly when there is no path or a path is not ready; otherwise the paths tile the new checkpoint list, the distances continue from path to path down to 0, the checkpoints form one cycle, and quads change only in checkpoint tags |
| Levels.Level.ManageTurbopad | src/level.cpp:388-434 | the quadblock list becomes what the turbo-pad switch makes of it; nothing else changes |
| Levels.Level.UpdateVrm | src/level.cpp:1794-1845 | false exactly when the image is empty; it is empty when every texture is, and only then or when some representative has an image or a palette no free place of the grid takes; on success the image is the .vrm file of a grid holding every representative's palette at its place, and, when every representative's image fits its rectangle, every representative shows the stored image of itself or of one CompareEquivalency accepted for it; every texture visited gets the place of its first equal texture; the quadblocks, paths and checkpoints are unchanged |
| LevLayout.Words | src/level.cpp:750-759 | enough 32-bit words for one bit per element, and no more |
| LevLayout.UnsetBit | src/level.cpp:755 | clearing a bit of a word clears exactly that bit |
| LevLayout.SlotSame | src/level.cpp:755 | two elements in the same word use the same bit only when they are the same element |
| LevLayout.Visit | src/level.cpp:766-770 | visiting one element keeps the number of words |
| LevLayout.ClearedStart | src/level.cpp:752 | a bitset of all ones has cleared nothing yet |
| LevLayout.ClearedStep | src/level.cpp:753-770 | visiting element `i` clears its bit exactly when it is hidden, and keeps every other bit |
| LevLayout.Bitset | src/level.cpp:750-770 | a bitset starting all ones, with exactly the bits of the hidden elements cleared |
| LevLayout.InternEach | src/level.cpp:729-738 | interning the vertices of one more quad extends the distinct vertex list and the per-vertex numbering as if the two lists had been interned together |
| LevLayout.InternedId | src/level.cpp:731-737 | the id found or given to a vertex is its number in the first-occurrence numbering |
| LevLayout.InternAll | src/level.cpp:729-738 | the interned list holds each value once, in order of first occurrence, and each element's id names its own value |
| LevLayout.LeafQuadsIn | src/level.cpp:718-744 | every quad listed by a leaf is a quad of the level |
| LevLayout.StreamSnoc | src/level.cpp:724-741 | (proof step) one more quad appends its vertices to the vertex stream |
| LevLayout.NodesSnoc | src/level.cpp:718-744 | one more node adds its quads when it is a leaf, and its record size, to the running totals |
| LevLayout.ArgsStep | src/level.cpp:720 | each node is serialised at the offset where its leaf's quads start |
| LevLayout.NodeIn | src/level.cpp:723-724 | every quad index of one node names a level quad |
| LevLayout.OffsetStep | src/level.cpp:742 | the running offset after more records of one size |
| LevLayout.MeshStep | src/level.cpp:718-744 | one node more keeps the mesh pass's running state: quads in leaf order, distinct vertices, vertex ids, BSP size and offset |
| LevLayout.LeafQuadsInto | src/level.cpp:723-743 | the leaf's quads are appended in order, their vertices interned, and the offset moved past their records |
| LevLayout.InternQuad | src/level.cpp:724-741 | (proof step) one quad of the leaf loop: its vertices are interned, and the table stays the distinct vertices of the quads so far, with their numbering |
| LevLayout.SerializeMesh | src/level.cpp:710-744 | nodes in id order: the quads listed leaf by leaf, each node's argument is where its leaf's quads start, vertices are the distinct vertices of the stream in first-occurrence order with their ids, and the BSP size is the sum of the node records |
| LevLayout.DistinctNonEmpty | src/level.cpp:632-645 | the distinct face lists still show at least one frame each |
| LevLayout.Word | src/level.cpp:653-657 | a frame word takes four bytes |
| LevLayout.FrameWords | src/level.cpp:651-658 | one four-byte word per frame |
| LevLayout.FrameWordAt | src/level.cpp:651-658 | word `j` holds the address of frame `j`'s texture group |
| LevLayout.FramePtrs | src/level.cpp:654-655 | one pointer entry per frame word |
| LevLayout.FramePtrAt | src/level.cpp:654-655 | entry `j` points at word `j` |
| LevLayout.AnimSnoc | src/level.cpp:632-659 | one more distinct face list adds its first group's buffer and its frame words to the data, and a pointer to the buffer and to each word |
| LevLayout.EmitFace | src/level.cpp:646-658 | the face's buffer and frame words are appended, with a pointer to the buffer and to each frame word |
| LevLayout.SeenBefore | src/level.cpp:636-644 | true exactly when an earlier face showed the same frames |
| LevLayout.FacesSnoc | src/level.cpp:633-645 | a face seen before adds nothing to the distinct list, a new face adds itself |
| LevLayout.AnimStepBytes | src/level.cpp:646-658 | one emitted face keeps the data equal to the bytes of the distinct faces so far |
| LevLayout.AnimStepPtrs | src/level.cpp:646-658 | one emitted face keeps the pointers equal to the entries of the distinct faces so far |
| LevLayout.AnimInto | src/level.cpp:632-659 | one animation appends, for each distinct face list in order of first occurrence, its buffer and its frame words, with their pointers |
| LevLayout.AnimFaceStep | src/level.cpp:633-659 | one more face keeps the animation's data and pointers those of the distinct faces so far |
| LevLayout.AnimData | src/level.cpp:589-661 | the animation data and its pointers, animation after animation |
| LevLayout.FaceWordAt | src/level.cpp:653-657 | every frame pointer points at a word holding that frame's texture group address |
| LevLayout.AnimSection | src/level.cpp:589-706 | with textures placed and animations present, the animation data and its pointers followed by the closing word; otherwise the closing word alone with one pointer 0; the last pointer always points at the closing word |
| LevLayout.TextureGroups | src/level.cpp:555-587 | with textures placed, the distinct layouts in order of first occurrence, each quad face naming its own; otherwise the one default group |
| LevLayout.Repeat | src/level.cpp:815-835 | `n` copies of one value |
| LevLayout.RepeatDistinct | src/level.cpp:815-835 | copies of one value have at most that value as their distinct list |
| LevLayout.RepeatNumbering | src/level.cpp:815-835 | every copy is numbered 0 |
| LevLayout.VisibleSets | src/level.cpp:810-837 | with every quad's set the same, one visible set (none without quads), and every quad points at it |
| LevLayout.RetargetInstances | src/level.cpp:972-985 | every visible set is re-keyed to the cactus instance list; nothing else changes |
| LevLayout.Fields | src/level.cpp:1177-1229 | each field's entry is the record's base plus the field offset |
| LevLayout.FieldsSnoc | src/level.cpp:1177-1229 | (proof step) one more field appends its entry |
| LevLayout.BspSlots | src/level.cpp:913-916 | two slots per node |
| LevLayout.RecordEntriesLength | src/level.cpp:1239-1249 | every record contributes one entry per pointer field |
| LevLayout.LeafEntriesLength | src/level.cpp:1251-1260 | every leaf contributes two entries |
| LevLayout.PointerMapCount | src/level.cpp:1177-1269 | the pointer map holds 42 fixed entries, one per ghost present, one per animation pointer, six per quad, two per leaf and three per visible set |
| LevLayout.NodeBytesCons | src/level.cpp:1251-1260 | the node bytes before node `i + 1` are the first node's size plus those of the rest |
| LevLayout.BspSlotsAt | src/level.cpp:1251-1260 | slot `2 i` of visMemBSPP1 stays 0; slot `2 i + 1` holds the leaf's own offset, and 0 for a branch |
| LevLayout.RecordStep | src/level.cpp:1239-1249 | one record's fields, then the rest |
| LevLayout.AppendRecords | src/level.cpp:1239-1249 | the entries of each record in turn |
| LevLayout.LeavesStep | src/level.cpp:1252-1259 | one more node keeps the leaf entries and visMemBSPP1 right |
| LevLayout.AppendMoved | src/level.cpp:1234-1237 | each animation pointer moved by the offset of the animation data |
| LevLayout.AppendLeaves | src/level.cpp:1251-1260 | for every leaf, its visibility slot and its quad-list field; visMemBSPP1 as BspSlots |
| LevLayout.AppendGhosts | src/level.cpp:1231-1232 | each ghost's field, only when that ghost is present |
| LevLayout.BuildPointerMap | src/level.cpp:1177-1269 | the pointer map: the header and cactus fields, the ghosts present, the animation pointers, every quad's six fields, every leaf's two entries, every visible set's three |
| LevLayout.Relocate | src/level.cpp:972-1269 | the visible sets re-keyed to the cactus instance list, then the pointer map and visMemBSPP1 over the laid-out regions |
| LevLayout.LayTextures | src/level.cpp:555-708 | the texture groups and the animation section as the two passes give them |
| LevLayout.LayMesh | src/level.cpp:710-837 | the quads, vertices and nodes as the mesh pass gives them, the visibility bitsets, and the visible sets |
| LevLayout.End | src/level.cpp:528-1087 | a region ends no earlier than it starts |
| LevLayout.LayFront | src/level.cpp:528-837 | the textures after the header and mesh info, then the mesh right after the texture groups and the animation section |
| LevLayout.Starts | src/level.cpp:528-1174 | one start per region and the pointer map |
| LevLayout.RegionSizes | src/level.cpp:528-1087 | one size per region |
| LevLayout.Singleton | src/level.cpp:815-835 | (proof step) a one-element list is that element |
| LevLayout.ConsecutiveSum | src/level.cpp:528-1174 | regions written one after the other end at the first start plus the sum of their sizes |
| LevLayout.Chain0 | src/level.cpp:528-710 | (proof step) regions 0 to 3 follow one another |
| LevLayout.Chain1 | src/level.cpp:710-811 | (proof step) regions 4 to 7 follow one another |
| LevLayout.Chain2 | src/level.cpp:811-869 | (proof step) regions 8 to 11 follow one another |
| LevLayout.Chain3 | src/level.cpp:869-904 | (proof step) regions 12 to 15 follow one another |
| LevLayout.Chain4 | src/level.cpp:904-950 | (proof step) regions 16 to 19 follow one another |
| LevLayout.Chain5 | src/level.cpp:950-991 | (proof step) regions 20 to 23 follow one another |
| LevLayout.Chain6 | src/level.cpp:991-1023 | (proof step) regions 24 to 27 follow one another |
| LevLayout.Chain7 | src/level.cpp:1023-1174 | (proof step) regions 28 to 31 follow one another |
| LevLayout.LaidOutConsecutive | src/level.cpp:528-1174 | all 32 regions are written one after the other, each starting where the one before ends |
| LevLayout.PointerMapOffset | src/level.cpp:1174 | offPointerMap is the sum of the region sizes |
| LevLayout.Padding | src/level.cpp:1169-1172 | fewer than four bytes, bringing the offset to a multiple of four, and none exactly when it already is one |
| LevLayout.NodeHidden | src/level.cpp:753-756 | each node's invisibility flag |
| LevLayout.QuadHidden | src/level.cpp:766-770 | each ordered quad's invisibility flag |
| LevLayout.LayOffsets | src/level.cpp:839-1269 | every region's offset in write order, the visible set re-keyed to the cactus instance list, each ghost's field 0 when it is absent, the extra header's count, visMemBSPP1, the padding and the pointer map |
| LevLayout.SaveLev | src/level.cpp:493-1330 | the offsets of every region of the .lev file, in write order, each region starting where the one before ends; the texture groups and animation section, the mesh, the visible set, the ghost fields, the extra count, visMemBSPP1, the padding and the pointer map as each pass gives them |

## Left out

- Reading and writing files, JSON presets, `printf` and the renderer are not modelled. This includes `GenerateRenderCheckpointData` at the end of `GenerateCheckpoints`, and the `Write` calls of `SaveLEV`. `SaveLev` returns the offsets, the tables and the pointer map instead of writing bytes.
- The byte-count prefix of the pointer map (4 bytes per entry) is not a separate member. `PointerMapCount` gives the entry count it multiplies.
- Image decoding (`stbi_load`) is not modelled. A texture is built from its decoded width, height, channel count and pixel bytes.
- `Texture::Serialize`, `UpdateTexture` and `ClearTexture` are not modelled. They load, reload or discard the picture, and neither the packer nor the layout depends on them.
- The bodies that records serialise to are parameters.
  - `AnimTexture::Serialize` is `serialize`.
  - The literal cactus model, its command list, texture layouts and palette are counted by their sizes only.
  - The size of every `PSX` record is a field of `Formats`, because `psx_types.h` is not part of this model.
- `Quadblock::Neighbours`, `Quadblock::DistanceClosestVertex` and vector length are the parameters `neighbours`, `closest` and `length` of `Geometry`. Only the non-negativity of length is assumed of them.
- `Quadblock::TranslateNormalVec(TURBO_PAD_QUADBLOCK_TRANSLATION)` is the parameter `lift` of `ManageTurbopad`.
- TURBO_PAD_INDEX_NONE is defined outside the files modelled here, so it is the parameter `none`.
  - Its value decides whether the renumbering loop also lowers stored sentinels. `TurboPads.SentinelLowered` shows the shift when the sentinel lies above the removed index.
  - TurboPads.ManagedConsistent: proved only for a sentinel below every stored pad index, because for a larger sentinel the loop rewrites "no copy" into a real index.
- Floating point is modelled with reals. Coordinates, midpoints, scores and distances are exact, and single-precision rounding is not captured.
- BspTree.Grown: a branch is split at most `fuel` levels deep. In the source the recursion has no bound and does not end when every quad of a branch lies at or below the midpoint on every axis (`BspTree.Stalls`). The proved properties hold for whatever depth the fuel allows.
- `g_id` is the `IdCounter` object passed to the constructors.
- Deleting nodes is not modelled. `Bsp.Clear` returns the nodes it would delete.
- BspTree.SerializeBranch: requires both children, and so does `BspTree.BranchRecordDecodes`. The source dereferences `m_left` and `m_right` unconditionally (src/bsp.cpp:231-234). Generate can leave a branch with one child: a level of a single quad (`BspTree.OneQuadOneChild`), or a branch that stalls (`BspTree.Stalls`). What the source writes for the missing child is undefined, and the model does not describe it.
- BspTree.ChildRefDecodes: the id round trip is stated only for ids below 0x4000. Larger ids collide with the leaf bit in the 16-bit record, as they do in the source.
- The 32-bit truncation of offsets stored as `uint32_t` is modelled in the BSP records and the animation frame words. The other layout offsets are unbounded naturals.
- The BSP visibility matrix (`validVisTree`, `m_bspVis`) is not modelled.
  - The model takes the branch where no visibility tree is present: one all-visible node bitset, and one visible set shared by every quad.
  - `LayMesh` assumes the quads listed by leaves fit the quad bitset. When leaves list a quad twice, the source's bitset indexing goes past the words it allocated.
- The link between quads and animated-texture faces is not modelled. This covers `offsetPerQuadblock` and `Quadblock::SetAnimTextureOffset`. The animation section is built from each animation's face lists as given.
- Materials: a value-initialised `T` is the constructor argument `zero`.
- The iteration order of `std::unordered_map` (`m_materialToTexture` and the material tables) is given by the order of the input sequences.
- `checkpoint.cpp` and `texture.h` are not part of this model. The checkpoint record is reduced to its index, position, name, distance and four links.
- `level.cpp` calls a newer BSP interface than `bsp.cpp` defines: `Generate` with a third argument, the maximum leaf axis length, plus `Valid`, `GetTree` and `GetLeaves`. The model follows `bsp.cpp`. `SaveLev` takes the nodes, in id order, as its input.
- OpaqueColor: states the corrected opaque branch, which never yields 0. The code's branch yields 0 for opaque near-black pixels (`Pixels.OpaqueZeroAsWritten`), and textures are built with the code's conversion.
- Textures.Texture.constructor: one- and two-channel pictures are read the corrected way (`Pixels.PixelColor`), and so are `Pixels.Colors`, `Pixels.ConvertPixel` and `Pixels.BuildPalette`. The code's reading crosses into the next pixels' bytes and past the buffer (`Pixels.PixelColorAsWritten`, under "## Findings").
- PadCopy: assumes that `Quadblock::SetFlag` replaces the whole flag set, because `quadblock.cpp` is not part of this model.
- Header: assumes the field order of `VRMHeader`, because `psx_types.h` is not part of this model.
- BufferToVram: a word whose cell lies past the end of the grid is dropped. In the source that write is out of bounds of the vector, which is undefined behaviour.
- PlaceImage: that every texture shows a stored image is promised only when every image fits its rectangle and no texture appears twice. A paletted image wider than `VramWords()` words folds its rows below its rectangle, over cells that may hold other images, and what then shows is not described.
- PlaceImages: the same condition as PlaceImage for the shown images.
- PackVrm: the same condition as PlaceImage for the shown images. The palettes are promised without it.
- PackTextures: the shown images are promised only when every representative's image fits its rectangle. The representatives never repeat (`TextureSet.UnequalSeparate`).
- UpdateVrm: the same condition as PackTextures.
- ImageInFile: promises only the words of the image that lie inside its `VramWords()` by `height` rectangle, because the rest of a wider image is folded elsewhere.
- Reused images: a texture that reuses a cached image is only related to it by CompareEquivalency's one-way test. The model does not promise that it shows its own picture, and `ColorShapes.EquivalentAsWrittenCounterexample` shows that it may not.
- The range-for loops over `m_quadblocks` at src/level.cpp:278-285 and src/levelui.cpp:455-458 call `ManageTurbopad`, which can `push_back` into the same vector. A reallocation then invalidates the loop's iterator. The model runs `ManageTurbopad` on one quad at a time over a list value, so it does not capture this.

## Findings

| source | as written | input that shows it | evidently intended | confidence | as-written member | corrected member |
|---|---|---|---|---|---|---|
| src/texture.cpp:47-54 | `GetVRAMWidth` divides the width by the indexes per word, rounding down, while `ConvertPixels` starts a fresh word on every row | a 4 bpp texture 6 pixels wide: width 1 word, but each packed row takes 2 | ceil(width / indexes per word) words per row | not executed | Textures.VramWidthAsWrittenShort | Textures.RowWords |
| src/texture.cpp:260 | a 16 bpp texture's image is its palette (`m_image = m_clut`), whose colours are distinct | a direct-colour picture with a repeated colour: the image has fewer words than pixels | one 16-bit colour per pixel | not executed | Textures.DirectImageAsWrittenShort | Textures.DirectImageColors |
| src/texture.cpp:176-198 | for each shape of this texture, the first shape of the other holding its smallest position must be a subset of it | a one-colour 2x2 texture against indexes [0, 1, 0, 0]: accepted though the pictures differ | the shapes match both ways, so the two textures show the same picture | not executed | ColorShapes.EquivalentAsWrittenCounterexample | Textures.EquivalentSameImage |
| src/texture.cpp:240-247 | each pixel is read from bytes `i * channels` to `i * channels + 2`, whatever the channel count | the one-channel picture black, white, white: the first pixel comes out cyan, and the last pixel's read runs past the buffer | each pixel read from its own bytes, a grey byte standing for red, green and blue | not executed | Pixels.GreyAsWrittenCounterexample | Pixels.PixelColorOwnBytes |
| src/texture.cpp:267-271 | the transparent-black test looks at the raw 8-bit channels before they are scaled to 5 bits | the opaque colour (4, 4, 4, 255) scales to black and becomes 0, the transparent colour | an opaque colour is never 0 | not executed | Pixels.ConvertColorAsWrittenNearBlack | Pixels.ConvertColor |
| src/path.cpp:167-171 | the running distances from the start are stored in reverse order | steps of length 1 and 2: the middle checkpoint gets 1, but it is 2 from the finish | each checkpoint holds its distance along the chain to the path's last checkpoint | not executed | Paths.ReversedDistsCounterexample | Paths.ToFinishSteps |
