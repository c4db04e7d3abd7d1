# Access Mars: tile streaming, decoding and scene utilities in Dafny

This project models the parts of Access Mars that decide what the viewer
loads and shows. Access Mars is a WebVR tour of the Curiosity rover's
surroundings.

- **Terrain texture streaming.** Every terrain tile (`TileMesh`) has up to
  three texture tiers: small, base and large. `TileManager` asks one tile at
  a time to load its next tier, nearest tiles first. It starts the next load
  only when the previous one settles, and it runs two rounds over all tiles.
  The base and large tiers are progressive textures. Their JPEG bytes are
  decoded on a worker thread. A shared `JPEGWorker` object routes each
  decoded image back to the one texture that is waiting for it (its "host").
- **The decoder worker.** It strips an 18-byte header from the decoder's
  output and repacks blue-green-red pixels into red-green-blue.
- **The asset pipeline script.** It derives each tile's tier information
  from the tile's texture widths. It writes that information into the scene
  file as a metadata string, which the viewer parses back.
- **Scene utilities:**
  - `C4DUtils`: object-tree searches, name paths and animation clip lookup.
  - `BetterRaycaster`: cursor event dispatch with click consumption and
    priority ordering.
  - `CardMesh`: the info-card fade-in and fade-out state machine.
  - `MathUtils`: clamp, lerp and critically damped smoothing.
  - `PlatformUtils`: platform decision tables.
  - `InfoCardText`: the `@s` escape for semicolons.

Modules and files:

| module | file | models |
|---|---|---|
| `Wrappers`, `Vectors`, `Sorting`, `Strings` | `wrappers.dfy`, `vectors.dfy`, `sorting.dfy`, `strings.dfy` | `Option`, vectors, a sort (`Array.prototype.sort` with a numeric comparator) and the string primitives the core uses |
| `JpegWorkers` | `jpeg_worker.dfy` | `src/js/workers/jpeg-worker.js` |
| `JpegDecoder` | `jpeg_decoder.dfy` | `public/third_party/bompo/jpeg-worker.js` |
| `Terrain` | `terrain.dfy` | `TileMesh` in `src/js/components/terrain.js` |
| `TileManagers` | `tile_manager.dfy` | `src/js/core/tile-manager.js` |
| `MergeMarsTerrain` | `merge_mars_terrain.dfy` | `scripts/merge-mars-terrain.py` |
| `C4DUtils` | `c4d_utils.dfy` | `src/js/c4d/c4d-utils.js` |
| `BetterRaycaster` | `better_raycaster.dfy` | `src/js/components/better-raycaster.js` |
| `CardMeshes` | `card_mesh.dfy` | `src/js/meshes/card-mesh.js` |
| `MathUtils` | `math_utils.dfy` | `src/js/utils/math-utils.js` |
| `PlatformUtils` | `platform_utils.dfy` | `src/js/utils/platform-utils.js` |
| `InfoCardText` | `info_card_text.dfy` | `src/js/components/info-card-text.js` |

How the source's form carries over:

- **Stateful objects become classes.** The objects that change their own
  fields are Dafny classes with `modifies` frames: `TileManager`,
  `TileMesh`, the JPEG worker, `Raycaster`, `CardMesh` and `Vector3`.
- **Promises become event methods.** A promise callback is an event method
  that the environment may call whenever its precondition holds. Examples
  are `OnLoadSettled`, `OnDisplayComplete` and `OnWorkerReply`.
- **Loops keep their invariants.** The source's loops are `while` loops with
  invariants. This covers the decoder's repacking loop, the raycaster's
  dispatch loops, the tree walks and the clip filter.
- **Pure code stays pure.** Pure code is functions and lemmas. This covers
  the script's tier derivation, the decision tables and the text escapes.

The tile scheduler's central invariant is `TileManager.Valid`:

- **Single flight.** At most one tile has a load running, and it is the
  tile the manager is waiting for.
- **Host slot.** The worker's host slot is filled exactly while that tile
  waits for a progressive upload, and it holds that tile's texture.
- **Accounting.** The dispatches made so far plus the dispatches still owed
  add up to two per tile. Every tier a tile was asked for is matched by a
  dispatch.

No load path in `loadNextTextureSize` rejects or resolves on failure:

- **Small tier.** The texture loader gets no error callback
  (`src/js/components/terrain.js:467-472`). Small-tier loads run only from
  `loadInitialTextures` (`src/js/components/terrain.js:176-191`, reached from
  `loadTerrain` at line 114). The manager is built only after `loadTerrain`
  resolves (`src/js/core/scene.js:343-344`). So a failed small fetch means
  the manager is never built at all.
- **Base and large tiers.** The manager dispatches only sizes 1 and 2, which
  are progressive textures (`src/js/components/terrain.js:439-460`). If a
  progressive upload's `onDisplayComplete` never fires, the tile's promise
  never settles. The tile stays `AwaitingDisplay` with no error event, and
  the manager stops dispatching.

## Model

| member | source | states |
|---|---|---|
| `JpegWorkers.StaticJPEGWorker.constructor` | src/js/workers/jpeg-worker.js:25-28 | The shared worker starts with no host texture, so no decoded image has been routed anywhere yet. |
| `JpegWorkers.StaticJPEGWorker.OnMessage` | src/js/workers/jpeg-worker.js:35-39 | A reply goes to the current host and to no one else; with no host it is dropped; the host slot itself is not changed by a reply. |
| `JpegDecoder.RepackPixels` | public/third_party/bompo/jpeg-worker.js:17-31 | The copy loop fills the `size*size*3` buffer with exactly the packed pixel sequence `Packed(data, size)`, reading past the end of the data as 0. |
| `JpegDecoder.PackedLength` | public/third_party/bompo/jpeg-worker.js:17-18 | The posted buffer holds three bytes per pixel. |
| `JpegDecoder.PackedAt` | public/third_party/bompo/jpeg-worker.js:20-31 | Output pixel q is input triple q after the 18-byte header with its byte order reversed (R from offset +2, G from +1, B from +0). |
| `JpegDecoder.HeaderIgnored` | public/third_party/bompo/jpeg-worker.js:20-21 | The 18 header bytes never influence the output. |
| `JpegDecoder.BgrToRgb` | public/third_party/bompo/jpeg-worker.js:12-33 | For a header followed by a `size*size`-pixel image in BGR order, the handler posts exactly that image in RGB order. |
| `JpegDecoder.DecoderWorker.OnMessage` | public/third_party/bompo/jpeg-worker.js:12-34 | Each request posts exactly one message, the packed buffer of the decoded image. |
| `Terrain.MediumEnabled` | src/js/components/terrain.js:302-309 | The base tier is enabled iff the metadata has it and the device is not mobile or the tile is one of the four center tiles. |
| `Terrain.LargeEnabled` | src/js/components/terrain.js:311-314 | The large tier is enabled iff the metadata has it and the device is not mobile. |
| `Terrain.SizePrefixes` | src/js/components/terrain.js:320-331 | The suffix table has the extra-small prefix and the empty base suffix, plus `_lg` off mobile only. |
| `Terrain.TileUrlDetermines` | src/js/components/terrain.js:429 | Under one root directory, a tile URL determines the concatenation of tile id and suffix it was built from. |
| `Terrain.TileUrlDeterminesTile` | src/js/components/terrain.js:429 | When ids hold no `_` and suffixes are empty or start with `_` (as `TEXTURE_SUFFIXES` at lines 35-40 do), the URL determines the tile id and the suffix separately. |
| `Terrain.NextSize` | src/js/components/terrain.js:407-411 | The size index starts at 0 when undefined and otherwise goes up by exactly one. |
| `Terrain.SkipMessage` | src/js/components/terrain.js:414-416 | A call is skipped exactly when the new index is past large, or names a base or large tier the tile does not have; past large the message is "maximum size reached". |
| `Terrain.Iota` | src/js/components/terrain.js:407-411 | The sequence of size indices a tile has been offered is 0, 1, ..., n-1. |
| `Terrain.TileMesh.constructor` | src/js/components/terrain.js:280-394 | Capability gating: tiers exist per `MediumEnabled`/`LargeEnabled`; a base progressive texture exists iff the base tier does, a large one of twice the dimension iff the large tier does; the load proxy exists iff the base tier does and shows the base texture; nothing has been offered or loaded yet. |
| `Terrain.TileMesh.LoadNextTextureSize` | src/js/components/terrain.js:402-476 | The size index goes up by one and is recorded; a missing tier resolves at once with its message and changes nothing else; otherwise the two-slot hand-off picks tier n-1 as previous and tier n as current, an already loaded texture resolves at once, a progressive texture takes the worker's host slot and the proxy, and a small texture starts a loader request for the tile URL. |
| `Terrain.TileMesh.StartTier` | src/js/components/terrain.js:420-476 | Past the skip checks: previous and current textures are tiers n-1 and n, the current one exists, and the four load cases (progressive displayed / not displayed, loaded / placeholder) give the stated result, pending callback, host slot and proxy. |
| `Terrain.TileMesh.OnDisplayComplete` | src/js/components/terrain.js:449-454 | The upload completed: the host slot is released, the texture is marked displayed and goes onto the material when there is a mesh, the previous tier is disposed and its slot nulled, and the promise resolves with the success message for the current size. |
| `Terrain.TileMesh.OnTextureLoaded` | src/js/components/terrain.js:467-472 | The loader's texture becomes the current one and goes onto the material, the previous tier is disposed, and the promise resolves with the success message. |
| `TileManagers.TileManager.OnTileDisplayComplete` | src/js/components/terrain.js:449-454 | The awaited tile's upload completes: the tile's texture is marked displayed and put on the material when there is a mesh, the previous tier is disposed, the host slot is released, the success message names the current size, and the scheduler invariant is kept. |
| `TileManagers.TileManager.OnTileTextureLoaded` | src/js/components/terrain.js:467-472 | The awaited tile's small texture arrives: it becomes the current texture and goes on the material, the previous tier is disposed, the success message names the current size, and the scheduler invariant is kept. |
| `Terrain.TileMesh.UpdateMaterialTexture` | src/js/components/terrain.js:490-494 | The material shows the current texture when the tile has a mesh and is untouched otherwise. |
| `Terrain.TileMesh.DestroyPreviousTexture` | src/js/components/terrain.js:508-514 | With no previous texture nothing changes; otherwise it is disposed once, the slot of the tier below the current one and the proxy map are nulled, and the previous slot is cleared. |
| `TileManagers.Advance` | src/js/core/tile-manager.js:44-62 | `updateNextTile` on a non-empty queue dispatches its head and keeps the round; on an empty queue it bumps the round and refills while below 2; it stops dispatching only with an empty queue and the round at 2 or more. |
| `TileManagers.AdvanceAccounts` | src/js/core/tile-manager.js:44-62 | Each step dispatches exactly one of the tiles still owed (the queue plus one more pass in round 0), or none when nothing is owed. |
| `TileManagers.AdvanceDoneOwesNothing` | src/js/core/tile-manager.js:57-61 | When `updateNextTile` dispatches nothing, no dispatch is owed any more. |
| `TileManagers.AdvanceEmpty` | src/js/core/tile-manager.js:57-61 | With no tiles (after `unload`), `updateNextTile` dispatches nothing and runs the round counter out to 2. |
| `TileManagers.TileManager.constructor` | src/js/core/tile-manager.js:28-42 | The tiles are sorted by squared distance from the origin and are a permutation of the input; the nearest is dispatched first and the rest are queued; the scheduler invariant holds. |
| `TileManagers.TileManager.UpdateNextTile` | src/js/core/tile-manager.js:44-62 | The new queue, round and dispatched tile are those of `Advance`, the dispatched tile is logged and awaited, and the scheduler invariant (single flight, host slot, two dispatches per tile) is kept. |
| `TileManagers.TileManager.OnLoadSettled` | src/js/core/tile-manager.js:49-55 | Resolution and rejection both dispatch the next tile as `Advance` says; after `unload` nothing more is dispatched and the round ends at 2. |
| `TileManagers.TileManager.Reset` | src/js/core/tile-manager.js:80-83 | The queue is refilled from the full list and the next tile dispatched as `Advance` says. |
| `TileManagers.TileManager.OnWorkerReply` | src/js/workers/jpeg-worker.js:35-39 | A decoded image reaches a texture exactly when the awaited tile waits for its progressive upload, and that texture is the tile's current progressive texture. |
| `TileManagers.TileManager.UpdatePlayerPosition` | src/js/core/tile-manager.js:68-74 | The tiles still queued are reordered nearest to the player first and remain the same multiset of tiles. |
| `TileManagers.TileManager.Unload` | src/js/core/tile-manager.js:88-92 | Both lists are emptied and the current tile is forgotten, keeping the scheduler invariant. |
| `TileManagers.TileManager.HostFreeWhenSettled` | src/js/core/tile-manager.js:49-55 | When the awaited load settles the host slot is empty, so the next dispatch never overwrites a host still waiting. |
| `TileManagers.TileManager.OfferedBound` | src/js/core/tile-manager.js:44-62 | While running, no tile is asked for more than two tiers per listing beyond those it had before. |
| `TileManagers.TileManager.AllRoundsDone` | src/js/core/tile-manager.js:57-61 | After both rounds, a tile listed once was offered exactly two more tiers, consecutively and without gaps. |
| `MergeMarsTerrain.Basename` | scripts/merge-mars-terrain.py:152 | `os.path.basename`: a suffix of the path with no `/`. |
| `MergeMarsTerrain.BasenameOfPath` | scripts/merge-mars-terrain.py:152 | The base name of `dir/name` is `name`. |
| `MergeMarsTerrain.SplitExt` | scripts/merge-mars-terrain.py:153 | `os.path.splitext`: the two parts concatenate to the input and the extension is empty or a dot followed by no dot or slash. |
| `MergeMarsTerrain.SplitExtOfName` | scripts/merge-mars-terrain.py:153 | A plain `stem.ext` splits into the stem and `.ext`. |
| `MergeMarsTerrain.IsTileMesh` | scripts/merge-mars-terrain.py:206-207 | A file is not a tile mesh exactly when its stem is `simple` or `background`. |
| `MergeMarsTerrain.IsTileMeshByStem` | scripts/merge-mars-terrain.py:206-207 | For `stem.ext`, the file is a tile mesh iff the stem is neither `simple` nor `background`. |
| `MergeMarsTerrain.TileId` | scripts/merge-mars-terrain.py:152-153 | The tile id is the base name without its extension. |
| `MergeMarsTerrain.TileIdOfPath` | scripts/merge-mars-terrain.py:152-153 | The id of `dir/<id>.jpg` is `<id>`. |
| `MergeMarsTerrain.TileTexInfo.ToString` | scripts/merge-mars-terrain.py:39-54 | The metadata string starts with `TYPE TILE, ID <id>` and ends with the two flag fields `, MD <0/1>, LG <0/1>`. |
| `MergeMarsTerrain.ParseField` | scripts/merge-mars-terrain.py:39-54 | A field reads only after its key; the value read holds no comma, and what follows it is empty or starts with the next `,`. |
| `MergeMarsTerrain.ParseFieldSplits` | scripts/merge-mars-terrain.py:39-54 | A field that reads splits the text into key, value and the rest, with nothing lost. |
| `MergeMarsTerrain.ParseFieldConcat` | scripts/merge-mars-terrain.py:39-54 | A comma-free value followed by the next field reads back as that value and that rest. |
| `MergeMarsTerrain.ParseTileTexInfo` | scripts/merge-mars-terrain.py:39-54 | A parsed metadata string gives an id and prefixes without commas. |
| `MergeMarsTerrain.ParseRoundTrip` | scripts/merge-mars-terrain.py:39-54 | For an id and prefixes without commas, parsing the written metadata string gives back every field: id, size, both prefixes and both flags. |
| `MergeMarsTerrain.ReadFlags` | scripts/merge-mars-terrain.py:39-54 | Reading the flags back only succeeds on a string that ends in the two flag fields. |
| `MergeMarsTerrain.FlagsRoundTrip` | scripts/merge-mars-terrain.py:39-54 | Reading the medium and large flags back from a metadata string gives the flags it was written from. |
| `MergeMarsTerrain.Derive` | scripts/merge-mars-terrain.py:136-154 | The tier info derived from the texture widths: the id is the file's stem, the xsm prefix names the narrower of the two small textures, the medium tier exists iff the base width differs from both small widths, the large tier iff it is wider than the base. |
| `MergeMarsTerrain.PrefixesArePermutation` | scripts/merge-mars-terrain.py:136-144 | The two small prefixes are always `xsm` and `sm` in some order, swapped exactly when `sm` is narrower. |
| `MergeMarsTerrain.LargeWithoutMedium` | scripts/merge-mars-terrain.py:146-150 | Widths exist for which the script writes a large tier but no base tier. |
| `MergeMarsTerrain.DerivedFlagsReadBack` | scripts/merge-mars-terrain.py:136-154 | Reading the flags back with `ReadFlags` from the written metadata gives the flags the script derived. |
| `Strings.IndexOf` | src/js/c4d/c4d-utils.js:33-34 | The first occurrence of a substring: it occurs there and nowhere earlier, or nowhere at all. |
| `Strings.ContainsIffIndexOf` | src/js/c4d/c4d-utils.js:33-34 | `includes` holds exactly when `indexOf` finds an occurrence. |
| `Strings.LastIndexOf` | src/js/c4d/c4d-utils.js:108 | The last position of a character, or -1 when it does not occur. |
| `Strings.DecimalRoundTrip` | scripts/merge-mars-terrain.py:40 | `str` of a natural number reads back as that number. |
| `Strings.ReadInt` | scripts/merge-mars-terrain.py:40 | A read integer comes from a non-empty text, and a negative one from text starting with `-`. |
| `Strings.IntRoundTrip` | scripts/merge-mars-terrain.py:40 | `str` of any integer holds no comma and reads back as that integer. |
| `C4DUtils.GetShortName` | src/js/c4d/c4d-utils.js:30-35 | The short name is a prefix of the name without the metadata tag: the whole name when the tag is absent, otherwise the part before the tag's first occurrence: it is followed by the tag, and no occurrence of the tag (even one overlapping the cut) starts inside it. |
| `C4DUtils.ShortNameIdempotent` | src/js/c4d/c4d-utils.js:30-35 | Shortening a short name changes nothing. |
| `C4DUtils.First` | src/js/c4d/c4d-utils.js:41-53 | The first match of a search is an element that satisfies the test, and there is none exactly when no element does. |
| `C4DUtils.FirstIsFirst` | src/js/c4d/c4d-utils.js:41-53 | The first match comes no later than any matching element. |
| `C4DUtils.GetObjectByShortName` | src/js/c4d/c4d-utils.js:41-53 | The depth-first search returns the first object in pre-order whose short name matches, or nothing. |
| `C4DUtils.GetChildWithType` | src/js/c4d/c4d-utils.js:59-71 | The depth-first search returns the first object in pre-order of the requested type, null for a null start and undefined when there is none. |
| `C4DUtils.PathToSelf` | src/js/c4d/c4d-utils.js:77-94 | The path from an object to itself is empty. |
| `C4DUtils.PathStep` | src/js/c4d/c4d-utils.js:77-94 | The path to an object is its parent's path followed by `/` and its name. |
| `C4DUtils.PathOfChild` | src/js/c4d/c4d-utils.js:77-94 | The path to a direct child is `/` and the child's name. |
| `C4DUtils.GetStringPathFromParent` | src/js/c4d/c4d-utils.js:77-94 | The walk up the parents yields the `/`-separated names from below `parent` down to the target. |
| `C4DUtils.PathToString` | src/js/c4d/c4d-utils.js:79-85 | The collected names are joined in reverse order without the last-collected one, each preceded by `/`. |
| `C4DUtils.TrackObjectName` | src/js/c4d/c4d-utils.js:108 | The object part of a track name is the text before its last `.`; with no `.` the last character is dropped. |
| `C4DUtils.ClipAnimates` | src/js/c4d/c4d-utils.js:103-113 | A clip is kept iff one of its tracks targets the object through its link-target metadata. |
| `C4DUtils.AnimatingIsFilter` | src/js/c4d/c4d-utils.js:100-116 | The kept clips are an order-preserving selection of the input, and a clip is kept iff it animates the object. |
| `C4DUtils.FindAnimationClipsForObject` | src/js/c4d/c4d-utils.js:100-116 | The result is exactly the clips that animate the object's short name, in input order. |
| `BetterRaycaster.FiltersPartition` | src/js/components/better-raycaster.js:319-344 | The prioritized and unprioritized elements together are exactly the intersected elements. |
| `BetterRaycaster.PriorityOrder` | src/js/components/better-raycaster.js:319-344 | The order is a permutation with every prioritized element first, sorted by descending priority, and the unprioritized ones after them in their original order. |
| `BetterRaycaster.Raycaster.SortIntersections` | src/js/components/better-raycaster.js:319-344 | The method's result, which is also the new element list, is `PriorityOrder` of the old list. |
| `BetterRaycaster.DownRecipientsShape` | src/js/components/better-raycaster.js:237-260 | The elements that get `cursor-down` are a prefix of the list that stops right after the first element that consumes the click. |
| `BetterRaycaster.UpRecipientsShape` | src/js/components/better-raycaster.js:262-288 | The elements that get `cursor-up` are attached elements of the list, none of which before the last consumes the click. |
| `BetterRaycaster.Attached` | src/js/components/better-raycaster.js:262-288 | An element is kept exactly when it is in the list and attached. |
| `BetterRaycaster.UpRecipientsOfAttached` | src/js/components/better-raycaster.js:262-288 | The `cursor-up` recipients are the `cursor-down` propagation run over the attached elements only: every attached element in order up to and including the first that consumes the click. |
| `BetterRaycaster.Raycaster.OnMouseDown` | src/js/components/better-raycaster.js:237-260 | Deactivated or already down: nothing happens; otherwise the button goes down with hold time 0, the raycaster emits `cursor-down`, and then exactly the down recipients get it, in order. |
| `BetterRaycaster.Raycaster.OnMouseUp` | src/js/components/better-raycaster.js:262-288 | Unless deactivated, the button goes up, `cursor-up` with the hold time is emitted by the raycaster and then to exactly the up recipients, in order, and the hold time is reset. |
| `BetterRaycaster.IsParentVisible` | src/js/components/better-raycaster.js:415-419 | An object with a parent counts as visible iff every ancestor is visible; a root answers its own visibility. |
| `BetterRaycaster.Raycaster.constructor` | src/js/components/better-raycaster.js:92-93 | Ticks are throttled to every third on mobile and not at all elsewhere. |
| `BetterRaycaster.Raycaster.IsTickThrottled` | src/js/components/better-raycaster.js:467-469 | The tick counter goes up by one and the tick is skipped unless the counter is a multiple of the increment; on desktop no tick is skipped. |
| `CardMeshes.NextAnimIn` | src/js/meshes/card-mesh.js:130-138 | The animation value stays in [0, 1], moves up while visible and down while hidden, and reaches the end once the step is long enough. |
| `CardMeshes.ScaledPositive` | src/js/meshes/card-mesh.js:117-138 | A forward tick of a positive duration always makes progress. |
| `CardMeshes.CardMesh.constructor` | src/js/meshes/card-mesh.js:33-65 | A new card is hidden, fully faded out, with no delay and no transition duration yet. |
| `CardMeshes.CardMesh.SetTimings` | src/js/meshes/card-mesh.js:89-93 | An omitted duration is 0.25 s and an omitted delay 0; the delay countdown starts exactly when the delay is non-zero. |
| `CardMeshes.CardMesh.Show` | src/js/meshes/card-mesh.js:75-80 | Showing a visible card does nothing; otherwise it takes the new timings, restarts the fade-in from 0 and becomes visible. |
| `CardMeshes.CardMesh.Hide` | src/js/meshes/card-mesh.js:82-87 | Hiding a hidden card does nothing; otherwise it takes the new timings, becomes hidden from where it is and re-arms `hide-complete`. |
| `CardMeshes.CardMesh.SetVisibility` | src/js/meshes/card-mesh.js:67-73 | Delegates to show or hide; a hide through here drops the delay, so it never waits. |
| `CardMeshes.CardMesh.Tick` | src/js/meshes/card-mesh.js:117-145 | While a delay runs only the countdown moves, and it goes down; otherwise the animation value moves by the scaled step within [0, 1] and `hide-complete` is emitted exactly once per hide, when the value has reached 0. |
| `CardMeshes.HiddenStaysFadedOut` | src/js/meshes/card-mesh.js:130-143 | A hidden card that has faded out stays faded out under further ticks. |
| `MathUtils.Clamp` | src/js/utils/math-utils.js:27-29 | The value is never above `max`, lies in `[min, max]` when that range is not empty, is unchanged when already inside, and is `max` when `min > max`. |
| `MathUtils.ClampIdempotent` | src/js/utils/math-utils.js:27-29 | Clamping twice is clamping once. |
| `MathUtils.Lerp` | src/js/utils/math-utils.js:34-36 | `a` at t = 0, `b` at t = 1, and between the ends for t in [0, 1]. |
| `MathUtils.LerpBetween` | src/js/utils/math-utils.js:34-36 | For t in [0, 1] the interpolated value lies between the ends. |
| `MathUtils.CubicDenominatorPositive` | src/js/utils/math-utils.js:40-41 | For a forward step the damping denominator is at least 1, so the division is defined. |
| `MathUtils.SmoothError` | src/js/utils/math-utils.js:42-44 | The error the step chases is the offset to the target limited to `smoothMax * smoothTime` either way, and the offset itself when within the limit. |
| `MathUtils.Smooth1D` | src/js/utils/math-utils.js:38-51 | On target and at rest the step stays put with zero velocity. |
| `MathUtils.SmoothAtRest` | src/js/utils/math-utils.js:38-51 | For a positive smoothing time and forward step, the step is defined and leaves a value at rest on its target. |
| `MathUtils.Smooth3D` | src/js/utils/math-utils.js:56-70 | Every component is smoothed on its own from the old components; velocities are written, then values; the target is untouched unless aliased. |
| `PlatformUtils.CardZOffset` | src/js/utils/platform-utils.js:118-127 | -1.75 in VR, -1.25 for 360 on desktop, -2 for 360 on a portrait phone and -1 for 360 on a landscape phone. |
| `PlatformUtils.CardZOffsetOrder` | src/js/utils/platform-utils.js:118-127 | Only a portrait phone in 360 mode places the card further away than VR mode does. |
| `PlatformUtils.IsEnabledOnPlatform` | src/js/utils/platform-utils.js:65-75 | `mobile-only` enables exactly on mobile and wins, `desktop-only` exactly off mobile, and neither means always. |
| `PlatformUtils.BothAttributesMeanMobile` | src/js/utils/platform-utils.js:65-75 | A component marked for both platforms is enabled exactly on mobile. |
| `PlatformUtils.GetControllerType` | src/js/utils/platform-utils.js:89-112 | A controller exactly when the first display presents and is not a Cardboard viewer; the name is that display's name when it presents, otherwise `other`, also when the query fails. |
| `InfoCardText.ParseText` | src/js/components/info-card-text.js:35-37 | Every `@s` becomes `;`, the text shrinks by one character per escape, and no escape is left. |
| `InfoCardText.ParseTextNoEscape` | src/js/components/info-card-text.js:35-37 | Text without an escape is left unchanged. |
| `InfoCardText.ParseTextIdempotent` | src/js/components/info-card-text.js:35-37 | Parsing twice is parsing once. |
| `InfoCardText.ParseTextEscape` | src/js/components/info-card-text.js:35-37 | Escaping every `;` as `@s` and parsing gives back the original text. |

## Left out

- **JPEG decoding.** `readJpeg` and the djpeg decoder are not part of this model. Their output bytes are an input of `JpegDecoder.DecoderWorker.OnMessage`.
- **Rendering and threads.** Uploading textures to the GPU, `ProgressiveTexture`'s own upload, the texture loader's network fetch, shaders, geometry and worker threads are not modelled. Their completions are the event methods the environment calls.
- **Texture identity.** Textures are values. A texture's `displayed` flag and its disposal are kept in the tile that owns the texture.
- **Scene side effects.** `loadInitialTextures` and the terrain component's scene handling are left out. The manager is assumed to start after the initial small textures have settled, with every tile idle.
- **Load errors.** There is no error event. A progressive upload that never completes leaves its tile `AwaitingDisplay`, and the manager stalls as the code does (see above). The initial small-texture loads of `loadInitialTextures` are not modelled, so a failed small fetch, which stops the manager from ever being built, is outside the model.
- `TileManagers.TileManager.constructor`: accepts tiles that have not been offered any size yet. The source builds the manager only after `loadInitialTextures` has offered every tile size 0, so the model's manager can issue a size-0 loader request that the source's manager never issues. It also requires the shared worker's host slot to be empty. The source does not guarantee this: on a site switch (`src/js/core/scene.js:470-474`), `unload` drops the old manager while its progressive upload may still hold the host slot, and the next site's manager is built at `src/js/core/scene.js:343-344` without waiting. The model cannot build that second manager, so it does not capture a new manager's first progressive dispatch overwriting a host that an old upload still holds. Finally, it requires every tile to have a base tier whenever it has a large one; the `Terrain.TileMesh.LoadNextTextureSize` line below says why and what the source does otherwise.
- **Dereference at `terrain.js:433`.** `loadNextTextureSize` reads `currentTexture.displayed` before it checks `currentTexture` for null. The model proves that the texture is always present there.
- `Terrain.TileMesh.LoadNextTextureSize`: requires `hasLargeSize ==> hasMediumSize`. This excludes an input the merge script can produce: `MergeMarsTerrain.LargeWithoutMedium` shows widths that give a large tier without a base tier. For such a tile, the size-2 load sets the worker's host (`src/js/components/terrain.js:445`) and starts the upload (line 457). Line 458 then writes `loadProxyMaterial.map`, but the load proxy exists only with a base tier (lines 367-378). The throw rejects the promise while the host slot stays filled. The model does not describe that path.
- **Raycaster input.** Ray casting, the camera, the DOM and the gaze cursor are left out. The raycaster's `deactivated` flag and the intersected elements are inputs.
- **Priority values.** The raycaster's priority attributes are taken as numbers; NaN is not modelled.
- **Self-emission payload.** The raycaster's own `cursor-down` carries the element list as payload (`src/js/components/better-raycaster.js:245`), which the model does not record. Its own `cursor-up` carries the hold time (lines 268-270), which the model records.
- `C4DUtils.GetStringPathFromParent`: the optional third argument `path`, an array the source appends to in place (`src/js/c4d/c4d-utils.js:77-93`), is not modelled. The walk always starts from an empty list, as at the only call site (`src/js/c4d/c4d-link-object.js:109`).
- **Metadata parsing.** `GetMetadataFromName` in `c4d-metadata.js` is not part of this model. `MergeMarsTerrain.ReadFlags` and `MergeMarsTerrain.ParseTileTexInfo` are readers of this model's own that stand in for it; nothing is proved about the viewer's parser. It is the `linkTarget` function parameter of `C4DUtils.FindAnimationClipsForObject`. `METADATA_TAG` is a parameter, assumed non-empty.
- `C4DUtils.GetShortName`: takes the name string; the branch that reads `obj.name` from an object is the caller's.
- **Card mesh numbers.** The easing curve, shader uniforms and mesh geometry are left out. `Infinity` and `NaN` are not modelled.
- `CardMeshes.CardMesh.Tick`: requires the transition duration to be set and non-zero. In JavaScript a tick before the first `setTimings`, or with a zero duration, computes with `NaN` or `Infinity`.
- `MathUtils.Smooth1D`: requires non-zero divisors. Beyond the at-rest case, its contract does not describe the damping dynamics.
- **Platform inputs.** Device checks, the window size, `Scene.modeType` and `navigator.getVRDisplays` are inputs. The callback of `getControllerType` becomes the returned pair.
- **Merge script I/O.** The script's Cinema 4D document I/O, bitmap loading and file listing in `main()` are left out. The texture widths are inputs of `MergeMarsTerrain.Derive`.
- `MergeMarsTerrain.Basename`, `MergeMarsTerrain.SplitExt`: follow POSIX `os.path` rules. On Windows, where Cinema 4D also runs, `os.path` is `ntpath`: `basename` also splits on `\` and after a drive colon, and the `normcase` at `scripts/merge-mars-terrain.py:71` lowercases file names. Neither is modelled.
- **Unicode normalisation.** `unicodeToASCII` is not modelled; file names are taken as already ASCII.
- **Splash screen and loaders.** The splash screen, the generic loaders and the composite generation script are outside the modelled core.
