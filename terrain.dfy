/**
 * A terrain tile and its texture tiers (`TileMesh` in the terrain component).
 *
 * Each call of `LoadNextTextureSize` moves the tile's size index one step up
 * (0 = small, 1 = base, 2 = large) and either resolves at once (the tier does
 * not exist for this tile or is already loaded) or starts one load: the small
 * tier through the plain texture loader, the base and large tiers as
 * progressive textures decoded by the shared worker, whose host slot the
 * tile fills while its load runs. When the load completes, the new texture is
 * put on the tile's material and the previous tier's texture is disposed.
 *
 * Textures are values here. A texture's mutable state that the tile looks at
 * (whether a progressive texture has been displayed, whether it was
 * disposed) is kept in the tile that owns it.
 */
module Terrain {
  import opened Wrappers
  import opened Vectors
  import opened JpegWorkers
  import JpegDecoder

  /** The named texture sizes, indexed by the tile's size index. */
  datatype SizeName = Small | Base | Large

  const TEXTURE_SIZES: seq<SizeName> := [Small, Base, Large]

  function SizeLabel(k: SizeName): string {
    match k
    case Small => "small"
    case Base => "base"
    case Large => "large"
  }

  /** File name suffixes of the texture sizes (`TEXTURE_SUFFIXES`). */
  const XSMALL_SUFFIX: string := "_xsm"
  const SMALL_SUFFIX: string := "_sm"
  const BASE_SUFFIX: string := ""
  const LARGE_SUFFIX: string := "_lg"

  /** On mobile only these four tiles may load the base (medium) texture. */
  const CENTER_TILE_IDS: seq<string> := ["03333333", "12222222", "21111111", "30000000"]

  const MAX_REACHED: string := "maximum size reached"
  const NO_MEDIUM: string := "medium size doesn't exist"
  const NO_LARGE: string := "large size doesn't exist"
  const ALREADY_LOADED: string := "texture is already loaded"

  /** The per-tile metadata the scene file carries for a tile node. */
  datatype TileMetadata = TileMetadata(
    id: string,
    size: int,
    xsmallPrefix: string,
    hasMediumSize: bool,
    hasLargeSize: bool)

  /**
   * A texture object: the empty `THREE.Texture` made for the small tier, a
   * `ProgressiveTexture` made for the base or large tier of a tile, or the
   * texture the texture loader delivers for a URL.
   */
  datatype Texture =
    | Placeholder(owner: TileMesh)
    | Progressive(owner: TileMesh, slot: SizeName, dimension: int)
    | Loaded(url: string)

  /** The shared decoder worker, whose host slot holds a progressive texture. */
  type Worker = StaticJPEGWorker<Texture, seq<JpegDecoder.byte>>

  /** What the promise of the last `LoadNextTextureSize` is still waiting for. */
  datatype Pending = Idle | AwaitingDisplay | AwaitingLoader(url: string)

  /** How a call of `LoadNextTextureSize` ended: resolved at once, or a load was started. */
  datatype LoadStart = Resolved(message: string) | Started(url: string)

  /** Whether the tile may load the base tier: on mobile, only the center tiles may. */
  function MediumEnabled(meta: TileMetadata, isMobile: bool): (r: bool)
    ensures r <==> meta.hasMediumSize && (!isMobile || meta.id in CENTER_TILE_IDS)
  {
    var isCenterTile := meta.id in CENTER_TILE_IDS;
    if isMobile && !isCenterTile then false else meta.hasMediumSize
  }

  /** Whether the tile may load the large tier: never on mobile. */
  function LargeEnabled(meta: TileMetadata, isMobile: bool): (r: bool)
    ensures r <==> meta.hasLargeSize && !isMobile
  {
    meta.hasLargeSize && !isMobile
  }

  /** File name suffix per size index: mobile has no entry for the large tier. */
  function SizePrefixes(xsmallPrefix: string, isMobile: bool): (r: seq<string>)
    ensures |r| == (if isMobile then 2 else 3)
    ensures r[0] == xsmallPrefix && r[1] == BASE_SUFFIX
    ensures !isMobile ==> r[2] == LARGE_SUFFIX
  {
    if isMobile then [xsmallPrefix, BASE_SUFFIX] else [xsmallPrefix, BASE_SUFFIX, LARGE_SUFFIX]
  }

  /** The URL of a tile's texture file. */
  function TileUrl(rootDirectory: string, id: string, prefix: string): string {
    rootDirectory + "tiles/" + id + prefix + ".jpg"
  }

  /** Under one root directory, the URL determines the tile id and suffix it was built from. */
  lemma TileUrlDetermines(root: string, id1: string, p1: string, id2: string, p2: string)
    requires TileUrl(root, id1, p1) == TileUrl(root, id2, p2)
    ensures id1 + p1 == id2 + p2
  {
    var u := TileUrl(root, id1, p1);
    var a := root + "tiles/";
    assert u == a + (id1 + p1) + ".jpg";
    assert u == a + (id2 + p2) + ".jpg";
    assert id1 + p1 == u[|a|..|u| - 4];
    assert id2 + p2 == u[|a|..|u| - 4];
  }

  /** The leading part of a file name before its first '_'. */
  function BeforeUnderscore(u: string): (r: string)
    ensures r <= u && '_' !in r
    ensures |r| < |u| ==> u[|r|] == '_'
  {
    if u == [] || u[0] == '_' then [] else [u[0]] + BeforeUnderscore(u[1..])
  }

  /** An id without '_' followed by an empty or '_'-led suffix is the part before the first '_'. */
  lemma {:induction false} BeforeUnderscoreConcat(id: string, suffix: string)
    requires '_' !in id && (suffix == [] || suffix[0] == '_')
    ensures BeforeUnderscore(id + suffix) == id
  {
    if id != [] {
      assert (id + suffix)[0] == id[0] && (id + suffix)[1..] == id[1..] + suffix;
      BeforeUnderscoreConcat(id[1..], suffix);
    } else {
      assert id + suffix == suffix;
    }
  }

  /**
   * When tile ids hold no '_' and every suffix in the size table is empty or
   * starts with '_' (as `TEXTURE_SUFFIXES` does: `_xsm`, `_sm`, `''`,
   * `_lg`), under one root directory the URL determines both the tile and
   * the suffix it was built from.
   */
  lemma TileUrlDeterminesTile(root: string, id1: string, p1: string, id2: string, p2: string)
    requires TileUrl(root, id1, p1) == TileUrl(root, id2, p2)
    requires '_' !in id1 && '_' !in id2
    requires p1 == [] || p1[0] == '_'
    requires p2 == [] || p2[0] == '_'
    ensures id1 == id2 && p1 == p2
  {
    TileUrlDetermines(root, id1, p1, id2, p2);
    BeforeUnderscoreConcat(id1, p1);
    BeforeUnderscoreConcat(id2, p2);
    assert p1 == (id1 + p1)[|id1|..];
    assert p2 == (id2 + p2)[|id2|..];
  }

  /** The size index after `current`: undefined becomes 0, any other value goes up by one. */
  function NextSize(current: Option<nat>): (n: nat)
    ensures current.Some? ==> n == current.value + 1
    ensures current.None? ==> n == 0
  {
    if current.None? then 0 else current.value + 1
  }

  /** The message a call resolves with at once because size `n` does not exist for the tile. */
  function SkipMessage(n: nat, hasMediumSize: bool, hasLargeSize: bool): (r: Option<string>)
    ensures r.None? <==> n <= 2 && (n == 1 ==> hasMediumSize) && (n == 2 ==> hasLargeSize)
    ensures n > 2 ==> r == Some(MAX_REACHED)
    ensures n == 1 && !hasMediumSize ==> r == Some(NO_MEDIUM)
    ensures n == 2 && !hasLargeSize ==> r == Some(NO_LARGE)
  {
    if n > 2 then Some(MAX_REACHED)
    else if n == 1 && !hasMediumSize then Some(NO_MEDIUM)
    else if n == 2 && !hasLargeSize then Some(NO_LARGE)
    else None
  }

  /** `texturesBySize[k]`: a missing key reads as `undefined`, which the code treats like null. */
  function Lookup(m: map<SizeName, Option<Texture>>, k: SizeName): Option<Texture> {
    if k in m then m[k] else None
  }

  function SizeIndex(k: SizeName): nat {
    match k
    case Small => 0
    case Base => 1
    case Large => 2
  }

  /** The sizes offered so far, 0, 1, ..., n - 1. */
  function Iota(n: nat): (r: seq<nat>)
    ensures |r| == n
    ensures forall k :: 0 <= k < n ==> r[k] == k
  {
    if n == 0 then [] else Iota(n - 1) + [n - 1]
  }

  class TileMesh {
    const id: string
    const center: Vec3
    const hasMediumSize: bool
    const hasLargeSize: bool
    const textureSizePrefixes: seq<string>
    /** Whether `loadProxyMaterial` (and its proxy mesh) exists. */
    const hasLoadProxy: bool
    /** `node.metadata.size`, the base texture's dimension. */
    const baseDimension: int
    /** Whether the tile's node has a child of type 'Mesh' (`this.mesh`). */
    const hasMesh: bool

    /** Textures by size name; a missing key is `undefined`, `None` a slot set to null. */
    var texturesBySize: map<SizeName, Option<Texture>>
    var currentSize: Option<nat>
    var currentTexture: Option<Texture>
    var previousTexture: Option<Texture>
    /** The map of the load proxy material. */
    var proxyMap: Option<Texture>
    /** The `terrainTex` uniform of the tile's material: the texture on screen. */
    var terrainTex: Option<Texture>
    /** Progressive textures whose upload has completed (their `displayed` flag). */
    var displayed: set<Texture>
    /** The textures `dispose()` was called on, in order. */
    var disposed: seq<Texture>
    /** The callback the last load registered and that has not run yet. */
    var pending: Pending
    /** Every size index this tile was asked to load, in order. */
    ghost var offered: seq<nat>

    /** A slot is there exactly when the tier exists, and is nulled only once the tile is past it. */
    ghost predicate SlotValid(k: SizeName, present: bool, tex: Texture)
      reads this
    {
      && (k in texturesBySize <==> present)
      && (k in texturesBySize ==>
            texturesBySize[k] == Some(tex)
            || (texturesBySize[k].None? && currentSize.Some? && currentSize.value > SizeIndex(k)))
    }

    ghost predicate Valid()
      reads this
    {
      && |textureSizePrefixes| >= 2
      && (hasLargeSize ==> |textureSizePrefixes| == 3)
      && hasLoadProxy == hasMediumSize
      && offered == Iota(|offered|)
      && currentSize == (if offered == [] then None else Some(|offered| - 1))
      && SlotValid(Small, true, Placeholder(this))
      && SlotValid(Base, hasMediumSize, Progressive(this, Base, baseDimension))
      && SlotValid(Large, hasLargeSize, Progressive(this, Large, 2 * baseDimension))
      && (pending != Idle ==>
            && currentSize.Some? && SkipMessage(currentSize.value, hasMediumSize, hasLargeSize).None?
            && previousTexture == (if currentSize.value == 0 then None
                                   else Lookup(texturesBySize, TEXTURE_SIZES[currentSize.value - 1]))
            && currentTexture == Lookup(texturesBySize, TEXTURE_SIZES[currentSize.value])
            && currentTexture.Some?)
      && (pending == AwaitingDisplay ==> currentTexture.value.Progressive? && hasLoadProxy)
      && (pending.AwaitingLoader? ==> currentTexture.value.Placeholder?)
    }

    /**
     * Capability gating: mobile never loads the large tier and loads the
     * base tier only on the center tiles; a base progressive texture exists
     * iff the base tier does, a large one, of twice the dimension, iff the
     * large tier does; the load proxy exists iff the base tier does.
     */
    constructor (meta: TileMetadata, center: Vec3, hasMesh: bool, isMobile: bool)
      ensures Valid()
      ensures id == meta.id && this.center == center && baseDimension == meta.size
      ensures this.hasMesh == hasMesh
      ensures hasMediumSize == MediumEnabled(meta, isMobile)
      ensures hasLargeSize == LargeEnabled(meta, isMobile)
      ensures textureSizePrefixes == SizePrefixes(meta.xsmallPrefix, isMobile)
      ensures hasLoadProxy == hasMediumSize
      ensures texturesBySize[Small] == Some(Placeholder(this))
      ensures Base in texturesBySize <==> hasMediumSize
      ensures hasMediumSize ==> texturesBySize[Base] == Some(Progressive(this, Base, meta.size))
      ensures Large in texturesBySize <==> hasLargeSize
      ensures hasLargeSize ==> texturesBySize[Large] == Some(Progressive(this, Large, meta.size * 2))
      ensures proxyMap == (if hasMediumSize then Some(Progressive(this, Base, meta.size)) else None)
      ensures currentSize == None && currentTexture == None && previousTexture == None
      ensures terrainTex == None && displayed == {} && disposed == [] && pending == Idle && offered == []
    {
      id := meta.id;
      this.center := center;
      this.hasMesh := hasMesh;
      baseDimension := meta.size;
      var isCenterTile := meta.id in CENTER_TILE_IDS;
      var medium := meta.hasMediumSize;
      var large := meta.hasLargeSize && !isMobile;
      if isMobile && !isCenterTile {
        medium := false;
      }
      hasMediumSize := medium;
      hasLargeSize := large;
      textureSizePrefixes := if isMobile then [meta.xsmallPrefix, BASE_SUFFIX]
                             else [meta.xsmallPrefix, BASE_SUFFIX, LARGE_SUFFIX];
      hasLoadProxy := medium;
      currentSize := None;
      currentTexture := None;
      previousTexture := None;
      terrainTex := None;
      displayed := {};
      disposed := [];
      pending := Idle;
      offered := [];
      new;
      texturesBySize := map[Small := Some(Placeholder(this))];
      if medium {
        texturesBySize := texturesBySize[Base := Some(Progressive(this, Base, meta.size))];
      }
      if large && !isMobile {
        texturesBySize := texturesBySize[Large := Some(Progressive(this, Large, meta.size * 2))];
      }
      proxyMap := if medium then Lookup(texturesBySize, Base) else None;
    }

    /**
     * `loadNextTextureSize`: advances the size index by exactly one and then
     * resolves at once when the size does not exist or its texture is already
     * loaded, or starts loading the size's file. A progressive load installs
     * its texture as the worker's host; a small-tier load goes through the
     * plain texture loader and leaves the host alone.
     */
    method LoadNextTextureSize(worker: Worker, rootDirectory: string) returns (r: LoadStart)
      requires Valid() && pending == Idle
      requires hasLargeSize ==> hasMediumSize
      modifies this, worker
      ensures Valid()
      ensures currentSize == Some(NextSize(old(currentSize)))
      ensures offered == old(offered) + [NextSize(old(currentSize))]
      ensures texturesBySize == old(texturesBySize) && displayed == old(displayed)
      ensures disposed == old(disposed) && terrainTex == old(terrainTex)
      ensures worker.deliveries == old(worker.deliveries)
      ensures var n := NextSize(old(currentSize));
        SkipMessage(n, hasMediumSize, hasLargeSize).Some? ==>
          && r == Resolved(SkipMessage(n, hasMediumSize, hasLargeSize).value)
          && pending == Idle && worker.host == old(worker.host)
          && currentTexture == old(currentTexture) && previousTexture == old(previousTexture)
          && proxyMap == old(proxyMap)
      ensures var n := NextSize(old(currentSize));
        SkipMessage(n, hasMediumSize, hasLargeSize).None? ==>
          && previousTexture == (if n == 0 then None else Lookup(texturesBySize, TEXTURE_SIZES[n - 1]))
          && currentTexture == Lookup(texturesBySize, TEXTURE_SIZES[n])
          && currentTexture.Some?
          && var url := TileUrl(rootDirectory, id, textureSizePrefixes[n]);
          && (currentTexture.value.Progressive? && currentTexture.value in displayed ==>
                r == Resolved(ALREADY_LOADED) && pending == Idle
                && worker.host == old(worker.host) && proxyMap == old(proxyMap))
          && (currentTexture.value.Progressive? && currentTexture.value !in displayed ==>
                r == Started(url) && pending == AwaitingDisplay
                && worker.host == currentTexture && proxyMap == currentTexture)
          && (!currentTexture.value.Progressive? && currentTexture.value.Loaded? ==>
                r == Resolved(ALREADY_LOADED) && pending == Idle
                && worker.host == old(worker.host) && proxyMap == old(proxyMap))
          && (!currentTexture.value.Progressive? && !currentTexture.value.Loaded? ==>
                r == Started(url) && pending == AwaitingLoader(url)
                && worker.host == old(worker.host) && proxyMap == old(proxyMap))
    {
      var n := NextSize(currentSize);
      currentSize := Some(n);
      offered := offered + [n];

      var skip := SkipMessage(n, hasMediumSize, hasLargeSize);
      if skip.Some? {
        return Resolved(skip.value);
      }

      r := StartTier(n, worker, rootDirectory);
    }

    /**
     * The part of `loadNextTextureSize` past the skip checks: the two-slot
     * hand-off picks the tier below as the previous texture and tier `n` as
     * the current one; an already loaded texture resolves at once, otherwise
     * the load starts (a progressive one through the host slot).
     */
    method StartTier(n: nat, worker: Worker, rootDirectory: string) returns (r: LoadStart)
      requires Valid() && pending == Idle
      requires hasLargeSize ==> hasMediumSize
      requires currentSize == Some(n) && SkipMessage(n, hasMediumSize, hasLargeSize).None?
      modifies this`previousTexture, this`currentTexture, this`pending, this`proxyMap, worker
      ensures Valid()
      ensures worker.deliveries == old(worker.deliveries)
      ensures previousTexture == (if n == 0 then None else Lookup(texturesBySize, TEXTURE_SIZES[n - 1]))
      ensures currentTexture == Lookup(texturesBySize, TEXTURE_SIZES[n])
      ensures currentTexture.Some?
      ensures var url := TileUrl(rootDirectory, id, textureSizePrefixes[n]);
        && (currentTexture.value.Progressive? && currentTexture.value in displayed ==>
              r == Resolved(ALREADY_LOADED) && pending == Idle
              && worker.host == old(worker.host) && proxyMap == old(proxyMap))
        && (currentTexture.value.Progressive? && currentTexture.value !in displayed ==>
              r == Started(url) && pending == AwaitingDisplay
              && worker.host == currentTexture && proxyMap == currentTexture)
        && (!currentTexture.value.Progressive? && currentTexture.value.Loaded? ==>
              r == Resolved(ALREADY_LOADED) && pending == Idle
              && worker.host == old(worker.host) && proxyMap == old(proxyMap))
        && (!currentTexture.value.Progressive? && !currentTexture.value.Loaded? ==>
              r == Started(url) && pending == AwaitingLoader(url)
              && worker.host == old(worker.host) && proxyMap == old(proxyMap))
    {
      previousTexture := if n > 0 then Lookup(texturesBySize, TEXTURE_SIZES[n - 1]) else None;
      currentTexture := Lookup(texturesBySize, TEXTURE_SIZES[n]);
      var url := TileUrl(rootDirectory, id, textureSizePrefixes[n]);

      var texture := currentTexture.value;
      if texture.Progressive? {
        if texture in displayed {
          return Resolved(ALREADY_LOADED);
        }
        worker.host := Some(texture);
        pending := AwaitingDisplay;
        proxyMap := Some(texture);
        r := Started(url);
      } else {
        if texture.Loaded? {
          return Resolved(ALREADY_LOADED);
        }
        pending := AwaitingLoader(url);
        r := Started(url);
      }
    }

    /**
     * The `onDisplayComplete` callback of a progressive load: the texture
     * has been uploaded; the host slot is released, the texture goes onto the
     * material and the previous tier is disposed.
     */
    method OnDisplayComplete(worker: Worker) returns (message: string)
      requires Valid() && pending == AwaitingDisplay
      modifies this, worker
      ensures Valid() && pending == Idle
      ensures worker.host == None && worker.deliveries == old(worker.deliveries)
      ensures displayed == old(displayed) + {old(currentTexture).value}
      ensures currentTexture == old(currentTexture)
      ensures terrainTex == (if hasMesh then currentTexture else old(terrainTex))
      ensures currentSize == old(currentSize) && offered == old(offered)
      ensures message == "success: size = " + SizeLabel(TEXTURE_SIZES[currentSize.value])
      ensures PreviousDisposed(old(previousTexture), old(texturesBySize), old(disposed), old(proxyMap))
    {
      displayed := displayed + {currentTexture.value};
      worker.host := None;
      UpdateMaterialTexture();
      DestroyPreviousTexture();
      pending := Idle;
      message := "success: size = " + SizeLabel(TEXTURE_SIZES[currentSize.value]);
    }

    /**
     * The texture loader's callback for a small-tier load: the delivered
     * texture becomes the current one and goes onto the material, and the
     * previous tier is disposed.
     */
    method OnTextureLoaded() returns (message: string)
      requires Valid() && pending.AwaitingLoader?
      modifies this
      ensures Valid() && pending == Idle
      ensures currentTexture == Some(Loaded(old(pending).url))
      ensures terrainTex == (if hasMesh then currentTexture else old(terrainTex))
      ensures displayed == old(displayed)
      ensures currentSize == old(currentSize) && offered == old(offered)
      ensures message == "success: size = " + SizeLabel(TEXTURE_SIZES[currentSize.value])
      ensures PreviousDisposed(old(previousTexture), old(texturesBySize), old(disposed), old(proxyMap))
    {
      currentTexture := Some(Loaded(pending.url));
      UpdateMaterialTexture();
      DestroyPreviousTexture();
      pending := Idle;
      message := "success: size = " + SizeLabel(TEXTURE_SIZES[currentSize.value]);
    }

    /**
     * The two-slot hand-off after a successful swap: with no previous
     * texture nothing changed; otherwise it was disposed, the slot of the
     * tier below the current one and the proxy map were nulled, and
     * `previousTexture` was cleared.
     */
    ghost predicate PreviousDisposed(
      previous0: Option<Texture>,
      textures0: map<SizeName, Option<Texture>>,
      disposed0: seq<Texture>,
      proxyMap0: Option<Texture>)
      reads this
      requires currentSize.Some? && 1 <= currentSize.value + 1 <= 3
    {
      && previousTexture == None
      && (previous0.None? ==>
            texturesBySize == textures0 && disposed == disposed0 && proxyMap == proxyMap0)
      && (previous0.Some? ==>
            && currentSize.value >= 1
            && disposed == disposed0 + [previous0.value]
            && texturesBySize == textures0[TEXTURE_SIZES[currentSize.value - 1] := None]
            && proxyMap == None)
    }

    /** `updateMaterialTexture`: the current texture goes onto the tile's material, if it has a mesh. */
    method UpdateMaterialTexture()
      modifies this`terrainTex
      ensures terrainTex == (if hasMesh then currentTexture else old(terrainTex))
    {
      if !hasMesh {
        return;
      }
      terrainTex := currentTexture;
    }

    /** `destroyPreviousTexture` */
    method DestroyPreviousTexture()
      requires previousTexture.Some? ==> currentSize.Some? && 1 <= currentSize.value <= 3 && hasLoadProxy
      modifies this`previousTexture, this`disposed, this`proxyMap, this`texturesBySize
      ensures previousTexture == None
      ensures old(previousTexture).None? ==>
        texturesBySize == old(texturesBySize) && disposed == old(disposed) && proxyMap == old(proxyMap)
      ensures old(previousTexture).Some? ==>
        && disposed == old(disposed) + [old(previousTexture).value]
        && texturesBySize == old(texturesBySize)[TEXTURE_SIZES[currentSize.value - 1] := None]
        && proxyMap == None
    {
      if previousTexture.None? {
        return;
      }
      disposed := disposed + [previousTexture.value];
      previousTexture := None;
      proxyMap := None;
      texturesBySize := texturesBySize[TEXTURE_SIZES[currentSize.value - 1] := None];
    }
  }
}
