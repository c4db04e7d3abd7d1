/**
 * The tile scheduler (`TileManager`): it keeps the tiles ordered by distance
 * and asks one tile at a time to load its next texture size. The next tile is
 * asked only when the previous tile's load promise settles, so at most one
 * load is in flight. When the queue runs dry it is refilled from the full
 * list once more, so that every tile goes up two sizes after the initial one.
 *
 * The promise callbacks are the events `OnLoadSettled`, `OnTileDisplayComplete`,
 * `OnTileTextureLoaded` and `OnWorkerReply`, which the environment calls in
 * any order their preconditions allow.
 */
module TileManagers {
  import opened Wrappers
  import opened Vectors
  import opened Sorting
  import opened JpegWorkers
  import opened Terrain
  import JpegDecoder

  /** The effect of one `updateNextTile`: the tile dispatched (if any), the new queue and size. */
  datatype Step<T> = Step(dispatched: Option<T>, queue: seq<T>, size: int)

  /**
   * `updateNextTile` on a queue and round counter: shift the head off the
   * queue; when there is none, bump the counter and, while it is below 2,
   * refill the queue from `tiles` and try again.
   */
  function Advance<T>(queue: seq<T>, size: int, tiles: seq<T>): (st: Step<T>)
    requires size >= 0
    ensures st.dispatched.None? ==> st.queue == [] && st.size >= 2
    ensures st.dispatched.Some? && size < 2 ==> st.size < 2
    ensures size < 2 ==> st.size <= 2
    ensures queue != [] ==> st.dispatched == Some(queue[0]) && st.queue == queue[1..] && st.size == size
    decreases if size < 2 then 2 - size else 0
  {
    if queue != [] then Step(Some(queue[0]), queue[1..], size)
    else if size + 1 < 2 then Advance(tiles, size + 1, tiles)
    else Step(None, [], size + 1)
  }

  function Dispatched<T>(st: Step<T>): seq<T> {
    if st.dispatched.Some? then [st.dispatched.value] else []
  }

  /** The dispatches still owed: the queue, plus one more pass over `tiles` if round 0 is running. */
  function Owed<T>(queue: seq<T>, size: int, tiles: seq<T>): multiset<T> {
    multiset(queue) + (if size < 1 then multiset(tiles) else multiset{})
  }

  /** One step dispatches exactly one of the owed tiles, or none when nothing is owed. */
  lemma {:induction false} AdvanceAccounts<T>(queue: seq<T>, size: int, tiles: seq<T>)
    requires size >= 0
    ensures multiset(Dispatched(Advance(queue, size, tiles)))
              + Owed(Advance(queue, size, tiles).queue, Advance(queue, size, tiles).size, tiles)
            == Owed(queue, size, tiles)
    decreases if size < 2 then 2 - size else 0
  {
    if queue != [] {
      assert queue == [queue[0]] + queue[1..];
    } else if size + 1 < 2 {
      AdvanceAccounts(tiles, size + 1, tiles);
    }
  }

  /** When nothing more is dispatched, nothing is owed. */
  lemma AdvanceDoneOwesNothing<T>(queue: seq<T>, size: int, tiles: seq<T>)
    requires size >= 0
    requires Advance(queue, size, tiles).dispatched.None?
    ensures Owed(queue, size, tiles) == multiset{}
  {
    AdvanceAccounts(queue, size, tiles);
  }

  /** With nothing queued and nothing to refill from, `updateNextTile` dispatches nothing and ends the rounds. */
  lemma {:induction false} AdvanceEmpty<T>(size: int)
    requires 0 <= size < 2
    ensures Advance<T>([], size, []) == Step(None, [], 2)
    decreases 2 - size
  {
    if size + 1 < 2 {
      AdvanceEmpty<T>(size + 1);
    }
  }

  /** After round 0 every tile has been dispatched once, which is what round 1 starts from. */
  lemma RefillAccounts<T>(log: seq<T>, tiles: seq<T>)
    requires multiset(log) + Owed([], 0, tiles) == multiset(tiles) + multiset(tiles)
    ensures multiset(log) + Owed(tiles, 1, tiles) == multiset(tiles) + multiset(tiles)
  {
  }

  /** Appending `x` to the log counts one more `x` and nothing else. */
  lemma LogCount<T>(log: seq<T>, x: T)
    ensures forall t :: multiset(log + [x])[t] == multiset(log)[t] + (if t == x then 1 else 0)
  {
  }

  /** Moving the head of the queue to the log keeps the total of dispatched and owed. */
  lemma ShiftAccounts<T>(log: seq<T>, queue: seq<T>, size: int, tiles: seq<T>)
    requires queue != []
    ensures multiset(log + [queue[0]]) + Owed(queue[1..], size, tiles) == multiset(log) + Owed(queue, size, tiles)
  {
    assert queue == [queue[0]] + queue[1..];
  }

  /** The initial order: ascending squared distance of the tile's center from the origin. */
  function OriginDistance(t: TileMesh): real {
    LengthSq(t.center)
  }

  class TileManager {
    var tiles: seq<TileMesh>
    /** `tilesForTextureUpdate`: the tiles not yet dispatched in this round. */
    var queue: seq<TileMesh>
    /** `currentlyUpdatingTile`: `None` stands for both undefined and null. */
    var current: Option<TileMesh>
    var size: int
    /** The shared decoder worker (`JPEGWorker`). */
    const worker: Worker
    /** `Scene.rootDirectory` */
    const rootDirectory: string

    /** Every tile the manager was built with. */
    ghost const meshes: set<TileMesh>
    /** The tile list in the order the constructor sorted it. */
    ghost const sortedTiles: seq<TileMesh>
    /** How many sizes each tile had been offered before the manager existed. */
    ghost const initialOffered: map<TileMesh, nat>
    /** The tile whose load promise has not settled yet, if any. */
    ghost var awaiting: Option<TileMesh>
    /** Every tile dispatched so far, in order. */
    ghost var dispatchLog: seq<TileMesh>
    ghost var unloaded: bool

    /**
     * The tiles' side of the invariant, for dispatch log `log` and awaited
     * tile `aw`: every tile is well formed, only the awaited tile may have a
     * load running (single flight), and every size a tile was offered since
     * the manager exists is accounted for by a dispatch.
     */
    ghost predicate TilesOk(log: seq<TileMesh>, aw: Option<TileMesh>)
      reads meshes
    {
      && (aw.Some? ==> aw.value in meshes)
      && (forall t :: t in meshes ==> t.Valid() && (t.hasLargeSize ==> t.hasMediumSize))
      && (forall t :: t in meshes && Some(t) != aw ==> t.pending == Idle)
      && (forall t :: t in meshes ==>
            t in initialOffered && |t.offered| == initialOffered[t] + multiset(log)[t])
    }

    /** The host slot is filled exactly while the awaited tile waits for its display, with its texture. */
    ghost predicate HostOk(aw: Option<TileMesh>)
      reads meshes, worker
    {
      && (worker.host.Some? ==>
            aw.Some? && aw.value in meshes && aw.value.pending == AwaitingDisplay)
      && (aw.Some? && aw.value in meshes && aw.value.pending == AwaitingDisplay ==>
            worker.host == aw.value.currentTexture)
    }

    /**
     * The scheduler's own side of the invariant, for the state in which the
     * queue is `q`: between events `q` is the queue, and when `reset` is
     * called it is the list about to be copied into the queue. Every dispatch
     * made plus every dispatch still owed is two per tile.
     */
    ghost predicate QueueOk(q: seq<TileMesh>)
      reads this
    {
      && (forall t :: t in sortedTiles ==> t in meshes)
      && (forall t :: t in q ==> t in meshes)
      && 0 <= size <= 2
      && (size == 2 ==> q == [])
      && (!unloaded ==>
            tiles == sortedTiles
            && multiset(dispatchLog) + Owed(q, size, tiles)
               == multiset(sortedTiles) + multiset(sortedTiles))
      && (unloaded ==> tiles == [] && q == [])
    }

    ghost predicate Consistent(q: seq<TileMesh>)
      reads this, meshes, worker
    {
      QueueOk(q) && TilesOk(dispatchLog, awaiting) && HostOk(awaiting)
    }

    /**
     * Between events: a load is in flight exactly until the second round is
     * over, and `currentlyUpdatingTile`, when set, is the tile awaited.
     */
    ghost predicate Valid()
      reads this, meshes, worker
    {
      && Consistent(queue)
      && (current.Some? ==> current == awaiting)
      && (awaiting.None? <==> size == 2)
    }

    /**
     * Sorts the tiles by squared distance from the origin, queues them in
     * that order and dispatches the first. `loadInitialTextures` has run and
     * settled before, so every tile is idle. The shared worker's host slot is
     * taken to be empty; a previous manager's unfinished upload can still
     * hold it, and that case is not covered here.
     */
    constructor (tiles0: seq<TileMesh>, worker: Worker, rootDirectory: string)
      requires forall t :: t in tiles0 ==> t.Valid() && t.pending == Idle
      requires forall t :: t in tiles0 ==> (t.hasLargeSize ==> t.hasMediumSize)
      requires worker.host == None
      modifies (set t | t in tiles0), worker
      ensures Valid() && !unloaded
      ensures SortedBy(tiles, OriginDistance) && multiset(tiles) == multiset(tiles0)
      ensures tiles != [] ==>
        current == Some(tiles[0]) && queue == tiles[1..] && dispatchLog == [tiles[0]] && size == 0
      ensures tiles == [] ==> current == None && queue == [] && dispatchLog == [] && size == 2
    {
      var sorted := SortBy(tiles0, OriginDistance);
      tiles := sorted;
      size := 0;
      queue := sorted;
      current := None;
      this.worker := worker;
      this.rootDirectory := rootDirectory;
      meshes := set t | t in tiles0;
      sortedTiles := sorted;
      initialOffered := map t | t in tiles0 :: |t.offered|;
      awaiting := None;
      dispatchLog := [];
      unloaded := false;
      new;
      InitialConsistent(tiles0);
      Start();
    }

    /** The freshly built manager: nothing dispatched, nothing awaited, all tiles owed twice. */
    lemma InitialConsistent(tiles0: seq<TileMesh>)
      requires forall t :: t in tiles0 ==> t.Valid() && t.pending == Idle
      requires forall t :: t in tiles0 ==> (t.hasLargeSize ==> t.hasMediumSize)
      requires worker.host == None
      requires meshes == set t | t in tiles0
      requires initialOffered == map t | t in tiles0 :: |t.offered|
      requires multiset(sortedTiles) == multiset(tiles0)
      requires tiles == sortedTiles && queue == sortedTiles && size == 0
      requires awaiting == None && dispatchLog == [] && !unloaded
      ensures Consistent(queue)
    {
      assert forall t :: t in sortedTiles ==> t in multiset(tiles0);
      assert QueueOk(queue);
      assert TilesOk([], None);
    }

    /** The constructor's call of `updateNextTile` on the freshly sorted list. */
    method Start()
      requires Consistent(queue) && awaiting.None? && size == 0 && queue == tiles
      requires dispatchLog == [] && !unloaded
      modifies this, meshes, worker
      ensures Valid() && !unloaded && tiles == old(tiles)
      ensures tiles != [] ==>
        current == Some(tiles[0]) && queue == tiles[1..] && dispatchLog == [tiles[0]] && size == 0
      ensures tiles == [] ==> current == None && queue == [] && dispatchLog == [] && size == 2
    {
      UpdateNextTile();
    }

    /**
     * `updateNextTile`: the state after it is given by `Advance`; the
     * dispatched tile, if any, is asked for its next size and is the one
     * awaited from then on; no other tile is touched.
     */
    method UpdateNextTile()
      requires Consistent(queue) && awaiting.None? && size < 2
      modifies this, meshes, worker
      ensures Valid()
      ensures var st := Advance(old(queue), old(size), old(tiles));
        && current == st.dispatched && awaiting == st.dispatched
        && queue == st.queue && size == st.size
        && dispatchLog == old(dispatchLog) + Dispatched(st)
      ensures tiles == old(tiles) && unloaded == old(unloaded)
      ensures worker.deliveries == old(worker.deliveries)
      decreases if size < 2 then 2 - size else 0, 2
    {
      if queue != [] {
        DispatchHead();
      } else {
        EndRound();
      }
    }

    /** The queue has run dry: the round counter goes up and, below 2, the queue is refilled. */
    method EndRound()
      requires Consistent(queue) && awaiting.None? && size < 2 && queue == []
      modifies this, meshes, worker
      ensures Valid()
      ensures var st := Advance([], old(size), old(tiles));
        && current == st.dispatched && awaiting == st.dispatched
        && queue == st.queue && size == st.size
        && dispatchLog == old(dispatchLog) + Dispatched(st)
      ensures tiles == old(tiles) && unloaded == old(unloaded)
      ensures worker.deliveries == old(worker.deliveries)
      decreases if size < 2 then 2 - size else 0, 1
    {
      if size + 1 < 2 {
        StartSecondRound();
      } else {
        current, size := None, size + 1;
      }
    }

    /** Round 0 is over: round 1 starts over the full list. */
    method StartSecondRound()
      requires Consistent(queue) && awaiting.None? && size == 0 && queue == []
      modifies this, meshes, worker
      ensures Valid()
      ensures var st := Advance(old(tiles), 1, old(tiles));
        && current == st.dispatched && awaiting == st.dispatched
        && queue == st.queue && size == st.size
        && dispatchLog == old(dispatchLog) + Dispatched(st)
      ensures tiles == old(tiles) && unloaded == old(unloaded)
      ensures worker.deliveries == old(worker.deliveries)
      decreases 2 - size, 0
    {
      current, size := None, 1;
      if !unloaded {
        RefillAccounts(dispatchLog, sortedTiles);
      }
      Reset();
    }

    /** The head of the queue is shifted off, asked for its next size and awaited. */
    method DispatchHead()
      requires Consistent(queue) && awaiting.None? && size < 2 && queue != []
      modifies this`queue, this`current, this`awaiting, this`dispatchLog, queue[0], worker
      ensures Valid()
      ensures current == Some(old(queue)[0]) && awaiting == current
      ensures queue == old(queue)[1..] && dispatchLog == old(dispatchLog) + [old(queue)[0]]
      ensures var t := old(queue)[0]; t.offered == old(t.offered) + [NextSize(old(t.currentSize))]
      ensures worker.deliveries == old(worker.deliveries)
    {
      var tile := queue[0];
      ghost var log := dispatchLog;
      ShiftAccounts(dispatchLog, queue, size, tiles);
      queue, current := queue[1..], Some(tile);
      awaiting, dispatchLog := Some(tile), dispatchLog + [tile];
      StartLoad(tile, log);
    }

    /**
     * `currentlyUpdatingTile.loadNextTextureSize()`, once the tile has been
     * shifted off the queue and logged: the tile becomes the awaited one,
     * and the host slot ends up filled exactly when it waits for a
     * progressive texture.
     */
    method StartLoad(tile: TileMesh, ghost log: seq<TileMesh>)
      requires QueueOk(queue) && 0 <= size < 2
      requires current == Some(tile) && awaiting == Some(tile) && dispatchLog == log + [tile]
      requires TilesOk(log, None) && HostOk(None) && tile in meshes
      modifies tile, worker
      ensures Valid()
      ensures tile.offered == old(tile.offered) + [NextSize(old(tile.currentSize))]
      ensures worker.deliveries == old(worker.deliveries)
    {
      var _ := tile.LoadNextTextureSize(worker, rootDirectory);
      forall t | t in meshes
        ensures t in initialOffered && |t.offered| == initialOffered[t] + multiset(log + [tile])[t]
      {
        assert multiset(log + [tile])[t] == multiset(log)[t] + (if t == tile then 1 else 0);
      }
    }

    /** `reset`: refill the queue from the full tile list and continue. */
    method Reset()
      requires Consistent(tiles) && awaiting.None? && size < 2
      modifies this, meshes, worker
      ensures Valid()
      ensures var st := Advance(old(tiles), old(size), old(tiles));
        && current == st.dispatched && awaiting == st.dispatched
        && queue == st.queue && size == st.size
        && dispatchLog == old(dispatchLog) + Dispatched(st)
      ensures tiles == old(tiles) && unloaded == old(unloaded)
      ensures worker.deliveries == old(worker.deliveries)
      decreases if size < 2 then 2 - size else 0, 3
    {
      queue := tiles;
      UpdateNextTile();
    }

    /**
     * The awaited tile's load promise settles (resolved or rejected, both
     * callbacks do the same): the next tile is dispatched.
     */
    method OnLoadSettled()
      requires Valid() && awaiting.Some? && awaiting.value.pending == Idle
      modifies this, meshes, worker
      ensures Valid()
      ensures var st := Advance(old(queue), old(size), old(tiles));
        && current == st.dispatched && awaiting == st.dispatched
        && queue == st.queue && size == st.size
        && dispatchLog == old(dispatchLog) + Dispatched(st)
      ensures tiles == old(tiles) && unloaded == old(unloaded)
      ensures old(unloaded) ==>
        current == None && awaiting == None && size == 2 && dispatchLog == old(dispatchLog)
    {
      assert TilesOk(dispatchLog, None) && HostOk(None);
      if unloaded {
        AdvanceEmpty<TileMesh>(size);
      }
      awaiting := None;
      UpdateNextTile();
    }

    /**
     * The progressive texture the awaited `tile` is waiting for finished its
     * upload: the tile's own completion runs (material, disposal, message)
     * and the scheduler invariant is kept, with the host slot released.
     */
    method OnTileDisplayComplete(tile: TileMesh) returns (message: string)
      requires Valid() && awaiting == Some(tile) && tile.pending == AwaitingDisplay
      modifies tile, worker
      ensures Valid() && tile.pending == Idle && worker.host == None
      ensures tile.currentSize == old(tile.currentSize) && tile.currentTexture == old(tile.currentTexture)
      ensures tile.displayed == old(tile.displayed) + {old(tile.currentTexture).value}
      ensures tile.terrainTex == (if tile.hasMesh then tile.currentTexture else old(tile.terrainTex))
      ensures message == "success: size = " + SizeLabel(TEXTURE_SIZES[tile.currentSize.value])
      ensures tile.PreviousDisposed(old(tile.previousTexture), old(tile.texturesBySize), old(tile.disposed), old(tile.proxyMap))
    {
      message := tile.OnDisplayComplete(worker);
      forall t | t in meshes
        ensures t in initialOffered && |t.offered| == initialOffered[t] + multiset(dispatchLog)[t]
      {
      }
    }

    /**
     * The texture loader delivered the small texture the awaited `tile` is
     * waiting for: the tile's own completion runs (material, disposal,
     * message) and the scheduler invariant is kept.
     */
    method OnTileTextureLoaded(tile: TileMesh) returns (message: string)
      requires Valid() && awaiting == Some(tile) && tile.pending.AwaitingLoader?
      modifies tile
      ensures Valid() && tile.pending == Idle
      ensures tile.currentSize == old(tile.currentSize)
      ensures tile.currentTexture == Some(Loaded(old(tile.pending).url))
      ensures tile.terrainTex == (if tile.hasMesh then tile.currentTexture else old(tile.terrainTex))
      ensures message == "success: size = " + SizeLabel(TEXTURE_SIZES[tile.currentSize.value])
      ensures tile.PreviousDisposed(old(tile.previousTexture), old(tile.texturesBySize), old(tile.disposed), old(tile.proxyMap))
    {
      message := tile.OnTextureLoaded();
      forall t | t in meshes
        ensures t in initialOffered && |t.offered| == initialOffered[t] + multiset(dispatchLog)[t]
      {
      }
    }

    /**
     * The decoder worker posts a decoded image back: it is delivered to the
     * texture in the host slot, which is always the progressive texture the
     * awaited tile is waiting for, and to no one while no upload is waited for.
     */
    method OnWorkerReply(event: seq<JpegDecoder.byte>) returns (recipient: Option<Texture>)
      requires Valid()
      modifies worker
      ensures Valid()
      ensures recipient.Some? <==> awaiting.Some? && awaiting.value.pending == AwaitingDisplay
      ensures recipient.Some? ==> recipient == awaiting.value.currentTexture && recipient.value.Progressive?
    {
      recipient := worker.OnMessage(event);
    }

    /**
     * `updatePlayerPosition`: the tiles still queued in this round are
     * reordered nearest to `pos` first; which tiles are queued does not change.
     */
    method UpdatePlayerPosition(pos: Vec3)
      requires Valid()
      modifies this`queue
      ensures Valid()
      ensures SortedBy(queue, (t: TileMesh) => DistanceToSquared(pos, t.center))
      ensures multiset(queue) == multiset(old(queue))
    {
      queue := SortBy(queue, (t: TileMesh) => DistanceToSquared(pos, t.center));
      assert forall t :: t in queue ==> t in multiset(old(queue));
    }

    /** `unload`: the lists are emptied; a load in flight still settles and runs out the counter. */
    method Unload()
      requires Valid()
      modifies this`current, this`queue, this`tiles, this`unloaded
      ensures Valid()
      ensures current == None && queue == [] && tiles == [] && unloaded
    {
      current, queue, tiles := None, [], [];
      unloaded := true;
    }

    /**
     * Once both rounds are over (and no unload intervened), a tile listed once
     * was offered exactly two more sizes than it had before the manager
     * existed: the sizes it went through are 0, 1, ..., without gaps.
     */
    lemma AllRoundsDone(t: TileMesh)
      requires Valid() && !unloaded && size == 2
      requires t in meshes && multiset(sortedTiles)[t] == 1
      ensures t.offered == Iota(initialOffered[t] + 2)
    {
      assert multiset(dispatchLog) == multiset(sortedTiles) + multiset(sortedTiles);
    }

    /**
     * When the awaited load settles, the host slot is empty: the dispatch
     * that follows never overwrites a host that is still waiting.
     */
    lemma HostFreeWhenSettled()
      requires Valid() && awaiting.Some? && awaiting.value.pending == Idle
      ensures worker.host == None
    {
    }

    /** While running, no tile is offered more than two sizes per listing. */
    lemma OfferedBound(t: TileMesh)
      requires Valid() && !unloaded && t in meshes
      ensures |t.offered| <= initialOffered[t] + 2 * multiset(sortedTiles)[t]
    {
      assert multiset(dispatchLog)[t] <= (multiset(sortedTiles) + multiset(sortedTiles))[t];
    }
  }
}
