/** The event loop's own bookkeeping of index generations
    (crates/jabar-server/src/server.rs:606-742, 825-993, 1061-1159, 1242-1301,
    1379-1455, 1519-1693).

    Three running flags, a revision counter, an intent, a queued-scan flag, a pending
    request and a cache epoch. Every handler is proved to do what one step of the
    machine in module Lifecycle does, so what that module shows of whole runs holds of
    the server. Counters are unbounded here. */
module Server {
  import opened Wrappers
  import opened Lifecycle

  type Key = nat
  type Dir = nat

  datatype CacheState = CacheState(key: Key, shards: Shards)

  /** A cache write handed to the writer, with the epoch that makes it current. */
  datatype CacheJob = CacheJob(ticket: nat, index: nat, cache: CacheState)

  datatype StartupState = Unavailable | Loading | Superseded | Ready | NoIndex | StartFailed | StartCancelled

  /** A worker thread, with what it captured when it was spawned. */
  datatype Worker = Worker(kind: Kind, revision: nat, started: nat, forced: bool, key: Option<Key>, keyStale: bool)

  datatype RefreshWork =
    | WorkUnchanged(key: Option<Key>)
    | WorkLoaded(index: nat, shards: Shards, key: Option<Key>)
    | WorkEmpty(shards: Shards, key: Option<Key>)
    | WorkError

  datatype Discovered = Discovered(dir: Dir, index: nat, shards: Shards, key: Option<Key>,
                                   cache: Option<CacheState>, cacheHit: bool, verified: bool)

  datatype StartupResult = StartLoaded(discovered: Discovered, watched: bool) | StartNoIndex | StartError

  datatype ExplicitResult = ExplicitLoaded(dir: Dir, index: nat, shards: Shards, key: Option<Key>, watched: bool)
                          | ExplicitError

  function RefreshAs(work: RefreshWork): RefreshOutcome {
    match work
    case WorkUnchanged(_) => Unchanged
    case WorkLoaded(index, shards, _) => Reloaded(index, shards)
    case WorkEmpty(_, _) => Emptied
    case WorkError => RefreshFailed
  }

  function StartupAs(result: StartupResult): StartupOutcome {
    match result
    case StartLoaded(d, watched) => StartupLoaded(d.index, d.shards, watched, d.cache.Some?, d.cacheHit, d.verified)
    case _ => StartupEmpty
  }

  function ExplicitAs(result: ExplicitResult): ExplicitOutcome {
    match result
    case ExplicitLoaded(_, index, shards, _, watched) => Loaded(index, shards, watched)
    case ExplicitError => LoadFailed
  }

  /** What `discover_index` returns: a cache entry records the key and shards it was
      found under, and a generation read from the cache is the one not yet verified. */
  predicate WellDiscovered(d: Discovered) {
    && (d.cache.Some? ==> d.key == Some(d.cache.value.key) && d.shards == d.cache.value.shards)
    && (d.cacheHit ==> d.cache.Some?)
    && (d.verified <==> !d.cacheHit)
  }

  /** What a refresh worker returns: nothing-changed only when it was not forced, and
      the identity it captured, or a loaded one when that was known to be stale. */
  predicate WellRefreshed(w: Worker, work: RefreshWork, hasRoot: bool) {
    && (work.WorkUnchanged? ==> !w.forced)
    && (!work.WorkError? ==> if w.keyStale then work.key.Some? <==> hasRoot else work.key == w.key)
  }

  /** What the server holds of its generation, and what it has offered to be cached. */
  datatype Holding = Holding(
    index: Option<nat>, shards: Option<Shards>, dir: Option<Dir>, key: Option<Key>, keyStale: bool,
    cache: Option<CacheState>, cacheHit: bool, verified: bool, startup: StartupState, epoch: nat,
    writes: seq<CacheJob>)

  /** With another identity, which the cache entry takes over. */
  function Rekeyed(h: Holding, key: Option<Key>): Holding {
    h.(key := key, keyStale := false,
       cache := if h.cache.Some? && key.Some? then Some(CacheState(key.value, h.cache.value.shards)) else h.cache)
  }

  /** With a loaded generation in the place of what was published. */
  function Reindexed(h: Holding, index: nat, shards: Shards, key: Option<Key>): Holding {
    h.(index := Some(index), shards := Some(shards), key := key, keyStale := false,
       cache := if h.cache.Some? && key.Some? then Some(CacheState(key.value, shards)) else h.cache)
  }

  /** After a scan that found no shards: no index, and no cache hit or current write. */
  function WithoutIndex(h: Holding, shards: Shards, key: Option<Key>): Holding {
    Recached(Rekeyed(h.(index := None, shards := Some(shards)), key), shards).(verified := true, epoch := h.epoch + 1)
  }

  function Recached(h: Holding, shards: Shards): Holding {
    h.(cache := if h.cache.Some? then Some(CacheState(h.cache.value.key, shards)) else None, cacheHit := false)
  }

  /** After a scan that loaded a generation, which is written to the cache if there is one. */
  function WithIndex(h: Holding, index: nat, shards: Shards, key: Option<Key>): Holding {
    Offered(Reindexed(h, index, shards, key).(cacheHit := h.cache.None? && h.cacheHit, verified := true))
  }

  /** With the published index offered to the cache writer, if there is something to write. */
  function Offered(h: Holding): Holding {
    if h.cache.None? || h.index.None? then h
    else h.(epoch := h.epoch + 1, writes := h.writes + [CacheJob(h.epoch + 1, h.index.value, h.cache.value)])
  }

  /** After a load the client asked for: nothing of the old cache entry is left. */
  function WithLoaded(h: Holding, dir: Dir, index: nat, shards: Shards, key: Option<Key>): Holding {
    h.(index := Some(index), shards := Some(shards), dir := Some(dir), key := key, keyStale := false, cache := None,
       cacheHit := false, verified := true, epoch := h.epoch + 1)
  }

  /** After the startup worker's generation: what came from the cache is not written again. */
  function WithDiscovered(h: Holding, d: Discovered): Holding {
    var r := h.(index := Some(d.index), shards := Some(d.shards), dir := Some(d.dir), key := d.key, keyStale := false,
                cache := d.cache, cacheHit := d.cacheHit, verified := d.verified, startup := Ready);
    if d.cacheHit then r else Offered(r)
  }

  function AfterRefresh(h: Holding, work: RefreshWork): Holding {
    match work
    case WorkUnchanged(key) => Rekeyed(h, key).(verified := true)
    case WorkEmpty(shards, key) => WithoutIndex(h, shards, key)
    case WorkLoaded(index, shards, key) => WithIndex(h, index, shards, key)
    case WorkError => h.(verified := false)
  }

  function AfterLoad(h: Holding, result: ExplicitResult): Holding {
    match result
    case ExplicitLoaded(dir, index, shards, key, _) => WithLoaded(h, dir, index, shards, key)
    case ExplicitError => h
  }

  function AfterStartup(h: Holding, result: StartupResult): Holding {
    match result
    case StartLoaded(discovered, _) => WithDiscovered(h, discovered)
    case StartNoIndex => h.(startup := NoIndex)
    case StartError => h.(startup := StartFailed)
  }

  /** What a loaded generation leaves behind, field by field, and what of it is written. */
  lemma RefreshBrings(h: Holding, work: RefreshWork)
    ensures work.WorkLoaded? ==>
              var r := AfterRefresh(h, work);
              && r.index == Some(work.index) && r.shards == Some(work.shards) && r.key == work.key && r.verified
              && (h.cache.Some? && work.key.Some? ==>
                    && r.cache == Some(CacheState(work.key.value, work.shards)) && !r.cacheHit && r.epoch == h.epoch + 1
                    && r.writes == h.writes + [CacheJob(h.epoch + 1, work.index, CacheState(work.key.value, work.shards))])
              && (h.cache.None? ==> r.cache.None? && r.epoch == h.epoch && r.writes == h.writes)
    ensures work.WorkEmpty? ==>
              var r := AfterRefresh(h, work);
              && r.index.None? && r.shards == Some(work.shards) && r.key == work.key && r.verified && !r.cacheHit
              && r.epoch == h.epoch + 1 && r.writes == h.writes
  {
  }

  lemma LoadBrings(h: Holding, result: ExplicitResult)
    ensures result.ExplicitLoaded? ==>
              var r := AfterLoad(h, result);
              && r.index == Some(result.index) && r.shards == Some(result.shards) && r.dir == Some(result.dir)
              && r.key == result.key && r.cache.None? && !r.cacheHit && r.verified
              && r.epoch == h.epoch + 1 && r.writes == h.writes
  {
  }

  lemma StartupBrings(h: Holding, result: StartupResult)
    ensures result.StartLoaded? ==>
              var r, d := AfterStartup(h, result), result.discovered;
              && r.index == Some(d.index) && r.shards == Some(d.shards) && r.dir == Some(d.dir) && r.key == d.key
              && r.cache == d.cache && r.cacheHit == d.cacheHit && r.verified == d.verified && r.startup == Ready
              && (d.cacheHit || d.cache.None? ==> r.epoch == h.epoch && r.writes == h.writes)
              && (!d.cacheHit && d.cache.Some? ==>
                    r.epoch == h.epoch + 1 && r.writes == h.writes + [CacheJob(h.epoch + 1, d.index, d.cache.value)])
  {
  }

  class Server {
    const hasRoot: bool
    var refreshRevision: nat
    var startupRunning: bool
    var refreshRunning: bool
    var explicitLoadRunning: bool
    var refreshAgain: bool
    var refreshIntent: Intent
    var index: Option<nat>
    var indexShards: Option<Shards>
    var provenance: Option<Key>
    var provenanceStale: bool
    var cache: Option<CacheState>
    var cacheHit: bool
    var shardsVerified: bool
    var cacheEpoch: nat
    var explicitLoad: Option<RequestId>
    var watcher: bool
    var indexDir: Option<Dir>
    var startupState: StartupState
    var shutdownRequested: bool
    var sent: seq<Response>

    /** The one worker in flight or undelivered result; every cache write offered; when
        the published index's worker was started; how far the run has come; and the
        events handled so far. */
    ghost var inflight: Option<Worker>
    ghost var writes: seq<CacheJob>
    ghost var indexStarted: nat
    ghost var time: Time
    ghost var history: seq<Event>

    // ---- the abstract state ----

    /** Whether the result of `w` would be used if it arrived now. */
    ghost predicate Counts(w: Worker)
      reads `refreshRevision, `startupRunning, `explicitLoad
    {
      && w.revision == refreshRevision
      && (w.kind == Startup ==> startupRunning)
      && (w.kind.Explicit? ==> explicitLoad == Some(w.kind.id))
    }

    ghost function Abs(): State
      reads `inflight, `refreshRevision, `startupRunning, `explicitLoad, `refreshAgain, `refreshIntent, `index,
            `indexShards, `indexStarted, `indexDir, `watcher, `cache, `shutdownRequested, `sent, `time
    {
      State(if inflight.None? then None
            else Some(Job(inflight.value.kind, Counts(inflight.value), inflight.value.started, inflight.value.forced)),
            refreshAgain, refreshIntent,
            if index.None? || indexShards.None? then None
            else Some(Published(index.value, indexShards.value, indexStarted)),
            indexDir.Some?, watcher, cache.Some?, shutdownRequested, sent, time)
    }

    ghost function Held(): Holding
      reads `index, `indexShards, `indexDir, `provenance, `provenanceStale, `cache, `cacheHit, `shardsVerified,
            `startupState, `cacheEpoch, `writes
    {
      Holding(index, indexShards, indexDir, provenance, provenanceStale, cache, cacheHit, shardsVerified,
              startupState, cacheEpoch, writes)
    }

    /** Flags, counter and pending request agree with the worker there is. In
        particular the three flags exclude each other, the startup worker is never
        overtaken by a revision, and a pending request is the running load's own. */
    ghost predicate Wired()
      reads `startupRunning, `refreshRunning, `explicitLoadRunning, `refreshRevision, `explicitLoad,
            `indexDir, `startupState, `shutdownRequested, `inflight, `writes
    {
      && (startupRunning ==> inflight.Some? && inflight.value.kind == Startup && inflight.value.revision == refreshRevision)
      && (refreshRunning <==> inflight.Some? && inflight.value.kind == Refresh)
      && (explicitLoadRunning <==> inflight.Some? && inflight.value.kind.Explicit?)
      && (inflight.Some? ==> inflight.value.revision <= refreshRevision)
      && (inflight.Some? && inflight.value.kind == Startup ==>
            indexDir.None? && writes == [] && (startupRunning <==> !shutdownRequested))
      && (explicitLoad.Some? ==>
            inflight.Some? && inflight.value.kind == Explicit(explicitLoad.value) && inflight.value.revision == refreshRevision)
      && startupState != Superseded
    }

    /** The manifest, the provenance and the cache entry all belong to the index. */
    ghost predicate Coherent()
      reads `index, `indexShards, `provenance, `provenanceStale, `cache, `refreshRevision, `inflight
    {
      && (index.Some? ==> indexShards.Some? && !provenanceStale)
      && (cache.Some? ==> hasRoot && provenance == Some(cache.value.key))
      && (cache.Some? && index.Some? ==> indexShards == Some(cache.value.shards))
      && (inflight.Some? && inflight.value.kind == Refresh && inflight.value.revision == refreshRevision ==>
            inflight.value.key == provenance && inflight.value.keyStale == provenanceStale)
    }

    /** Tickets are handed out in order and never run ahead of the epoch. */
    ghost predicate Ordered()
      reads `cacheEpoch, `writes
    {
      && (forall j :: 0 <= j < |writes| ==> writes[j].ticket <= cacheEpoch)
      && (forall i, j :: 0 <= i < j < |writes| ==> writes[i].ticket < writes[j].ticket)
    }

    /** Every cache write offered so far has been overtaken. */
    ghost predicate NoneCurrent()
      reads `cacheEpoch, `writes
    {
      forall j :: 0 <= j < |writes| ==> writes[j].ticket < cacheEpoch
    }

    /** A cache write whose ticket is still the epoch would persist exactly the index
        now published, under its own key and manifest. */
    ghost predicate Ticketed()
      reads `index, `cache, `cacheEpoch, `writes
    {
      && Ordered()
      && (forall j :: 0 <= j < |writes| && writes[j].ticket == cacheEpoch ==>
            index == Some(writes[j].index) && cache == Some(writes[j].cache))
    }

    ghost predicate Linked()
      reads this
    {
      Wired() && Coherent() && Ticketed()
    }

    /** The machine stands at `s` after the events the server has handled. */
    ghost predicate LedTo(s: State)
      reads `history
    {
      Legal(hasRoot, history) && s == After(hasRoot, history)
    }

    ghost predicate Valid()
      reads this
    {
      Linked() && Inv(Abs()) && LedTo(Abs())
    }

    /** `Server::new`, then `schedule_startup` when there is a workspace. */
    constructor (hasRoot: bool)
      ensures Valid() && Abs() == Start(hasRoot) && this.hasRoot == hasRoot && history == []
      ensures Held() == Holding(None, None, None, None, false, None, false, false,
                                if hasRoot then Loading else Unavailable, 0, [])
    {
      this.hasRoot := hasRoot;
      refreshRevision := if hasRoot then 1 else 0;
      startupRunning, refreshRunning, explicitLoadRunning := hasRoot, false, false;
      refreshAgain, refreshIntent := false, Idle;
      index, indexShards, provenance, provenanceStale := None, None, None, false;
      cache, cacheHit, shardsVerified, cacheEpoch := None, false, false, 0;
      explicitLoad, watcher, indexDir := None, false, None;
      startupState, shutdownRequested, sent := if hasRoot then Loading else Unavailable, false, [];
      inflight := if hasRoot then Some(Worker(Startup, 1, 0, true, None, false)) else None;
      writes, indexStarted, time, history := [], 0, Time(0, 0), [];
      new;
      StartInv(hasRoot);
    }

    // ---- scheduling ----

    /** A worker may only be spawned when there is none. */
    ghost method Spawn(kind: Kind, forced: bool)
      requires inflight.None?
      modifies this`inflight
      ensures inflight == Some(Worker(kind, refreshRevision, time.clock, forced, provenance, provenanceStale))
    {
      inflight := Some(Worker(kind, refreshRevision, time.clock, forced, provenance, provenanceStale));
    }

    /** `schedule_index_refresh` and `schedule_refresh`. */
    method ScheduleIndexRefresh(changed: bool, force: bool)
      requires Linked() && (force <==> index.None?)
      modifies this`refreshRevision, this`refreshRunning, this`refreshAgain, this`inflight
      ensures Linked() && Abs() == Scan(old(Abs()), changed)
      ensures refreshRevision == old(refreshRevision)
                                 + if indexDir.Some? && !explicitLoadRunning && !startupRunning && (changed || !old(refreshRunning))
                                   then 1 else 0
    {
      hide Ticketed;
      if indexDir.None? {
        return;
      }
      if explicitLoadRunning || startupRunning {
        if changed {
          refreshAgain := true;
        }
        return;
      }
      if refreshRunning {
        if changed {
          refreshRevision := refreshRevision + 1;
          refreshAgain := true;
        }
        return;
      }
      refreshRevision := refreshRevision + 1;
      refreshRunning := true;
      Spawn(Refresh, force);
    }

    /** `schedule_queued_refresh`. */
    method ScheduleQueuedRefresh()
      requires Linked() && (refreshAgain ==> refreshIntent != AwaitingBuild)
      modifies this`refreshRevision, this`refreshRunning, this`refreshAgain, this`inflight
      ensures Linked() && Abs() == RunQueued(old(Abs()))
    {
      hide Wired, Coherent, Ticketed, Scan;
      if refreshAgain {
        refreshAgain := false;
        if refreshIntent != AwaitingBuild {
          ScheduleIndexRefresh(false, index.None?);
        }
      }
    }

    /** One more event has been handled. */
    ghost method Tock(before: State, e: Event)
      requires Linked() && LedTo(before)
      requires Enabled(before, e) && Passed(Abs()) == Step(before, e) && Inv(Step(before, e))
      modifies this`time, this`history
      ensures Valid() && Abs() == Step(before, e) && history == old(history) + [e]
    {
      hide Wired, Coherent, Ticketed, Inv, Step, Enabled, Legal, After;
      RunGrows(hasRoot, history, e);
      time := time.(clock := time.clock + 1);
      history := history + [e];
    }

    method SetIntent(intent: Intent)
      modifies this`refreshIntent
      ensures refreshIntent == intent && Abs() == old(Abs()).(intent := intent)
    {
      refreshIntent := intent;
    }

    /** The parts of the abstract state the handlers look at. */
    lemma AbsIs()
      requires Linked()
      ensures Abs().intent == refreshIntent && (Abs().index.None? <==> index.None?) && Abs().cached == cache.Some?
      ensures Abs().watching == watcher && Abs().stopping == shutdownRequested && Abs().again == refreshAgain
      ensures Abs().job.None? <==> inflight.None?
      ensures inflight.Some? ==> Abs().job.value.kind == inflight.value.kind
                                 && Abs().job.value.forced == inflight.value.forced
                                 && Abs().job.value.started == inflight.value.started
    {
      hide Wired, Ticketed;
    }

    /** While a build is awaited nothing is published. */
    lemma AwaitingHasNone()
      requires Linked() && Inv(Abs())
      ensures refreshIntent == AwaitingBuild ==> index.None? && !refreshAgain
    {
      hide Wired, Ticketed;
    }

    // ---- disk events and the timer ----

    /** `on_refresh_tick`. */
    method OnRefreshTick()
      requires Valid()
      modifies this
      ensures Valid() && Abs() == Step(old(Abs()), Tick) && history == old(history) + [Tick]
      ensures Held() == old(Held())
    {
      hide Inv, LedTo, Wired, Coherent, Ticketed, Scan, Abs, Held;
      ghost var s := Abs();
      StepInv(s, Tick);
      AbsIs();
      if refreshIntent != AwaitingBuild && (cache.Some? || refreshIntent == Retry) {
        ScheduleIndexRefresh(false, index.None?);
      }
      Tock(s, Tick);
    }

    /** `on_file_change`, shards changed: whatever was awaited, this is evidence of a
        build, and a build after a move must be loaded even if it looks unchanged. */
    method OnShardsChanged()
      requires Valid() && watcher
      modifies this
      ensures Valid() && Abs() == Step(old(Abs()), ShardsChanged) && history == old(history) + [ShardsChanged]
      ensures Held() == old(Held())
    {
      hide Inv, LedTo, Wired, Coherent, Ticketed, Scan, Abs, Held;
      ghost var s := Abs();
      AbsIs();
      StepInv(s, ShardsChanged);
      AwaitingHasNone();
      var force := refreshIntent == AwaitingBuild || index.None?;
      SetIntent(Retry);
      ScheduleIndexRefresh(true, force);
      Tock(s, ShardsChanged);
    }

    /** `on_file_change`, watcher error. */
    method OnWatcherError()
      requires Valid() && watcher
      modifies this
      ensures Valid() && Abs() == Step(old(Abs()), WatcherLost) && history == old(history) + [WatcherLost]
      ensures Held() == if old(refreshIntent) == AwaitingBuild then old(Held()) else old(Held()).(verified := false)
    {
      hide Inv, LedTo, Wired, Coherent, Ticketed, Scan, Abs, Held;
      ghost var s := Abs();
      AbsIs();
      StepInv(s, WatcherLost);
      if refreshIntent != AwaitingBuild {
        Recheck();
      }
      Tock(s, WatcherLost);
    }

    method Recheck()
      requires Linked()
      modifies this`refreshIntent, this`shardsVerified, this`refreshRevision, this`refreshRunning, this`refreshAgain,
               this`inflight
      ensures Linked() && Abs() == Scan(old(Abs()).(intent := Retry), true) && Held() == old(Held()).(verified := false)
    {
      hide Wired, Coherent, Ticketed, Scan, Abs, Held;
      SetIntent(Retry);
      Suspect();
      ScheduleIndexRefresh(true, index.None?);
    }

    method Suspect()
      modifies this`shardsVerified
      ensures Held() == old(Held()).(verified := false)
    {
      shardsVerified := false;
    }

    /** `cancel_explicit_load`: the request is answered and its worker overtaken. */
    method CancelExplicitLoad()
      requires Wired() && Coherent()
      modifies this`explicitLoad, this`refreshRevision, this`sent
      ensures Wired() && Coherent()
      ensures Abs() == CancelExplicit(old(Abs())) && explicitLoad.None?
      ensures refreshRevision == old(refreshRevision) + if old(explicitLoad).Some? then 1 else 0
    {
      if explicitLoad.None? {
        return;
      }
      sent := sent + [Response(explicitLoad.value, Cancelled)];
      explicitLoad := None;
      refreshRevision := refreshRevision + 1;
    }

    /** `on_file_change`, workspace moved: the index is dropped, and every worker in
        flight and every cache write offered is overtaken. */
    method OnWorkspaceMoved()
      requires Valid() && watcher
      modifies this
      ensures Valid() && Abs() == Step(old(Abs()), WorkspaceMoved) && history == old(history) + [WorkspaceMoved]
      ensures refreshRevision == old(refreshRevision) + if old(explicitLoad).Some? then 2 else 1
      ensures NoneCurrent()
      ensures Held() == old(Held()).(index := None, keyStale := true, cacheHit := false, verified := false,
                                     epoch := old(Held()).epoch + 1)
    {
      hide Inv, LedTo, Wired, Coherent, Abs, Ticketed, NoneCurrent, OnMove, Held;
      ghost var s := Abs();
      AbsIs();
      StepInv(s, WorkspaceMoved);
      WatcherMeansNoStartup();
      DropEverything();
      Tock(s, WorkspaceMoved);
    }

    method DropEverything()
      requires Linked() && (inflight.Some? ==> inflight.value.kind != Startup)
      modifies this`index, this`explicitLoad, this`sent, this`cacheHit, this`shardsVerified, this`refreshIntent,
               this`provenanceStale, this`refreshAgain, this`refreshRevision, this`cacheEpoch, this`time
      ensures Linked() && NoneCurrent() && Abs() == OnMove(old(Abs()))
      ensures refreshRevision == old(refreshRevision) + if old(explicitLoad).Some? then 2 else 1
      ensures Held() == old(Held()).(index := None, keyStale := true, cacheHit := false, verified := false,
                                     epoch := old(Held()).epoch + 1)
    {
      hide Wired, Coherent, Abs, Ticketed, NoneCurrent, CancelExplicit, OnMove, Held;
      MoveOrder(Abs());
      RetireCurrentIndex();
      CancelExplicitLoad();
      AwaitBuild();
    }

    lemma WatcherMeansNoStartup()
      requires Linked() && Inv(Abs()) && watcher
      ensures inflight.Some? ==> inflight.value.kind != Startup
    {
      hide Ticketed;
    }

    method RetireCurrentIndex()
      requires Linked()
      modifies this`index
      ensures Wired() && Coherent() && Ordered() && index.None? && Abs() == old(Abs()).(index := None)
      ensures Held() == old(Held()).(index := None)
    {
      hide Wired, Ordered;
      index := None;
    }

    /** Moves the epoch on: no cache write offered so far is current any more. */
    method BumpEpoch()
      requires Ordered()
      modifies this`cacheEpoch
      ensures cacheEpoch == old(cacheEpoch) + 1 && Ticketed() && Held() == old(Held()).(epoch := old(Held()).epoch + 1)
      ensures NoneCurrent()
    {
      cacheEpoch := cacheEpoch + 1;
    }

    /** Moves the revision on: the worker in flight is overtaken. */
    method BumpRevision()
      requires Wired() && Coherent() && explicitLoad.None?
      requires inflight.Some? ==> inflight.value.kind != Startup
      modifies this`refreshRevision
      ensures Wired() && Coherent() && (inflight.Some? ==> inflight.value.revision < refreshRevision)
      ensures refreshRevision == old(refreshRevision) + 1
      ensures var s := old(Abs());
              Abs() == s.(job := if s.job.Some? then Some(s.job.value.(current := false)) else None)
    {
      refreshRevision := refreshRevision + 1;
    }

    method AwaitBuild()
      requires Wired() && Coherent() && Ordered() && index.None? && explicitLoad.None?
      requires inflight.Some? ==> inflight.value.kind != Startup
      modifies this`cacheHit, this`shardsVerified, this`refreshIntent, this`provenanceStale, this`refreshAgain,
               this`refreshRevision, this`cacheEpoch, this`time
      ensures Linked() && NoneCurrent() && refreshRevision == old(refreshRevision) + 1
      ensures var s := old(Abs());
              Abs() == s.(intent := AwaitingBuild, again := false, time := s.time.(lastMove := s.time.clock + 1),
                          job := if s.job.Some? then Some(s.job.value.(current := false)) else None)
      ensures Held() == old(Held()).(keyStale := true, cacheHit := false, verified := false,
                                     epoch := old(Held()).epoch + 1)
    {
      hide Wired, Coherent, Ticketed, Ordered, NoneCurrent, Abs, Held;
      BumpRevision();
      MarkAwaiting();
      BumpEpoch();
    }

    method MarkAwaiting()
      requires Coherent() && index.None? && (inflight.Some? ==> inflight.value.revision < refreshRevision)
      modifies this`cacheHit, this`shardsVerified, this`refreshIntent, this`provenanceStale, this`refreshAgain, this`time
      ensures Coherent()
      ensures var s := old(Abs());
              Abs() == s.(intent := AwaitingBuild, again := false, time := s.time.(lastMove := s.time.clock + 1))
      ensures Held() == old(Held()).(keyStale := true, cacheHit := false, verified := false)
    {
      hide Held, Abs;
      DistrustOrigin();
      SetAwaiting();
    }

    method DistrustOrigin()
      requires Coherent() && index.None? && (inflight.Some? ==> inflight.value.revision < refreshRevision)
      modifies this`cacheHit, this`shardsVerified, this`provenanceStale
      ensures Coherent()
      ensures Held() == old(Held()).(keyStale := true, cacheHit := false, verified := false)
    {
      cacheHit := false;
      shardsVerified := false;
      provenanceStale := true;
    }

    method SetAwaiting()
      modifies this`refreshIntent, this`refreshAgain, this`time
      ensures var s := old(Abs());
              Abs() == s.(intent := AwaitingBuild, again := false, time := s.time.(lastMove := s.time.clock + 1))
    {
      refreshIntent := AwaitingBuild;
      refreshAgain := false;
      time := time.(lastMove := time.clock + 1);
    }

    // ---- requests ----

    method Send(id: RequestId, reply: Reply)
      requires Linked()
      modifies this`sent
      ensures Linked() && Abs() == Answer(old(Abs()), id, reply)
    {
      hide Wired, Coherent, Ticketed;
      sent := sent + [Response(id, reply)];
    }

    /** `on_request` and `load_index`: refused at once, or accepted and left open. */
    method OnLoadIndex(id: RequestId, wellFormed: bool)
      requires Valid()
      modifies this
      ensures Valid() && Abs() == Step(old(Abs()), LoadIndex(id, wellFormed))
      ensures history == old(history) + [LoadIndex(id, wellFormed)]
      ensures Held() == old(Held())
    {
      hide Inv, LedTo, Wired, Coherent, Ticketed, Abs, Held;
      ghost var s := Abs();
      AbsIs();
      StepInv(s, LoadIndex(id, wellFormed));
      if shutdownRequested || !wellFormed {
        Send(id, Refused);
      } else {
        FlagsShowWorker();
        if refreshRunning || explicitLoadRunning || startupRunning {
          Send(id, Refused);
        } else {
          ScheduleExplicitLoad(id);
        }
      }
      Tock(s, LoadIndex(id, wellFormed));
    }

    /** Before shutdown the flags show every worker there is. */
    lemma FlagsShowWorker()
      requires Linked() && !shutdownRequested
      ensures inflight.Some? <==> refreshRunning || explicitLoadRunning || startupRunning
    {
      hide Coherent, Ticketed;
    }

    /** `schedule_explicit_load`, past its guard. */
    method ScheduleExplicitLoad(id: RequestId)
      requires Linked() && inflight.None?
      modifies this`refreshRevision, this`explicitLoadRunning, this`explicitLoad, this`inflight
      ensures Linked() && Abs() == Launch(old(Abs()), Explicit(id)) && refreshRevision == old(refreshRevision) + 1
    {
      hide Ticketed;
      refreshRevision := refreshRevision + 1;
      explicitLoadRunning := true;
      explicitLoad := Some(id);
      Spawn(Explicit(id), index.None?);
    }

    /** `on_request` for everything else: one response, whatever the handler says. */
    method OnOtherRequest(id: RequestId)
      requires Valid()
      modifies this
      ensures Valid() && Abs() == Step(old(Abs()), OtherRequest(id)) && history == old(history) + [OtherRequest(id)]
      ensures Held() == old(Held())
    {
      hide Inv, LedTo, Wired, Coherent, Ticketed, Abs, Held;
      ghost var s := Abs();
      AbsIs();
      StepInv(s, OtherRequest(id));
      Send(id, if shutdownRequested then Refused else Done);
      Tock(s, OtherRequest(id));
    }

    /** The `shutdown` arm of `run`. */
    method OnShutdownRequest(id: RequestId)
      requires Valid()
      modifies this
      ensures Valid() && Abs() == Step(old(Abs()), Shutdown(id)) && history == old(history) + [Shutdown(id)]
      ensures refreshRevision == old(refreshRevision) + (if old(explicitLoad).Some? then 1 else 0)
                                 + (if old(startupRunning) then 1 else 0)
      ensures Held() == if old(startupRunning) then old(Held()).(startup := StartCancelled) else old(Held())
    {
      hide Inv, LedTo, Wired, Coherent, Ticketed, Abs, OnShutdown, Held;
      ghost var s := Abs();
      StepInv(s, Shutdown(id));
      StopWorkers(id);
      Tock(s, Shutdown(id));
    }

    method StopWorkers(id: RequestId)
      requires Linked()
      modifies this`explicitLoad, this`refreshRevision, this`sent, this`startupRunning, this`startupState,
               this`shutdownRequested
      ensures Linked() && Abs() == OnShutdown(old(Abs()), id)
      ensures refreshRevision == old(refreshRevision) + (if old(explicitLoad).Some? then 1 else 0)
                                 + (if old(startupRunning) then 1 else 0)
      ensures Held() == if old(startupRunning) then old(Held()).(startup := StartCancelled) else old(Held())
    {
      hide Wired, Coherent, Ticketed, Abs, CancelExplicit, StopStartup, Held;
      CancelExplicitLoad();
      CancelStartup();
      Send(id, Done);
    }

    /** `cancel_startup`, with the flag that follows it. */
    method CancelStartup()
      requires Wired() && Coherent() && explicitLoad.None?
      modifies this`startupRunning, this`startupState, this`refreshRevision, this`shutdownRequested
      ensures Wired() && Coherent() && Abs() == StopStartup(old(Abs())).(stopping := true)
      ensures Held() == if old(startupRunning) then old(Held()).(startup := StartCancelled) else old(Held())
      ensures refreshRevision == old(refreshRevision) + if old(startupRunning) then 1 else 0
    {
      if startupRunning {
        startupRunning := false;
        startupState := StartCancelled;
        refreshRevision := refreshRevision + 1;
      }
      shutdownRequested := true;
    }

    // ---- results ----

    /** `update_provenance`. */
    method UpdateProvenance(key: Option<Key>)
      requires Coherent() && inflight.None?
      requires cache.Some? ==> key.Some?
      requires !provenanceStale ==> key == provenance
      modifies this`cache, this`provenance, this`provenanceStale
      ensures Coherent() && Abs() == old(Abs())
      ensures old(Ticketed()) ==> Ticketed()
      ensures (cache.Some? <==> old(cache).Some?) && Held() == Rekeyed(old(Held()), key)
    {
      if cache.Some? && key.Some? {
        cache := Some(cache.value.(key := key.value));
      }
      provenance := key;
      provenanceStale := false;
    }

    /** `write_cache_async`: the new ticket overtakes every write offered before. */
    method WriteCacheAsync()
      requires Wired() && inflight.None? && Ordered()
      requires cache.None? || index.None? ==> NoneCurrent()
      modifies this`cacheEpoch, this`writes
      ensures Wired() && Ticketed()
      ensures Held() == Offered(old(Held()))
    {
      if cache.None? || index.None? {
        return;
      }
      cacheEpoch := cacheEpoch + 1;
      writes := writes + [CacheJob(cacheEpoch, index.value, cache.value)];
    }

    /** A result has been taken off its channel: the worker is gone. */
    method TakeRefresh()
      requires Linked() && inflight.Some? && inflight.value.kind == Refresh
      modifies this`refreshRunning, this`inflight
      ensures Linked() && inflight.None? && Abs() == old(Abs()).(job := None)
    {
      hide Ticketed;
      refreshRunning := false;
      inflight := None;
    }

    /** `on_refresh_result`. */
    method OnRefreshResult(revision: nat, work: RefreshWork)
      requires Valid() && inflight.Some? && inflight.value.kind == Refresh && inflight.value.revision == revision
      requires WellRefreshed(inflight.value, work, hasRoot)
      modifies this
      ensures Valid() && Abs() == Step(old(Abs()), RefreshDone(RefreshAs(work)))
      ensures history == old(history) + [RefreshDone(RefreshAs(work))]
      ensures Held() == if revision == old(refreshRevision) then AfterRefresh(old(Held()), work) else old(Held())
    {
      hide Inv, LedTo, Wired, Coherent, Ticketed, Abs, WellRefreshed, RunQueued, Refreshed, Held, AfterRefresh;
      ghost var s := Abs();
      RefreshEnabled(work);
      StepInv(s, RefreshDone(RefreshAs(work)));
      RefreshedInv(s, RefreshDone(RefreshAs(work)));
      TakeRefreshResult(revision, work);
      AbsIs();
      ScheduleQueuedRefresh();
      Tock(s, RefreshDone(RefreshAs(work)));
    }

    /** Up to the queued scan. */
    method TakeRefreshResult(revision: nat, work: RefreshWork)
      requires Linked() && Inv(Abs()) && inflight.Some? && inflight.value.kind == Refresh
      requires inflight.value.revision == revision && WellRefreshed(inflight.value, work, hasRoot)
      modifies this`refreshRunning, this`inflight, this`index, this`indexShards, this`indexStarted, this`cache,
               this`cacheHit, this`provenance, this`provenanceStale, this`shardsVerified, this`refreshIntent,
               this`cacheEpoch, this`writes
      ensures Linked() && inflight.None? && old(Abs()).job.Some? && Abs() == Refreshed(old(Abs()), RefreshAs(work))
      ensures Held() == if revision == refreshRevision then AfterRefresh(old(Held()), work) else old(Held())
    {
      hide Inv, Wired, Coherent, Ticketed, Abs, WellRefreshed, Held, AfterRefresh;
      ghost var s, w := Abs(), inflight.value;
      AbsIs();
      RefreshCounts(work);
      TakeRefresh();
      if revision == refreshRevision {
        ApplyRefresh(s, w, work);
      }
    }

    lemma RefreshEnabled(work: RefreshWork)
      requires Linked() && inflight.Some? && inflight.value.kind == Refresh
      requires WellRefreshed(inflight.value, work, hasRoot)
      ensures Enabled(Abs(), RefreshDone(RefreshAs(work)))
    {
      hide Wired, Coherent, Ticketed;
    }

    /** A result at the current revision is one that counts, and then it belongs to the
        provenance the server still has and is wanted by an intent that can take it. */
    lemma RefreshCounts(work: RefreshWork)
      requires Linked() && Inv(Abs()) && inflight.Some? && inflight.value.kind == Refresh
      ensures Abs().job.value.current <==> inflight.value.revision == refreshRevision
      ensures inflight.value.revision == refreshRevision ==>
                && inflight.value.key == provenance && inflight.value.keyStale == provenanceStale
                && refreshIntent != AwaitingBuild && (index.None? ==> inflight.value.forced)
    {
      hide Ticketed;
    }

    /** The four arms of an accepted result. */
    method ApplyRefresh(ghost s: State, ghost w: Worker, work: RefreshWork)
      requires Linked() && inflight.None? && Abs() == s.(job := None)
      requires WellRefreshed(w, work, hasRoot) && w.key == provenance && w.keyStale == provenanceStale
      requires refreshIntent != AwaitingBuild && (index.None? ==> w.forced)
      requires s.job.Some? && s.job.value.current && s.job.value.started == w.started
      modifies this`index, this`indexShards, this`indexStarted, this`cache, this`cacheHit, this`provenance,
               this`provenanceStale, this`shardsVerified, this`refreshIntent, this`cacheEpoch, this`writes
      ensures Linked() && inflight.None? && Abs() == Refreshed(s, RefreshAs(work))
      ensures Held() == AfterRefresh(old(Held()), work)
    {
      hide Wired, Coherent, Ticketed, Abs, Held,
           Rekeyed, WithIndex, WithoutIndex;
      match work {
        case WorkUnchanged(key) =>
          if index.Some? {
            RefreshUnchanged(w, key);
          } else {
            // the source falls back to another scan here: never taken
            assert false;
          }
        case WorkEmpty(shards, key) => RefreshEmptied(w, shards, key);
        case WorkLoaded(loaded, shards, key) => RefreshLoaded(w, loaded, shards, key);
        case WorkError =>
          Suspect();
          SetIntent(Retry);
      }
    }

    /** An accepted result carries an identity that fits what the server still has. */
    lemma KeyFits(w: Worker, work: RefreshWork)
      requires Linked() && WellRefreshed(w, work, hasRoot) && !work.WorkError?
      requires w.key == provenance && w.keyStale == provenanceStale
      ensures cache.Some? ==> work.key.Some?
      ensures !provenanceStale ==> work.key == provenance
    {
      hide Wired, Ticketed;
    }

    method Verify()
      modifies this`shardsVerified
      ensures Held() == old(Held()).(verified := true)
    {
      shardsVerified := true;
    }

    method RefreshUnchanged(ghost w: Worker, key: Option<Key>)
      requires Linked() && inflight.None? && WellRefreshed(w, WorkUnchanged(key), hasRoot)
      requires w.key == provenance && w.keyStale == provenanceStale
      modifies this`cache, this`provenance, this`provenanceStale, this`shardsVerified, this`refreshIntent
      ensures Linked() && Abs() == old(Abs()).(intent := Idle)
      ensures Held() == Rekeyed(old(Held()), key).(verified := true)
    {
      hide Wired, Coherent, Ticketed, Abs, WellRefreshed, Held;
      KeyFits(w, WorkUnchanged(key));
      UpdateProvenance(key);
      Verify();
      SetIntent(Idle);
    }

    method RefreshEmptied(ghost w: Worker, shards: Shards, key: Option<Key>)
      requires Linked() && inflight.None? && WellRefreshed(w, WorkEmpty(shards, key), hasRoot)
      requires w.key == provenance && w.keyStale == provenanceStale
      modifies this`index, this`indexShards, this`cache, this`cacheHit, this`provenance, this`provenanceStale,
               this`shardsVerified, this`refreshIntent, this`cacheEpoch
      ensures Linked() && inflight.None? && Abs() == old(Abs()).(index := None, intent := Idle)
      ensures Held() == WithoutIndex(old(Held()), shards, key)
    {
      hide Wired, Coherent, Ticketed, Abs, Ordered, NoneCurrent, WellRefreshed, Held;
      KeyFits(w, WorkEmpty(shards, key));
      RetireCurrentIndex();
      RecordEmptySet(shards, key);
      BumpEpoch();
    }

    /** The manifest, provenance and cache entry of a confirmed empty shard set. */
    method RecordEmptySet(shards: Shards, key: Option<Key>)
      requires Coherent() && index.None? && inflight.None?
      requires (cache.Some? ==> key.Some?) && (!provenanceStale ==> key == provenance)
      modifies this`indexShards, this`provenance, this`provenanceStale, this`cache, this`cacheHit,
               this`shardsVerified, this`refreshIntent
      ensures Coherent() && Abs() == old(Abs()).(intent := Idle)
      ensures Held() == WithoutIndex(old(Held()), shards, key).(epoch := old(Held()).epoch)
    {
      hide Coherent, Abs, Ticketed, Held;
      HeldIs();
      RecordManifest(shards);
      UpdateProvenance(key);
      RecordCachedShards(shards);
      Verify();
      SetIntent(Idle);
    }

    method RecordManifest(shards: Shards)
      requires Coherent() && index.None?
      modifies this`indexShards
      ensures Coherent() && Abs() == old(Abs()) && Held() == old(Held()).(shards := Some(shards))
    {
      indexShards := Some(shards);
    }

    /** The cache entry follows; the pointer on disk is removed by the caller's
        `index_cache::invalidate`. */
    method RecordCachedShards(shards: Shards)
      requires Coherent() && index.None?
      modifies this`cache, this`cacheHit
      ensures Coherent() && Abs() == old(Abs())
      ensures Held() == Recached(old(Held()), shards)
    {
      if cache.Some? {
        cache := Some(cache.value.(shards := shards));
      }
      cacheHit := false;
    }

    method RefreshLoaded(ghost w: Worker, loaded: nat, shards: Shards, key: Option<Key>)
      requires Linked() && inflight.None? && WellRefreshed(w, WorkLoaded(loaded, shards, key), hasRoot)
      requires w.key == provenance && w.keyStale == provenanceStale
      modifies this`index, this`indexShards, this`indexStarted, this`cache, this`cacheHit, this`provenance,
               this`provenanceStale, this`shardsVerified, this`refreshIntent, this`cacheEpoch, this`writes
      ensures Linked() && inflight.None?
      ensures Abs() == old(Abs()).(index := Some(Published(loaded, shards, w.started)), intent := Idle)
      ensures Held() == WithIndex(old(Held()), loaded, shards, key)
    {
      hide Wired, Coherent, Ticketed, Abs, Ordered, NoneCurrent, WellRefreshed, Held;
      KeyFits(w, WorkLoaded(loaded, shards, key));
      UncachedHasNoCurrentWrite();
      ReplaceIndex(loaded, shards, key, w.started);
      WriteCacheAsync();
    }

    lemma UncachedHasNoCurrentWrite()
      requires Ticketed()
      ensures Ordered()
      ensures cache.None? ==> NoneCurrent()
    {
    }

    /** Swaps in an index with its manifest, provenance and cache entry, all of one
        generation, and settles the intent. */
    method ReplaceIndex(loaded: nat, shards: Shards, key: Option<Key>, ghost started: nat)
      requires Coherent() && inflight.None? && (cache.Some? ==> key.Some?)
      modifies this`index, this`indexShards, this`provenance, this`provenanceStale, this`cache, this`indexStarted,
               this`shardsVerified, this`refreshIntent, this`cacheHit
      ensures Coherent() && index.Some? && (cache.Some? <==> old(cache).Some?)
      ensures var h := old(Held());
              Held() == Reindexed(h, loaded, shards, key).(cacheHit := h.cache.None? && h.cacheHit, verified := true)
      ensures Abs() == old(Abs()).(index := Some(Published(loaded, shards, started)), intent := Idle)
    {
      hide Coherent, Abs, Held;
      HeldIs();
      InstallGeneration(loaded, shards, key, started);
      HeldIs();
      Confirm();
      SetIntent(Idle);
    }

    lemma HeldIs()
      ensures Held() == Holding(index, indexShards, indexDir, provenance, provenanceStale, cache, cacheHit,
                                shardsVerified, startupState, cacheEpoch, writes)
    {
    }

    method Confirm()
      modifies this`cacheHit, this`shardsVerified
      ensures Held() == old(Held()).(cacheHit := cache.None? && old(cacheHit), verified := true)
    {
      cacheHit := cache.None? && cacheHit;
      shardsVerified := true;
    }

    method InstallGeneration(loaded: nat, shards: Shards, key: Option<Key>, ghost started: nat)
      requires Coherent() && inflight.None? && (cache.Some? ==> key.Some?)
      modifies this`index, this`indexShards, this`provenance, this`provenanceStale, this`cache, this`indexStarted
      ensures Coherent() && index.Some? && (cache.Some? <==> old(cache).Some?)
      ensures Abs() == old(Abs()).(index := Some(Published(loaded, shards, started)))
      ensures index == Some(loaded) && indexShards == Some(shards) && provenance == key && !provenanceStale
      ensures cache == if old(cache).Some? && key.Some? then Some(CacheState(key.value, shards)) else old(cache)
    {
      index := Some(loaded);
      indexShards := Some(shards);
      provenance := key;
      provenanceStale := false;
      if cache.Some? && key.Some? {
        cache := Some(CacheState(key.value, shards));
      }
      indexStarted := started;
    }

    /** A load's result has been taken off its channel, together with the pending
        request when there still is one: necessarily the one the result is for, and
        never at an old revision. */
    method TakeExplicit(id: RequestId, revision: nat) returns (pending: Option<RequestId>)
      requires Linked() && inflight.Some? && inflight.value.kind == Explicit(id) && inflight.value.revision == revision
      modifies this`explicitLoadRunning, this`explicitLoad, this`inflight
      ensures Linked() && inflight.None? && Abs() == old(Abs()).(job := None)
      ensures pending.Some? <==> old(Abs()).job.value.current
      ensures pending == old(explicitLoad) && (pending.Some? ==> pending.value == id && revision == refreshRevision)
    {
      hide Ticketed;
      explicitLoadRunning := false;
      pending := explicitLoad;
      explicitLoad := None;
      inflight := None;
    }

    /** `on_explicit_load_result`. */
    method OnExplicitLoadResult(id: RequestId, revision: nat, result: ExplicitResult)
      requires Valid() && inflight.Some? && inflight.value.kind == Explicit(id) && inflight.value.revision == revision
      modifies this
      ensures Valid() && Abs() == Step(old(Abs()), ExplicitDone(ExplicitAs(result)))
      ensures history == old(history) + [ExplicitDone(ExplicitAs(result))]
      ensures Held() == if old(explicitLoad).Some? then AfterLoad(old(Held()), result) else old(Held())
    {
      hide Inv, LedTo, Wired, Coherent, Ticketed, Abs, RunQueued, LoadAnswered, Held, AfterLoad;
      ghost var s := Abs();
      AbsIs();
      StepInv(s, ExplicitDone(ExplicitAs(result)));
      LoadAnsweredInv(s, ExplicitDone(ExplicitAs(result)));
      TakeLoadResult(id, revision, result);
      AbsIs();
      ScheduleQueuedRefresh();
      Tock(s, ExplicitDone(ExplicitAs(result)));
    }

    /** Up to the queued scan. */
    method TakeLoadResult(id: RequestId, revision: nat, result: ExplicitResult)
      requires Linked() && inflight.Some? && inflight.value.kind == Explicit(id) && inflight.value.revision == revision
      modifies this`explicitLoadRunning, this`explicitLoad, this`inflight,
               this`index, this`indexShards, this`provenance, this`provenanceStale, this`cache, this`indexStarted,
               this`shardsVerified, this`refreshIntent, this`cacheHit, this`cacheEpoch, this`indexDir, this`watcher, this`sent
      ensures Linked() && inflight.None? && old(Abs()).job.Some? && old(Abs()).job.value.kind.Explicit?
      ensures Abs() == LoadAnswered(old(Abs()), ExplicitAs(result))
      ensures Held() == if old(explicitLoad).Some? then AfterLoad(old(Held()), result) else old(Held())
    {
      hide Wired, Coherent, Ticketed, Abs, Held, AfterLoad;
      ghost var s, w := Abs(), inflight.value;
      AbsIs();
      var pending := TakeExplicit(id, revision);
      if pending.Some? {
        AnswerLoad(s, w, pending.value, id, revision, result);
      }
    }

    /** The pending request gets the one answer its result calls for. */
    method AnswerLoad(ghost s: State, ghost w: Worker, pending: RequestId, id: RequestId, revision: nat,
                      result: ExplicitResult)
      requires Linked() && inflight.None? && Abs() == s.(job := None)
      requires pending == id && revision == refreshRevision
      requires s.job.Some? && s.job.value == Job(Explicit(id), true, w.started, s.job.value.forced)
      modifies this`index, this`indexShards, this`provenance, this`provenanceStale, this`cache, this`indexStarted,
               this`shardsVerified, this`refreshIntent, this`cacheHit, this`cacheEpoch, this`indexDir, this`watcher, this`sent
      ensures Linked() && inflight.None? && Abs() == LoadAnswered(s, ExplicitAs(result))
      ensures Held() == AfterLoad(old(Held()), result)
    {
      hide Wired, Coherent, Ticketed, Abs, Held,
           WithLoaded;
      if pending != id {
        // the source drops the result and leaves the request pending: never taken
        assert false;
      } else if revision != refreshRevision {
        // the source answers that the content was modified: never taken
        assert false;
      } else {
        match result {
          case ExplicitLoaded(dir, loaded, shards, key, watched) =>
            InstallExplicit(dir, loaded, shards, key, watched, w.started);
            Send(id, Done);
          case ExplicitError =>
            Send(id, Failed);
        }
      }
    }

    /** A load asked for by the client replaces everything, and leaves nothing to cache. */
    method InstallExplicit(dir: Dir, loaded: nat, shards: Shards, key: Option<Key>, watched: bool, ghost started: nat)
      requires Linked() && inflight.None?
      modifies this`index, this`indexShards, this`provenance, this`provenanceStale, this`cache, this`indexStarted,
               this`shardsVerified, this`refreshIntent, this`cacheHit, this`cacheEpoch, this`indexDir, this`watcher
      ensures Linked() && inflight.None?
      ensures Held() == WithLoaded(old(Held()), dir, loaded, shards, key)
      ensures Abs() == old(Abs()).(index := Some(Published(loaded, shards, started)), cached := false, intent := Idle,
                                   located := true, watching := watched)
    {
      hide Wired, Coherent, Ticketed, Abs, Ordered, Held;
      ReplaceAll(loaded, shards, key, started);
      Locate(dir, watched);
      BumpEpoch();
    }

    method ReplaceAll(loaded: nat, shards: Shards, key: Option<Key>, ghost started: nat)
      requires Linked() && inflight.None?
      modifies this`index, this`indexShards, this`provenance, this`provenanceStale, this`cache, this`indexStarted,
               this`shardsVerified, this`refreshIntent, this`cacheHit
      ensures Wired() && Coherent() && Ordered()
      ensures Held() == old(Held()).(index := Some(loaded), shards := Some(shards), key := key, keyStale := false,
                                     cache := None, cacheHit := false, verified := true)
      ensures Abs() == old(Abs()).(index := Some(Published(loaded, shards, started)), cached := false, intent := Idle)
    {
      hide Wired, Coherent, Ticketed, Abs, Ordered, Held;
      DropCache();
      ReplaceIndex(loaded, shards, key, started);
    }

    method DropCache()
      requires Linked()
      modifies this`cache, this`cacheHit
      ensures Wired() && Coherent() && Ordered() && cache.None? && Abs() == old(Abs()).(cached := false)
      ensures Held() == old(Held()).(cache := None, cacheHit := false)
    {
      hide Wired, Ordered;
      cache, cacheHit := None, false;
    }

    method Locate(dir: Dir, watched: bool)
      requires Wired() && inflight.None?
      modifies this`indexDir, this`watcher
      ensures Wired() && Abs() == old(Abs()).(located := true, watching := watched)
      ensures Held() == old(Held()).(dir := Some(dir))
    {
      indexDir := Some(dir);
      watcher := watched;
    }

    // ---- startup ----

    method TakeStartup()
      requires Linked() && inflight.Some? && inflight.value.kind == Startup
      modifies this`startupRunning, this`inflight
      ensures Linked() && inflight.None? && Abs() == old(Abs()).(job := None) && writes == [] && explicitLoad.None?
    {
      hide Ticketed;
      startupRunning := false;
      inflight := None;
    }

    lemma StartupCounts()
      requires Linked() && inflight.Some? && inflight.value.kind == Startup
      ensures Abs().job.value.current <==> startupRunning
      ensures startupRunning ==> inflight.value.revision == refreshRevision
    {
      hide Coherent, Ticketed;
    }

    /** `on_startup_result`. */
    method OnStartupResult(revision: nat, result: StartupResult)
      requires Valid() && inflight.Some? && inflight.value.kind == Startup && inflight.value.revision == revision
      requires result.StartLoaded? ==> WellDiscovered(result.discovered) && (result.discovered.cache.Some? ==> hasRoot)
      modifies this
      ensures Valid() && Abs() == Step(old(Abs()), StartupDone(StartupAs(result)))
      ensures history == old(history) + [StartupDone(StartupAs(result))]
      ensures Held() == if old(startupRunning) then AfterStartup(old(Held()), result) else old(Held())
    {
      hide Inv, LedTo, Wired, Coherent, Ticketed, Abs, RunQueued, Started, Held, AfterStartup;
      ghost var s := Abs();
      AbsIs();
      StepInv(s, StartupDone(StartupAs(result)));
      StartupCounts();
      StartupIsFirst();
      if !startupRunning || revision != refreshRevision {
        if startupRunning {
          // the source marks the startup as superseded here: never taken
          assert false;
        }
        TakeStartup();
      } else {
        TakeStartupResult(result);
        AbsIs();
        ScheduleQueuedRefresh();
      }
      Tock(s, StartupDone(StartupAs(result)));
    }

    /** A startup result that counts, up to the queued scan. */
    method TakeStartupResult(result: StartupResult)
      requires Linked() && Inv(Abs()) && inflight.Some? && inflight.value.kind == Startup && startupRunning
      requires result.StartLoaded? ==> WellDiscovered(result.discovered) && (result.discovered.cache.Some? ==> hasRoot)
      modifies this`startupRunning, this`refreshRevision, this`cache, this`cacheHit, this`shardsVerified, this`indexShards,
               this`provenance, this`provenanceStale, this`index, this`indexStarted, this`refreshIntent, this`indexDir,
               this`watcher, this`startupState, this`cacheEpoch, this`writes, this`refreshRunning, this`refreshAgain,
               this`inflight
      ensures Linked() && old(Abs()).job.Some? && Abs() == Started(old(Abs()), StartupAs(result))
      ensures refreshAgain ==> refreshIntent != AwaitingBuild
      ensures Held() == AfterStartup(old(Held()), result)
    {
      hide Inv, Wired, Coherent, Ticketed, Abs, Scan, Held, WithDiscovered;
      ghost var w := inflight.value;
      AbsIs();
      StartupIsFirst();
      TakeStartup();
      match result {
        case StartLoaded(discovered, watched) =>
          AdoptDiscovered(discovered, watched, w.started);
        case StartNoIndex =>
          SetStartupState(NoIndex);
        case StartError =>
          SetStartupState(StartFailed);
      }
    }

    /** While the startup worker runs nothing else has been learned or asked for. */
    lemma StartupIsFirst()
      requires Linked() && Inv(Abs()) && inflight.Some? && inflight.value.kind == Startup
      ensures !refreshAgain && index.None? && !watcher && indexDir.None?
    {
      hide Ticketed;
    }

    method SetStartupState(state: StartupState)
      requires Wired() && state != Superseded
      modifies this`startupState
      ensures Wired() && Held() == old(Held()).(startup := state)
    {
      startupState := state;
    }

    /** `adopt_discovered`: the first generation, verified or found in the cache. */
    method AdoptDiscovered(d: Discovered, watched: bool, ghost started: nat)
      requires Linked() && inflight.None? && explicitLoad.None? && writes == [] && !watcher
      requires WellDiscovered(d) && (d.cache.Some? ==> hasRoot)
      modifies this`refreshRevision, this`cache, this`cacheHit, this`shardsVerified, this`indexShards, this`provenance,
               this`provenanceStale, this`index, this`indexStarted, this`refreshIntent, this`indexDir, this`watcher,
               this`startupState, this`cacheEpoch, this`writes, this`refreshRunning, this`refreshAgain, this`inflight
      ensures Linked()
      ensures var installed := old(Abs()).(index := Some(Published(d.index, d.shards, started)), located := true,
                                           watching := watched, cached := d.cache.Some?,
                                           intent := if d.verified then Idle else Retry);
              Abs() == (if d.cacheHit then Scan(installed, false) else installed) && refreshIntent != AwaitingBuild
      ensures Held() == WithDiscovered(old(Held()), d)
    {
      hide Wired, Coherent, Ticketed, Abs, Ordered, Scan, Held;
      Adopt(d, watched, started);
      NoWritesTicketed();
      if cacheHit {
        ScheduleIndexRefresh(false, false);
      } else if cache.Some? {
        WriteCacheAsync();
      }
    }

    /** Everything adoption records, before it asks for more work. */
    method Adopt(d: Discovered, watched: bool, ghost started: nat)
      requires Linked() && inflight.None? && explicitLoad.None? && WellDiscovered(d) && (d.cache.Some? ==> hasRoot)
      modifies this`refreshRevision, this`cache, this`cacheHit, this`shardsVerified, this`indexShards, this`provenance,
               this`provenanceStale, this`index, this`indexStarted, this`refreshIntent, this`indexDir, this`watcher,
               this`startupState
      ensures Wired() && Coherent() && cacheHit == d.cacheHit && cache == d.cache && index.Some?
      ensures Abs() == old(Abs()).(index := Some(Published(d.index, d.shards, started)), located := true,
                                   watching := watched, cached := d.cache.Some?,
                                   intent := if d.verified then Idle else Retry)
      ensures refreshIntent != AwaitingBuild && refreshRevision == old(refreshRevision) + 1
      ensures Held() == WithDiscovered(old(Held()), d).(epoch := old(Held()).epoch, writes := old(Held()).writes)
    {
      hide Wired, Coherent, Ticketed, Abs, Held;
      NextRevision();
      HeldIs();
      AdoptGeneration(d, started);
      HeldIs();
      Settle(d, watched);
      HeldIs();
    }

    method Settle(d: Discovered, watched: bool)
      requires Wired() && inflight.None?
      modifies this`cacheHit, this`shardsVerified, this`refreshIntent, this`indexDir, this`watcher, this`startupState
      ensures Wired() && refreshIntent != AwaitingBuild
      ensures Held() == old(Held()).(cacheHit := d.cacheHit, verified := d.verified, dir := Some(d.dir), startup := Ready)
      ensures Abs() == old(Abs()).(located := true, watching := watched, intent := if d.verified then Idle else Retry)
    {
      hide Wired, Abs, Held;
      RecordOrigin(d);
      SetIntent(if d.verified then Idle else Retry);
      Locate(d.dir, watched);
      SetStartupState(Ready);
    }

    method RecordOrigin(d: Discovered)
      modifies this`cacheHit, this`shardsVerified
      ensures cacheHit == d.cacheHit && Held() == old(Held()).(cacheHit := d.cacheHit, verified := d.verified)
    {
      cacheHit := d.cacheHit;
      shardsVerified := d.verified;
    }

    lemma NoWritesTicketed()
      requires writes == []
      ensures Ticketed()
    {
    }

    method NextRevision()
      requires Wired() && Coherent() && inflight.None? && explicitLoad.None?
      modifies this`refreshRevision
      ensures Wired() && Coherent() && Abs() == old(Abs()) && refreshRevision == old(refreshRevision) + 1
    {
      refreshRevision := refreshRevision + 1;
    }

    method AdoptGeneration(d: Discovered, ghost started: nat)
      requires inflight.None? && WellDiscovered(d) && (d.cache.Some? ==> hasRoot)
      modifies this`cache, this`indexShards, this`provenance, this`provenanceStale, this`index, this`indexStarted
      ensures Coherent() && cache == d.cache
      ensures index == Some(d.index) && indexShards == Some(d.shards) && provenance == d.key && !provenanceStale
      ensures Abs() == old(Abs()).(index := Some(Published(d.index, d.shards, started)), cached := d.cache.Some?)
    {
      cache := d.cache;
      indexShards := Some(d.shards);
      provenance := d.key;
      provenanceStale := false;
      index := Some(d.index);
      indexStarted := started;
    }

    // ---- what holds of every run ----

    /** Worker exclusion: the flags exclude each other, a set flag means one worker in
        flight, and a pending request is the request of that worker. */
    lemma FlagsExcludeEachOther()
      requires Valid()
      ensures !(startupRunning && refreshRunning) && !(startupRunning && explicitLoadRunning)
      ensures !(refreshRunning && explicitLoadRunning)
      ensures startupRunning || refreshRunning || explicitLoadRunning ==> inflight.Some?
      ensures explicitLoad.Some? ==> explicitLoadRunning && inflight.value.kind == Explicit(explicitLoad.value)
                                     && inflight.value.revision == refreshRevision
      ensures startupRunning ==> inflight.value.revision == refreshRevision
    {
      hide Coherent, Ticketed, Inv, LedTo;
    }

    /** The index and manifest published are what the last result that counted brought, unless
        the workspace moved or a scan found nothing since. */
    lemma IndexIsLastLoaded()
      requires Valid()
      ensures var published := if index.None? then None
                               else Some(Published(index.value, indexShards.value, indexStarted));
              IsLastPut(hasRoot, history, published)
    {
      hide Wired, Ticketed, Inv;
      IndexIsLastResult(hasRoot, history);
    }

    /** The published index came from a worker started after the last workspace move. */
    lemma IndexIsNotStale()
      requires Valid() && index.Some?
      ensures forall k :: indexStarted <= k < |history| ==> history[k] != WorkspaceMoved
    {
      hide Wired, Ticketed, Inv;
      PublishedIsNotStale(hasRoot, history);
    }

    /** Unless a load is still pending, every request received has been answered once;
        after shutdown none is pending, so a clean exit leaves no request unanswered. */
    lemma AllRequestsAnswered()
      requires Valid()
      ensures shutdownRequested || explicitLoad.None? ==> Requested(history) == Answered(sent)
      ensures explicitLoad.Some? ==> Requested(history) == Answered(sent) + multiset{explicitLoad.value}
    {
      hide Coherent, Ticketed, Inv;
      EveryRequestAnsweredOnce(hasRoot, history);
      assert explicitLoad.Some? ==> Pending(Abs()) == explicitLoad;
      assert explicitLoad.None? ==> Pending(Abs()) == None;
    }

    /** A call for a scan is covered by a scan started since, or one is queued behind a
        worker that is running, unless the workspace has moved. Moreover it was settled by
        a result that counted, or a scan that counts is running or queued, or the next
        tick retries; and a scan started since counts and is running, is queued, or was
        delivered while it counted. */
    lemma ScanIsNotForgotten(k: nat)
      requires Valid() && k < |history| && Legal(hasRoot, history[..k])
      requires CallsForScan(After(hasRoot, history[..k]), history[k])
      requires forall m :: k < m < |history| ==> history[m] != WorkspaceMoved
      ensures || (exists m :: k < m <= |history| && Legal(hasRoot, history[..m])
                              && ScanRunningSince(After(hasRoot, history[..m]), k))
              || (refreshAgain && (refreshRunning || explicitLoadRunning))
      ensures || (exists m :: k < m < |history| && Legal(hasRoot, history[..m])
                              && Lifecycle.Counts(After(hasRoot, history[..m]), history[m], k))
              || (refreshRunning && Counts(inflight.value) && inflight.value.started >= k)
              || (refreshAgain && (refreshRunning || explicitLoadRunning))
              || refreshIntent == Retry
      ensures || (exists m :: k < m < |history| && Legal(hasRoot, history[..m])
                              && Delivers(After(hasRoot, history[..m]), history[m], k))
              || (refreshRunning && Counts(inflight.value) && inflight.value.started >= k)
              || (refreshAgain && (refreshRunning || explicitLoadRunning))
    {
      hide Coherent, Ticketed, ScanRunningSince, CallsForScan, Legal, After, Lifecycle.Counts, Delivers;
      assert Legal(hasRoot, history) && Abs() == After(hasRoot, history);
      NoLostWakeUp(hasRoot, history, k);
      CallIsServed(hasRoot, history, k);
      EveryCallIsScanned(hasRoot, history, k);
    }

    /** A cache write that is still current writes the published index. */
    lemma CurrentWriteIsPublished(j: nat)
      requires Valid() && j < |writes| && writes[j].ticket == cacheEpoch
      ensures index == Some(writes[j].index) && indexShards == Some(writes[j].cache.shards)
      ensures provenance == Some(writes[j].cache.key) && j == |writes| - 1
    {
      hide Wired, Inv, LedTo;
      assert writes[|writes| - 1].ticket >= writes[j].ticket;
    }
  }
}
