/** What the index generation life cycle of the event loop is meant to do
    (crates/jabar-server/src/server.rs:833-993, 1061-1159, 1569-1693).

    There is at most one generation worker, and its result either still counts or
    has been overtaken. The server itself juggles three running flags and a revision
    counter to achieve this; module Server shows that it behaves exactly like this
    machine. Everything here is about whole runs: a state carries how many events
    have been handled, so a worker remembers at which event it was started. */
module Lifecycle {
  import opened Wrappers

  type RequestId = nat
  type Shards = seq<nat>

  /** A loaded index with its shard manifest, and when its worker was started. */
  datatype Published = Published(index: nat, shards: Shards, started: nat)

  datatype Kind = Startup | Refresh | Explicit(id: RequestId)

  /** A worker in flight, or its undelivered result. `current`: it will be used.
      `forced`: it must load even when the shards look unchanged. */
  datatype Job = Job(kind: Kind, current: bool, started: nat, forced: bool)

  datatype Intent = Idle | Retry | AwaitingBuild

  datatype Reply = Done | Refused | Failed | Cancelled | ContentModified

  datatype Response = Response(id: RequestId, reply: Reply)

  datatype State = State(
    job: Option<Job>,
    again: bool,               // a further scan is wanted once the worker returns
    intent: Intent,
    index: Option<Published>,
    located: bool,             // it is known where the shards are
    watching: bool,
    cached: bool,
    stopping: bool,            // shutdown was requested
    sent: seq<Response>,
    time: Time)

  /** Events handled so far, and up to and including the last workspace move. */
  datatype Time = Time(clock: nat, lastMove: nat)

  datatype StartupOutcome =
    | StartupLoaded(index: nat, shards: Shards, watched: bool, cached: bool, cacheHit: bool, verified: bool)
    | StartupEmpty   // no index, or a failure

  datatype RefreshOutcome = Unchanged | Emptied | Reloaded(index: nat, shards: Shards) | RefreshFailed

  datatype ExplicitOutcome = Loaded(index: nat, shards: Shards, watched: bool) | LoadFailed

  datatype Event =
    | LoadIndex(id: RequestId, wellFormed: bool)
    | OtherRequest(id: RequestId)
    | Shutdown(id: RequestId)
    | ShardsChanged
    | WorkspaceMoved
    | WatcherLost
    | Tick
    | StartupDone(startup: StartupOutcome)
    | RefreshDone(refresh: RefreshOutcome)
    | ExplicitDone(explicit: ExplicitOutcome)

  // ---- one step ----

  function Launch(s: State, kind: Kind): State {
    s.(job := Some(Job(kind, true, s.time.clock, s.index.None?)))
  }

  /** Asks for a scan. `changed`: the disk is known to have moved on, so a scan that
      is already running does not count. */
  function Scan(s: State, changed: bool): (t: State)
    ensures t.time == s.time && t.sent == s.sent && Pending(t) == Pending(s)
  {
    if !s.located then s
    else if s.job.None? then Launch(s, Refresh)
    else if !changed then s
    else if s.job.value.kind == Refresh then s.(again := true, job := Some(s.job.value.(current := false)))
    else s.(again := true)
  }

  function RunQueued(s: State): (t: State)
    ensures t.time == s.time && t.sent == s.sent && Pending(t) == Pending(s)
  {
    if s.again then Scan(s.(again := false), false) else s
  }

  function Answer(s: State, id: RequestId, reply: Reply): State {
    s.(sent := s.sent + [Response(id, reply)])
  }

  /** The pending load request, if its worker's result still counts. */
  function Pending(s: State): Option<RequestId> {
    if s.job.Some? && s.job.value.kind.Explicit? && s.job.value.current then Some(s.job.value.kind.id) else None
  }

  function CancelExplicit(s: State): State {
    match Pending(s)
    case Some(id) => Answer(s.(job := Some(s.job.value.(current := false))), id, Cancelled)
    case None => s
  }

  /** Results come from the worker in flight, watcher events from a live watcher, and
      a worker that must load never reports that nothing changed. */
  predicate Enabled(s: State, e: Event) {
    match e
    case ShardsChanged => s.watching
    case WorkspaceMoved => s.watching
    case WatcherLost => s.watching
    case StartupDone(outcome) => s.job.Some? && s.job.value.kind == Startup
        && (outcome.StartupLoaded? ==> (outcome.cacheHit ==> outcome.cached) && (outcome.verified <==> !outcome.cacheHit))
    case RefreshDone(outcome) => s.job.Some? && s.job.value.kind == Refresh
        && (outcome == Unchanged ==> !s.job.value.forced)
    case ExplicitDone(_) => s.job.Some? && s.job.value.kind.Explicit?
    case _ => true
  }

  function OnLoadIndex(s: State, id: RequestId, wellFormed: bool): (t: State)
    ensures t.time == s.time
  {
    if s.stopping || !wellFormed || s.job.Some? then Answer(s, id, Refused) else Launch(s, Explicit(id))
  }

  function OnShutdown(s: State, id: RequestId): (t: State)
    ensures t.time == s.time
  {
    Answer(StopStartup(CancelExplicit(s)).(stopping := true), id, Done)
  }

  function StopStartup(s: State): State {
    if s.job.Some? && s.job.value.kind == Startup then s.(job := Some(s.job.value.(current := false))) else s
  }

  function OnMove(s: State): (t: State)
    ensures t.time == Time(s.time.clock, s.time.clock + 1)
  {
    var c := CancelExplicit(s);
    c.(index := None, intent := AwaitingBuild, again := false, time := s.time.(lastMove := s.time.clock + 1),
       job := if c.job.Some? then Some(c.job.value.(current := false)) else None)
  }

  /** It makes no difference that the server drops the index before it cancels. */
  lemma MoveOrder(s: State)
    ensures var c := CancelExplicit(s.(index := None));
            && OnMove(s) == c.(intent := AwaitingBuild, again := false, time := c.time.(lastMove := c.time.clock + 1),
                               job := if c.job.Some? then Some(c.job.value.(current := false)) else None)
            && c.job.Some? == s.job.Some?
  {
  }

  function OnTick(s: State): (t: State)
    ensures t.time == s.time
  {
    if s.intent != AwaitingBuild && (s.cached || s.intent == Retry) then Scan(s, false) else s
  }

  function OnStartup(s: State, outcome: StartupOutcome): (t: State)
    requires s.job.Some?
    ensures t.time == s.time
  {
    if s.job.value.current then RunQueued(Started(s, outcome)) else s.(job := None)
  }

  /** What comes from the cache is not verified yet, and is scanned at once. */
  function Started(s: State, outcome: StartupOutcome): (t: State)
    requires s.job.Some?
    ensures t.time == s.time
  {
    match outcome
    case StartupEmpty => s.(job := None)
    case StartupLoaded(index, shards, watched, cached, cacheHit, verified) =>
      var installed := s.(job := None, index := Some(Published(index, shards, s.job.value.started)), located := true,
                          watching := watched, cached := cached, intent := if verified then Idle else Retry);
      if cacheHit then Scan(installed, false) else installed
  }

  function OnRefresh(s: State, outcome: RefreshOutcome): (t: State)
    requires s.job.Some?
    ensures t.time == s.time
  {
    RunQueued(Refreshed(s, outcome))
  }

  function Refreshed(s: State, outcome: RefreshOutcome): (t: State)
    requires s.job.Some?
    ensures t.time == s.time && t.sent == s.sent && t.job == None
  {
    var job, free := s.job.value, s.(job := None);
    if !job.current then free else
    match outcome
    case Unchanged => free.(intent := Idle)
    case Emptied => free.(index := None, intent := Idle)
    case Reloaded(index, shards) => free.(index := Some(Published(index, shards, job.started)), intent := Idle)
    case RefreshFailed => free.(intent := Retry)
  }

  function OnExplicit(s: State, outcome: ExplicitOutcome): (t: State)
    requires s.job.Some? && s.job.value.kind.Explicit?
    ensures t.time == s.time
  {
    RunQueued(LoadAnswered(s, outcome))
  }

  function LoadAnswered(s: State, outcome: ExplicitOutcome): (t: State)
    requires s.job.Some? && s.job.value.kind.Explicit?
    ensures t.time == s.time && t.job == None
  {
    var job, free := s.job.value, s.(job := None);
    if !job.current then free else
    match outcome
    case Loaded(index, shards, watched) =>
      Answer(free.(index := Some(Published(index, shards, job.started)), cached := false, intent := Idle,
                   located := true, watching := watched), job.kind.id, Done)
    case LoadFailed => Answer(free, job.kind.id, Failed)
  }

  function React(s: State, e: Event): (t: State)
    requires Enabled(s, e)
    ensures t.time == if e == WorkspaceMoved then Time(s.time.clock, s.time.clock + 1) else s.time
  {
    match e
    case LoadIndex(id, wellFormed) => OnLoadIndex(s, id, wellFormed)
    case OtherRequest(id) => Answer(s, id, if s.stopping then Refused else Done)
    case Shutdown(id) => OnShutdown(s, id)
    case ShardsChanged => Scan(s.(intent := Retry), true)
    case WorkspaceMoved => OnMove(s)
    case WatcherLost => if s.intent == AwaitingBuild then s else Scan(s.(intent := Retry), true)
    case Tick => OnTick(s)
    case StartupDone(outcome) => OnStartup(s, outcome)
    case RefreshDone(outcome) => OnRefresh(s, outcome)
    case ExplicitDone(outcome) => OnExplicit(s, outcome)
  }

  function Step(s: State, e: Event): State
    requires Enabled(s, e)
  {
    Passed(React(s, e))
  }

  /** One more event has been handled. */
  function Passed(s: State): State {
    s.(time := s.time.(clock := s.time.clock + 1))
  }

  /** How `run_server` enters the loop: with a startup worker when there is a workspace. */
  function Start(hasWorkspace: bool): State {
    var idle := State(None, false, Idle, None, false, false, false, false, [], Time(0, 0));
    if hasWorkspace then Launch(idle, Startup) else idle
  }

  // ---- the invariant ----

  ghost predicate Inv(s: State) {
    && (s.job.Some? ==> s.job.value.started <= s.time.clock)
    && (s.index.Some? ==> s.time.lastMove <= s.index.value.started <= s.time.clock)
    && s.time.lastMove <= s.time.clock
    && (s.job.Some? && s.job.value.current ==> s.time.lastMove <= s.job.value.started)
    // only the first worker is a startup worker, and nothing else is known beside it
    && (s.job.Some? && s.job.value.kind == Startup ==>
          !s.located && !s.again && s.intent == Idle && s.index.None? && (s.job.value.current <==> !s.stopping))
    && (s.watching ==> s.located)
    && (s.index.Some? ==> s.located)
    && (s.again ==> s.located && s.job.Some?)
    && (s.intent == Retry ==> s.located)
    && (s.intent == AwaitingBuild ==> s.index.None? && !s.again)
    && (s.job.Some? && s.job.value.kind == Refresh ==> s.located)
    && (s.job.Some? && s.job.value.kind == Refresh && s.job.value.current ==>
          s.intent != AwaitingBuild && !s.again && (s.index.None? ==> s.job.value.forced))
    && (s.job.Some? && s.job.value.kind.Explicit? && s.job.value.current ==> !s.stopping)
  }

  lemma StartInv(hasWorkspace: bool)
    ensures Inv(Start(hasWorkspace))
  {
  }

  lemma ScanInv(s: State, changed: bool)
    requires Inv(s) && s.intent != AwaitingBuild
    ensures Inv(Scan(s, changed))
  {
  }

  /** With the worker gone, running the queued scan restores the invariant. */
  lemma RunQueuedInv(s: State)
    requires Inv(s.(again := false)) && s.job.None?
    requires s.again ==> s.located && s.intent != AwaitingBuild
    ensures Inv(RunQueued(s))
  {
    if s.again {
      ScanInv(s.(again := false), false);
    }
  }

  lemma ClockInv(s: State)
    requires Inv(s)
    ensures Inv(Passed(s))
  {
  }

  lemma CancelInv(s: State)
    requires Inv(s)
    ensures Inv(CancelExplicit(s))
    ensures CancelExplicit(s).stopping == s.stopping
    ensures Pending(CancelExplicit(s)) == None
  {
  }

  lemma RequestInv(s: State, e: Event)
    requires Inv(s) && (e.LoadIndex? || e.OtherRequest? || e.Shutdown?)
    ensures Inv(React(s, e))
  {
    if e.Shutdown? {
      CancelInv(s);
      hide CancelExplicit;
      StopInv(CancelExplicit(s), e.id);
    }
  }

  lemma StopInv(c: State, id: RequestId)
    requires Inv(c) && Pending(c) == None
    ensures Inv(Answer(StopStartup(c).(stopping := true), id, Done))
  {
  }

  lemma StartupInv(s: State, e: Event)
    requires Inv(s) && e.StartupDone? && Enabled(s, e)
    ensures Inv(React(s, e))
  {
    if e.startup.StartupLoaded? && s.job.value.current {
      var installed := s.(job := None, index := Some(Published(e.startup.index, e.startup.shards, s.job.value.started)),
                          located := true, watching := e.startup.watched, cached := e.startup.cached,
                          intent := if e.startup.verified then Idle else Retry);
      ScanInv(installed, false);
    }
  }

  lemma RefreshInv(s: State, e: Event)
    requires Inv(s) && e.RefreshDone? && Enabled(s, e)
    ensures Inv(React(s, e))
  {
    RefreshedInv(s, e);
    hide Inv, Refreshed, Enabled, Scan;
    RunQueuedInv(Refreshed(s, e.refresh));
  }

  lemma RefreshedInv(s: State, e: Event)
    requires Inv(s) && e.RefreshDone? && Enabled(s, e)
    ensures var r := Refreshed(s, e.refresh);
            Inv(r.(again := false)) && r.job.None? && (r.again ==> r.located && r.intent != AwaitingBuild)
  {
  }

  lemma ExplicitInv(s: State, e: Event)
    requires Inv(s) && e.ExplicitDone? && Enabled(s, e)
    ensures Inv(React(s, e))
  {
    LoadAnsweredInv(s, e);
    hide Inv, LoadAnswered, Enabled, Scan;
    RunQueuedInv(LoadAnswered(s, e.explicit));
  }

  lemma LoadAnsweredInv(s: State, e: Event)
    requires Inv(s) && e.ExplicitDone? && Enabled(s, e)
    ensures s.job.value.kind.Explicit?
    ensures var r := LoadAnswered(s, e.explicit);
            Inv(r.(again := false)) && r.job.None? && (r.again ==> r.located && r.intent != AwaitingBuild)
  {
  }

  lemma MoveInv(s: State)
    requires Inv(s) && Enabled(s, WorkspaceMoved)
    ensures Inv(Step(s, WorkspaceMoved))
  {
  }

  /** Every step keeps the invariant. */
  lemma StepInv(s: State, e: Event)
    requires Inv(s) && Enabled(s, e)
    ensures Inv(Step(s, e))
  {
    hide React, Inv, Enabled;
    match e
    case WorkspaceMoved => MoveInv(s);
    case StartupDone(_) => StartupInv(s, e); ClockInv(React(s, e));
    case RefreshDone(_) => RefreshInv(s, e); ClockInv(React(s, e));
    case ExplicitDone(_) => ExplicitInv(s, e); ClockInv(React(s, e));
    case LoadIndex(_, _) => RequestInv(s, e); ClockInv(React(s, e));
    case OtherRequest(_) => RequestInv(s, e); ClockInv(React(s, e));
    case Shutdown(_) => RequestInv(s, e); ClockInv(React(s, e));
    case ShardsChanged => ScanEventInv(s, e); ClockInv(React(s, e));
    case WatcherLost => ScanEventInv(s, e); ClockInv(React(s, e));
    case Tick => ScanEventInv(s, e); ClockInv(React(s, e));
  }

  lemma ScanEventInv(s: State, e: Event)
    requires Inv(s) && Enabled(s, e) && (e.ShardsChanged? || e.WatcherLost? || e.Tick?)
    ensures Inv(React(s, e))
  {
    if s.intent != AwaitingBuild || e.ShardsChanged? {
      if !e.Tick? {
        ScanInv(s.(intent := Retry), true);
      } else {
        ScanInv(s, false);
      }
    }
  }

  // ---- runs ----

  /** Every event of the run could happen when it did. */
  ghost predicate Legal(hasWorkspace: bool, run: seq<Event>)
    decreases |run|, 0
  {
    run != [] ==>
      && Legal(hasWorkspace, run[..|run| - 1])
      && Enabled(After(hasWorkspace, run[..|run| - 1]), run[|run| - 1])
  }

  ghost function After(hasWorkspace: bool, run: seq<Event>): State
    requires Legal(hasWorkspace, run)
    decreases |run|, 1
  {
    if run == [] then Start(hasWorkspace)
    else Step(After(hasWorkspace, run[..|run| - 1]), run[|run| - 1])
  }

  /** Every beginning of a run is a run, so naming the state in its middle asks nothing. */
  lemma {:induction false} PrefixIsLegal(hasWorkspace: bool, run: seq<Event>, k: nat)
    requires Legal(hasWorkspace, run) && k <= |run|
    ensures Legal(hasWorkspace, run[..k])
  {
    hide Enabled, Step;
    if k == |run| {
      assert run[..k] == run;
    } else {
      PrefixIsLegal(hasWorkspace, run[..|run| - 1], k);
      assert run[..|run| - 1][..k] == run[..k];
    }
  }

  lemma StepClock(s: State, e: Event)
    requires Enabled(s, e)
    ensures Step(s, e).time.clock == s.time.clock + 1
    ensures Step(s, e).time.lastMove == if e == WorkspaceMoved then s.time.clock + 1 else s.time.lastMove
  {
    hide React;
  }

  lemma RunGrows(hasWorkspace: bool, run: seq<Event>, e: Event)
    requires Legal(hasWorkspace, run) && Enabled(After(hasWorkspace, run), e)
    ensures Legal(hasWorkspace, run + [e])
    ensures After(hasWorkspace, run + [e]) == Step(After(hasWorkspace, run), e)
  {
    hide Inv, Step, Enabled, Start;
    assert (run + [e])[..|run|] == run;
  }

  lemma {:induction false} AfterInv(hasWorkspace: bool, run: seq<Event>)
    requires Legal(hasWorkspace, run)
    ensures Inv(After(hasWorkspace, run)) && After(hasWorkspace, run).time.clock == |run|
    ensures forall k :: After(hasWorkspace, run).time.lastMove <= k < |run| ==> run[k] != WorkspaceMoved
  {
    hide Inv, Step, Enabled, Start;
    StartInv(hasWorkspace);
    if run == [] {
      StartClock(hasWorkspace);
    } else {
      var cut := |run| - 1;
      AfterInv(hasWorkspace, run[..cut]);
      StepInv(After(hasWorkspace, run[..cut]), run[cut]);
      StepClock(After(hasWorkspace, run[..cut]), run[cut]);
      InvBounds(After(hasWorkspace, run[..cut]));
    }
  }

  lemma StartClock(hasWorkspace: bool)
    ensures Start(hasWorkspace).time.clock == 0
  {
  }

  lemma InvBounds(s: State)
    requires Inv(s)
    ensures s.time.lastMove <= s.time.clock
  {
  }

  /** Publication safety: whatever index is published, its worker was started after
      the last time the workspace moved. */
  lemma PublishedIsNotStale(hasWorkspace: bool, run: seq<Event>)
    requires Legal(hasWorkspace, run)
    ensures var index := After(hasWorkspace, run).index;
            index.Some? ==> forall k :: index.value.started <= k < |run| ==> run[k] != WorkspaceMoved
  {
    AfterInv(hasWorkspace, run);
  }

  /** While a build is awaited there is no index, no queued scan, and no scan whose
      result would count; only a shard event or a load asked for by the client ends it. */
  lemma AwaitingBuildHolds(s: State, e: Event)
    requires Inv(s) && Enabled(s, e) && s.intent == AwaitingBuild
    ensures s.index == None && !s.again && (s.job.Some? && s.job.value.kind == Refresh ==> !s.job.value.current)
    ensures Step(s, e).intent == AwaitingBuild <==>
            e != ShardsChanged && !(e.ExplicitDone? && e.explicit.Loaded? && s.job.value.current)
    ensures Step(s, e).intent == AwaitingBuild && Step(s, e).job.Some? && Step(s, e).job.value.kind == Refresh ==>
              Step(s, e).job == s.job
  {
  }

  // ---- what is published ----

  /** A refresh whose result counts publishes exactly what it loaded, with the time it was
      started, or drops the index when there is nothing left to load. */
  lemma RefreshPublishes(s: State, e: Event)
    requires Inv(s) && Enabled(s, e) && e.RefreshDone?
    ensures var t := Step(s, e);
            && t.located && t.watching == s.watching && t.cached == s.cached
            && match e.refresh
               case Reloaded(i, shards) =>
                 t.index == if s.job.value.current then Some(Published(i, shards, s.job.value.started)) else s.index
               case Emptied => t.index == if s.job.value.current then None else s.index
               case Unchanged => t.index == s.index
               case RefreshFailed => t.index == s.index
  {
  }

  /** A load asked for by the client publishes what it loaded, says where it came from and
      leaves no cache entry; one that failed or was overtaken changes nothing of that. */
  lemma LoadPublishes(s: State, e: Event)
    requires Inv(s) && Enabled(s, e) && e.ExplicitDone?
    ensures var t := Step(s, e);
            if s.job.value.current && e.explicit.Loaded? then
              && t.index == Some(Published(e.explicit.index, e.explicit.shards, s.job.value.started))
              && t.located && t.watching == e.explicit.watched && !t.cached
            else
              && t.index == s.index && t.located == s.located && t.watching == s.watching && t.cached == s.cached
  {
  }

  /** The startup worker's generation is published with what is known of its origin. */
  lemma StartupPublishes(s: State, e: Event)
    requires Inv(s) && Enabled(s, e) && e.StartupDone?
    ensures var t := Step(s, e);
            if s.job.value.current && e.startup.StartupLoaded? then
              && t.index == Some(Published(e.startup.index, e.startup.shards, s.job.value.started))
              && t.located && t.watching == e.startup.watched && t.cached == e.startup.cached
            else
              && t.index == s.index && t.located == s.located && t.watching == s.watching && t.cached == s.cached
  {
  }

  /** Nothing else publishes, and only a workspace move withdraws. */
  lemma NothingElsePublishes(s: State, e: Event)
    requires Inv(s) && Enabled(s, e) && !Returns(e)
    ensures Step(s, e).index == if e == WorkspaceMoved then None else s.index
    ensures Step(s, e).located == s.located && Step(s, e).watching == s.watching && Step(s, e).cached == s.cached
  {
  }

  /** What this event puts in the place of the published index, if it does: the payload of
      a result that counts, or nothing. */
  function Puts(s: State, e: Event): Option<Option<Published>> {
    if e == WorkspaceMoved then Some(None)
    else if s.job.None? || !s.job.value.current then None
    else
      var started := s.job.value.started;
      match e
      case StartupDone(StartupLoaded(i, shards, _, _, _, _)) => Some(Some(Published(i, shards, started)))
      case RefreshDone(Reloaded(i, shards)) => Some(Some(Published(i, shards, started)))
      case RefreshDone(Emptied) => Some(None)
      case ExplicitDone(Loaded(i, shards, _)) => Some(Some(Published(i, shards, started)))
      case _ => None
  }

  lemma StepPuts(s: State, e: Event)
    requires Inv(s) && Enabled(s, e)
    ensures Step(s, e).index == match Puts(s, e) case Some(index) => index case None => s.index
  {
    hide Step, Inv, Enabled;
    match e
    case StartupDone(_) => JobOf(s, e); StartupPublishes(s, e);
    case RefreshDone(_) => JobOf(s, e); RefreshPublishes(s, e);
    case ExplicitDone(_) => JobOf(s, e); LoadPublishes(s, e);
    case _ => NothingElsePublishes(s, e);
  }

  lemma JobOf(s: State, e: Event)
    requires Enabled(s, e) && Returns(e)
    ensures s.job.Some?
  {
  }

  /** What event `k` of a run put there. */
  ghost function PutBy(hasWorkspace: bool, run: seq<Event>, k: nat): Option<Option<Published>>
    requires Legal(hasWorkspace, run) && k < |run|
  {
    PrefixIsLegal(hasWorkspace, run, k);
    Puts(After(hasWorkspace, run[..k]), run[k])
  }

  lemma PutByPrefix(hasWorkspace: bool, run: seq<Event>, cut: nat, k: nat)
    requires Legal(hasWorkspace, run) && k < cut <= |run| && Legal(hasWorkspace, run[..cut])
    ensures PutBy(hasWorkspace, run[..cut], k) == PutBy(hasWorkspace, run, k)
  {
    hide Legal, After, Puts;
    assert run[..cut][..k] == run[..k];
  }

  /** Event `m` put the published index there, and nothing has been put there since. */
  ghost predicate PutLast(hasWorkspace: bool, run: seq<Event>, m: nat, index: Option<Published>)
    requires Legal(hasWorkspace, run)
  {
    && m < |run| && PutBy(hasWorkspace, run, m) == Some(index)
    && forall k :: m < k < |run| ==> PutBy(hasWorkspace, run, k) == None
  }

  ghost predicate NothingPut(hasWorkspace: bool, run: seq<Event>)
    requires Legal(hasWorkspace, run)
  {
    forall k :: 0 <= k < |run| ==> PutBy(hasWorkspace, run, k) == None
  }

  /** The index is what was put there last, or nothing was ever and there is none. */
  ghost predicate IsLastPut(hasWorkspace: bool, run: seq<Event>, index: Option<Published>)
    requires Legal(hasWorkspace, run)
  {
    (exists m :: PutLast(hasWorkspace, run, m, index)) || (index == None && NothingPut(hasWorkspace, run))
  }

  lemma PutsGrow(hasWorkspace: bool, run: seq<Event>, front: seq<Event>, index: Option<Published>)
    requires Legal(hasWorkspace, run) && run != [] && front == run[..|run| - 1] && Legal(hasWorkspace, front)
    requires PutBy(hasWorkspace, run, |front|) == None && IsLastPut(hasWorkspace, front, index)
    ensures IsLastPut(hasWorkspace, run, index)
  {
    hide Legal, PutBy;
    forall k | 0 <= k < |front|
      ensures PutBy(hasWorkspace, front, k) == PutBy(hasWorkspace, run, k)
    {
      PutByPrefix(hasWorkspace, run, |front|, k);
    }
    if m :| PutLast(hasWorkspace, front, m, index) {
      assert PutLast(hasWorkspace, run, m, index);
    }
  }

  /** Over whole runs the index is the payload of the last result that counted and had one,
      unless the workspace moved or a scan found nothing since; before the first of these
      there is none. */
  lemma {:induction false} IndexIsLastResult(hasWorkspace: bool, run: seq<Event>)
    requires Legal(hasWorkspace, run)
    ensures IsLastPut(hasWorkspace, run, After(hasWorkspace, run).index)
  {
    hide Inv, Step, Enabled, Start, Puts, IsLastPut;
    if run == [] {
      NothingPutYet(hasWorkspace);
    } else {
      var cut := |run| - 1;
      var before := After(hasWorkspace, run[..cut]);
      AfterInv(hasWorkspace, run[..cut]);
      StepPuts(before, run[cut]);
      IndexIsLastResult(hasWorkspace, run[..cut]);
      assert PutBy(hasWorkspace, run, cut) == Puts(before, run[cut]);
      if Puts(before, run[cut]).Some? {
        PutJustNow(hasWorkspace, run);
      } else {
        PutsGrow(hasWorkspace, run, run[..cut], before.index);
      }
    }
  }

  lemma PutJustNow(hasWorkspace: bool, run: seq<Event>)
    requires Legal(hasWorkspace, run) && run != [] && PutBy(hasWorkspace, run, |run| - 1).Some?
    ensures IsLastPut(hasWorkspace, run, PutBy(hasWorkspace, run, |run| - 1).value)
  {
    assert PutLast(hasWorkspace, run, |run| - 1, PutBy(hasWorkspace, run, |run| - 1).value);
  }

  lemma NothingPutYet(hasWorkspace: bool)
    ensures Legal(hasWorkspace, []) && IsLastPut(hasWorkspace, [], Start(hasWorkspace).index)
  {
  }

  // ---- what else each event does ----

  /** A result that is going to be used. */
  predicate Used(s: State, e: Event) {
    Returns(e) && s.job.Some? && s.job.value.current
  }

  /** What the server waits for next: only results that count, watcher events and moves
      change it. */
  lemma IntentFollows(s: State, e: Event)
    requires Inv(s) && Enabled(s, e)
    ensures Step(s, e).intent ==
            match e
            case ShardsChanged => Retry
            case WatcherLost => if s.intent == AwaitingBuild then AwaitingBuild else Retry
            case WorkspaceMoved => AwaitingBuild
            case StartupDone(StartupLoaded(_, _, _, _, _, verified)) =>
              if !Used(s, e) then s.intent else if verified then Idle else Retry
            case RefreshDone(RefreshFailed) => if Used(s, e) then Retry else s.intent
            case RefreshDone(_) => if Used(s, e) then Idle else s.intent
            case ExplicitDone(Loaded(_, _, _)) => if Used(s, e) then Idle else s.intent
            case _ => s.intent
  {
    hide Inv, Scan, RunQueued, CancelExplicit;
    ScanKeeps();
  }

  /** Asking for a scan changes the worker and the queue only; cancelling a load the worker
      and the answers. */
  lemma ScanKeeps()
    ensures forall s, changed :: Scan(s, changed).intent == s.intent && Scan(s, changed).stopping == s.stopping
    ensures forall s :: RunQueued(s).intent == s.intent && RunQueued(s).stopping == s.stopping
    ensures forall s :: CancelExplicit(s).intent == s.intent && CancelExplicit(s).stopping == s.stopping
  {
  }

  /** A well-formed load is started when there is no worker; shutdown overtakes a load and the
      startup worker, and leaves a scan alone. */
  lemma WorkerAfterRequest(s: State, e: Event)
    requires Inv(s) && Enabled(s, e) && (e.LoadIndex? || e.OtherRequest? || e.Shutdown?)
    ensures Step(s, e).job ==
            match e
            case LoadIndex(id, wellFormed) =>
              if s.job.None? && wellFormed && !s.stopping
              then Some(Job(Explicit(id), true, s.time.clock, s.index.None?))
              else s.job
            case Shutdown(_) =>
              if s.job.Some? && s.job.value.kind != Refresh then Some(s.job.value.(current := false)) else s.job
            case _ => s.job
  {
  }

  /** A scan that is due is started when there is no worker; what says that the disk has moved
      on overtakes the scan that runs, and a workspace move overtakes everything. */
  lemma WorkerAfterDiskEvent(s: State, e: Event)
    requires Inv(s) && Enabled(s, e) && (e == ShardsChanged || e == WatcherLost || e == Tick || e == WorkspaceMoved)
    ensures var overtaken := if s.job.Some? then Some(s.job.value.(current := false)) else None;
            var scan := Some(Job(Refresh, true, s.time.clock, s.index.None?));
            Step(s, e).job ==
            if e == WorkspaceMoved then overtaken
            else if e == Tick then
              if s.job.None? && s.located && s.intent != AwaitingBuild && (s.cached || s.intent == Retry) then scan
              else s.job
            else if !s.located || (e == WatcherLost && s.intent == AwaitingBuild) then s.job
            else if s.job.None? then scan
            else if s.job.value.kind == Refresh then overtaken
            else s.job
  {
    hide Inv;
  }

  /** A returning worker is followed by the scan queued behind it, and a generation read from
      the cache by the scan that verifies it; otherwise there is none. */
  lemma ReturnFollows(s: State, e: Event)
    requires Inv(s) && Enabled(s, e) && Returns(e)
    ensures var t := Step(s, e);
            t.job == if s.again || (Used(s, e) && e.StartupDone? && e.startup.StartupLoaded? && e.startup.cacheHit)
                     then Some(Job(Refresh, true, s.time.clock, t.index.None?))
                     else None
  {
    if s.again {
      QueuedScanStarts(s, e);
    } else {
      NothingQueued(s, e);
    }
  }

  lemma NothingQueued(s: State, e: Event)
    requires Inv(s) && Enabled(s, e) && Returns(e) && !s.again
    ensures var t := Step(s, e);
            t.job == if Used(s, e) && e.StartupDone? && e.startup.StartupLoaded? && e.startup.cacheHit
                     then Some(Job(Refresh, true, s.time.clock, t.index.None?))
                     else None
  {
  }

  /** A scan is queued by a shard change or a watcher error behind a running worker, and
      stays so until a worker returns or the workspace moves. */
  lemma QueueFollows(s: State, e: Event)
    requires Inv(s) && Enabled(s, e)
    ensures Step(s, e).again <==> !Returns(e) && e != WorkspaceMoved
                                  && (s.again || (CallsForScan(s, e) && s.located && s.job.Some?))
  {
    if Returns(e) && s.again {
      QueuedScanStarts(s, e);
    }
  }

  /** Shutdown is remembered. */
  lemma StoppingFollows(s: State, e: Event)
    requires Inv(s) && Enabled(s, e)
    ensures Step(s, e).stopping == (s.stopping || e.Shutdown?)
  {
    hide Inv, Scan, RunQueued, CancelExplicit;
    ScanKeeps();
  }

  /** The answers, one by one. */
  lemma AnswersFollow(s: State, e: Event)
    requires Inv(s) && Enabled(s, e)
    ensures var cancelled := if Pending(s).Some? then [Response(Pending(s).value, Cancelled)] else [];
            Step(s, e).sent == s.sent +
            match e
            case LoadIndex(id, wellFormed) =>
              if s.job.None? && wellFormed && !s.stopping then [] else [Response(id, Refused)]
            case OtherRequest(id) => [Response(id, if s.stopping then Refused else Done)]
            case Shutdown(id) => cancelled + [Response(id, Done)]
            case WorkspaceMoved => cancelled
            case ExplicitDone(outcome) =>
              if Used(s, e) then [Response(s.job.value.kind.id, if outcome.Loaded? then Done else Failed)] else []
            case _ => []
  {
    hide Inv, Scan, RunQueued, CancelExplicit, OnStartup, OnRefresh, OnTick;
    CancelAnswersOne(s);
    assert s.sent + [] == s.sent;
    match e
    case Shutdown(id) => ShutdownAnswersTwo(s, id);
    case StartupDone(_) => OthersAnswerNothing(s, e);
    case RefreshDone(_) => OthersAnswerNothing(s, e);
    case ShardsChanged => OthersAnswerNothing(s, e);
    case WatcherLost => OthersAnswerNothing(s, e);
    case Tick => OthersAnswerNothing(s, e);
    case _ =>
  }

  lemma ShutdownAnswersTwo(s: State, id: RequestId)
    ensures OnShutdown(s, id).sent
            == s.sent + ((if Pending(s).Some? then [Response(Pending(s).value, Cancelled)] else []) + [Response(id, Done)])
  {
    CancelAnswersOne(s);
  }

  lemma CancelAnswersOne(s: State)
    ensures CancelExplicit(s).sent
            == s.sent + if Pending(s).Some? then [Response(Pending(s).value, Cancelled)] else []
  {
    assert s.sent + [] == s.sent;
  }

  predicate EvidenceOfBuild(e: Event) {
    e == ShardsChanged || (e.ExplicitDone? && e.explicit.Loaded?)
  }

  /** After a workspace move the index stays gone until there is evidence of a build,
      however many timers, results, watcher errors and requests come in between. */
  lemma {:induction false} NothingServedUntilBuild(hasWorkspace: bool, run: seq<Event>, m: nat)
    requires Legal(hasWorkspace, run) && m < |run| && run[m] == WorkspaceMoved
    requires forall k :: m < k < |run| ==> !EvidenceOfBuild(run[k])
    ensures After(hasWorkspace, run).intent == AwaitingBuild && After(hasWorkspace, run).index == None
  {
    hide Inv, Step, Enabled, Start;
    var cut := |run| - 1;
    AfterInv(hasWorkspace, run[..cut]);
    if m == cut {
      MoveAwaits(After(hasWorkspace, run[..cut]));
    } else {
      NothingServedUntilBuild(hasWorkspace, run[..cut], m);
      AwaitingBuildHolds(After(hasWorkspace, run[..cut]), run[cut]);
      StepInv(After(hasWorkspace, run[..cut]), run[cut]);
      AwaitingHasNoIndex(After(hasWorkspace, run));
    }
  }

  lemma MoveAwaits(s: State)
    requires Enabled(s, WorkspaceMoved)
    ensures Step(s, WorkspaceMoved).intent == AwaitingBuild && Step(s, WorkspaceMoved).index == None
  {
  }

  lemma AwaitingHasNoIndex(s: State)
    requires Inv(s) && s.intent == AwaitingBuild
    ensures s.index == None
  {
  }

  // ---- no lost wake-up ----

  /** The event calls for a scan of the shards. */
  predicate CallsForScan(s: State, e: Event) {
    e == ShardsChanged || (e == WatcherLost && s.intent != AwaitingBuild)
  }

  ghost predicate ScanRunningSince(s: State, k: nat) {
    s.job.Some? && s.job.value.kind == Refresh && s.job.value.started >= k
  }

  /** A call for a scan starts one or queues one behind the running worker. */
  lemma CallIsHeard(s: State, e: Event)
    requires Inv(s) && Enabled(s, e) && CallsForScan(s, e)
    ensures ScanRunningSince(Step(s, e), s.time.clock) || (Step(s, e).again && Step(s, e).job.Some?)
  {
  }

  predicate Returns(e: Event) {
    e.StartupDone? || e.RefreshDone? || e.ExplicitDone?
  }

  /** The worker a scan is queued behind starts it when it returns, and until then
      only a workspace move can call it off. */
  lemma QueuedScanRuns(s: State, e: Event)
    requires Inv(s) && Enabled(s, e) && s.again
    ensures Returns(e) ==> ScanRunningSince(Step(s, e), s.time.clock) && !Step(s, e).again && Step(s, e).job.value.current
    ensures !Returns(e) && e != WorkspaceMoved ==> Step(s, e).again && Step(s, e).job.Some?
  {
    if Returns(e) {
      QueuedScanStarts(s, e);
    }
  }

  /** What is left when a worker has returned, before the queued scan is looked at. */
  lemma QueuedScanStarts(s: State, e: Event)
    requires Inv(s) && Enabled(s, e) && s.again && Returns(e)
    ensures Step(s, e).job.Some? && !Step(s, e).again
    ensures Step(s, e).job.value == Job(Refresh, true, s.time.clock, Step(s, e).index.None?)
  {
    assert s.located && s.job.value.kind != Startup;
  }

  /** No lost wake-up: since every call for a scan either a scan was started, or one is
      queued behind a running worker, or the workspace has moved. */
  lemma {:induction false} NoLostWakeUp(hasWorkspace: bool, run: seq<Event>, k: nat)
    requires Legal(hasWorkspace, run) && k < |run| && Legal(hasWorkspace, run[..k])
    requires CallsForScan(After(hasWorkspace, run[..k]), run[k])
    requires forall m :: k < m < |run| ==> run[m] != WorkspaceMoved
    ensures || (exists m :: k < m <= |run| && Legal(hasWorkspace, run[..m])
                            && ScanRunningSince(After(hasWorkspace, run[..m]), k))
            || (After(hasWorkspace, run).again && After(hasWorkspace, run).job.Some?)
  {
    hide Inv, Step, Enabled, Start, CallsForScan, ScanRunningSince, Returns;
    var cut := |run| - 1;
    var before := After(hasWorkspace, run[..cut]);
    assert run[..|run|] == run;
    AfterInv(hasWorkspace, run[..cut]);
    if k == cut {
      CallIsHeard(before, run[cut]);
    } else {
      assert run[..cut][..k] == run[..k];
      NoLostWakeUp(hasWorkspace, run[..cut], k);
      if m :| k < m <= cut && Legal(hasWorkspace, run[..cut][..m])
              && ScanRunningSince(After(hasWorkspace, run[..cut][..m]), k) {
        assert run[..cut][..m] == run[..m];
      } else {
        QueuedScanRuns(before, run[cut]);
        if Returns(run[cut]) {
          ScanSinceEarlier(Step(before, run[cut]), cut, k);
        }
      }
    }
  }

  lemma ScanSinceEarlier(s: State, k: nat, j: nat)
    requires ScanRunningSince(s, k) && j <= k
    ensures ScanRunningSince(s, j)
  {
  }

  /** This event hands over the result of a worker started at or after event `k`; the
      result still counts, and the worker did look at the shards. */
  predicate Counts(s: State, e: Event, k: nat) {
    && s.job.Some? && s.job.value.current && s.job.value.started >= k
    && ((e.RefreshDone? && e.refresh != RefreshFailed) || (e.ExplicitDone? && e.explicit.Loaded?))
  }

  /** A call at event `k` still stands: a scan started since is running and counts, or
      one is queued behind the running worker, or the next tick retries. */
  ghost predicate Stands(s: State, k: nat) {
    || (s.job.Some? && s.job.value.kind == Refresh && s.job.value.current && s.job.value.started >= k)
    || (s.again && s.job.Some?)
    || s.intent == Retry
  }

  /** No worker from before event `k` can settle what was called for then. */
  ghost predicate OvertakenBefore(s: State, k: nat) {
    s.job.Some? && s.job.value.current && s.job.value.started < k ==> s.job.value.kind.Explicit? && s.again
  }

  lemma CallStands(s: State, e: Event)
    requires Inv(s) && Enabled(s, e) && CallsForScan(s, e)
    ensures Stands(Step(s, e), s.time.clock) && OvertakenBefore(Step(s, e), s.time.clock)
  {
  }

  lemma OvertakenStays(s: State, e: Event, k: nat)
    requires Inv(s) && Enabled(s, e) && k <= s.time.clock && OvertakenBefore(s, k)
    ensures OvertakenBefore(Step(s, e), k)
  {
  }

  lemma StandsAtResult(s: State, e: Event, k: nat)
    requires Inv(s) && Enabled(s, e) && k <= s.time.clock && Returns(e) && Stands(s, k) && OvertakenBefore(s, k)
    ensures Counts(s, e, k) || Stands(Step(s, e), k)
  {
  }

  lemma StandsOtherwise(s: State, e: Event, k: nat)
    requires Inv(s) && Enabled(s, e) && k <= s.time.clock && !Returns(e) && e != WorkspaceMoved
    requires Stands(s, k) && OvertakenBefore(s, k)
    ensures Stands(Step(s, e), k)
  {
    hide RunQueued, OnStartup, OnRefresh, OnExplicit;
  }

  /** It stands until a result that counts settles it, or the workspace moves. */
  lemma StandsUntilSettled(s: State, e: Event, k: nat)
    requires Inv(s) && Enabled(s, e) && k <= s.time.clock && e != WorkspaceMoved
    requires Stands(s, k) && OvertakenBefore(s, k)
    ensures OvertakenBefore(Step(s, e), k)
    ensures Counts(s, e, k) || Stands(Step(s, e), k)
  {
    hide *;
    OvertakenStays(s, e, k);
    if Returns(e) {
      StandsAtResult(s, e, k);
    } else {
      StandsOtherwise(s, e, k);
    }
  }

  /** A retry is a scan at the next tick, unless a worker is running then. */
  lemma RetryScansAtTick(s: State)
    requires Inv(s) && s.intent == Retry && s.job.None?
    ensures var job := Step(s, Tick).job;
            job.Some? && job.value.kind == Refresh && job.value.current && job.value.started == s.time.clock
  {
  }

  /** Every call for a scan is settled by a result that counts, of a worker started since,
      or it still stands, or the workspace has moved. */
  lemma {:induction false} CallIsServed(hasWorkspace: bool, run: seq<Event>, k: nat)
    requires Legal(hasWorkspace, run) && k < |run| && Legal(hasWorkspace, run[..k])
    requires CallsForScan(After(hasWorkspace, run[..k]), run[k])
    requires forall m :: k < m < |run| ==> run[m] != WorkspaceMoved
    ensures OvertakenBefore(After(hasWorkspace, run), k)
    ensures || (exists m :: k < m < |run| && Legal(hasWorkspace, run[..m])
                            && Counts(After(hasWorkspace, run[..m]), run[m], k))
            || Stands(After(hasWorkspace, run), k)
  {
    hide Inv, Step, Enabled, Start, CallsForScan, Counts, Stands, OvertakenBefore;
    var cut := |run| - 1;
    var before := After(hasWorkspace, run[..cut]);
    AfterInv(hasWorkspace, run[..cut]);
    if k == cut {
      CallStands(before, run[cut]);
    } else {
      assert run[..cut][..k] == run[..k];
      CallIsServed(hasWorkspace, run[..cut], k);
      OvertakenStays(before, run[cut], k);
      if m :| k < m < cut && Legal(hasWorkspace, run[..cut][..m])
              && Counts(After(hasWorkspace, run[..cut][..m]), run[..cut][m], k) {
        assert run[..cut][..m] == run[..m] && run[..cut][m] == run[m];
      } else {
        StandsUntilSettled(before, run[cut], k);
      }
    }
  }

  /** This event hands over the result, a failure or not, of a scan started at or after
      event `k` that still counts. */
  predicate Delivers(s: State, e: Event, k: nat) {
    e.RefreshDone? && s.job.Some? && s.job.value.current && s.job.value.started >= k
  }

  /** A scan started since event `k` is running and counts, or one is queued behind the
      running worker. */
  ghost predicate InHand(s: State, k: nat) {
    || (s.job.Some? && s.job.value.kind == Refresh && s.job.value.current && s.job.value.started >= k)
    || (s.again && s.job.Some?)
  }

  lemma CallIsInHand(s: State, e: Event)
    requires Inv(s) && Enabled(s, e) && CallsForScan(s, e)
    ensures InHand(Step(s, e), s.time.clock)
  {
  }

  lemma InHandUntilDelivered(s: State, e: Event, k: nat)
    requires Inv(s) && Enabled(s, e) && k <= s.time.clock && e != WorkspaceMoved && InHand(s, k)
    ensures Delivers(s, e, k) || InHand(Step(s, e), k)
  {
    hide ScanRunningSince;
    if s.again {
      QueuedScanRuns(s, e);
      if Returns(e) {
        QueuedScanStarts(s, e);
      }
    } else {
      RunningUntilDelivered(s, e, k);
    }
  }

  lemma RunningUntilDelivered(s: State, e: Event, k: nat)
    requires Inv(s) && Enabled(s, e) && k <= s.time.clock && e != WorkspaceMoved && InHand(s, k) && !s.again
    ensures Delivers(s, e, k) || InHand(Step(s, e), k)
  {
  }

  /** A delivered scan leaves a retry behind exactly when it failed. */
  lemma DeliveryRetriesOnFailure(s: State, e: Event, k: nat)
    requires Inv(s) && Enabled(s, e) && Delivers(s, e, k)
    ensures Step(s, e).intent == Retry <==> e.refresh == RefreshFailed
  {
  }

  /** Until the workspace moves, every call for a scan has a current scan of its own: one
      started since is running and counts, or is queued behind a worker, or its result was
      delivered while it counted. */
  lemma {:induction false} EveryCallIsScanned(hasWorkspace: bool, run: seq<Event>, k: nat)
    requires Legal(hasWorkspace, run) && k < |run| && Legal(hasWorkspace, run[..k])
    requires CallsForScan(After(hasWorkspace, run[..k]), run[k])
    requires forall m :: k < m < |run| ==> run[m] != WorkspaceMoved
    ensures || (exists m :: k < m < |run| && Legal(hasWorkspace, run[..m])
                            && Delivers(After(hasWorkspace, run[..m]), run[m], k))
            || InHand(After(hasWorkspace, run), k)
  {
    hide Inv, Step, Enabled, Start, CallsForScan, Delivers, InHand;
    var cut := |run| - 1;
    var before := After(hasWorkspace, run[..cut]);
    AfterInv(hasWorkspace, run[..cut]);
    if k == cut {
      CallIsInHand(before, run[cut]);
    } else {
      assert run[..cut][..k] == run[..k];
      EveryCallIsScanned(hasWorkspace, run[..cut], k);
      if m :| k < m < cut && Legal(hasWorkspace, run[..cut][..m])
              && Delivers(After(hasWorkspace, run[..cut][..m]), run[..cut][m], k) {
        assert run[..cut][..m] == run[..m] && run[..cut][m] == run[m];
      } else {
        InHandUntilDelivered(before, run[cut], k);
      }
    }
  }

  // ---- exactly one response ----

  function RequestOf(e: Event): multiset<RequestId> {
    match e
    case LoadIndex(id, _) => multiset{id}
    case OtherRequest(id) => multiset{id}
    case Shutdown(id) => multiset{id}
    case _ => multiset{}
  }

  function Requested(run: seq<Event>): multiset<RequestId> {
    if run == [] then multiset{} else Requested(run[..|run| - 1]) + RequestOf(run[|run| - 1])
  }

  function Answered(sent: seq<Response>): multiset<RequestId> {
    if sent == [] then multiset{} else Answered(sent[..|sent| - 1]) + multiset{sent[|sent| - 1].id}
  }

  function Open(s: State): multiset<RequestId> {
    match Pending(s)
    case Some(id) => multiset{id}
    case None => multiset{}
  }

  lemma AnsweredSnoc(sent: seq<Response>, r: Response)
    ensures Answered(sent + [r]) == Answered(sent) + multiset{r.id}
  {
    assert (sent + [r])[..|sent|] == sent;
  }

  lemma CancelAnswers(s: State)
    ensures Answered(CancelExplicit(s).sent) == Answered(s.sent) + Open(s) && Open(CancelExplicit(s)) == multiset{}
  {
    hide Answered;
    if Pending(s).Some? {
      AnsweredSnoc(s.sent, Response(Pending(s).value, Cancelled));
    }
  }

  lemma ShutdownAnswers(s: State, id: RequestId)
    ensures Answered(OnShutdown(s, id).sent) == Answered(s.sent) + Open(s) + multiset{id}
    ensures Open(OnShutdown(s, id)) == multiset{}
  {
    CancelAnswers(s);
    hide Answered, CancelExplicit;
    AnsweredSnoc(CancelExplicit(s).sent, Response(id, Done));
  }

  lemma MoveAnswers(s: State)
    ensures Answered(OnMove(s).sent) == Answered(s.sent) + Open(s) && Open(OnMove(s)) == multiset{}
  {
    CancelAnswers(s);
    hide Answered, CancelExplicit;
  }

  lemma LoadAnswers(s: State, id: RequestId, wellFormed: bool)
    ensures var t := OnLoadIndex(s, id, wellFormed);
            Answered(t.sent) + Open(t) == Answered(s.sent) + Open(s) + multiset{id}
  {
    hide Answered;
    AnsweredSnoc(s.sent, Response(id, Refused));
  }

  lemma ExplicitAnswers(s: State, outcome: ExplicitOutcome)
    requires s.job.Some? && s.job.value.kind.Explicit?
    ensures var t := OnExplicit(s, outcome);
            Answered(t.sent) + Open(t) == Answered(s.sent) + Open(s)
  {
    hide Answered, RunQueued;
    if Pending(s).Some? {
      AnsweredSnoc(s.sent, Response(Pending(s).value, if outcome.Loaded? then Done else Failed));
    }
  }

  /** Results of the other workers and the disk events answer nothing. */
  lemma OthersAnswerNothing(s: State, e: Event)
    requires Enabled(s, e) && (e.StartupDone? || e.RefreshDone? || e.ShardsChanged? || e.WatcherLost? || e.Tick?)
    ensures React(s, e).sent == s.sent && Open(React(s, e)) == Open(s)
  {
    hide Scan, RunQueued, OnStartup, OnRefresh;
    match e
    case StartupDone(outcome) => StartupAnswersNothing(s, e);
    case RefreshDone(outcome) => RefreshAnswersNothing(s, e);
    case _ =>
  }

  lemma RefreshAnswersNothing(s: State, e: Event)
    requires Enabled(s, e) && e.RefreshDone?
    ensures OnRefresh(s, e.refresh).sent == s.sent && Open(OnRefresh(s, e.refresh)) == Open(s)
  {
    hide Scan, RunQueued;
  }

  lemma StartupAnswersNothing(s: State, e: Event)
    requires Enabled(s, e) && e.StartupDone?
    ensures OnStartup(s, e.startup).sent == s.sent && Open(OnStartup(s, e.startup)) == Open(s)
  {
    StartedAnswersNothing(s, e);
    hide Scan, RunQueued, Started;
  }

  lemma StartedAnswersNothing(s: State, e: Event)
    requires Enabled(s, e) && e.StartupDone?
    ensures Started(s, e.startup).sent == s.sent && Pending(Started(s, e.startup)) == Pending(s) == None
  {
    hide Scan;
  }

  /** One step answers what it takes in, except for the load request it leaves open. */
  lemma StepAnswers(s: State, e: Event)
    requires Enabled(s, e)
    ensures Answered(Step(s, e).sent) + Open(Step(s, e)) == Answered(s.sent) + Open(s) + RequestOf(e)
  {
    hide Answered, OnShutdown, OnLoadIndex, OnMove, OnExplicit, OnStartup, OnRefresh, OnTick, Scan;
    assert Open(Step(s, e)) == Open(React(s, e));
    match e
    case Shutdown(id) => ShutdownAnswers(s, id);
    case WorkspaceMoved => MoveAnswers(s);
    case ExplicitDone(outcome) => ExplicitAnswers(s, outcome);
    case LoadIndex(id, wellFormed) => LoadAnswers(s, id, wellFormed);
    case OtherRequest(id) => AnsweredSnoc(s.sent, Response(id, if s.stopping then Refused else Done));
    case _ => OthersAnswerNothing(s, e);
  }

  /** Every request is answered exactly once, or is the one load still running. */
  lemma {:induction false} EveryRequestAnsweredOnce(hasWorkspace: bool, run: seq<Event>)
    requires Legal(hasWorkspace, run)
    ensures Requested(run) == Answered(After(hasWorkspace, run).sent) + Open(After(hasWorkspace, run))
    ensures After(hasWorkspace, run).stopping ==> Requested(run) == Answered(After(hasWorkspace, run).sent)
  {
    hide Inv, Step, Enabled, Answered, Open, RequestOf;
    if run == [] {
      StartAnswers(hasWorkspace);
    } else {
      var cut := |run| - 1;
      AfterInv(hasWorkspace, run[..cut]);
      EveryRequestAnsweredOnce(hasWorkspace, run[..cut]);
      StepAnswers(After(hasWorkspace, run[..cut]), run[cut]);
    }
    AfterInv(hasWorkspace, run);
    StoppedHasNoneOpen(After(hasWorkspace, run));
  }

  lemma StartAnswers(hasWorkspace: bool)
    ensures Answered(Start(hasWorkspace).sent) + Open(Start(hasWorkspace)) == multiset{}
  {
  }

  lemma StoppedHasNoneOpen(s: State)
    requires Inv(s)
    ensures s.stopping ==> Open(s) == multiset{}
  {
  }

  /** An open load request is closed by its worker's result, by a workspace move or by
      shutdown, and each closes it with the matching answer. */
  lemma LoadIsClosedOnce(s: State, e: Event, id: RequestId)
    requires Inv(s) && Enabled(s, e) && Pending(s) == Some(id)
    ensures Pending(Step(s, e)) == Some(id) <==> !e.ExplicitDone? && e != WorkspaceMoved && !e.Shutdown?
    ensures e.ExplicitDone? ==> Step(s, e).sent == s.sent + [Response(id, if e.explicit.Loaded? then Done else Failed)]
    ensures e == WorkspaceMoved ==> Step(s, e).sent == s.sent + [Response(id, Cancelled)]
    ensures e.Shutdown? ==> Step(s, e).sent == s.sent + [Response(id, Cancelled), Response(e.id, Done)]
  {
    hide Scan, RunQueued;
  }
}
