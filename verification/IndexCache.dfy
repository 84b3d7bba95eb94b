/** Publishing index snapshots (crates/jabar-server/src/index_cache.rs): any number of
    `store` calls, in any number of processes, interleaved step by step with readers and
    with `invalidate`, any of them failing or dying between two steps.

    A `store` call is known by its generation, whose name it alone uses. The directory
    has atomic renames and reliable reads; a `store` call may fail at any step before
    its pointer is installed, which covers its I/O errors and every "superseded" check. */
module IndexCache {
  import opened Repeats
  import opened Wrappers
  import opened Snapshot

  /** A generation's name, as its place in the order in which names sort. */
  type Name = nat

  /** What one directory `g-...` holds: each file is absent or has this content. */
  datatype Files = Files(bin: Option<Bytes>, manifest: Option<Manifest>)

  datatype Disk = Disk(
    staging: map<Name, Files>,    // g-...-tmp
    finals: map<Name, Files>,     // g-...
    pointers: set<Name>,          // CURRENT-g-...-tmp, holding the generation's name
    current: Option<Name>)        // CURRENT

  /** How far a `store` call has come. */
  datatype Phase =
    | Writing                                     // staging directory made
    | Sealed                                      // index and manifest are complete
    | Locked                                      // holds PUBLISH.lock
    | Renamed                                     // staging became final
    | Pointed                                     // pointer file written
    | Cleared                                     // the last "still current?" test passed
    | Published                                   // CURRENT replaced
    | Listing(read: Option<Name>)                 // cleanup has read CURRENT
    | Pruning(read: Option<Name>, fallback: Option<Name>, doomed: seq<Name>, stuck: set<Name>)
    | Failing                                     // lock released, staging to remove
    | Withdrawing                                 // final directory to remove

  /** `overtaken`: calls whose "still current?" tests fail from now on, because the server's
      cache epoch has passed their ticket. */
  datatype State = State(disk: Disk, lock: Option<Name>, calls: map<Name, Phase>, jobs: map<Name, Job>,
                         overtaken: set<Name>)

  const Start := State(Disk(map[], map[], {}, None), None, map[], map[], {})

  function Complete(job: Job): Files {
    Files(Some(FileOf(job)), Some(ManifestOf(job)))
  }

  /** Some files of a complete generation, the others being removed already. */
  predicate Part(files: Files, job: Job) {
    && (files.bin == None || files.bin == Some(FileOf(job)))
    && (files.manifest == None || files.manifest == Some(ManifestOf(job)))
  }

  predicate Holds(phase: Phase) {
    phase.Locked? || phase.Renamed? || phase.Pointed? || phase.Cleared? || phase.Published? || phase.Listing? || phase.Pruning?
  }

  // ---- which generations cleanup removes ----

  ghost predicate Descending(names: seq<Name>) {
    forall i, j :: 0 <= i < j < |names| ==> names[i] > names[j]
  }

  function Others(read: Option<Name>, names: seq<Name>): seq<Name> {
    if names == [] then []
    else (if read == Some(names[0]) then [] else [names[0]]) + Others(read, names[1..])
  }

  /** The newest generation besides the one CURRENT named is kept as a fallback. */
  function Fallback(read: Option<Name>, names: seq<Name>): Option<Name> {
    var others := Others(read, names);
    if others == [] then None else Some(others[0])
  }

  function Doomed(read: Option<Name>, names: seq<Name>): seq<Name> {
    var others := Others(read, names);
    if others == [] then [] else others[1..]
  }

  /** The selection loop of `cleanup`. */
  method SelectDoomed(read: Option<Name>, names: seq<Name>) returns (doomed: seq<Name>)
    ensures doomed == Doomed(read, names)
  {
    hide Others;
    doomed := [];
    var keptFallback := false;
    assert names[0..] == names;
    ghost var kept: seq<Name> := [];
    for i := 0 to |names|
      invariant Others(read, names) == kept + doomed + Others(read, names[i..])
      invariant |kept| == (if keptFallback then 1 else 0)
      invariant !keptFallback ==> doomed == []
    {
      OthersNext(read, names, i, kept + doomed);
      if read == Some(names[i]) {
        continue;
      }
      if !keptFallback {
        keptFallback, kept := true, [names[i]];
        continue;
      }
      assert kept + doomed + [names[i]] == kept + (doomed + [names[i]]);
      doomed := doomed + [names[i]];
    }
    NoOthers(read, names[|names|..]);
    assert kept + doomed + [] == kept + doomed;
  }

  lemma NoOthers(read: Option<Name>, names: seq<Name>)
    requires names == []
    ensures Others(read, names) == []
  {
  }

  lemma OthersNext(read: Option<Name>, names: seq<Name>, i: nat, before: seq<Name>)
    requires i < |names| && Others(read, names) == before + Others(read, names[i..])
    ensures read == Some(names[i]) ==> Others(read, names) == before + Others(read, names[i + 1..])
    ensures read != Some(names[i]) ==> Others(read, names) == before + [names[i]] + Others(read, names[i + 1..])
  {
    assert names[i..][0] == names[i] && names[i..][1..] == names[i + 1..];
  }

  lemma {:induction false} OthersAre(read: Option<Name>, names: seq<Name>, n: Name)
    ensures n in Others(read, names) <==> n in names && read != Some(n)
  {
    if names != [] {
      OthersAre(read, names[1..], n);
    }
  }

  lemma {:induction false} OthersDescend(read: Option<Name>, names: seq<Name>)
    requires Descending(names)
    ensures Descending(Others(read, names))
  {
    if names != [] {
      var rest := Others(read, names[1..]);
      OthersDescend(read, names[1..]);
      forall k | 0 <= k < |rest|
        ensures rest[k] < names[0]
      {
        OthersAre(read, names[1..], rest[k]);
      }
    }
  }

  /** A generation survives cleanup exactly when CURRENT named it or it is the newest
      one that CURRENT did not name. */
  lemma CleanupSpares(read: Option<Name>, names: seq<Name>, n: Name)
    requires Descending(names) && n in names
    ensures n !in Doomed(read, names) <==> read == Some(n) || forall m :: m in names && m > n ==> read == Some(m)
    ensures n !in Doomed(read, names) <==> read == Some(n) || Fallback(read, names) == Some(n)
  {
    var others := Others(read, names);
    OthersDescend(read, names);
    OthersAre(read, names, n);
    if read != Some(n) {
      var i :| 0 <= i < |others| && others[i] == n;
      OthersAre(read, names, others[0]);
      if i == 0 {
        forall m | m in names && m > n
          ensures read == Some(m)
        {
          OthersAre(read, names, m);
          assert forall k :: 0 < k < |others| ==> others[k] < n;
        }
        assert forall k :: 0 <= k < |others[1..]| ==> others[1..][k] == others[k + 1] < n;
      } else {
        assert others[1..][i - 1] == n && others[0] > n;
      }
    }
  }

  // ---- steps ----

  datatype Event =
    | Begin(n: Name, job: Job)
    | WriteIndex(n: Name, upTo: nat)
    | WriteManifest(n: Name)
    | TakeLock(n: Name)
    | Rename(n: Name)
    | MakePointer(n: Name)
    | LastTest(n: Name)
    | Publish(n: Name)
    | ReadCurrent(n: Name)
    | List(n: Name, names: seq<Name>)
    | RemoveDoomed(n: Name, left: Option<Files>)
    | Unlock(n: Name)
    | Fail(n: Name, dropPointer: bool)
    | RemoveStaging(n: Name, left: Option<Files>)
    | Withdraw(n: Name, left: Option<Files>)
    | Crash(n: Name)
    | Overtake(n: Name)
    | Invalidate

  predicate In(s: State, n: Name, phase: Phase) {
    n in s.calls && s.calls[n] == phase
  }

  /** What removing a directory may leave: nothing, or fewer of its files. */
  predicate Remnant(left: Option<Files>, files: map<Name, Files>, n: Name) {
    left.Some? ==>
      && n in files
      && (left.value.bin == None || left.value.bin == files[n].bin)
      && (left.value.manifest == None || left.value.manifest == files[n].manifest)
  }

  ghost predicate Enabled(s: State, e: Event) {
    match e
    case Begin(n, _) => n !in s.jobs
    case WriteIndex(n, upTo) => In(s, n, Writing) && n in s.jobs && upTo <= |FileOf(s.jobs[n])|
    case WriteManifest(n) =>
      && In(s, n, Writing) && n in s.jobs && n in s.disk.staging
      && s.disk.staging[n].bin == Some(FileOf(s.jobs[n]))
    case TakeLock(n) => In(s, n, Sealed) && s.lock == None
    case Rename(n) => In(s, n, Locked) && n in s.disk.staging
    case MakePointer(n) => In(s, n, Renamed)
    case LastTest(n) => In(s, n, Pointed) && n !in s.overtaken
    case Publish(n) => In(s, n, Cleared) && n in s.disk.pointers
    case ReadCurrent(n) => In(s, n, Published)
    case List(n, names) =>
      && n in s.calls && s.calls[n].Listing?
      && Descending(names) && forall m :: m in names <==> m in s.disk.finals
    case RemoveDoomed(n, left) =>
      && n in s.calls && s.calls[n].Pruning? && s.calls[n].doomed != []
      && Remnant(left, s.disk.finals, s.calls[n].doomed[0])
    case Unlock(n) => n in s.calls && s.calls[n].Pruning? && s.calls[n].doomed == []
    case Fail(n, _) =>
      n in s.calls && var p := s.calls[n]; p.Writing? || p.Sealed? || p.Locked? || p.Renamed? || p.Pointed? || p.Cleared?
    case RemoveStaging(n, left) => In(s, n, Failing) && Remnant(left, s.disk.staging, n)
    case Withdraw(n, left) => In(s, n, Withdrawing) && Remnant(left, s.disk.finals, n)
    case Crash(n) => n in s.calls
    case Overtake(n) => n in s.jobs
    case Invalidate => true
  }

  function Left(files: map<Name, Files>, n: Name, left: Option<Files>): map<Name, Files> {
    if left.Some? then files[n := left.value] else files - {n}
  }

  function Released(s: State, n: Name): Option<Name> {
    if s.lock == Some(n) then None else s.lock
  }

  function Moved(s: State, n: Name, phase: Phase, disk: Disk): State {
    s.(calls := s.calls[n := phase], disk := disk)
  }

  function Step(s: State, e: Event): State
    requires Enabled(s, e)
  {
    var d := s.disk;
    match e
    case Begin(n, job) => Moved(s, n, Writing, d.(staging := d.staging[n := Files(None, None)])).(jobs := s.jobs[n := job])
    case WriteIndex(n, upTo) =>
      Moved(s, n, Writing, d.(staging := d.staging[n := Files(Some(FileOf(s.jobs[n])[..upTo]), None)]))
    case WriteManifest(n) => Moved(s, n, Sealed, d.(staging := d.staging[n := Complete(s.jobs[n])]))
    case TakeLock(n) => Moved(s, n, Locked, d).(lock := Some(n))
    case Rename(n) => Moved(s, n, Renamed, d.(staging := d.staging - {n}, finals := d.finals[n := d.staging[n]]))
    case MakePointer(n) => Moved(s, n, Pointed, d.(pointers := d.pointers + {n}))
    case LastTest(n) => Moved(s, n, Cleared, d)
    case Publish(n) => Moved(s, n, Published, d.(pointers := d.pointers - {n}, current := Some(n)))
    case ReadCurrent(n) => Moved(s, n, Listing(d.current), d)
    case List(n, names) =>
      var read := s.calls[n].read;
      Moved(s, n, Pruning(read, Fallback(read, names), Doomed(read, names), {}), d)
    case RemoveDoomed(n, left) =>
      var p := s.calls[n];
      var victim := p.doomed[0];
      Moved(s, n, p.(doomed := p.doomed[1..], stuck := if left.Some? then p.stuck + {victim} else p.stuck),
            d.(finals := Left(d.finals, victim, left)))
    case Unlock(n) => s.(calls := s.calls - {n}, lock := None)
    case Fail(n, dropPointer) =>
      Moved(s, n, Failing, if dropPointer then d.(pointers := d.pointers - {n}) else d).(lock := Released(s, n))
    case RemoveStaging(n, left) => Moved(s, n, Withdrawing, d.(staging := Left(d.staging, n, left)))
    case Withdraw(n, left) => s.(calls := s.calls - {n}, disk := d.(finals := Left(d.finals, n, left)))
    case Crash(n) => s.(calls := s.calls - {n}, lock := Released(s, n))
    case Overtake(n) => s.(overtaken := s.overtaken + {n})
    case Invalidate => s.(disk := d.(current := None))
  }

  // ---- what every step keeps ----

  /** The lock belongs to the one call that is between taking and releasing it. */
  ghost predicate Locking(s: State) {
    && (forall n :: n in s.calls ==> n in s.jobs && (Holds(s.calls[n]) <==> s.lock == Some(n)))
    && (s.lock.Some? ==> s.lock.value in s.calls)
  }

  /** Only a call that has begun can be overtaken. */
  ghost predicate Begun(s: State) {
    s.overtaken <= s.jobs.Keys
  }

  /** Every final directory holds files of the `store` call of that name. */
  ghost predicate Owned(s: State) {
    forall n :: n in s.disk.finals ==> n in s.jobs && Part(s.disk.finals[n], s.jobs[n])
  }

  predicate Settled(phase: Phase) {
    phase.Published? || phase.Listing? || phase.Pruning?
  }

  /** What a call may rely on in each phase. */
  ghost predicate Ready(s: State, n: Name)
    requires n in s.calls
  {
    n in s.jobs &&
    match s.calls[n]
    case Writing => n !in s.disk.finals
    case Sealed | Locked => n !in s.disk.finals && n in s.disk.staging && s.disk.staging[n] == Complete(s.jobs[n])
    case Renamed => n in s.disk.finals && s.disk.finals[n] == Complete(s.jobs[n])
    case Pointed | Cleared =>
      n in s.disk.finals && s.disk.finals[n] == Complete(s.jobs[n]) && n in s.disk.pointers
    case Listing(read) => s.disk.current.Some? ==> s.disk.current == read
    case Pruning(read, fallback, doomed, stuck) =>
      && (s.disk.current.Some? ==> s.disk.current == read)
      && (read.Some? ==> read.value !in doomed)
      && (forall m :: m in s.disk.finals ==> Some(m) == read || Some(m) == fallback || m in doomed || m in stuck)
    case _ => true
  }

  ghost predicate AllReady(s: State) {
    forall n :: n in s.calls ==> Ready(s, n)
  }

  /** CURRENT, when present, names a complete generation of one `store` call, and that
      call is past the point where it could withdraw it. */
  ghost predicate Pointing(s: State) {
    s.disk.current.Some? ==>
      var c := s.disk.current.value;
      && c in s.jobs && c in s.disk.finals && s.disk.finals[c] == Complete(s.jobs[c])
      && (c in s.calls ==> Settled(s.calls[c]))
  }

  ghost predicate Inv(s: State) {
    Locking(s) && Begun(s) && Owned(s) && AllReady(s) && Pointing(s)
  }

  lemma StartInv()
    ensures Inv(Start)
  {
  }

  lemma StepLocking(s: State, e: Event)
    requires Inv(s) && Enabled(s, e)
    ensures Locking(Step(s, e))
  {
    hide Complete, FileOf, ManifestOf, Part, Descending, Others, Fallback, Doomed, Left, Remnant;
    hide Begun, Owned, AllReady, Pointing;
  }

  lemma StepBegun(s: State, e: Event)
    requires Inv(s) && Enabled(s, e)
    ensures Begun(Step(s, e))
  {
    hide Complete, FileOf, ManifestOf, Part, Descending, Others, Fallback, Doomed, Left, Locking, Owned, AllReady, Pointing;
  }

  lemma StepOwned(s: State, e: Event)
    requires Inv(s) && Enabled(s, e)
    ensures Owned(Step(s, e))
  {
    hide FileOf, ManifestOf, Descending, Others, Fallback, Doomed;
  }

  lemma StepPointing(s: State, e: Event)
    requires Inv(s) && Enabled(s, e)
    ensures Pointing(Step(s, e))
  {
    hide Complete, FileOf, ManifestOf, Descending, Others, Fallback, Doomed;
  }

  predicate Acts(e: Event, n: Name) {
    !e.Invalidate? && e.n == n
  }

  lemma StepReadyOwn(s: State, e: Event, n: Name)
    requires Inv(s) && Enabled(s, e) && n in Step(s, e).calls && Acts(e, n)
    ensures Ready(Step(s, e), n)
  {
    hide Complete, FileOf, ManifestOf, Descending, Others, Fallback, Doomed, Part;
    assert !e.Begin? ==> Ready(s, n);
    if e.List? {
      ListReady(s.disk.finals, s.calls[n].read, e.names);
    }
  }

  /** Steps of other calls do not disturb a call: whoever changes final directories
      not its own, or CURRENT, holds the lock. */
  lemma StepReadyOther(s: State, e: Event, n: Name)
    requires Inv(s) && Enabled(s, e) && n in Step(s, e).calls && !Acts(e, n)
    ensures Ready(Step(s, e), n)
  {
    hide Complete, FileOf, ManifestOf, Descending, Others, Fallback, Doomed, Part, Begun, Owned, Pointing, Ready;
    assert n in s.calls && Ready(s, n);
    if e.Rename? || e.RemoveDoomed? || e.Publish? {
      assert Holds(s.calls[e.n]) && s.lock == Some(e.n);
      assert !Holds(s.calls[n]);
    }
    ReadySurvives(s, e, n);
  }

  lemma ReadySurvives(s: State, e: Event, n: Name)
    requires Enabled(s, e) && n in s.calls && n in Step(s, e).calls && !Acts(e, n) && Ready(s, n)
    requires (e.Rename? || e.RemoveDoomed? || e.Publish?) ==> !Holds(s.calls[n])
    ensures Ready(Step(s, e), n)
  {
    hide Complete, FileOf, ManifestOf, Descending, Others, Fallback, Doomed;
  }

  lemma StepReady(s: State, e: Event, n: Name)
    requires Inv(s) && Enabled(s, e) && n in Step(s, e).calls
    ensures Ready(Step(s, e), n)
  {
    hide *;
    if Acts(e, n) {
      StepReadyOwn(s, e, n);
    } else {
      StepReadyOther(s, e, n);
    }
  }

  lemma ListReady(finals: map<Name, Files>, read: Option<Name>, names: seq<Name>)
    requires Descending(names) && forall m :: m in names <==> m in finals
    ensures read.Some? ==> read.value !in Doomed(read, names)
    ensures forall m :: m in finals ==> Some(m) == read || Some(m) == Fallback(read, names) || m in Doomed(read, names)
  {
    forall m | m in finals
      ensures Some(m) == read || Some(m) == Fallback(read, names) || m in Doomed(read, names)
    {
      CleanupSpares(read, names, m);
    }
    if read.Some? && read.value in Doomed(read, names) {
      OthersAre(read, names, read.value);
    }
  }

  lemma StepInv(s: State, e: Event)
    requires Inv(s) && Enabled(s, e)
    ensures Inv(Step(s, e))
  {
    StepLocking(s, e);
    StepBegun(s, e);
    StepOwned(s, e);
    StepPointing(s, e);
    var t := Step(s, e);
    forall n | n in t.calls
      ensures Ready(t, n)
    {
      StepReady(s, e, n);
    }
  }

  /** CURRENT changes only when a pointer is installed or on `invalidate`; in particular
      no cleanup and no withdrawal touches the generation it names. */
  lemma StepKeepsCurrent(s: State, e: Event)
    requires Inv(s) && Enabled(s, e) && s.disk.current.Some? && !e.Publish? && !e.Invalidate?
    ensures Step(s, e).disk.current == s.disk.current
    ensures var c := s.disk.current.value;
            c in s.disk.finals && c in Step(s, e).disk.finals && Step(s, e).disk.finals[c] == s.disk.finals[c]
  {
    hide Complete, FileOf, ManifestOf, Descending, Others, Fallback, Doomed, Remnant, Part;
    var c := s.disk.current.value;
    assert c in s.disk.finals && c in s.calls ==> Settled(s.calls[c]);
    if e.RemoveDoomed? {
      assert Ready(s, e.n);
    } else if e.Rename? {
      assert Ready(s, e.n);
    }
  }

  /** When cleanup ends there are at most two generations, besides those that could not
      be removed completely. */
  lemma CleanupLeavesTwo(s: State, n: Name)
    requires Inv(s) && Enabled(s, Unlock(n))
    ensures |s.disk.finals| <= 2 + |s.calls[n].stuck|
    ensures s.disk.current.Some? ==> s.disk.current.value in s.disk.finals
  {
    hide Complete, FileOf, ManifestOf, Part;
    var p := s.calls[n];
    assert Ready(s, n);
    var first := if p.read.Some? then {p.read.value} else {};
    var second := if p.fallback.Some? then {p.fallback.value} else {};
    assert s.disk.finals.Keys <= first + second + p.stuck;
    NoMoreThan(s.disk.finals.Keys, first + second + p.stuck);
  }

  // ---- whole runs ----

  ghost predicate Legal(s: State, run: seq<Event>)
    decreases |run|, 0
  {
    run == [] ||
    var front := run[..|run| - 1];
    Legal(s, front) && Enabled(After(s, front), run[|run| - 1])
  }

  ghost function After(s: State, run: seq<Event>): State
    requires Legal(s, run)
    decreases |run|, 1
  {
    if run == [] then s else Step(After(s, run[..|run| - 1]), run[|run| - 1])
  }

  lemma {:induction false} RunInv(s: State, run: seq<Event>)
    requires Inv(s) && Legal(s, run)
    ensures Inv(After(s, run))
  {
    hide Inv, Enabled, Step;
    if run != [] {
      RunInv(s, run[..|run| - 1]);
      StepInv(After(s, run[..|run| - 1]), run[|run| - 1]);
    }
  }

  lemma StepKeepsJob(s: State, e: Event, n: Name)
    requires Enabled(s, e) && n in s.jobs
    ensures n in Step(s, e).jobs && Step(s, e).jobs[n] == s.jobs[n]
  {
    hide Complete, FileOf, ManifestOf, Descending, Others, Fallback, Doomed, Remnant, Left;
  }

  lemma {:induction false} RunKeepsJob(s: State, run: seq<Event>, n: Name)
    requires Legal(s, run) && n in s.jobs
    ensures n in After(s, run).jobs && After(s, run).jobs[n] == s.jobs[n]
  {
    hide Enabled, Step;
    if run != [] {
      RunKeepsJob(s, run[..|run| - 1], n);
      StepKeepsJob(After(s, run[..|run| - 1]), run[|run| - 1], n);
    }
  }

  /** Whatever ran before, CURRENT names a complete generation of one `store` call. */
  lemma CurrentIsComplete(run: seq<Event>)
    requires Legal(Start, run)
    ensures var s := After(Start, run);
            s.disk.current.Some? ==>
              var c := s.disk.current.value;
              c in s.jobs && c in s.disk.finals && s.disk.finals[c] == Complete(s.jobs[c])
  {
    StartInv();
    RunInv(Start, run);
    assert Pointing(After(Start, run));
  }

  /** A call that failed, or died before installing its pointer. */
  ghost predicate Abandoned(s: State, n: Name) {
    && n in s.jobs && s.disk.current != Some(n)
    && (n in s.calls ==> s.calls[n].Failing? || s.calls[n].Withdrawing?)
  }

  lemma StepAbandons(s: State, e: Event, n: Name)
    requires Inv(s) && Enabled(s, e)
    requires Abandoned(s, n) || (n in s.calls && !Settled(s.calls[n]) && (e == Crash(n) || (e.Fail? && e.n == n)))
    ensures Abandoned(Step(s, e), n)
  {
    hide Complete, FileOf, ManifestOf, Descending, Others, Fallback, Doomed, Remnant, Part, Left;
  }

  lemma {:induction false} AbandonedForGood(s: State, run: seq<Event>, n: Name)
    requires Inv(s) && Legal(s, run) && Abandoned(s, n)
    ensures Abandoned(After(s, run), n)
  {
    hide Inv, Enabled, Step, Abandoned;
    if run != [] {
      AbandonedForGood(s, run[..|run| - 1], n);
      RunInv(s, run[..|run| - 1]);
      StepAbandons(After(s, run[..|run| - 1]), run[|run| - 1], n);
    }
  }

  /** What a failed `store`, or one killed before its pointer was installed, wrote is
      never served afterwards. */
  lemma FailureIsNeverServed(run: seq<Event>, e: Event, rest: seq<Event>)
    requires Legal(Start, run) && (e.Fail? || e.Crash?) && Enabled(After(Start, run), e)
    requires e.Crash? ==> !Settled(After(Start, run).calls[e.n])
    requires Legal(Step(After(Start, run), e), rest)
    ensures After(Step(After(Start, run), e), rest).disk.current != Some(e.n)
  {
    StartInv();
    RunInv(Start, run);
    var s := After(Start, run);
    StepAbandons(s, e, e.n);
    StepInv(s, e);
    AbandonedForGood(Step(s, e), rest, e.n);
  }

  // ---- overtaken calls ----

  /** Overtaken before it passed its last test, and not published. */
  ghost predicate OvertakenInTime(s: State, n: Name) {
    && n in s.overtaken && s.disk.current != Some(n)
    && (n in s.calls ==> !s.calls[n].Cleared? && !Settled(s.calls[n]))
  }

  lemma StepOvertakenInTime(s: State, e: Event, n: Name)
    requires Inv(s) && Enabled(s, e) && OvertakenInTime(s, n)
    ensures OvertakenInTime(Step(s, e), n)
  {
    hide Complete, FileOf, ManifestOf, Descending, Others, Fallback, Doomed, Remnant, Part, Left, Owned, Pointing, Ready;
  }

  /** A call overtaken before it passes its last test never publishes. */
  lemma {:induction false} OvertakenInTimeForGood(s: State, run: seq<Event>, n: Name)
    requires Inv(s) && Legal(s, run) && OvertakenInTime(s, n)
    ensures OvertakenInTime(After(s, run), n)
  {
    hide Inv, Enabled, Step, OvertakenInTime;
    if run != [] {
      OvertakenInTimeForGood(s, run[..|run| - 1], n);
      RunInv(s, run[..|run| - 1]);
      StepOvertakenInTime(After(s, run[..|run| - 1]), run[|run| - 1], n);
    }
  }

  lemma RunOfOne(s: State, e: Event)
    requires Enabled(s, e)
    ensures Legal(s, [e]) && After(s, [e]) == Step(s, e)
  {
    hide Enabled, Step;
    assert [e][..0] == [];
    assert Legal(s, []) && After(s, []) == s;
  }

  /** A call overtaken after it passed its last test may still publish, even what was
      invalidated in between. */
  lemma LatePublication(s: State, n: Name)
    requires Inv(s) && In(s, n, Cleared)
    ensures Enabled(s, Overtake(n)) && Enabled(Step(s, Overtake(n)), Invalidate)
    ensures var t := Step(Step(s, Overtake(n)), Invalidate);
            Enabled(t, Publish(n)) && n in Step(t, Publish(n)).overtaken && Step(t, Publish(n)).disk.current == Some(n)
  {
    hide Complete, FileOf, ManifestOf, Descending, Others, Fallback, Doomed, Remnant, Part, Left, Owned, Pointing;
    assert Ready(s, n);
  }

  /** So of the calls overtaken before they published, exactly those past their last test
      can still become current. */
  lemma OvertakenPublishesExactly(s: State, n: Name)
    requires Inv(s) && n in s.calls && n in s.overtaken && !Settled(s.calls[n]) && s.disk.current != Some(n)
    ensures (exists run :: Legal(s, run) && After(s, run).disk.current == Some(n)) <==> In(s, n, Cleared)
  {
    if In(s, n, Cleared) {
      PublishesNext(s, n);
      RunOfOne(s, Publish(n));
      assert Legal(s, [Publish(n)]) && After(s, [Publish(n)]).disk.current == Some(n);
    } else {
      forall run | Legal(s, run)
        ensures After(s, run).disk.current != Some(n)
      {
        OvertakenInTimeForGood(s, run, n);
      }
    }
  }

  lemma PublishesNext(s: State, n: Name)
    requires Inv(s) && In(s, n, Cleared)
    ensures Enabled(s, Publish(n)) && Step(s, Publish(n)).disk.current == Some(n)
  {
    hide Complete, FileOf, ManifestOf, Descending, Others, Fallback, Doomed, Remnant, Part, Left, Owned, Pointing;
    assert Ready(s, n);
  }

  // ---- generations a reader has seen ----

  /** A generation that was current: complete, past withdrawal, and in no list of
      generations to remove. */
  ghost predicate Served(s: State, c: Name) {
    && c in s.jobs && c in s.disk.finals && s.disk.finals[c] == Complete(s.jobs[c])
    && (c in s.calls ==> Settled(s.calls[c]))
    && (forall n :: n in s.calls && s.calls[n].Pruning? ==> c !in s.calls[n].doomed)
  }

  lemma CurrentIsServed(s: State)
    requires Inv(s) && s.disk.current.Some?
    ensures Served(s, s.disk.current.value)
  {
    hide Complete, FileOf, ManifestOf, Part, Owned, Locking;
    forall n | n in s.calls && s.calls[n].Pruning?
      ensures s.disk.current.value !in s.calls[n].doomed
    {
      assert Ready(s, n);
    }
  }

  /** This step does not select `c` for removal. */
  ghost predicate Spares(s: State, e: Event, c: Name) {
    e.List? && e.n in s.calls && s.calls[e.n].Listing? ==> c !in Doomed(s.calls[e.n].read, e.names)
  }

  /** When a cleanup selects, exactly one thing saves a generation it did not read as
      current: that no other sorts after it but the one it did. */
  lemma SparesExactly(s: State, n: Name, names: seq<Name>, c: Name)
    requires Enabled(s, List(n, names)) && c in s.disk.finals
    ensures Spares(s, List(n, names), c) <==>
            var read := s.calls[n].read;
            read == Some(c) || forall m :: m in s.disk.finals && m > c ==> read == Some(m)
  {
    hide Doomed, Fallback;
    CleanupSpares(s.calls[n].read, names, c);
  }

  lemma StepServes(s: State, e: Event, c: Name)
    requires Inv(s) && Enabled(s, e) && Served(s, c) && Spares(s, e, c)
    ensures Served(Step(s, e), c)
  {
    hide Complete, FileOf, ManifestOf, Descending, Others, Fallback, Doomed, Part, Owned, Pointing;
    assert e.Rename? ==> Ready(s, e.n);
  }

  ghost predicate AllSpare(s: State, run: seq<Event>, c: Name)
    requires Legal(s, run)
    decreases |run|
  {
    run != [] ==>
      && AllSpare(s, run[..|run| - 1], c)
      && Spares(After(s, run[..|run| - 1]), run[|run| - 1], c)
  }

  /** Whatever is stored, withdrawn or pruned meanwhile, a generation that was current
      stays until a cleanup selects it. */
  lemma {:induction false} RunServes(s: State, run: seq<Event>, c: Name)
    requires Inv(s) && Legal(s, run) && Served(s, c) && AllSpare(s, run, c)
    ensures Served(After(s, run), c)
  {
    hide Inv, Enabled, Step, Served, Spares;
    if run != [] {
      RunServes(s, run[..|run| - 1], c);
      RunInv(s, run[..|run| - 1]);
      StepServes(After(s, run[..|run| - 1]), run[|run| - 1], c);
    }
  }

  /** Selected by the cleanup of `n`: removed already, or on its list, or stuck. */
  ghost predicate Going(s: State, n: Name, c: Name) {
    && n in s.calls && s.calls[n].Pruning? && c in s.jobs
    && (c in s.disk.finals ==> c in s.calls[n].doomed || c in s.calls[n].stuck)
    && (c in s.calls ==> c == n || s.calls[c].Failing? || s.calls[c].Withdrawing?)
  }

  lemma ListStartsGoing(s: State, n: Name, names: seq<Name>, c: Name)
    requires Inv(s) && Enabled(s, List(n, names)) && Served(s, c) && !Spares(s, List(n, names), c)
    ensures Going(Step(s, List(n, names)), n, c)
  {
    hide Complete, FileOf, ManifestOf, Part, Owned, Pointing, Doomed, Fallback;
    if c in s.calls {
      OneHolder(s, n, c);
    }
  }

  /** The cleanup of `n` is over. */
  predicate Ends(e: Event, n: Name) {
    e == Unlock(n) || e == Crash(n)
  }

  lemma StepGoes(s: State, e: Event, n: Name, c: Name)
    requires Inv(s) && Enabled(s, e) && !Ends(e, n) && Going(s, n, c)
    ensures Going(Step(s, e), n, c)
  {
    hide Begun, Owned, AllReady, Pointing, Complete, FileOf, ManifestOf, Descending, Others, Fallback, Doomed, Part;
  }

  lemma {:induction false} RunGoes(s: State, run: seq<Event>, n: Name, c: Name)
    requires Inv(s) && Legal(s, run) && Going(s, n, c)
    requires forall i :: 0 <= i < |run| ==> !Ends(run[i], n)
    ensures Going(After(s, run), n, c)
  {
    hide Inv, Enabled, Step, Going;
    if run != [] {
      RunGoes(s, run[..|run| - 1], n, c);
      RunInv(s, run[..|run| - 1]);
      StepGoes(After(s, run[..|run| - 1]), run[|run| - 1], n, c);
    }
  }

  lemma NobodyElseLists(s: State, e: Event, n: Name)
    requires Inv(s) && Enabled(s, e) && n in s.calls && s.calls[n].Pruning?
    ensures !e.List?
  {
    hide Inv;
    match e
    case List(m, _) => OneHolder(s, n, m);
    case _ =>
  }

  lemma StepPrunes(s: State, e: Event, n: Name, c: Name)
    requires Inv(s) && Enabled(s, e) && !Ends(e, n) && n in s.calls && s.calls[n].Pruning?
    ensures Spares(s, e, c) && n in Step(s, e).calls && Step(s, e).calls[n].Pruning?
  {
    hide Complete, FileOf, ManifestOf, Descending, Others, Fallback, Doomed, Part, Owned, Pointing, AllReady, Begun;
    NobodyElseLists(s, e, n);
  }

  /** While one cleanup goes on no other one selects anything. */
  lemma {:induction false} RunPrunes(s: State, run: seq<Event>, n: Name, c: Name)
    requires Inv(s) && Legal(s, run) && n in s.calls && s.calls[n].Pruning?
    requires forall i :: 0 <= i < |run| ==> !Ends(run[i], n)
    ensures AllSpare(s, run, c) && n in After(s, run).calls && After(s, run).calls[n].Pruning?
  {
    hide Inv, Enabled, Step, Spares;
    if run != [] {
      RunPrunes(s, run[..|run| - 1], n, c);
      RunInv(s, run[..|run| - 1]);
      StepPrunes(After(s, run[..|run| - 1]), run[|run| - 1], n, c);
    }
  }

  /** One cleanup from its selection to its last removal, with anything going on beside it:
      a generation that was current is left whole exactly when the cleanup read it in
      CURRENT, or no final directory sorted after it but the one the cleanup read there. */
  lemma CleanupDecides(s: State, n: Name, names: seq<Name>, run: seq<Event>, c: Name)
    requires Inv(s) && Enabled(s, List(n, names)) && Served(s, c)
    requires Legal(Step(s, List(n, names)), run) && forall i :: 0 <= i < |run| ==> !Ends(run[i], n)
    ensures var t := After(Step(s, List(n, names)), run);
            var read := s.calls[n].read;
            && n in t.calls && t.calls[n].Pruning?
            && (t.calls[n].doomed == [] && c !in t.calls[n].stuck ==>
                  (c in t.disk.finals <==> read == Some(c) || forall m :: m in s.disk.finals && m > c ==> read == Some(m)))
            && (c in t.disk.finals && c !in t.calls[n].stuck && t.calls[n].doomed == [] ==>
                  c in t.jobs && t.disk.finals[c] == Complete(t.jobs[c]))
  {
    hide Inv, Complete, Doomed, Fallback, Descending, Spares;
    var e := List(n, names);
    StepInv(s, e);
    ListPrunes(s, n, names);
    RunPrunes(Step(s, e), run, n, c);
    SparesExactly(s, n, names, c);
    if Spares(s, e, c) {
      StepServes(s, e, c);
      RunServes(Step(s, e), run, c);
    } else {
      ListStartsGoing(s, n, names, c);
      RunGoes(Step(s, e), run, n, c);
    }
  }

  lemma ListPrunes(s: State, n: Name, names: seq<Name>)
    requires Enabled(s, List(n, names))
    ensures n in Step(s, List(n, names)).calls && Step(s, List(n, names)).calls[n].Pruning?
  {
  }

  lemma OneHolder(s: State, n: Name, m: Name)
    requires Inv(s) && n in s.calls && Holds(s.calls[n]) && m in s.calls && Holds(s.calls[m])
    ensures n == m
  {
    hide Owned, AllReady, Pointing, Begun;
    assert s.lock == Some(n);
  }

  // ---- readers ----

  /** `load`: reads CURRENT, then the manifest, then the index, at three moments between
      which anything may have happened to the directory. */
  function Load(atPointer: Disk, atManifest: Disk, atIndex: Disk, key: CacheKey): Outcome {
    if atPointer.current == None then Miss else
    var c := atPointer.current.value;
    if c !in atManifest.finals || atManifest.finals[c].manifest == None then Failed else
    var manifest := atManifest.finals[c].manifest.value;
    if !Accepts(manifest, key) then Miss else
    if c !in atIndex.finals || atIndex.finals[c].bin == None then Failed else
    Judge(manifest, atIndex.finals[c].bin.value)
  }

  /** The files of `c` were still there when the reader opened them. */
  predicate Kept(atManifest: Disk, atIndex: Disk, c: Name) {
    && c in atManifest.finals && atManifest.finals[c].manifest.Some?
    && c in atIndex.finals && atIndex.finals[c].bin.Some?
  }

  lemma LoadParts(s1: State, s2: State, s3: State, key: CacheKey)
    requires s1.disk.current.Some? && Owned(s2) && Owned(s3)
    requires var c := s1.disk.current.value;
             c in s1.jobs && c in s2.jobs && c in s3.jobs && s2.jobs[c] == s3.jobs[c] == s1.jobs[c]
    ensures var c, r := s1.disk.current.value, Load(s1.disk, s2.disk, s3.disk, key);
            var job := s1.jobs[c];
            && (r.Hit? ==> r == Hit(job.body, job.shards, |FileOf(job)|) && job.key == key)
            && (Kept(s2.disk, s3.disk, c) ==> (r.Hit? <==> job.key == key) && !r.Failed?)
  {
    hide FileOf, Judge;
    var c := s1.disk.current.value;
    JudgeOwn(s1.jobs[c]);
    assert c in s2.disk.finals ==> Part(s2.disk.finals[c], s1.jobs[c]);
    assert c in s3.disk.finals ==> Part(s3.disk.finals[c], s1.jobs[c]);
  }

  /** A hit is exactly what one `store` call was given, under an equal key, and that
      call's generation was the current one when the reader looked: never parts of two
      generations, never an unfinished one. If pruning does not overtake the reader, it
      hits exactly when the keys are equal; length, header and checksum reject nothing. */
  lemma LoadIsOneStore(before: seq<Event>, between: seq<Event>, after: seq<Event>, key: CacheKey)
    requires Legal(Start, before) && Legal(After(Start, before), between)
    requires Legal(After(After(Start, before), between), after)
    ensures var s1 := After(Start, before);
            var s2 := After(s1, between);
            var s3 := After(s2, after);
            var r := Load(s1.disk, s2.disk, s3.disk, key);
            && (r.Hit? ==>
                  && s1.disk.current.Some? && s1.disk.current.value in s1.jobs
                  && var job := s1.jobs[s1.disk.current.value];
                     r == Hit(job.body, job.shards, |FileOf(job)|) && job.key == key)
            && (s1.disk.current.Some? ==>
                  var c := s1.disk.current.value;
                  && c in s1.jobs
                  && (Kept(s2.disk, s3.disk, c) ==> (r.Hit? <==> s1.jobs[c].key == key) && !r.Failed?))
  {
    var s1 := After(Start, before);
    var s2 := After(s1, between);
    StartInv();
    RunInv(Start, before);
    RunInv(s1, between);
    RunInv(s2, after);
    if s1.disk.current.Some? {
      var c := s1.disk.current.value;
      assert Pointing(s1);
      RunKeepsJob(s1, between, c);
      RunKeepsJob(s2, after, c);
      LoadParts(s1, s2, After(s2, after), key);
    }
  }

  lemma ServedIsKept(s2: State, s3: State, c: Name)
    requires Served(s2, c) && Served(s3, c)
    ensures Kept(s2.disk, s3.disk, c)
  {
    hide FileOf, ManifestOf;
  }

  /** The fallback is what a reader lives on: as long as no cleanup selects the generation
      it found in CURRENT, it hits exactly when the keys are equal, and never fails. */
  lemma SparedReaderHits(before: seq<Event>, between: seq<Event>, after: seq<Event>, key: CacheKey)
    requires Legal(Start, before) && Legal(After(Start, before), between)
    requires Legal(After(After(Start, before), between), after)
    requires After(Start, before).disk.current.Some?
    requires var c := After(Start, before).disk.current.value;
             && AllSpare(After(Start, before), between, c)
             && AllSpare(After(After(Start, before), between), after, c)
    ensures var s1 := After(Start, before);
            var c := s1.disk.current.value;
            var s2 := After(s1, between);
            var r := Load(s1.disk, s2.disk, After(s2, after).disk, key);
            c in s1.jobs && !r.Failed? && (r.Hit? <==> s1.jobs[c].key == key)
  {
    hide Inv, Load, Kept, Served;
    var s1 := After(Start, before);
    var s2 := After(s1, between);
    StartInv();
    RunInv(Start, before);
    RunInv(s1, between);
    CurrentIsServed(s1);
    RunServes(s1, between, s1.disk.current.value);
    RunServes(s2, after, s1.disk.current.value);
    ServedIsKept(s2, After(s2, after), s1.disk.current.value);
    LoadIsOneStore(before, between, after, key);
  }

  lemma StaysGone(s: State, e: Event)
    requires Enabled(s, e) && s.disk.current == None && !e.Publish?
    ensures Step(s, e).disk.current == None
  {
    hide Complete, FileOf, ManifestOf, Descending, Others, Fallback, Doomed, Remnant, Left;
  }

  lemma {:induction false} GoneUntilPublished(s: State, run: seq<Event>)
    requires Legal(s, run) && s.disk.current == None && forall i :: 0 <= i < |run| ==> !run[i].Publish?
    ensures After(s, run).disk.current == None
  {
    hide Enabled, Step;
    if run != [] {
      GoneUntilPublished(s, run[..|run| - 1]);
      StaysGone(After(s, run[..|run| - 1]), run[|run| - 1]);
    }
  }

  /** `invalidate` takes away CURRENT and no file of a generation; until the next publication
      every reader misses, whatever else goes on. */
  lemma InvalidatedMisses(s: State, run: seq<Event>, atManifest: Disk, atIndex: Disk, key: CacheKey)
    requires Legal(Step(s, Invalidate), run) && forall i :: 0 <= i < |run| ==> !run[i].Publish?
    ensures Load(After(Step(s, Invalidate), run).disk, atManifest, atIndex, key) == Miss
    ensures Step(s, Invalidate).disk.finals == s.disk.finals && Step(s, Invalidate).disk.staging == s.disk.staging
  {
    hide Legal, After;
    GoneUntilPublished(Step(s, Invalidate), run);
  }

  // ---- one call that nothing interrupts ----

  /** The code of `store` and `cleanup` as a sequence of the steps above. The arguments
      say how each "still current?" check turned out. */
  class Cache {
    var state: State

    constructor ()
      ensures Inv(state) && state == Start
    {
      state := Start;
    }

    method Do(e: Event)
      requires Inv(state) && Enabled(state, e)
      modifies this
      ensures Inv(state) && Enabled(old(state), e) && state == Step(old(state), e)
    {
      StepInv(state, e);
      state := Step(state, e);
    }

    method Serialize(n: Name, job: Job, serialized: bool, complete: bool) returns (ok: bool)
      requires Inv(state) && n !in state.jobs
      modifies this
      ensures Inv(state) && ok == (serialized && complete)
      ensures state.jobs == old(state.jobs)[n := job] && n !in state.overtaken
      ensures state.calls == old(state.calls)[n := if ok then Sealed else Failing]
      ensures state.lock == old(state.lock) && state.disk == old(state.disk).(staging := state.disk.staging)
      ensures n in state.disk.staging && state.disk.staging - {n} == old(state.disk.staging) - {n}
    {
      hide Inv, Complete, FileOf, ManifestOf, Part, Descending, Others, Fallback, Doomed;
      NewName(state, n);
      Do(Begin(n, job));
      Do(WriteIndex(n, |FileOf(job)|));
      assert FileOf(job)[..|FileOf(job)|] == FileOf(job);
      assert state.disk.staging - {n} == old(state.disk.staging) - {n};
      if !(serialized && complete) {
        NotHolder(state, n);
        Do(Fail(n, false));
        return false;
      }
      Do(WriteManifest(n));
      return true;
    }

    method Install(n: Name, locked: bool, pointed: bool) returns (ok: bool)
      requires Inv(state) && In(state, n, Sealed) && state.lock == None && n in state.disk.staging && n in state.jobs
      requires n !in state.disk.finals && n !in state.overtaken
      modifies this
      ensures Inv(state) && ok == (locked && pointed)
      ensures state.jobs == old(state.jobs)
      ensures state.calls == old(state.calls)[n := if ok then Published else Failing]
      ensures state.lock == (if ok then Some(n) else None)
      ensures state.disk.current == (if ok then Some(n) else old(state.disk.current))
      ensures state.disk.finals - {n} == old(state.disk.finals)
      ensures n !in old(state.disk.pointers) ==> state.disk.pointers == old(state.disk.pointers)
      ensures ok ==> n in state.disk.finals && state.disk.finals[n] == Complete(state.jobs[n])
      ensures state.disk.staging - {n} == old(state.disk.staging) - {n} && (ok ==> n !in state.disk.staging)
    {
      hide Inv, Complete, FileOf, ManifestOf, Part, Descending, Others, Fallback, Doomed;
      Do(TakeLock(n));
      if !locked {
        Do(Fail(n, false));
        return false;
      }
      Do(Rename(n));
      ok := Point(n, pointed);
    }

    /** From the renamed generation to the installed pointer. */
    method Point(n: Name, pointed: bool) returns (ok: bool)
      requires Inv(state) && In(state, n, Renamed) && state.lock == Some(n) && n !in state.overtaken
      modifies this
      ensures Inv(state) && ok == pointed && state.jobs == old(state.jobs)
      ensures state.calls == old(state.calls)[n := if ok then Published else Failing]
      ensures state.lock == (if ok then Some(n) else None)
      ensures state.disk.current == (if ok then Some(n) else old(state.disk.current))
      ensures state.disk.finals == old(state.disk.finals) && state.disk.staging == old(state.disk.staging)
      ensures state.disk.pointers == old(state.disk.pointers) - {n}
      ensures ok ==> n in state.disk.finals && n in state.jobs && state.disk.finals[n] == Complete(state.jobs[n])
    {
      hide Inv, Complete, FileOf, ManifestOf, Part, Descending, Others, Fallback, Doomed;
      Do(MakePointer(n));
      if !pointed {
        Do(Fail(n, true));
        return false;
      }
      Do(LastTest(n));
      IsComplete(state, n);
      Do(Publish(n));
      return true;
    }

    method RemoveNext(n: Name)
      requires Inv(state) && n in state.calls && state.calls[n].Pruning? && state.calls[n].doomed != []
      modifies this
      ensures Inv(state) && state.jobs == old(state.jobs)
      ensures n in state.calls && state.calls[n].Pruning? && state.calls[n].doomed == old(state.calls[n].doomed)[1..]
      ensures state.calls - {n} == old(state.calls) - {n}
      ensures state.disk == old(state.disk).(finals := old(state.disk.finals) - {old(state.calls[n].doomed)[0]})
    {
      hide Inv, Complete, FileOf, ManifestOf, Part, Descending, Others, Fallback, Doomed;
      Do(RemoveDoomed(n, None));
    }

    method Cleanup(n: Name, listing: seq<Name>)
      requires Inv(state) && In(state, n, Published)
      requires Descending(listing) && forall m :: m in listing <==> m in state.disk.finals
      modifies this
      ensures Inv(state) && state.jobs == old(state.jobs) && state.calls == old(state.calls) - {n} && state.lock == None
      ensures state.disk == old(state.disk).(finals := state.disk.finals)
      ensures state.disk.finals == Without(old(state.disk.finals), Doomed(old(state.disk.current), listing))
    {
      hide Inv, Complete, FileOf, ManifestOf, Part, Descending, Others, Fallback, Doomed, Without;
      Do(ReadCurrent(n));
      Do(List(n, listing));
      ghost var doomed := Doomed(old(state.disk.current), listing);
      ghost var i := 0;
      WithoutNone(state.disk.finals, doomed);
      while state.calls[n].doomed != []
        invariant Inv(state) && n in state.calls && state.calls[n].Pruning?
        invariant 0 <= i <= |doomed| && state.calls[n].doomed == doomed[i..]
        invariant state.calls - {n} == old(state.calls) - {n} && state.jobs == old(state.jobs)
        invariant state.disk == old(state.disk).(finals := state.disk.finals)
        invariant state.disk.finals == Without(old(state.disk.finals), doomed[..i])
        decreases |doomed| - i
      {
        WithoutOne(old(state.disk.finals), doomed, i);
        RemoveNext(n);
        i := i + 1;
      }
      assert doomed[..i] == doomed;
      Do(Unlock(n));
    }

    method WithdrawAll(n: Name)
      requires Inv(state) && In(state, n, Failing)
      modifies this
      ensures Inv(state) && state.jobs == old(state.jobs) && state.calls == old(state.calls) - {n}
      ensures state.lock == old(state.lock)
      ensures state.disk == old(state.disk).(staging := old(state.disk.staging) - {n}, finals := old(state.disk.finals) - {n})
    {
      hide Inv, Complete, FileOf, ManifestOf, Part, Descending, Others, Fallback, Doomed;
      Do(RemoveStaging(n, None));
      Do(Withdraw(n, None));
    }

    /** `store`: on success its generation is the current one and at most one other is
        left; on failure the directory is as it was found. */
    method Store(n: Name, job: Job, listing: seq<Name>, asked: bool, serialized: bool, complete: bool,
                 locked: bool, pointed: bool)
      returns (ok: bool)
      requires Inv(state) && n !in state.jobs && state.lock == None && n !in state.disk.staging
      requires n !in state.disk.pointers
      requires Descending(listing) && forall m :: m in listing <==> m == n || m in state.disk.finals
      modifies this
      ensures Inv(state) && state.lock == None && state.calls == old(state.calls)
      ensures ok == (asked && serialized && complete && locked && pointed)
      ensures state.disk.staging == old(state.disk.staging)
      ensures ok ==> n in state.jobs && state.jobs[n] == job && state.disk.current == Some(n)
      ensures ok ==> forall m :: m in state.disk.finals <==> m in listing && m !in Doomed(Some(n), listing)
      ensures state.disk.pointers == old(state.disk.pointers) && (!ok ==> state.disk == old(state.disk))
    {
      hide Inv, Complete, FileOf, ManifestOf, Part, Descending, Others, Fallback, Doomed;
      if !asked {
        return false;
      }
      NewName(state, n);
      ok := Serialize(n, job, serialized, complete);
      if ok {
        IsFresh(state, n);
        ok := Install(n, locked, pointed);
      }
      if ok {
        Cleanup(n, listing);
      } else {
        WithdrawAll(n);
        assert state.disk.finals == old(state.disk.finals);
      }
      assert state.disk.staging - {n} == old(state.disk.staging) - {n};
      assert n !in state.disk.staging;
      SameOutside(state.disk.staging, old(state.disk.staging), n);
    }

    /** A call that dies between renaming its generation and installing its pointer. */
    method Abandon(n: Name, job: Job)
      requires Inv(state) && n !in state.jobs && state.lock == None && n !in state.disk.staging
      modifies this
      ensures Inv(state) && state.lock == None && state.jobs == old(state.jobs)[n := job]
      ensures state.disk.current == old(state.disk.current) && state.disk.staging == old(state.disk.staging)
      ensures state.disk.finals.Keys == old(state.disk.finals).Keys + {n}
      ensures state.disk.pointers == old(state.disk.pointers)
    {
      hide Inv, Complete, FileOf, ManifestOf, Part, Descending, Others, Fallback, Doomed;
      var _ := Serialize(n, job, true, true);
      Do(TakeLock(n));
      Do(Rename(n));
      Do(Crash(n));
      assert state.disk.staging - {n} == old(state.disk.staging) - {n};
      SameOutside(state.disk.staging, old(state.disk.staging), n);
    }

    /** One publication is enough to fail a reader: a call that dies between renaming its
        generation and installing its pointer leaves the newest directory besides the next
        one published, and so takes the fallback's place. */
    method LoseReader(c: Name, newer: Name, next: Name, job: Job, listing: seq<Name>)
      requires Inv(state) && state.lock == None && state.disk.current == Some(c)
      requires newer !in state.jobs && next !in state.jobs && newer > c && newer != next
      requires newer !in state.disk.staging && next !in state.disk.staging && next !in state.disk.pointers
      requires Descending(listing) && forall m :: m in listing <==> m == next || m == newer || m in state.disk.finals
      modifies this
      ensures Inv(state) && state.disk.current == Some(next) && c !in state.disk.finals
      ensures forall key :: Load(old(state.disk), state.disk, state.disk, key) == Failed
    {
      hide Inv, Complete, FileOf, ManifestOf, Part, Descending, Others, Fallback, Doomed;
      CurrentIsFinal(state);
      CleanupSpares(Some(next), listing, c);
      Abandon(newer, job);
      var _ := Store(next, job, listing, true, true, true, true, true);
    }
  }

  function Without(files: map<Name, Files>, names: seq<Name>): map<Name, Files> {
    map m | m in files && m !in names :: files[m]
  }

  lemma WithoutNone(files: map<Name, Files>, names: seq<Name>)
    ensures Without(files, names[..0]) == files
  {
  }

  lemma WithoutOne(files: map<Name, Files>, names: seq<Name>, i: nat)
    requires i < |names|
    ensures Without(files, names[..i + 1]) == Without(files, names[..i]) - {names[i]}
  {
    assert names[..i + 1] == names[..i] + [names[i]];
  }

  lemma SameOutside(a: map<Name, Files>, b: map<Name, Files>, n: Name)
    requires n !in a && n !in b && a - {n} == b - {n}
    ensures a == b
  {
    assert a == a - {n} && b == b - {n};
  }

  lemma CurrentIsFinal(s: State)
    requires Inv(s) && s.disk.current.Some?
    ensures s.disk.current.value in s.disk.finals && s.disk.current.value in s.jobs
  {
    hide Complete, FileOf, ManifestOf, Part, Locking, Owned, AllReady;
  }

  lemma NewName(s: State, n: Name)
    requires Inv(s) && n !in s.jobs
    ensures n !in s.calls && n !in s.disk.finals && n !in s.overtaken
  {
    hide Complete, FileOf, ManifestOf, Descending, Others, Fallback, Doomed, Part;
  }

  lemma NotHolder(s: State, n: Name)
    requires Inv(s) && In(s, n, Writing)
    ensures s.lock != Some(n)
  {
    hide Owned, AllReady, Pointing;
  }

  lemma IsFresh(s: State, n: Name)
    requires Inv(s) && In(s, n, Sealed)
    ensures n !in s.disk.finals && n in s.jobs && n in s.disk.staging
  {
    hide Complete, FileOf, ManifestOf, Descending, Others, Fallback, Doomed, Part;
    assert Ready(s, n);
  }

  lemma IsComplete(s: State, n: Name)
    requires Inv(s) && In(s, n, Cleared)
    ensures n in s.disk.finals && n in s.jobs && s.disk.finals[n] == Complete(s.jobs[n])
  {
    hide Complete, FileOf, ManifestOf, Descending, Others, Fallback, Doomed, Part;
    assert Ready(s, n);
  }
}
