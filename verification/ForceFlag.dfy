/** The fate of `apps.needs_force` when deletions, collections and prefills interleave. */
module ForceFlag {
  import opened CacheDelete
  import opened Deletion
  import opened JobLaws
  import opened JobRuns
  import opened Lifecycle
  import opened Options
  import opened QueueMode
  import opened Removals
  import opened Tables

  predicate FlagUp(w: World, appid: nat) {
    appid in w.db.apps && w.db.apps[appid].needsForce
  }

  predicate CarriesForce(worker: Worker) {
    worker.Started? || worker.Waiting? || worker.Remapping? || worker.Mapped? || worker.Recorded?
  }

  /** A run of the app that read `value` when it was claimed is in the worker's hands. */
  predicate RunReading(w: World, appid: nat, value: bool) {
    CarriesForce(w.worker) && JobApp(w.db, w.worker.job) == appid && w.worker.force == value
  }

  /** ... or handed off with 1 and still open. */
  predicate ForcedRun(w: World, appid: nat) {
    || RunReading(w, appid, true)
    || exists i :: 0 <= i < |w.db.jobs| && OpenForced(w.db.jobs[i], appid)
  }

  predicate OpenForced(job: Job, appid: nat) {
    Reattachable(job) && job.appid == appid && job.run.useForce == Some(true)
  }

  predicate ReadsFlagOf(w: World, e: Event, appid: nat) {
    e.ReadsFlag? && w.worker.Marked? && JobApp(w.db, w.worker.job) == appid
  }

  predicate Clears(w: World, e: Event, appid: nat) {
    e.ClearsFlag? && w.worker.Recorded? && w.worker.force && JobApp(w.db, w.worker.job) == appid
  }

  // ---------------------------------------------------------------- who can lower the flag

  lemma WorkLowersOnlyByClearing(w: World, e: Event, appid: nat)
    requires FlagUp(w, appid) && ActorOf(e).Thread? && !Clears(w, e, appid)
    ensures FlagUp(OnWorker(w, e), appid)
  {
    hide Finalize;
    match e {
      case RunEnds(outcome, considered, observed) =>
        if w.worker.Started? { EndNeverLowers(w, w.worker.job, w.worker.force, outcome, considered, observed, appid); }
      case Awaits(considered, observed) =>
        if w.worker.Waiting? && w.worker.job < |w.db.jobs| && w.db.jobs[w.worker.job].run.result.Some? {
          EndNeverLowers(w, w.worker.job, w.worker.force, w.db.jobs[w.worker.job].run.result.value, considered, observed, appid);
        }
      case _ =>
    }
  }

  lemma EndNeverLowers(w: World, id: nat, force: bool, outcome: RunOutcome, considered: bool, observed: set<nat>, appid: nat)
    requires FlagUp(w, appid)
    ensures FlagUp(Finalize(w, id, force, outcome, considered, observed), appid)
  {
  }

  lemma OthersNeverLower(w: World, e: Event, appid: nat)
    requires FlagUp(w, appid) && !ActorOf(e).Thread?
    ensures FlagUp(Step(w, e), appid)
  {
    match ActorOf(e) {
      case Api => ApiNeverLowers(w, e, appid);
      case Deleter => DeletesNeverLower(w, e, appid);
      case Outside =>
    }
  }

  lemma ApiNeverLowers(w: World, e: Event, appid: nat)
    requires FlagUp(w, appid) && ActorOf(e).Api?
    ensures FlagUp(Step(w, e), appid)
  {
  }

  lemma DeletesNeverLower(w: World, e: Event, appid: nat)
    requires FlagUp(w, appid) && ActorOf(e).Deleter?
    ensures FlagUp(Step(w, e), appid)
  {
  }

  /** The flag goes down only in the compare-and-swap of a run that read 1. */
  lemma OnlyAForcedRunClears(w: World, e: Event, appid: nat)
    requires FlagUp(w, appid)
    ensures FlagUp(Step(w, e), appid) <==> !Clears(w, e, appid)
  {
    if !ActorOf(e).Thread? {
      OthersNeverLower(w, e, appid);
    } else if !Clears(w, e, appid) {
      WorkLowersOnlyByClearing(w, e, appid);
    }
  }

  /** The swap at the end of a run takes the flag exactly when the run had read 1: a flag raised
      during a run that read 0 survives, and one raised during a run that read 1 is lost. */
  lemma SurvivesTheSwapExactlyWhenUnread(w: World)
    requires WorkerHoldsRunning(w) && w.worker.Recorded? && FlagUp(w, JobApp(w.db, w.worker.job))
    ensures FlagUp(Step(w, ClearsFlag), JobApp(w.db, w.worker.job)) <==> !w.worker.force
  {
  }

  // ---------------------------------------------------------------- until the next claim

  predicate Armed(w: World, appid: nat) {
    FlagUp(w, appid) && !ForcedRun(w, appid)
  }

  lemma AppsOfJobsStay(w: World, e: Event)
    requires WorkerHoldsRunning(w)
    ensures |Step(w, e).db.jobs| >= |w.db.jobs|
    ensures forall i: nat :: i < |w.db.jobs| ==> JobApp(Step(w, e).db, i) == JobApp(w.db, i)
  {
    NewJobs(w, e);
    forall i: nat | i < |w.db.jobs| ensures JobApp(Step(w, e).db, i) == JobApp(w.db, i) {
      StepIsLawful(w, e, i);
    }
  }

  lemma OpenForcedComesFrom(w: World, e: Event, i: nat, appid: nat)
    requires Coherent(w) && i < |Step(w, e).db.jobs| && OpenForced(Step(w, e).db.jobs[i], appid)
    ensures ForcedRun(w, appid)
  {
    hide Step;
    NewJobs(w, e);
    assert i < |w.db.jobs|;
    StepIsLawful(w, e, i);
    StepFollowsRunLaw(w, e, i);
    if !e.HandsOff? { assert OpenForced(w.db.jobs[i], appid); }
  }

  lemma ReadingComesFrom(w: World, e: Event, appid: nat)
    requires WorkerHoldsRunning(w) && ActorOf(e).Thread? && RunReading(OnWorker(w, e), appid, true)
    requires JobApp(OnWorker(w, e).db, OnWorker(w, e).worker.job) == JobApp(w.db, OnWorker(w, e).worker.job)
    requires !ReadsFlagOf(w, e, appid)
    ensures ForcedRun(w, appid)
  {
    hide OnWorker;
    if e.Polls? && w.worker.Idle? {
      PollFindsOpenRun(w, e, appid);
    } else {
      ReadingKeepsItsJob(w, e);
      RunIsCarriedOn(w, e);
    }
  }

  lemma ReadingKeepsItsJob(w: World, e: Event)
    ensures e.ReadsFlag? && w.worker.Marked? ==> OnWorker(w, e).worker.Started? && OnWorker(w, e).worker.job == w.worker.job
  {
  }

  lemma PollFindsOpenRun(w: World, e: Event, appid: nat)
    requires e.Polls? && w.worker.Idle? && RunReading(OnWorker(w, e), appid, true)
    ensures exists i :: 0 <= i < |w.db.jobs| && OpenForced(w.db.jobs[i], appid)
  {
    var active := FindActiveRun(w.db);
    hide FindActiveRun;
    assert active.Some?;
    FoundRunIsOpen(w.db);
    assert OpenForced(w.db.jobs[active.value], appid);
  }

  lemma FoundRunIsOpen(db: Db)
    requires FindActiveRun(db).Some?
    ensures FindActiveRun(db).value < |db.jobs| && Reattachable(db.jobs[FindActiveRun(db).value])
  {
  }

  /** The worker carries a flag value on from step to step, but for the poll and the reading. */
  lemma RunIsCarriedOn(w: World, e: Event)
    requires ActorOf(e).Thread? && CarriesForce(OnWorker(w, e).worker)
    requires !(e.Polls? && w.worker.Idle?) && !(e.ReadsFlag? && w.worker.Marked?)
    ensures CarriesForce(w.worker)
    ensures OnWorker(w, e).worker.job == w.worker.job && OnWorker(w, e).worker.force == w.worker.force
  {
    hide OnPoll, FinishJob, HandoffRun, SetAppStatus, SetNeedsForce, ClearNeedsForceIfUnchanged, UpsertMapping, ResetIfRunning,
      ParkPaused, StaleDepots, MappingUnreadable, JobApp, RunIsStale, Terminal;
  }

  lemma ArmedStep(w: World, e: Event, appid: nat)
    requires Coherent(w) && Armed(w, appid) && !ReadsFlagOf(w, e, appid)
    ensures Armed(Step(w, e), appid)
  {
    hide Step;
    OnlyAForcedRunClears(w, e, appid);
    AppsOfJobsStay(w, e);
    SoundKept(w, e);
    var now := Step(w, e);
    if i :| 0 <= i < |now.db.jobs| && OpenForced(now.db.jobs[i], appid) {
      OpenForcedComesFrom(w, e, i, appid);
    }
    if RunReading(now, appid, true) {
      ReadingIsOld(w, e, appid);
    }
  }

  lemma ReadingIsOld(w: World, e: Event, appid: nat)
    requires Coherent(w) && RunReading(Step(w, e), appid, true) && !ReadsFlagOf(w, e, appid)
    ensures ForcedRun(w, appid)
  {
    AppsOfJobsStay(w, e);
    HeldJobRuns(w, e);
    NewJobs(w, e);
    if ActorOf(e).Thread? {
      StartsOnKnownJobs(w, e);
      ReadingComesFrom(w, e, appid);
    } else {
      WorkerMovesItself(w, e);
    }
  }

  lemma StartsOnKnownJobs(w: World, e: Event)
    requires WorkerHoldsRunning(w) && ActorOf(e).Thread? && CarriesForce(OnWorker(w, e).worker)
    ensures OnWorker(w, e).worker.job < |w.db.jobs|
  {
  }

  lemma ReadsWhatIsUp(w: World, appid: nat)
    requires FlagUp(w, appid) && ReadsFlagOf(w, ReadsFlag, appid)
    ensures RunReading(Step(w, ReadsFlag), appid, true)
  {
  }

  /** No lost force flag. Let a run of the app be under way that read 0, or none at all. Then a
      flag raised now is still up after any further steps - the end of that run, crashes and
      restarts included - until the next run of the app reads it, and that run is forced. */
  lemma {:induction false} FlagHoldsUntilRead(w: World, events: seq<Event>, appid: nat)
    requires Coherent(w) && Armed(w, appid)
    requires forall k :: 0 <= k < |events| ==> !ReadsFlagOf(Run(w, events[..k]), events[k], appid)
    ensures Armed(Run(w, events), appid)
    ensures ReadsFlagOf(Run(w, events), ReadsFlag, appid) ==> RunReading(Step(Run(w, events), ReadsFlag), appid, true)
  {
    hide Step, ForcedRun, ReadsFlagOf;
    if events != [] {
      var n := |events| - 1;
      var front := events[..n];
      forall k | 0 <= k < n ensures !ReadsFlagOf(Run(w, front[..k]), front[k], appid) {
        assert front[..k] == events[..k];
      }
      FlagHoldsUntilRead(w, front, appid);
      CoherentAlways(w, front);
      assert front == events[..n];
      ArmedStep(Run(w, front), events[n], appid);
    }
    if ReadsFlagOf(Run(w, events), ReadsFlag, appid) {
      ReadsWhatIsUp(Run(w, events), appid);
    }
  }

  /** The case the swap is built for: a flag raised while a run that read 0 is under way. */
  lemma RaisedDuringUnforcedRun(w: World, e: Event, events: seq<Event>, appid: nat)
    requires Coherent(w) && RunReading(w, appid, false)
    requires FlagUp(Step(w, e), appid) && !ReadsFlagOf(w, e, appid)
    requires forall k :: 0 <= k < |events| ==> !ReadsFlagOf(Run(Step(w, e), events[..k]), events[k], appid)
    ensures FlagUp(Run(Step(w, e), events), appid)
    ensures ReadsFlagOf(Run(Step(w, e), events), ReadsFlag, appid) ==>
              RunReading(Step(Run(Step(w, e), events), ReadsFlag), appid, true)
  {
    NotForcedMeanwhile(w, appid);
    CoherentKept(w, e);
    var now := Step(w, e);
    if ForcedRun(now, appid) {
      if i :| 0 <= i < |now.db.jobs| && OpenForced(now.db.jobs[i], appid) {
        OpenForcedComesFrom(w, e, i, appid);
      } else {
        ReadingIsOld(w, e, appid);
      }
    }
    FlagHoldsUntilRead(now, events, appid);
  }

  lemma NotForcedMeanwhile(w: World, appid: nat)
    requires Coherent(w) && RunReading(w, appid, false)
    ensures !ForcedRun(w, appid)
  {
  }

  // ---------------------------------------------------------------- the flag that is lost

  function Mapped10(): Db {
    Db(map[7 := FreshApp], {Row(Number(10), Number(7))}, [])
  }

  /** A DELETE of app 7 has passed its job check and is about to recheck depot 10. */
  function DeletePlanned(db: Db, worker: Worker): World {
    World(db, {10}, worker, map[0 := Removing(7, {10}, Outcome(map[], {}, {}, {}), false)], 0, false, 90)
  }

  function WithRun(status: AppStatus): Db {
    Db(map[7 := App(status, None, true)], {Row(Number(10), Number(7))},
       [Job(7, Prefill, Running, Some(0), None, NoHandoff)])
  }

  lemma RowsOfSeven(db: Db)
    requires db == Mapped10()
    ensures 7 in db.apps && !HasActiveJob(db.jobs, 7)
    ensures LoadMappingRows(db, 7) != {} && UnusableIds(LoadMappingRows(db, 7)) == {}
    ensures Releasable(db, 7) == {10}
  {
    var row := Row(Number(10), Number(7));
    assert row in db.rows;
    assert LoadMappingRows(db, 7) == {row};
    forall d: nat ensures d in Releasable(db, 7) <==> d == 10 {
      ReleasableIs(db, 7, d);
    }
  }

  lemma DeleteGetsPlanned(w: World)
    requires w == World(Mapped10(), {10}, Idle, map[], 0, false, 90)
    ensures Step(Step(Step(w, ReadsRows(0, 7)), ReadsStates(0)), Plans(0)) == DeletePlanned(Mapped10(), Idle)
  {
    var db := Mapped10();
    RowsOfSeven(db);
    PlannedCandidates(db, 7);
    hide Releasable, Protected, LoadMappingRows, LoadCoOwnerStates, OtherOwnerIds, HasActiveJob, UnusableIds, Candidates,
      Mapped10;
    var rows := LoadMappingRows(db, 7);
    var read := Step(w, ReadsRows(0, 7));
    assert read == w.(requests := map[0 := HaveRows(7, rows)]);
    var asked := Step(read, ReadsStates(0));
    assert asked == w.(requests := map[0 := HaveStates(7, rows, LoadCoOwnerStates(db, OtherOwnerIds(rows, 7)))]);
  }

  lemma PrefillGetsClaimed()
    ensures Step(Step(Step(Step(DeletePlanned(Mapped10(), Idle), Prefills(7)), Polls), MarksRunning), ReadsFlag)
         == DeletePlanned(WithRun(AppRunning), Started(0, true))
  {
    var queued := Mapped10().(jobs := [NewJob(7, Prefill)]);
    QueuesOne(queued);
    var claimed := WithRun(AppIdle);
    ClaimsOne(queued, claimed);
    ReadsOne(claimed);
    hide *;
  }

  lemma ReadsOne(claimed: Db)
    requires claimed == WithRun(AppIdle)
    ensures Step(Step(DeletePlanned(claimed, Claimed(0)), MarksRunning), ReadsFlag)
         == DeletePlanned(WithRun(AppRunning), Started(0, true))
  {
    MarksOne(claimed);
    hide Step;
    ReadsMarked();
  }

  lemma MarksOne(claimed: Db)
    requires claimed == WithRun(AppIdle)
    ensures Step(DeletePlanned(claimed, Claimed(0)), MarksRunning) == DeletePlanned(WithRun(AppRunning), Marked(0))
  {
  }

  lemma ReadsMarked()
    ensures Step(DeletePlanned(WithRun(AppRunning), Marked(0)), ReadsFlag) == DeletePlanned(WithRun(AppRunning), Started(0, true))
  {
  }

  lemma QueuesOne(queued: Db)
    requires queued == Mapped10().(jobs := [NewJob(7, Prefill)])
    ensures Step(DeletePlanned(Mapped10(), Idle), Prefills(7)) == DeletePlanned(queued, Idle)
  {
    assert EnqueuePrefill(Mapped10(), 7).0 == queued;
  }

  lemma ClaimsOne(queued: Db, claimed: Db)
    requires queued == Mapped10().(jobs := [NewJob(7, Prefill)]) && claimed == WithRun(AppIdle)
    ensures Step(DeletePlanned(queued, Idle), Polls) == DeletePlanned(claimed, Claimed(0))
  {
    assert NextQueued(queued.jobs) == Some(0) by { assert queued.jobs[0].status == Queued; }
    assert ClaimNextJob(queued, 0).0.jobs == claimed.jobs;
  }

  lemma DepotGetsRemoved()
    ensures Step(Step(Step(DeletePlanned(WithRun(AppRunning), Started(0, true)),
                           Rechecks(0, 10, true)), Removes(0, true)), Resets(0))
         == World(WithRun(AppIdle), {}, Started(0, true), map[0 := WasReset({})], 0, false, 90)
  {
    var db := WithRun(AppRunning);
    var checked := DeletePlanned(db, Started(0, true))
      .(requests := map[0 := Rechecked(7, {}, Outcome(map[], {}, {}, {}), false, 10, {})]);
    var removed := World(db, {}, Started(0, true), map[0 := Removing(7, {}, Outcome(map[10 := 0], {}, {}, {}), false)], 0, false, 90);
    DepotGetsRechecked(db, checked);
    RemovalGetsCounted(db, checked, removed);
    FlagGetsRaised(db, removed);
    hide *;
  }

  lemma DepotGetsRechecked(db: Db, checked: World)
    requires db == WithRun(AppRunning)
    requires checked == DeletePlanned(db, Started(0, true))
      .(requests := map[0 := Rechecked(7, {}, Outcome(map[], {}, {}, {}), false, 10, {})])
    ensures Step(DeletePlanned(db, Started(0, true)), Rechecks(0, 10, true)) == checked
  {
    assert !Protected(db, 7, 10) && CoOwners(db, 7, 10) == {};
    assert {10} - {10} == {};
  }

  lemma RemovalGetsCounted(db: Db, checked: World, removed: World)
    requires checked == World(db, {10}, Started(0, true),
      map[0 := Rechecked(7, {}, Outcome(map[], {}, {}, {}), false, 10, {})], 0, false, 90)
    requires removed == World(db, {}, Started(0, true),
      map[0 := Removing(7, {}, Outcome(map[10 := 0], {}, {}, {}), false)], 0, false, 90)
    ensures Step(checked, Removes(0, true)) == removed
  {
    assert {10} - {10} == {};
    assert Outcome(map[], {}, {}, {}).Add(10, Removed(0), {}) == Outcome(map[10 := 0], {}, {}, {});
  }

  lemma FlagGetsRaised(db: Db, removed: World)
    requires db == WithRun(AppRunning)
    requires removed == World(db, {}, Started(0, true),
      map[0 := Removing(7, {}, Outcome(map[10 := 0], {}, {}, {}), false)], 0, false, 90)
    ensures Step(removed, Resets(0))
         == World(WithRun(AppIdle), {}, Started(0, true), map[0 := WasReset({})], 0, false, 90)
  {
    assert 10 in map[10 := 0];
    assert Step(removed, Resets(0)).db.apps == WithRun(AppIdle).apps;
  }

  lemma MappingGetsStored(w: World, up: World)
    requires w == World(Db(map[], {}, []), {}, Down, map[], 0, false, 90)
    requires up == World(Mapped10(), {10}, Idle, map[], 0, false, 90)
    ensures Step(Step(Step(Run(w, []), Starts), PutsMapping(10, 7)), Stores(10)) == up
  {
    var (started, mapped) := (w.(worker := Idle), up.(disk := {}));
    StartsEmpty(w, started);
    MapsSeven(started, mapped);
    StoresTen(mapped, up);
    assert Run(w, []) == w;
    hide *;
  }

  lemma StartsEmpty(w: World, started: World)
    requires w == World(Db(map[], {}, []), {}, Down, map[], 0, false, 90) && started == w.(worker := Idle)
    ensures Step(w, Starts) == started
  {
  }

  lemma MapsSeven(started: World, mapped: World)
    requires started == World(Db(map[], {}, []), {}, Idle, map[], 0, false, 90) && mapped == started.(db := Mapped10())
    ensures Step(started, PutsMapping(10, 7)) == mapped
  {
  }

  lemma StoresTen(mapped: World, up: World)
    requires mapped.disk == {} && up == mapped.(disk := {10})
    ensures Step(mapped, Stores(10)) == up
  {
  }

  lemma FlagGetsLost(raised: World) returns (lost: World)
    requires raised == World(WithRun(AppIdle), {}, Started(0, true), map[0 := WasReset({})], 0, false, 90)
    ensures lost == Step(Step(Step(Run(raised, []), RunEnds(Succeeded, true, {})), RecordsDone), ClearsFlag)
    ensures !FlagUp(lost, 7) && Owns(lost.db, 7, 10) && 10 !in lost.disk
  {
    var db := raised.db.(apps := map[7 := App(AppDone, Some(0), true)]);
    EndsWell(raised, raised.(worker := Mapped(0, true)));
    GetsRecorded(raised.(worker := Mapped(0, true)), raised.(db := db, worker := Recorded(0, true)));
    lost := raised.(db := db.(apps := map[7 := App(AppDone, Some(0), false)]), worker := Settled(0));
    GetsCleared(raised.(db := db, worker := Recorded(0, true)), lost);
    assert Run(raised, []) == raised;
    hide Step, Run;
  }

  lemma EndsWell(raised: World, ended: World)
    requires raised == World(WithRun(AppIdle), {}, Started(0, true), map[0 := WasReset({})], 0, false, 90)
    requires ended == raised.(worker := Mapped(0, true))
    ensures Step(raised, RunEnds(Succeeded, true, {})) == ended
  {
  }

  lemma GetsRecorded(ended: World, recorded: World)
    requires ended == World(WithRun(AppIdle), {}, Mapped(0, true), map[0 := WasReset({})], 0, false, 90)
    requires recorded == ended.(db := ended.db.(apps := map[7 := App(AppDone, Some(0), true)]), worker := Recorded(0, true))
    ensures Step(ended, RecordsDone) == recorded
  {
  }

  lemma GetsCleared(recorded: World, lost: World)
    requires |recorded.db.jobs| == 1 && recorded.db.jobs[0].appid == 7 && recorded.worker == Recorded(0, true)
    requires recorded.db.apps == map[7 := App(AppDone, Some(0), true)]
    requires lost == recorded.(db := recorded.db.(apps := map[7 := App(AppDone, Some(0), false)]), worker := Settled(0))
    ensures Step(recorded, ClearsFlag) == lost
  {
  }

  lemma RaisedWhileForced(w: World, raised: World)
    requires w == World(Db(map[], {}, []), {}, Down, map[], 0, false, 90)
    requires raised == World(WithRun(AppIdle), {}, Started(0, true), map[0 := WasReset({})], 0, false, 90)
    ensures Initial(w) && RunReading(raised, 7, true) && FlagUp(raised, 7) && Owns(raised.db, 7, 10) && 10 !in raised.disk
  {
  }

  lemma Then(w: World, events: seq<Event>, e: Event) returns (longer: seq<Event>)
    ensures longer == events + [e] && Run(w, longer) == Step(Run(w, events), e)
  {
    longer := events + [e];
    assert longer[..|events|] == events;
  }

  /** The other case is real. A DELETE passes its job check, a prefill of the same app is then
      claimed and reads 1, the depot is removed and the flag raised once more, and the run
      succeeds: its swap still finds the 1 it expects, so the flag is gone although the mapped
      depot is no longer on disk and the next prefill is not forced. */
  lemma FlagRaisedAgainIsLost() returns (w: World, events: seq<Event>, rest: seq<Event>)
    ensures Initial(w)
    ensures var before := Run(w, events);
      RunReading(before, 7, true) && FlagUp(before, 7) && Owns(before.db, 7, 10) && 10 !in before.disk
    ensures var after := Run(Run(w, events), rest);
      !FlagUp(after, 7) && Owns(after.db, 7, 10) && 10 !in after.disk
  {
    hide *;
    w := World(Db(map[], {}, []), {}, Down, map[], 0, false, 90);
    var up := World(Mapped10(), {10}, Idle, map[], 0, false, 90);
    MappingGetsStored(w, up);
    DeleteGetsPlanned(up);
    PrefillGetsClaimed();
    DepotGetsRemoved();
    var raised := World(WithRun(AppIdle), {}, Started(0, true), map[0 := WasReset({})], 0, false, 90);
    var lost := FlagGetsLost(raised);
    RaisedWhileForced(w, raised);
    events := Then(w, [], Starts);
    events := Then(w, events, PutsMapping(10, 7));
    events := Then(w, events, Stores(10));
    events := Then(w, events, ReadsRows(0, 7));
    events := Then(w, events, ReadsStates(0));
    events := Then(w, events, Plans(0));
    events := Then(w, events, Prefills(7));
    events := Then(w, events, Polls);
    events := Then(w, events, MarksRunning);
    events := Then(w, events, ReadsFlag);
    events := Then(w, events, Rechecks(0, 10, true));
    events := Then(w, events, Removes(0, true));
    events := Then(w, events, Resets(0));
    assert Run(w, events) == raised;
    rest := Then(raised, [], RunEnds(Succeeded, true, {}));
    rest := Then(raised, rest, RecordsDone);
    rest := Then(raised, rest, ClearsFlag);
    assert Run(raised, rest) == lost;
  }
}
