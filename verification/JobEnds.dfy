/** How the outcome of a prefill run ends its job and its app, in both prefill modes. */
module JobEnds {
  import opened JobLaws
  import opened JobRuns
  import opened Lifecycle
  import opened Options
  import opened Tables

  /** The step in which the worker learns how the run of job i went: its own subprocess ends, or a
      runner's result is found in the row. */
  predicate TakesIn(w: World, e: Event, i: nat, o: RunOutcome, considered: bool, observed: set<nat>) {
    && i < |w.db.jobs|
    && (|| (!w.queueMode && w.worker.Started? && w.worker.job == i && e == RunEnds(o, considered, observed))
        || (w.worker.Waiting? && w.worker.job == i && w.db.jobs[i].run.result == Some(o) && e == Awaits(considered, observed)))
  }

  /** What anybody but the worker does, the death of the process excepted. */
  predicate ByOthers(events: seq<Event>) {
    forall k :: 0 <= k < |events| ==> !ActorOf(events[k]).Thread? && !events[k].Crashes?
  }

  /** The worker holds its place, and its job goes on running, while others act. */
  lemma {:induction false} OthersWait(w: World, events: seq<Event>)
    requires WorkerHoldsRunning(w) && Busy(w.worker) && ByOthers(events)
    ensures var now := Run(w, events);
      && now.worker == w.worker && WorkerHoldsRunning(now)
      && w.worker.job < |w.db.jobs| && JobApp(now.db, w.worker.job) == JobApp(w.db, w.worker.job)
  {
    hide Step;
    if events != [] {
      var n := |events| - 1;
      OthersWait(w, events[..n]);
      var before := Run(w, events[..n]);
      WorkerMovesItself(before, events[n]);
      HeldJobRuns(before, events[n]);
      StepIsLawful(before, events[n], w.worker.job);
    }
  }

  ghost predicate SamePeople(was: Db, now: Db, appid: nat) {
    forall a :: a != appid ==> (a in now.apps <==> a in was.apps) && (a in was.apps ==> now.apps[a] == was.apps[a])
  }

  /** A stopped run is parked or cancelled, whichever was asked for, whatever others do before it is
      written up: its app is no longer shown as running, and nothing else about the apps, the
      mapping or the flag has moved. */
  lemma StoppedRunEnds(w: World, e: Event, i: nat, o: RunOutcome, considered: bool, observed: set<nat>, others: seq<Event>)
    requires WorkerHoldsRunning(w) && TakesIn(w, e, i, o, considered, observed) && ByOthers(others)
    requires o.StoppedByCancel? || o.StoppedByPause?
    ensures var (now, appid) := (Step(w, e), JobApp(w.db, i));
      && (appid in now.db.apps ==> now.db.apps[appid].status != AppRunning)
      && (appid in now.db.apps <==> appid in w.db.apps)
      && (appid in w.db.apps ==>
            && now.db.apps[appid].lastPrefill == w.db.apps[appid].lastPrefill
            && now.db.apps[appid].needsForce == w.db.apps[appid].needsForce
            && (w.db.apps[appid].status != AppRunning ==> now.db.apps[appid].status == w.db.apps[appid].status))
      && SamePeople(w.db, now.db, appid) && now.db.rows == w.db.rows && now.db.jobs == w.db.jobs
    ensures var last := Step(Run(Step(w, e), others), Finishes);
      && last.worker.Idle? && i < |last.db.jobs|
      && last.db.jobs[i].status == (if o.StoppedByCancel? then Cancelled else Paused)
      && last.db.jobs[i].stop.None?
  {
    StopIsTakenIn(w, e, i, o, considered, observed);
    var now := Step(w, e);
    HeldJobRuns(w, e);
    OthersWait(now, others);
    hide Run, TakesIn;
    StopIsWrittenUp(Run(now, others), i);
  }

  lemma StopIsTakenIn(w: World, e: Event, i: nat, o: RunOutcome, considered: bool, observed: set<nat>)
    requires WorkerHoldsRunning(w) && TakesIn(w, e, i, o, considered, observed)
    requires o.StoppedByCancel? || o.StoppedByPause?
    ensures Step(w, e) == w.(db := ResetIfRunning(w.db, JobApp(w.db, i)), worker := Stopping(i, o.StoppedByPause?))
  {
  }

  lemma StopIsWrittenUp(w: World, i: nat)
    requires WorkerHoldsRunning(w) && w.worker.Stopping? && w.worker.job == i
    ensures var last := Step(w, Finishes);
      && last.worker.Idle? && i < |last.db.jobs| && last.db.jobs[i].stop.None?
      && last.db.jobs[i].status == (if w.worker.pause then Paused else Cancelled)
  {
  }

  /** A failed run, and a success nobody could confirm, end in error: the app shows it at once and
      keeps when it was last filled and its flag. */
  lemma FailedRunEnds(w: World, e: Event, i: nat, o: RunOutcome, considered: bool, observed: set<nat>, others: seq<Event>)
    requires WorkerHoldsRunning(w) && TakesIn(w, e, i, o, considered, observed) && ByOthers(others)
    requires o.Failed? || (o.Succeeded? && (!considered || (observed != {} && MappingUnreadable(w.db, JobApp(w.db, i)))))
    ensures var (now, appid) := (Step(w, e), JobApp(w.db, i));
      && appid in now.db.apps && now.db.apps[appid].status == AppError
      && (appid in w.db.apps ==>
            && now.db.apps[appid].lastPrefill == w.db.apps[appid].lastPrefill
            && now.db.apps[appid].needsForce == w.db.apps[appid].needsForce)
      && SamePeople(w.db, now.db, appid) && now.db.rows == w.db.rows && now.db.jobs == w.db.jobs
    ensures var last := Step(Run(Step(w, e), others), Finishes);
      last.worker.Idle? && i < |last.db.jobs| && last.db.jobs[i].status == Error && last.db.jobs[i].stop.None?
  {
    FailureIsTakenIn(w, e, i, o, considered, observed);
    var now := Step(w, e);
    HeldJobRuns(w, e);
    OthersWait(now, others);
    hide Run, TakesIn, MappingUnreadable;
    FailureIsWrittenUp(Run(now, others), i);
  }

  lemma FailureIsTakenIn(w: World, e: Event, i: nat, o: RunOutcome, considered: bool, observed: set<nat>)
    requires WorkerHoldsRunning(w) && TakesIn(w, e, i, o, considered, observed)
    requires o.Failed? || (o.Succeeded? && (!considered || (observed != {} && MappingUnreadable(w.db, JobApp(w.db, i)))))
    ensures Step(w, e) == w.(db := SetAppStatus(w.db, JobApp(w.db, i), AppError, None), worker := Failing(i))
  {
    hide MappingUnreadable, SetAppStatus;
  }

  lemma FailureIsWrittenUp(w: World, i: nat)
    requires WorkerHoldsRunning(w) && w.worker == Failing(i)
    ensures var last := Step(w, Finishes);
      last.worker.Idle? && i < |last.db.jobs| && last.db.jobs[i].status == Error && last.db.jobs[i].stop.None?
  {
  }

  // ---------------------------------------------------------------- a confirmed success

  /** A confirmed success whose observation can be compared with the mapping. */
  predicate Confirmed(w: World, i: nat, considered: bool, observed: set<nat>) {
    considered && (observed == {} || !MappingUnreadable(w.db, JobApp(w.db, i)))
  }

  predicate OnTheWayToDone(worker: Worker, i: nat) {
    (worker.Remapping? || worker.Mapped? || worker.Recorded? || worker.Settled?) && worker.job == i
  }

  lemma SuccessIsTakenIn(w: World, e: Event, i: nat, observed: set<nat>)
    requires WorkerHoldsRunning(w) && TakesIn(w, e, i, Succeeded, true, observed) && Confirmed(w, i, true, observed)
    ensures Step(w, e) == w.(worker :=
      if observed == {} then Mapped(i, w.worker.force)
      else Remapping(i, w.worker.force, StaleDepots(w.db, JobApp(w.db, i), observed), observed))
  {
    hide MappingUnreadable, StaleDepots;
  }

  /** The job is running in the worker's hands, on its way to be done, or done. */
  predicate RunsOrIsDone(w: World, i: nat) {
    && WorkerHoldsRunning(w) && i < |w.db.jobs|
    && if OnTheWayToDone(w.worker, i) then w.db.jobs[i].status == Running else w.db.jobs[i].status == Done
  }

  /** From then on it is so and nothing else, through any interleaving in which the process lives and
      no step of the worker raises. */
  lemma {:induction false} SuccessGoesOnToDone(w: World, e: Event, i: nat, observed: set<nat>, events: seq<Event>)
    requires WorkerHoldsRunning(w) && TakesIn(w, e, i, Succeeded, true, observed) && Confirmed(w, i, true, observed)
    requires forall k :: 0 <= k < |events| ==> !events[k].Crashes? && !events[k].Breaks?
    ensures RunsOrIsDone(Run(Step(w, e), events), i)
  {
    hide *;
    if events == [] {
      SuccessBegins(w, e, i, observed);
      NothingRun(Step(w, e));
    } else {
      var n := |events| - 1;
      SuccessGoesOnToDone(w, e, i, observed, events[..n]);
      RunsOn(Run(Step(w, e), events[..n]), events[n], i);
      RunStep(Step(w, e), events);
    }
  }

  lemma NothingRun(w: World)
    ensures Run(w, []) == w
  {
  }

  lemma SuccessBegins(w: World, e: Event, i: nat, observed: set<nat>)
    requires WorkerHoldsRunning(w) && TakesIn(w, e, i, Succeeded, true, observed) && Confirmed(w, i, true, observed)
    ensures RunsOrIsDone(Step(w, e), i)
  {
    SuccessIsTakenIn(w, e, i, observed);
    HeldJobRuns(w, e);
    hide Step, MappingUnreadable;
  }

  lemma RunsOn(w: World, e: Event, i: nat)
    requires RunsOrIsDone(w, i) && !e.Crashes? && !e.Breaks?
    ensures RunsOrIsDone(Step(w, e), i)
  {
    HeldJobRuns(w, e);
    if OnTheWayToDone(w.worker, i) {
      SuccessStep(w, e, i);
    } else {
      DoneStays(w, e, i);
    }
    hide Step;
  }

  lemma DoneStays(w: World, e: Event, i: nat)
    requires WorkerHoldsRunning(w) && i < |w.db.jobs| && w.db.jobs[i].status == Done
    ensures i < |Step(w, e).db.jobs| && Step(w, e).db.jobs[i].status == Done && !OnTheWayToDone(Step(w, e).worker, i)
  {
    hide Step;
    StepIsLawful(w, e, i);
    HeldJobRuns(w, e);
  }

  lemma SuccessStep(w: World, e: Event, i: nat)
    requires WorkerHoldsRunning(w) && OnTheWayToDone(w.worker, i) && !e.Crashes? && !e.Breaks?
    ensures i < |Step(w, e).db.jobs|
    ensures if OnTheWayToDone(Step(w, e).worker, i) then Step(w, e).db.jobs[i].status == Running
            else Step(w, e).db.jobs[i].status == Done
  {
    HeldJobRuns(w, e);
    if ActorOf(e).Thread? {
      SuccessWork(w, e, i);
    } else {
      hide Step;
      WorkerMovesItself(w, e);
    }
  }

  lemma SuccessWork(w: World, e: Event, i: nat)
    requires WorkerHoldsRunning(w) && OnTheWayToDone(w.worker, i) && ActorOf(e).Thread? && !e.Breaks?
    ensures OnTheWayToDone(OnWorker(w, e).worker, i) || (i < |OnWorker(w, e).db.jobs| && OnWorker(w, e).db.jobs[i].status == Done)
  {
    hide OnPoll, Finalize, SetAppStatus, UpsertMapping, ClearNeedsForceIfUnchanged;
  }

  /** The step that records the success: the app is done and was last filled now. */
  lemma SuccessIsRecorded(w: World)
    requires w.worker.Mapped?
    ensures var (now, appid) := (Step(w, RecordsDone), JobApp(w.db, w.worker.job));
      && appid in now.db.apps && now.db.apps[appid].status == AppDone && now.db.apps[appid].lastPrefill == Some(w.clock)
      && (appid in w.db.apps ==> now.db.apps[appid].needsForce == w.db.apps[appid].needsForce)
      && SamePeople(w.db, now.db, appid) && now.db.rows == w.db.rows && now.db.jobs == w.db.jobs
  {
  }

  // ---------------------------------------------------------------- ... from end to end

  predicate SettledRow(r: Row, was: set<Row>, appid: nat, observed: set<nat>) {
    if observed != {} && r.owner == Number(appid) && r.depot.Number? then r.depot.n >= 0 && r.depot.n in observed
    else r in was
  }

  /** The mapping while it is being replaced: some stale rows still to go, some depots still to come. */
  ghost predicate HalfMapped(was: Db, now: Db, appid: nat, stale: set<StoredId>, observed: set<nat>, todo: set<nat>) {
    && todo <= observed && todo != {} && (todo != observed ==> stale == {})
    && (forall d :: d in stale ==> d.Number? && !(d.n >= 0 && d.n in observed))
    && (forall r :: r in now.rows <==>
          if r.owner == Number(appid) && r.depot.Number?
          then if ObservedRow(r, observed) then r in was.rows || r.depot.n !in todo else r in was.rows && r.depot in stale
          else r in was.rows)
  }

  predicate Unrecorded(was: Db, now: Db, appid: nat) {
    && (appid in was.apps ==> appid in now.apps && now.apps[appid] == was.apps[appid])
    && (appid !in was.apps && appid in now.apps ==> now.apps[appid].needsForce)
  }

  predicate RecordedAt(was: Db, now: Db, appid: nat, clock: nat) {
    && appid in now.apps && now.apps[appid].status == AppDone && now.apps[appid].lastPrefill == Some(clock)
    && (if appid in was.apps then now.apps[appid].needsForce == was.apps[appid].needsForce else now.apps[appid].needsForce)
  }

  /** How far the worker has got on its own with a success, between `was` and the world now. */
  ghost predicate GotTo(was: World, now: World, i: nat, force: bool, observed: set<nat>) {
    var appid := JobApp(was.db, i);
    && i < |was.db.jobs| == |now.db.jobs| && now.db.jobs[i].appid == appid
    && now.clock == was.clock && SamePeople(was.db, now.db, appid)
    && (Busy(now.worker) ==> now.worker.job == i && now.db.jobs == was.db.jobs)
    && match now.worker
       case Remapping(_, f, stale, todo) =>
         f == force && HalfMapped(was.db, now.db, appid, stale, observed, todo) && Unrecorded(was.db, now.db, appid)
       case Mapped(_, f) =>
         && f == force && (forall r :: r in now.db.rows <==> SettledRow(r, was.db.rows, appid, observed))
         && Unrecorded(was.db, now.db, appid)
       case Recorded(_, f) =>
         && f == force && (forall r :: r in now.db.rows <==> SettledRow(r, was.db.rows, appid, observed))
         && RecordedAt(was.db, now.db, appid, was.clock)
       case Settled(_) =>
         && (forall r :: r in now.db.rows <==> SettledRow(r, was.db.rows, appid, observed))
         && WrittenUp(was.db, now.db, appid, was.clock, force)
       case Idle =>
         && (forall r :: r in now.db.rows <==> SettledRow(r, was.db.rows, appid, observed))
         && WrittenUp(was.db, now.db, appid, was.clock, force)
         && now.db.jobs[i].status == Done && now.db.jobs[i].stop.None?
         && (forall k :: 0 <= k < |now.db.jobs| && k != i ==> now.db.jobs[k] == was.db.jobs[k])
       case _ => false
  }

  /** Done and filled now, the flag down unless the run had read 0 and it was raised since. */
  predicate WrittenUp(was: Db, now: Db, appid: nat, clock: nat, force: bool) {
    && appid in now.apps && now.apps[appid].status == AppDone && now.apps[appid].lastPrefill == Some(clock)
    && (now.apps[appid].needsForce <==> !force && (appid in was.apps ==> was.apps[appid].needsForce))
  }

  /** A confirmed success, the worker left to itself: when it is through, the job is done, the app is
      done and was last filled at that time, its flag is down unless the run had read 0, its mapping
      is what was observed - or as before, if nothing was - and no other app, job or row has moved. */
  lemma {:induction false} ConfirmedRunEnds(w: World, e: Event, i: nat, observed: set<nat>, events: seq<Event>)
    requires WorkerHoldsRunning(w) && TakesIn(w, e, i, Succeeded, true, observed) && Confirmed(w, i, true, observed)
    requires forall k :: 0 <= k < |events| ==> ActorOf(events[k]).Thread? && !events[k].Breaks? && !events[k].Polls?
    ensures GotTo(w, Run(Step(w, e), events), i, w.worker.force, observed)
  {
    HasForce(w, e, i, observed);
    hide *;
    if events == [] {
      FirstStep(w, e, i, observed);
      NothingRun(Step(w, e));
    } else {
      var n := |events| - 1;
      ConfirmedRunEnds(w, e, i, observed, events[..n]);
      HeldAlong(w, e, i, observed, events[..n]);
      GetsFurther(w, Run(Step(w, e), events[..n]), i, w.worker.force, observed, events[n]);
      RunStep(Step(w, e), events);
    }
  }

  lemma HasForce(w: World, e: Event, i: nat, observed: set<nat>)
    requires TakesIn(w, e, i, Succeeded, true, observed)
    ensures w.worker.Started? || w.worker.Waiting?
  {
  }

  lemma FirstStep(w: World, e: Event, i: nat, observed: set<nat>)
    requires WorkerHoldsRunning(w) && TakesIn(w, e, i, Succeeded, true, observed) && Confirmed(w, i, true, observed)
    ensures GotTo(w, Step(w, e), i, w.worker.force, observed)
  {
    SuccessIsTakenIn(w, e, i, observed);
    hide Step, MappingUnreadable, GotTo, StaleDepots;
    GetsGoing(w, Step(w, e), i, observed);
  }

  lemma RunStep(w: World, events: seq<Event>)
    requires events != []
    ensures var n := |events| - 1; Run(w, events) == Step(Run(w, events[..n]), events[n])
  {
  }

  lemma HeldAlong(w: World, e: Event, i: nat, observed: set<nat>, events: seq<Event>)
    requires WorkerHoldsRunning(w) && TakesIn(w, e, i, Succeeded, true, observed) && Confirmed(w, i, true, observed)
    requires forall k :: 0 <= k < |events| ==> ActorOf(events[k]).Thread? && !events[k].Breaks? && !events[k].Polls?
    ensures WorkerHoldsRunning(Run(Step(w, e), events))
  {
    SuccessGoesOnToDone(w, e, i, observed, events);
  }

  lemma GetsGoing(w: World, now: World, i: nat, observed: set<nat>)
    requires i < |w.db.jobs| && (w.worker.Started? || w.worker.Waiting?) && w.worker.job == i
    requires now == w.(worker :=
      if observed == {} then Mapped(i, w.worker.force)
      else Remapping(i, w.worker.force, StaleDepots(w.db, JobApp(w.db, i), observed), observed))
    ensures GotTo(w, now, i, w.worker.force, observed)
  {
  }

  lemma GetsFurther(was: World, now: World, i: nat, force: bool, observed: set<nat>, e: Event)
    requires GotTo(was, now, i, force, observed) && WorkerHoldsRunning(now)
    requires ActorOf(e).Thread? && !e.Breaks? && !e.Polls?
    ensures GotTo(was, Step(now, e), i, force, observed)
  {
    match e {
      case DropsStale(depot) => DropsOne(was, now, i, force, observed, depot);
      case MapsObserved(depot) => MapsOne(was, now, i, force, observed, depot);
      case RecordsDone => RecordsIt(was, now, i, force, observed);
      case ClearsFlag => ClearsIt(was, now, i, force, observed);
      case Finishes => FinishesIt(was, now, i, force, observed);
      case _ => NothingHappens(was, now, i, force, observed, e);
    }
  }

  lemma NothingHappens(was: World, now: World, i: nat, force: bool, observed: set<nat>, e: Event)
    requires GotTo(was, now, i, force, observed) && ActorOf(e).Thread? && !e.Breaks? && !e.Polls?
    requires !e.DropsStale? && !e.MapsObserved? && !e.RecordsDone? && !e.ClearsFlag? && !e.Finishes?
    ensures Step(now, e) == now
  {
    hide HalfMapped, SettledRow, Unrecorded, RecordedAt, WrittenUp, SamePeople;
  }

  lemma DropsOne(was: World, now: World, i: nat, force: bool, observed: set<nat>, depot: StoredId)
    requires GotTo(was, now, i, force, observed)
    ensures GotTo(was, Step(now, DropsStale(depot)), i, force, observed)
  {
  }

  lemma MapsOne(was: World, now: World, i: nat, force: bool, observed: set<nat>, depot: nat)
    requires GotTo(was, now, i, force, observed)
    ensures GotTo(was, Step(now, MapsObserved(depot)), i, force, observed)
  {
  }

  lemma RecordsIt(was: World, now: World, i: nat, force: bool, observed: set<nat>)
    requires GotTo(was, now, i, force, observed)
    ensures GotTo(was, Step(now, RecordsDone), i, force, observed)
  {
  }

  lemma ClearsIt(was: World, now: World, i: nat, force: bool, observed: set<nat>)
    requires GotTo(was, now, i, force, observed)
    ensures GotTo(was, Step(now, ClearsFlag), i, force, observed)
  {
  }

  lemma FinishesIt(was: World, now: World, i: nat, force: bool, observed: set<nat>)
    requires GotTo(was, now, i, force, observed) && WorkerHoldsRunning(now)
    ensures GotTo(was, Step(now, Finishes), i, force, observed)
  {
  }
}
