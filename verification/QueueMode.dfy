/** The hand-off of prefill runs to separate runner processes through columns of the job row:
    claims, leases, restarts, and exactly which runs nobody will ever finish. */
module QueueMode {
  import opened CacheDelete
  import opened JobLaws
  import opened JobRuns
  import opened Lifecycle
  import opened Options
  import opened Tables

  // ---------------------------------------------------------------- claims

  /** The runner that claimed a hand-off keeps it until the next hand-off of the same job: there
      is no second claim, and a heartbeat or report from any other runner changes nothing. */
  lemma {:induction false} OneClaimPerHandoff(w: World, events: seq<Event>, i: nat, runner: nat)
    requires Sound(w) && i < |w.db.jobs| && w.db.jobs[i].run.claimedBy == Some(runner)
    requires forall k :: 0 <= k < |events| ==>
      !(events[k].HandsOff? && Holds(Run(w, events[..k]).worker, i))
    ensures i < |Run(w, events).db.jobs| && Run(w, events).db.jobs[i].run.claimedBy == Some(runner)
  {
    hide Step;
    if events != [] {
      var n := |events| - 1;
      var front := events[..n];
      forall k | 0 <= k < n ensures !(front[k].HandsOff? && Holds(Run(w, front[..k]).worker, i)) {
        assert front[..k] == events[..k];
      }
      OneClaimPerHandoff(w, front, i, runner);
      SoundAlways(w, front);
      StepFollowsRunLaw(Run(w, front), events[n], i);
    }
  }

  // ---------------------------------------------------------------- what the hand-off keeps

  predicate BeforeHandoff(worker: Worker) {
    worker.Claimed? || worker.Marked? || worker.Started?
  }

  predicate AfterResult(worker: Worker) {
    worker.Remapping? || worker.Mapped? || worker.Recorded? || worker.Settled? || worker.Stopping?
  }

  predicate HasForce(worker: Worker) {
    worker.Waiting? || worker.Remapping? || worker.Mapped? || worker.Recorded?
  }

  /** A leftover hand-off value on a job that waits for its turn belongs to a finished attempt. */
  predicate OldAttemptIsOver(job: Job) {
    job.run.useForce.Some? ==> job.run.result.Some?
  }

  predicate WaitsInLine(job: Job) {
    job.status == Queued || job.status == Paused
  }

  ghost predicate WaitingJobsAreFresh(w: World) {
    forall i :: 0 <= i < |w.db.jobs| && WaitsInLine(w.db.jobs[i]) ==> OldAttemptIsOver(w.db.jobs[i])
  }

  predicate WorkerMatchesRun(w: World)
    requires WorkerHoldsRunning(w)
  {
    Busy(w.worker) ==>
      var job := w.db.jobs[w.worker.job];
      && (BeforeHandoff(w.worker) ==> OldAttemptIsOver(job))
      && (AfterResult(w.worker) ==> job.run.result.Some?)
      && (HasForce(w.worker) ==> job.run.useForce == Some(w.worker.force))
  }

  ghost predicate OpenRunIsHeld(w: World) {
    && (forall i, k :: 0 <= i < k < |w.db.jobs| ==> !Reattachable(w.db.jobs[i]) || !Reattachable(w.db.jobs[k]))
    && (Busy(w.worker) ==> forall i :: 0 <= i < |w.db.jobs| && Reattachable(w.db.jobs[i]) ==> w.worker.job == i)
  }

  ghost predicate RunningJobsStarted(w: World) {
    forall i :: 0 <= i < |w.db.jobs| && w.db.jobs[i].status == Running ==> w.db.jobs[i].startedAt.Some?
  }

  ghost predicate QueueSound(w: World) {
    && w.queueMode
    && Sound(w)
    && WaitingJobsAreFresh(w)
    && WorkerMatchesRun(w)
    && OpenRunIsHeld(w)
    && RunningJobsStarted(w)
  }

  lemma PollKeepsMatch(w: World)
    requires QueueSound(w) && WorkerHoldsRunning(OnWorker(w, Polls))
    ensures WorkerMatchesRun(OnWorker(w, Polls))
  {
    var active := FindActiveRun(w.db);
    if active.Some? {
      assert Reattachable(w.db.jobs[active.value]);
      var run := w.db.jobs[active.value].run;
      var force := run.useForce.value;
      assert run.useForce == Some(force);
      if force { assert run.useForce == Some(true); } else { assert run.useForce == Some(false); }
    }
  }

  lemma WorkKeepsMatch(w: World, e: Event)
    requires QueueSound(w) && ActorOf(e).Thread? && WorkerHoldsRunning(OnWorker(w, e))
    ensures WorkerMatchesRun(OnWorker(w, e))
  {
    if !WritesJobs(e) {
      OtherWorkKeepsJobs(w, e);
    } else if e.Polls? {
      PollKeepsMatch(w);
    }
  }

  lemma MatchKept(w: World, e: Event)
    requires QueueSound(w)
    ensures WorkerHoldsRunning(Step(w, e)) && WorkerMatchesRun(Step(w, e))
  {
    HeldJobRuns(w, e);
    if ActorOf(e).Thread? {
      WorkKeepsMatch(w, e);
    } else {
      WorkerMovesItself(w, e);
      if Busy(w.worker) { StepFollowsRunLaw(w, e, w.worker.job); }
    }
  }

  /** A job leaves `running` for the pause only with a reported result. */
  lemma WaitingStaysFresh(w: World, e: Event, i: nat)
    requires QueueSound(w) && i < |Step(w, e).db.jobs|
    requires WaitsInLine(Step(w, e).db.jobs[i])
    ensures OldAttemptIsOver(Step(w, e).db.jobs[i])
  {
    hide Step, Lawful, RunLaw, WorkerMatchesRun, OpenRunIsHeld, RunningJobsStarted, OnePerApp;
    NewJobs(w, e);
    if i < |w.db.jobs| {
      StepIsLawful(w, e, i);
      StepFollowsRunLaw(w, e, i);
      FreshByLaw(w, e, i, Step(w, e).db.jobs[i]);
    }
  }

  lemma FreshByLaw(w: World, e: Event, i: nat, now: Job)
    requires QueueSound(w) && i < |w.db.jobs|
    requires Lawful(w, e, i, now) && RunLaw(w, e, i, now.run) && WaitsInLine(now)
    ensures OldAttemptIsOver(now)
  {
  }

  lemma RunningStaysStarted(w: World, e: Event, i: nat)
    requires QueueSound(w) && i < |Step(w, e).db.jobs| && Step(w, e).db.jobs[i].status == Running
    ensures Step(w, e).db.jobs[i].startedAt.Some?
  {
    RunningIsKnown(w, e, i);
    if ActorOf(e).Thread? { ClaimStamps(w, e, i); } else { OthersKeepStamps(w, e, i); }
  }

  lemma RunningIsKnown(w: World, e: Event, i: nat)
    requires WorkerHoldsRunning(w) && i < |Step(w, e).db.jobs| && Step(w, e).db.jobs[i].status == Running
    ensures i < |w.db.jobs|
  {
    hide Step;
    NewJobs(w, e);
  }

  lemma OthersKeepStamps(w: World, e: Event, i: nat)
    requires !ActorOf(e).Thread? && i < |w.db.jobs|
    ensures i < |Step(w, e).db.jobs|
    ensures Step(w, e).db.jobs[i].startedAt == w.db.jobs[i].startedAt
    ensures Step(w, e).db.jobs[i].status == Running ==> w.db.jobs[i].status == Running
  {
    match ActorOf(e) {
      case Api => RequestKeepsStamps(w, e, i);
      case Deleter => DeleteIsLawful(w, e);
      case Outside =>
    }
  }

  lemma RequestKeepsStamps(w: World, e: Event, i: nat)
    requires ActorOf(e).Api? && i < |w.db.jobs|
    ensures i < |Step(w, e).db.jobs|
    ensures Step(w, e).db.jobs[i].startedAt == w.db.jobs[i].startedAt
    ensures Step(w, e).db.jobs[i].status == Running ==> w.db.jobs[i].status == Running
  {
  }

  lemma ClaimStamps(w: World, e: Event, i: nat)
    requires WorkerHoldsRunning(w) && ActorOf(e).Thread? && i < |w.db.jobs|
    requires i < |OnWorker(w, e).db.jobs| && OnWorker(w, e).db.jobs[i].status == Running
    requires w.db.jobs[i].status == Running ==> w.db.jobs[i].startedAt.Some?
    ensures OnWorker(w, e).db.jobs[i].startedAt.Some?
  {
    if !WritesJobs(e) {
      OtherWorkKeepsJobs(w, e);
    } else if e.Polls? {
      PollStamps(w, i);
    } else if e.Finishes? {
      FinishStamps(w, i);
    }
  }

  lemma FinishStamps(w: World, i: nat)
    requires WorkerHoldsRunning(w) && i < |w.db.jobs|
    requires i < |OnFinish(w).db.jobs| && OnFinish(w).db.jobs[i].status == Running
    requires w.db.jobs[i].status == Running ==> w.db.jobs[i].startedAt.Some?
    ensures OnFinish(w).db.jobs[i].startedAt.Some?
  {
  }

  lemma PollStamps(w: World, i: nat)
    requires i < |w.db.jobs| && i < |OnWorker(w, Polls).db.jobs| && OnWorker(w, Polls).db.jobs[i].status == Running
    requires w.db.jobs[i].status == Running ==> w.db.jobs[i].startedAt.Some?
    ensures OnWorker(w, Polls).db.jobs[i].startedAt.Some?
  {
  }

  /** A run becomes open only by the hand-off of the job the worker holds. */
  lemma OpenRunsComeFromHandoffs(w: World, e: Event, i: nat)
    requires QueueSound(w) && i < |Step(w, e).db.jobs| && Reattachable(Step(w, e).db.jobs[i])
    ensures i < |w.db.jobs|
    ensures Reattachable(w.db.jobs[i]) || (e.HandsOff? && Holds(w.worker, i))
  {
    hide Step;
    NewJobs(w, e);
    assert i < |w.db.jobs|;
    StepIsLawful(w, e, i);
    StepFollowsRunLaw(w, e, i);
  }

  lemma PollHoldsOpenRun(w: World, i: nat)
    requires QueueSound(w) && i < |w.db.jobs| && Reattachable(w.db.jobs[i]) && Busy(Step(w, Polls).worker)
    ensures Holds(Step(w, Polls).worker, i)
  {
  }

  lemma IdleWaits(w: World, e: Event)
    requires w.worker.Idle? && ActorOf(e).Thread? && !e.Polls?
    ensures Step(w, e).worker.Idle?
  {
  }

  lemma OpenRunStaysHeld(w: World, e: Event)
    requires QueueSound(w)
    ensures OpenRunIsHeld(Step(w, e))
  {
    hide Step;
    var now := Step(w, e);
    forall i: nat | i < |now.db.jobs| && Reattachable(now.db.jobs[i])
      ensures i < |w.db.jobs|
      ensures Reattachable(w.db.jobs[i]) || (e.HandsOff? && Holds(w.worker, i))
      ensures Busy(now.worker) ==> now.worker.job == i
    {
      OpenRunsComeFromHandoffs(w, e, i);
      if e.Polls? {
        if Busy(now.worker) { PollHoldsOpenRun(w, i); }
      } else if !ActorOf(e).Thread? || w.worker.Down? {
        WorkerMovesItself(w, e);
      } else if w.worker.Idle? {
        IdleWaits(w, e);
      } else {
        WorkerInStep(w, e);
      }
    }
  }

  lemma QueueSoundKept(w: World, e: Event)
    requires QueueSound(w)
    ensures QueueSound(Step(w, e))
  {
    hide Step;
    StepKeepsMode(w, e);
    SoundKept(w, e);
    MatchKept(w, e);
    OpenRunStaysHeld(w, e);
    forall i: nat | i < |Step(w, e).db.jobs|
      ensures WaitsInLine(Step(w, e).db.jobs[i]) ==> OldAttemptIsOver(Step(w, e).db.jobs[i])
      ensures Step(w, e).db.jobs[i].status == Running ==> Step(w, e).db.jobs[i].startedAt.Some?
    {
      if Step(w, e).db.jobs[i].status == Running { RunningStaysStarted(w, e, i); }
      else if WaitsInLine(Step(w, e).db.jobs[i]) { WaitingStaysFresh(w, e, i); }
    }
  }

  lemma {:induction false} QueueSoundAlways(w: World, events: seq<Event>)
    requires QueueSound(w)
    ensures QueueSound(Run(w, events))
  {
    if events != [] {
      QueueSoundAlways(w, events[..|events| - 1]);
      QueueSoundKept(Run(w, events[..|events| - 1]), events[|events| - 1]);
    }
  }

  lemma QueueModeStartsSound(w: World)
    requires Initial(w) && w.queueMode
    ensures QueueSound(w)
  {
  }

  // ---------------------------------------------------------------- both modes together

  ghost predicate NoHandoffs(w: World) {
    forall i :: 0 <= i < |w.db.jobs| ==> w.db.jobs[i].run.useForce.None?
  }

  ghost predicate Coherent(w: World) {
    Sound(w) && if w.queueMode then QueueSound(w) else NoHandoffs(w)
  }

  lemma CoherentKept(w: World, e: Event)
    requires Coherent(w)
    ensures Coherent(Step(w, e))
  {
    hide Step;
    SoundKept(w, e);
    StepKeepsMode(w, e);
    if w.queueMode {
      QueueSoundKept(w, e);
    } else {
      forall i: nat | i < |Step(w, e).db.jobs| ensures Step(w, e).db.jobs[i].run.useForce.None? {
        NewJobs(w, e);
        if i < |w.db.jobs| { StepFollowsRunLaw(w, e, i); }
      }
    }
  }

  lemma {:induction false} CoherentAlways(w: World, events: seq<Event>)
    requires Coherent(w)
    ensures Coherent(Run(w, events))
  {
    if events != [] {
      CoherentAlways(w, events[..|events| - 1]);
      CoherentKept(Run(w, events[..|events| - 1]), events[|events| - 1]);
    }
  }

  /** Both modes' laws hold in every reachable state. */
  lemma ReachableIsCoherent(w: World, events: seq<Event>)
    requires Initial(w)
    ensures Coherent(Run(w, events))
  {
    hide QueueSound, Sound;
    ReachableIsSound(w, []);
    if w.queueMode { QueueModeStartsSound(w); }
    CoherentAlways(w, events);
  }

  // ---------------------------------------------------------------- a restart of vault-api

  predicate HandedOff(w: World, i: nat) {
    && i < |w.db.jobs|
    && w.db.jobs[i].status == Running && w.db.jobs[i].kind.Prefill? && w.db.jobs[i].run.useForce.Some?
  }

  /** The holding runner's result reaches the row of job `i`. */
  predicate ReportArrives(w: World, e: Event, i: nat) {
    e.RunnerReports? && e.id == i && i < |w.db.jobs| && HeldBy(w.db.jobs[i], e.runner)
  }

  predicate Reported(w: World, events: seq<Event>, i: nat) {
    events != []
    && (|| Reported(w, events[..|events| - 1], i)
        || ReportArrives(Run(w, events[..|events| - 1]), events[|events| - 1], i))
  }

  predicate KeepsItsRun(row: Job) {
    row.kind.Prefill? && row.run.useForce.Some?
  }

  /** What is left of a running job while no worker is at work. */
  predicate Unattended(w: World, i: nat, row: Job) {
    && !Busy(w.worker) && i < |w.db.jobs|
    && w.db.jobs[i].kind == row.kind && w.db.jobs[i].run.useForce == row.run.useForce
    && (w.db.jobs[i].status == Running || (w.db.jobs[i].status == Error && !KeepsItsRun(row)))
  }

  lemma UnattendedStep(w: World, e: Event, i: nat, row: Job)
    requires QueueSound(w) && Unattended(w, i, row) && !Busy(Step(w, e).worker)
    ensures Unattended(Step(w, e), i, row)
    ensures KeepsItsRun(row) ==>
      (Step(w, e).db.jobs[i].run.result.Some? <==> w.db.jobs[i].run.result.Some? || ReportArrives(w, e, i))
  {
    hide Step, OpenRunIsHeld, WaitingJobsAreFresh, RunningJobsStarted, OnePerApp;
    StepIsLawful(w, e, i);
    StepFollowsRunLaw(w, e, i);
    if ReportArrives(w, e, i) { ReportIsKept(w, e, i); }
  }

  lemma ReportIsKept(w: World, e: Event, i: nat)
    requires ReportArrives(w, e, i)
    ensures i < |Step(w, e).db.jobs| && Step(w, e).db.jobs[i].run.result == Some(e.outcome)
  {
  }

  lemma {:induction false} UnattendedRun(w: World, events: seq<Event>, i: nat, row: Job)
    requires QueueSound(w) && Unattended(w, i, row)
    requires forall k :: 0 <= k <= |events| ==> !Busy(Run(w, events[..k]).worker)
    ensures Unattended(Run(w, events), i, row)
    ensures KeepsItsRun(row) ==>
      (Run(w, events).db.jobs[i].run.result.Some? <==> w.db.jobs[i].run.result.Some? || Reported(w, events, i))
  {
    hide Step, QueueSound, Unattended, ReportArrives, KeepsItsRun;
    if events != [] {
      var n := |events| - 1;
      var front := events[..n];
      assert events[..n + 1] == events;
      forall k | 0 <= k <= n ensures !Busy(Run(w, front[..k]).worker) {
        assert front[..k] == events[..k];
      }
      UnattendedRun(w, front, i, row);
      QueueSoundAlways(w, front);
      UnattendedStep(Run(w, front), events[n], i, row);
    }
  }

  /** A crash, and then any events at all up to the first poll of the new worker: a handed-off run
      keeps its row and force value, and that poll takes it up again exactly when neither before the
      crash nor since then a result has come in. */
  lemma RestartResumesOpenRuns(w: World, i: nat, events: seq<Event>)
    requires QueueSound(w) && HandedOff(w, i)
    requires var down := Step(w, Crashes);
      && (forall k :: 0 <= k <= |events| ==> !Busy(Run(down, events[..k]).worker))
      && Run(down, events).worker.Idle?
    ensures var down := Step(w, Crashes);
      var back := Run(down, events);
      var up := Step(back, Polls);
      var open := w.db.jobs[i].run.result.None? && !Reported(down, events, i);
      && HandedOff(back, i) && back.db.jobs[i].run.useForce == w.db.jobs[i].run.useForce
      && (Holds(up.worker, i) <==> open)
      && (open ==> up.db == back.db && up.worker == Waiting(i, w.db.jobs[i].run.useForce.value))
  {
    var down := Step(w, Crashes);
    assert down.db == w.db && Unattended(down, i, w.db.jobs[i]);
    hide Step;
    QueueSoundKept(w, Crashes);
    UnattendedRun(down, events, i, w.db.jobs[i]);
    QueueSoundAlways(down, events);
    hide QueueSound, Reported;
    PollTakesOpenRun(Run(down, events), i);
  }

  lemma PollTakesOpenRun(started: World, i: nat)
    requires QueueSound(started) && started.worker.Idle? && HandedOff(started, i)
    ensures var up := Step(started, Polls);
      && (started.db.jobs[i].run.result.None? ==>
            up.db == started.db && up.worker == Waiting(i, started.db.jobs[i].run.useForce.value))
      && (started.db.jobs[i].run.result.Some? ==> !Holds(up.worker, i))
  {
    if started.db.jobs[i].run.result.None? {
      assert Reattachable(started.db.jobs[i]);
      assert FindActiveRun(started.db) == Some(i);
    }
  }

  /** A handed-off run whose result is in, but which no worker holds. */
  predicate Stranded(w: World, i: nat) {
    HandedOff(w, i) && w.db.jobs[i].run.result.Some? && !Holds(w.worker, i)
  }

  lemma StrandedStays(w: World, e: Event, i: nat)
    requires QueueSound(w) && Stranded(w, i)
    ensures Stranded(Step(w, e), i)
  {
    StepIsLawful(w, e, i);
    StepFollowsRunLaw(w, e, i);
    QueueSoundKept(w, e);
    if e.Polls? {
      PollSkipsStranded(w, i);
    } else if !ActorOf(e).Thread? || w.worker.Down? {
      WorkerMovesItself(w, e);
    } else if w.worker.Idle? {
      IdleWaits(w, e);
    } else {
      WorkerInStep(w, e);
    }
  }

  lemma PollSkipsStranded(w: World, i: nat)
    requires QueueSound(w) && Stranded(w, i)
    ensures !Holds(Step(w, Polls).worker, i)
  {
  }

  /** Nothing ever finishes such a run, and its app stays blocked: it can neither be deleted from
      the cache nor prefilled again, since every new request folds into the stranded job. */
  lemma {:induction false} StrandedForever(w: World, events: seq<Event>, i: nat)
    requires QueueSound(w) && Stranded(w, i)
    ensures Stranded(Run(w, events), i)
    ensures var later := Run(w, events);
      var appid := w.db.jobs[i].appid;
      && later.db.jobs[i].appid == appid
      && !Accepts(later.db, appid)
      && EnqueuePrefill(later.db, appid) == (later.db.(apps := EnsureApp(later.db.apps, appid)), i)
  {
    if events != [] {
      var front := events[..|events| - 1];
      StrandedForever(w, front, i);
      QueueSoundAlways(w, front);
      StrandedStays(Run(w, front), events[|events| - 1], i);
      StepIsLawful(Run(w, front), events[|events| - 1], i);
    }
    QueueSoundAlways(w, events);
    FoldsIntoActive(Run(w, events).db, i);
  }

  lemma FoldsIntoActive(db: Db, i: nat)
    requires OnePerApp(db.jobs) && i < |db.jobs| && ActivePrefill(db.jobs[i])
    ensures HasActiveJob(db.jobs, db.jobs[i].appid)
    ensures EnqueuePrefill(db, db.jobs[i].appid) == (db.(apps := EnsureApp(db.apps, db.jobs[i].appid)), i)
  {
    var appid := db.jobs[i].appid;
    var existing := Oldest(db.jobs, (j: Job) => InFlight(j, appid, Prefill));
    assert InFlight(db.jobs[i], appid, Prefill);
    assert ActivePrefill(db.jobs[existing.value]);
  }

  /** The one step at which run `i` is lost: a crash before the worker has written up a result it
      holds, or a result that arrives while no worker holds the run. */
  predicate Strands(w: World, e: Event, i: nat) {
    && HandedOff(w, i)
    && (|| (e.Crashes? && Holds(w.worker, i) && w.db.jobs[i].run.result.Some?)
        || (ReportArrives(w, e, i) && w.db.jobs[i].run.result.None? && !Holds(w.worker, i)))
  }

  lemma StrandsExactlyWhen(w: World, e: Event, i: nat)
    requires QueueSound(w) && !Stranded(w, i)
    ensures Stranded(Step(w, e), i) <==> Strands(w, e, i)
  {
    hide Step, WaitingJobsAreFresh, RunningJobsStarted, OnePerApp;
    NewJobs(w, e);
    if Strands(w, e, i) {
      StrandsThen(w, e, i);
    } else if Stranded(Step(w, e), i) {
      StepIsLawful(w, e, i);
      StepFollowsRunLaw(w, e, i);
      if w.db.jobs[i].status != Running {
        PollTakesWhatItStarts(w, i);
      } else if ReportArrives(w, e, i) {
        ReportsMoveNobody(w, e);
      } else {
        LetsNothingGo(w, e, i);
      }
    }
  }

  lemma StrandsThen(w: World, e: Event, i: nat)
    requires QueueSound(w) && Strands(w, e, i)
    ensures Stranded(Step(w, e), i)
  {
  }

  lemma ReportsMoveNobody(w: World, e: Event)
    requires e.RunnerReports?
    ensures Step(w, e).worker == w.worker
  {
  }

  /** A crash apart, the worker gives up a running job only by ending it. */
  lemma LetsNothingGo(w: World, e: Event, i: nat)
    requires WorkerHoldsRunning(w) && i < |w.db.jobs| && i < |Step(w, e).db.jobs|
    requires Holds(w.worker, i) && !Holds(Step(w, e).worker, i) && !e.Crashes?
    ensures Step(w, e).db.jobs[i].status != Running
  {
    hide Step;
    if !ActorOf(e).Thread? {
      WorkerMovesItself(w, e);
    } else if e.Polls? {
      PollsOnlyWhenIdle(w);
    } else {
      WorkerInStep(w, e);
    }
  }

  /** What a crash and whatever happens before the first poll leave of a running job: failed, when
      it was not handed off; else open or stranded, by whether a result is in by then. */
  lemma CrashDecides(w: World, i: nat, events: seq<Event>)
    requires QueueSound(w) && i < |w.db.jobs| && w.db.jobs[i].status == Running
    requires var down := Step(w, Crashes);
      && (forall k :: 0 <= k <= |events| ==> !Busy(Run(down, events[..k]).worker))
      && Run(down, events).worker.Idle?
    ensures var down := Step(w, Crashes);
      var back := Run(down, events);
      var result := w.db.jobs[i].run.result.Some? || Reported(down, events, i);
      && i < |back.db.jobs|
      && (Stranded(back, i) <==> HandedOff(w, i) && result)
      && (Reattachable(back.db.jobs[i]) <==> HandedOff(w, i) && !result)
      && (back.db.jobs[i].status == Error <==> !HandedOff(w, i))
  {
    var down := Step(w, Crashes);
    assert down.db == w.db && Unattended(down, i, w.db.jobs[i]);
    hide Step;
    QueueSoundKept(w, Crashes);
    UnattendedRun(down, events, i, w.db.jobs[i]);
    QueueSoundAlways(down, events);
    ModeIsFixed(down, events);
    hide Reported;
    var back := Run(down, events);
    if back.db.jobs[i].status == Running { RunningWhileIdle(back, i); }
  }

  /** Only a start in the other mode ends such a run: it counts as left behind there. */
  lemma OtherModeFailsStranded(w: World, i: nat)
    requires QueueSound(w) && Stranded(w, i)
    ensures var down := Step(w, Crashes);
      && Step(down.(queueMode := false), Starts).db.jobs[i].status == Error
      && Stranded(Step(down, Starts), i)
  {
  }

  /** While the worker is up and free, every running job is an open run or a stranded one. */
  lemma RunningWhileIdle(w: World, i: nat)
    requires QueueSound(w) && w.worker.Idle? && i < |w.db.jobs| && w.db.jobs[i].status == Running
    ensures Reattachable(w.db.jobs[i]) || Stranded(w, i)
  {
    assert !NotHandedOff(w.db.jobs[i], w.queueMode);
  }

  /** Stranded runs are the only way to a second running job while the worker is up. */
  lemma OneLiveRun(w: World, i: nat, k: nat)
    requires QueueSound(w) && !w.worker.Down? && i < k < |w.db.jobs|
    requires w.db.jobs[i].status == Running && w.db.jobs[k].status == Running
    ensures Stranded(w, i) || Stranded(w, k)
  {
    LiveRun(w, i);
    LiveRun(w, k);
    if Reattachable(w.db.jobs[i]) { assert !Reattachable(w.db.jobs[k]); }
  }

  lemma LiveRun(w: World, i: nat)
    requires QueueSound(w) && !w.worker.Down? && i < |w.db.jobs| && w.db.jobs[i].status == Running
    ensures Holds(w.worker, i) || Reattachable(w.db.jobs[i]) || Stranded(w, i)
  {
    assert NotHandedOff(w.db.jobs[i], w.queueMode) ==> Holds(w.worker, i);
  }

  // ---------------------------------------------------------------- leases

  /** No claim, heartbeat or result reaches run `i`. */
  predicate SilentOn(w: World, e: Event, i: nat) {
    && (e.RunnerClaims? ==> i < |w.db.jobs| && !AwaitsRunner(w.db.jobs[i]))
    && (e.RunnerBeats? ==> e.id != i) && (e.RunnerReports? ==> e.id != i)
  }

  /** Run `i` has been given up, or is as it was and the worker is down, free, waiting for it or
      about to give it up. */
  predicate GivenUpOrOpen(w: World, i: nat, row: Job) {
    && i < |w.db.jobs|
    && (|| w.db.jobs[i].status == Error
        || (&& w.db.jobs[i].status == Running && w.db.jobs[i].kind.Prefill?
            && w.db.jobs[i].run == row.run && w.db.jobs[i].startedAt == row.startedAt
            && (w.worker.Down? || w.worker.Idle? || w.worker == Failing(i) || (w.worker.Waiting? && w.worker.job == i))))
  }

  lemma SilentStep(w: World, e: Event, i: nat, row: Job)
    requires QueueSound(w) && GivenUpOrOpen(w, i, row) && SilentOn(w, e, i)
    requires row.run.useForce.Some? && row.run.result.None?
    ensures GivenUpOrOpen(Step(w, e), i, row)
  {
    hide Step, QueueSound, GivenUpOrOpen, SilentOn;
    InReach(w, i, row);
    if w.db.jobs[i].status == Error {
      EndStays(w, e, i);
      EndedIsGivenUp(Step(w, e), i, row);
    } else if e.Polls? && w.worker.Idle? {
      SilentPoll(w, i, row);
    } else if ActorOf(e).Thread? {
      SilentWork(w, e, i, row);
    } else {
      SilentOthers(w, e, i, row);
    }
  }

  lemma EndedIsGivenUp(w: World, i: nat, row: Job)
    requires i < |w.db.jobs| && w.db.jobs[i].status == Error
    ensures GivenUpOrOpen(w, i, row)
  {
  }

  lemma SilentPoll(w: World, i: nat, row: Job)
    requires QueueSound(w) && GivenUpOrOpen(w, i, row) && row.run.useForce.Some? && row.run.result.None?
    requires w.worker.Idle? && w.db.jobs[i].status == Running
    ensures GivenUpOrOpen(Step(w, Polls), i, row)
  {
    assert HandedOff(w, i);
    hide Step, QueueSound;
    PollTakesOpenRun(w, i);
  }

  lemma SilentOthers(w: World, e: Event, i: nat, row: Job)
    requires QueueSound(w) && GivenUpOrOpen(w, i, row) && SilentOn(w, e, i)
    requires row.run.useForce.Some? && row.run.result.None? && i < |w.db.jobs| && w.db.jobs[i].status == Running
    requires !ActorOf(e).Thread?
    ensures GivenUpOrOpen(Step(w, e), i, row)
  {
    hide Step, OpenRunIsHeld, WaitingJobsAreFresh, OnePerApp, WorkerMatchesRun;
    StepIsLawful(w, e, i);
    StepFollowsRunLaw(w, e, i);
    OthersKeepStamps(w, e, i);
    WorkerMovesItself(w, e);
  }

  lemma SilentWork(w: World, e: Event, i: nat, row: Job)
    requires QueueSound(w) && GivenUpOrOpen(w, i, row) && row.run.result.None?
    requires ActorOf(e).Thread? && w.db.jobs[i].status == Running && !(e.Polls? && w.worker.Idle?)
    ensures GivenUpOrOpen(Step(w, e), i, row)
  {
    if !WritesJobs(e) {
      OtherWorkKeepsJobs(w, e);
    }
  }

  lemma {:induction false} SilentRun(w: World, events: seq<Event>, i: nat, row: Job)
    requires QueueSound(w) && GivenUpOrOpen(w, i, row) && row.run.useForce.Some? && row.run.result.None?
    requires forall k :: 0 <= k < |events| ==> SilentOn(Run(w, events[..k]), events[k], i)
    ensures GivenUpOrOpen(Run(w, events), i, row)
  {
    hide Step, GivenUpOrOpen, QueueSound, SilentOn;
    if events != [] {
      var n := |events| - 1;
      var front := events[..n];
      forall k | 0 <= k < n ensures SilentOn(Run(w, front[..k]), front[k], i) {
        assert front[..k] == events[..k];
      }
      SilentRun(w, front, i, row);
      QueueSoundAlways(w, front);
      assert front == events[..n];
      SilentStep(Run(w, front), events[n], i, row);
    }
  }

  /** Nobody but a waiting worker, or one giving it up, holds an open run. */
  lemma OpenRunIsOpen(w: World, i: nat)
    requires QueueSound(w) && i < |w.db.jobs| && Reattachable(w.db.jobs[i])
    ensures GivenUpOrOpen(w, i, w.db.jobs[i])
    ensures w.db.jobs[i].run.useForce.Some? && w.db.jobs[i].run.result.None? && w.db.jobs[i].startedAt.Some?
  {
    assert Busy(w.worker) ==> w.worker.job == i;
  }

  /** What brings a silent run to its end, from wherever the worker is. */
  function TheEnd(observed: set<nat>): seq<Event> {
    [Starts, Polls, Awaits(true, observed), Finishes]
  }

  /** A run whose runner falls silent ends in `error` once the worker looks at it past the lease,
      whatever else happens in between, crashes and restarts of vault-api included; and from then on
      no report or second runner can touch it. */
  lemma SilentRunnersAreGivenUp(w: World, i: nat, events: seq<Event>, observed: set<nat>, after: seq<Event>)
    requires QueueSound(w) && i < |w.db.jobs| && Reattachable(w.db.jobs[i])
    requires forall k :: 0 <= k < |events| ==> SilentOn(Run(w, events[..k]), events[k], i)
    requires var sign := LastSign(w.db.jobs[i]);
      sign.Some? ==> Run(w, events).clock > sign.value + w.lease
    ensures var ended := Run(Run(w, events), TheEnd(observed));
      && i < |ended.db.jobs| && ended.db.jobs[i].status == Error
      && i < |Run(ended, after).db.jobs| && Run(ended, after).db.jobs[i] == ended.db.jobs[i]
  {
    var row := w.db.jobs[i];
    OpenRunIsOpen(w, i);
    hide Step, QueueSound, GivenUpOrOpen, SilentOn, LastSign;
    SilentRun(w, events, i, row);
    QueueSoundAlways(w, events);
    ModeIsFixed(w, events);
    GivenUpInTheEnd(Run(w, events), i, row, observed);
    QueueSoundAlways(Run(w, events), TheEnd(observed));
    SoundlyQueued(Run(Run(w, events), TheEnd(observed)));
    OutcomesAreFinal(Run(Run(w, events), TheEnd(observed)), after, i);
  }

  lemma SoundlyQueued(w: World)
    requires QueueSound(w)
    ensures Sound(w)
  {
  }

  lemma RunTheEnd(w: World, observed: set<nat>)
    ensures Run(w, TheEnd(observed)) == Step(Step(Step(Step(w, Starts), Polls), Awaits(true, observed)), Finishes)
  {
    hide Step;
    var one, two, three := [Starts], [Starts, Polls], [Starts, Polls, Awaits(true, observed)];
    assert TheEnd(observed)[..3] == three && three[..2] == two && two[..1] == one && one[..0] == [];
    assert Run(w, one) == Step(w, Starts);
    assert Run(w, two) == Step(Run(w, one), Polls);
    assert Run(w, three) == Step(Run(w, two), Awaits(true, observed));
  }

  lemma GivenUpInTheEnd(w: World, i: nat, row: Job, observed: set<nat>)
    requires QueueSound(w) && GivenUpOrOpen(w, i, row)
    requires row.run.useForce.Some? && row.run.result.None? && row.startedAt.Some?
    requires LastSign(row).Some? ==> w.clock > LastSign(row).value + w.lease
    ensures var ended := Run(w, TheEnd(observed)); i < |ended.db.jobs| && ended.db.jobs[i].status == Error
  {
    hide Step, QueueSound, GivenUpOrOpen, LastSign;
    RunTheEnd(w, observed);
    var started := Step(w, Starts);
    TimeStands(w, Starts);
    SilentStep(w, Starts, i, row);
    StartsUp(w);
    QueueSoundKept(w, Starts);
    var polled := Step(started, Polls);
    TimeStands(started, Polls);
    SilentStep(started, Polls, i, row);
    QueueSoundKept(started, Polls);
    PollsUp(started, i, row);
    InReach(polled, i, row);
    var judged := Step(polled, Awaits(true, observed));
    SilentStep(polled, Awaits(true, observed), i, row);
    QueueSoundKept(polled, Awaits(true, observed));
    if polled.db.jobs[i].status == Error {
      EndStays(polled, Awaits(true, observed), i);
      EndStays(judged, Finishes, i);
    } else {
      GivenUpAtAPoll(polled, i, row, observed);
      EndsFailing(judged, i);
    }
  }

  lemma InReach(w: World, i: nat, row: Job)
    requires GivenUpOrOpen(w, i, row)
    ensures i < |w.db.jobs| && (w.db.jobs[i].status == Error || w.db.jobs[i].status == Running)
    ensures forall o :: SilentOn(w, Awaits(true, o), i)
  {
  }

  lemma TimeStands(w: World, e: Event)
    requires e.Starts? || e.Polls?
    ensures Step(w, e).clock == w.clock && Step(w, e).lease == w.lease
    ensures forall i: nat :: SilentOn(w, e, i)
  {
  }

  lemma StartsUp(w: World)
    ensures !Step(w, Starts).worker.Down?
  {
  }

  lemma PollsUp(w: World, i: nat, row: Job)
    requires QueueSound(w) && !w.worker.Down? && GivenUpOrOpen(w, i, row) && GivenUpOrOpen(Step(w, Polls), i, row)
    requires row.run.useForce.Some? && row.run.result.None?
    ensures var now := Step(w, Polls);
      now.db.jobs[i].status == Error || now.worker == Failing(i) || (now.worker.Waiting? && now.worker.job == i)
  {
    if w.worker.Idle? && w.db.jobs[i].status == Running {
      assert HandedOff(w, i);
      hide Step, QueueSound;
      PollTakesOpenRun(w, i);
    } else if w.worker.Idle? {
      TerminalStep(w, Polls, i);
    } else {
      PollsOnlyWhenIdle(w);
    }
  }

  lemma EndStays(w: World, e: Event, i: nat)
    requires QueueSound(w) && i < |w.db.jobs| && w.db.jobs[i].status == Error
    ensures i < |Step(w, e).db.jobs| && Step(w, e).db.jobs[i].status == Error
  {
    TerminalStep(w, e, i);
  }

  lemma EndsFailing(w: World, i: nat)
    requires i < |w.db.jobs| && w.worker == Failing(i)
    ensures i < |Step(w, Finishes).db.jobs| && Step(w, Finishes).db.jobs[i].status == Error
  {
  }

  /** A heartbeat of the runner that holds a run is recorded with the time it came, and a result with
      what it says; anybody else's changes nothing. */
  lemma OnlyTheHolderReports(w: World, i: nat, runner: nat, outcome: RunOutcome)
    ensures var (beat, told) := (Step(w, RunnerBeats(i, runner)), Step(w, RunnerReports(i, runner, outcome)));
      if i < |w.db.jobs| && w.db.jobs[i].status == Running && w.db.jobs[i].run.claimedBy == Some(runner) then
        && beat == w.(db := w.db.(jobs := w.db.jobs[i := w.db.jobs[i].(run := w.db.jobs[i].run.(heartbeatAt := Some(w.clock)))]))
        && told == w.(db := w.db.(jobs := w.db.jobs[i := w.db.jobs[i].(run := w.db.jobs[i].run.(result := Some(outcome)))]))
      else
        beat == w && told == w
  {
  }

  /** A claim goes to the first run nobody holds, and counts as a sign at once. */
  lemma ClaimIsASign(w: World, runner: nat, i: nat)
    requires i < |w.db.jobs| && AwaitsRunner(w.db.jobs[i]) && forall k :: 0 <= k < i ==> !AwaitsRunner(w.db.jobs[k])
    ensures var now := Step(w, RunnerClaims(runner)).db.jobs;
      && now == w.db.jobs[i := w.db.jobs[i].(run := w.db.jobs[i].run.(claimedBy := Some(runner), claimedAt := Some(w.clock),
                                                                       heartbeatAt := Some(w.clock)))]
  {
    var next := Oldest(w.db.jobs, (j: Job) => AwaitsRunner(j));
    hide AwaitsRunner;
    assert next == Some(i);
  }

  /** A heartbeat buys one lease: as long as the row stays as it left it, the worker waits through
      every poll up to that time, and gives the run up at the first one after it. */
  lemma BeatBuysALease(w: World, i: nat, runner: nat, now: World, considered: bool, observed: set<nat>)
    requires i < |w.db.jobs| && w.db.jobs[i].status == Running && w.db.jobs[i].run.claimedBy == Some(runner)
    requires w.db.jobs[i].run.result.None?
    requires now.worker.Waiting? && now.worker.job == i && i < |now.db.jobs| && now.lease == w.lease
    requires now.db.jobs[i] == Step(w, RunnerBeats(i, runner)).db.jobs[i]
    ensures now.clock <= w.clock + w.lease ==> Step(now, Awaits(considered, observed)) == now
    ensures now.clock > w.clock + w.lease ==> Step(now, Awaits(considered, observed)).worker == Failing(i)
  {
    OnlyTheHolderReports(w, i, runner, Failed);
    assert now.db.jobs[i] == w.db.jobs[i].(run := w.db.jobs[i].run.(heartbeatAt := Some(w.clock)));
    hide SetAppStatus;
  }

  /** The other side: the worker goes on waiting exactly as long as no result is in and the last
      sign of the run is within the lease. */
  lemma WaitsExactlyWithinLease(w: World, considered: bool, observed: set<nat>)
    requires w.worker.Waiting? && w.worker.job < |w.db.jobs|
    ensures var job := w.db.jobs[w.worker.job];
      var alive := LastSign(job).Some? ==> w.clock <= LastSign(job).value + w.lease;
      Step(w, Awaits(considered, observed)) == w <==> job.run.result.None? && alive
  {
    hide LastSign;
    assert Step(w, Awaits(considered, observed)) == OnAwait(w, w.worker.job, w.worker.force, considered, observed);
  }

  lemma GivenUpAtAPoll(w: World, i: nat, row: Job, observed: set<nat>)
    requires GivenUpOrOpen(w, i, row) && w.db.jobs[i].status == Running
    requires w.worker == Failing(i) || (w.worker.Waiting? && w.worker.job == i)
    requires row.run.result.None? && row.startedAt.Some?
    requires LastSign(row).Some? ==> w.clock > LastSign(row).value + w.lease
    ensures Step(w, Awaits(true, observed)).worker == Failing(i)
    ensures Step(w, Awaits(true, observed)).db.jobs == w.db.jobs
  {
  }
}
