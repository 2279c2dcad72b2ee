/** What every step of every run keeps about the job queue, in both prefill modes. */
module JobLaws {
  import opened Lifecycle
  import opened Options
  import opened Tables

  predicate ActivePrefill(job: Job) {
    job.kind.Prefill? && Active(job.status)
  }

  /** At most one active prefill job per app. */
  ghost predicate OnePerApp(jobs: seq<Job>) {
    forall i, k :: 0 <= i < k < |jobs| && ActivePrefill(jobs[i]) && ActivePrefill(jobs[k])
      ==> jobs[i].appid != jobs[k].appid
  }

  predicate Busy(worker: Worker) {
    !worker.Down? && !worker.Idle?
  }

  /** The job in the worker's hands is running and of the kind the worker treats it as. */
  predicate WorkerHoldsRunning(w: World) {
    Busy(w.worker) ==>
      && w.worker.job < |w.db.jobs|
      && w.db.jobs[w.worker.job].status == Running
      && (w.worker.Collecting? <==> !w.db.jobs[w.worker.job].kind.Prefill?)
  }

  /** Nothing a runner could have been told about. */
  predicate NotHandedOff(job: Job, queueMode: bool) {
    job.status == Running && Orphan(job, queueMode)
  }

  /** A running job that was never handed off is the one in the worker's hands. */
  ghost predicate OwnRunsAreHeld(w: World) {
    forall i :: 0 <= i < |w.db.jobs| && NotHandedOff(w.db.jobs[i], w.queueMode) ==>
      w.worker.Down? || Holds(w.worker, i)
  }

  ghost predicate OneOwnRun(w: World) {
    forall i, k :: 0 <= i < k < |w.db.jobs| ==>
      !NotHandedOff(w.db.jobs[i], w.queueMode) || !NotHandedOff(w.db.jobs[k], w.queueMode)
  }

  ghost predicate Sound(w: World) {
    OnePerApp(w.db.jobs) && WorkerHoldsRunning(w) && OwnRunsAreHeld(w) && OneOwnRun(w)
  }

  // ---------------------------------------------------------------- the transition table of a job

  /** Every way a step can change the status of an existing job. */
  ghost predicate Lawful(w: World, e: Event, i: nat, now: Job)
    requires i < |w.db.jobs|
  {
    var was := w.db.jobs[i];
    && now.appid == was.appid && now.kind == was.kind
    && (now.status != was.status ==>
          match (was.status, now.status)
          case (Queued, Running) => e.Polls? && w.worker.Idle? && NextQueued(w.db.jobs) == Some(i)
          case (Queued, Cancelled) => e == Cancels(i)
          case (Paused, Cancelled) => e == Cancels(i)
          case (Paused, Queued) => e == Resumes(i)
          case (Running, Paused) => e.Finishes? && w.worker == Stopping(i, true)
          case (Running, Cancelled) => (e.Finishes? && w.worker == Stopping(i, false)) || (e.CollectionEnds? && w.worker == Collecting(i))
          case (Running, Done) => (e.Finishes? && w.worker == Settled(i)) || (e.CollectionEnds? && w.worker == Collecting(i))
          case (Running, Error) =>
            || (e.Finishes? && w.worker == Failing(i))
            || (e.CollectionEnds? && w.worker == Collecting(i))
            || (e.Starts? && w.worker.Down? && Orphan(was, w.queueMode))
          case _ => false)
  }

  lemma RequestIsLawful(w: World, e: Event, i: nat)
    requires i < |w.db.jobs| && ActorOf(e).Api?
    ensures i < |OnRequest(w, e).db.jobs| && Lawful(w, e, i, OnRequest(w, e).db.jobs[i])
  {
  }

  lemma OutsideIsLawful(w: World, e: Event, i: nat)
    requires i < |w.db.jobs| && ActorOf(e).Outside?
    ensures i < |OnOutside(w, e).db.jobs| && Lawful(w, e, i, OnOutside(w, e).db.jobs[i])
  {
  }

  lemma DeleteIsLawful(w: World, e: Event)
    requires ActorOf(e).Deleter?
    ensures OnDelete(w, e).db.jobs == w.db.jobs
  {
  }

  /** Only these four worker steps write to the job table. */
  predicate WritesJobs(e: Event) {
    e.Polls? || e.HandsOff? || e.Finishes? || e.CollectionEnds?
  }

  lemma OtherWorkKeepsJobs(w: World, e: Event)
    requires ActorOf(e).Thread? && !WritesJobs(e)
    ensures OnWorker(w, e).db.jobs == w.db.jobs
  {
  }

  lemma PollIsLawful(w: World, i: nat)
    requires i < |w.db.jobs|
    ensures i < |OnWorker(w, Polls).db.jobs| && Lawful(w, Polls, i, OnWorker(w, Polls).db.jobs[i])
  {
  }

  lemma SettledIsLawful(w: World, i: nat)
    requires WorkerHoldsRunning(w) && w.worker.Settled? && i < |w.db.jobs|
    ensures i < |OnFinish(w).db.jobs| && Lawful(w, Finishes, i, OnFinish(w).db.jobs[i])
  {
    assert w.db.jobs[w.worker.job].status == Running;
  }

  lemma FinishIsLawful(w: World, i: nat)
    requires WorkerHoldsRunning(w) && i < |w.db.jobs|
    ensures i < |OnFinish(w).db.jobs| && Lawful(w, Finishes, i, OnFinish(w).db.jobs[i])
  {
    match w.worker {
      case Settled(id) => SettledIsLawful(w, i);
      case Stopping(id, pause) => assert w.db.jobs[id].status == Running;
      case Failing(id) => assert w.db.jobs[id].status == Running;
      case _ =>
    }
  }

  lemma WorkerIsLawful(w: World, e: Event, i: nat)
    requires WorkerHoldsRunning(w) && i < |w.db.jobs| && ActorOf(e).Thread?
    ensures i < |OnWorker(w, e).db.jobs| && Lawful(w, e, i, OnWorker(w, e).db.jobs[i])
  {
    if !WritesJobs(e) {
      OtherWorkKeepsJobs(w, e);
    } else if e.Polls? {
      PollIsLawful(w, i);
    } else if e.Finishes? {
      FinishIsLawful(w, i);
    }
  }

  lemma StepIsLawful(w: World, e: Event, i: nat)
    requires WorkerHoldsRunning(w) && i < |w.db.jobs|
    ensures i < |Step(w, e).db.jobs| && Lawful(w, e, i, Step(w, e).db.jobs[i])
  {
    match ActorOf(e)
    case Api => RequestIsLawful(w, e, i);
    case Deleter => DeleteIsLawful(w, e);
    case Thread => WorkerIsLawful(w, e, i);
    case Outside => OutsideIsLawful(w, e, i);
  }

  /** A step appends at most one job, and a prefill job only for an app without one in flight. */
  lemma NewJobs(w: World, e: Event)
    requires WorkerHoldsRunning(w)
    ensures var jobs := Step(w, e).db.jobs;
      && |w.db.jobs| <= |jobs| <= |w.db.jobs| + 1
      && (|jobs| > |w.db.jobs| ==>
            var job := jobs[|w.db.jobs|];
            && job == NewJob(job.appid, job.kind)
            && !exists i :: 0 <= i < |w.db.jobs| && InFlight(w.db.jobs[i], job.appid, job.kind))
  {
    match ActorOf(e) {
      case Api =>
      case Deleter => DeleteIsLawful(w, e);
      case Outside =>
      case Thread =>
        if !WritesJobs(e) {
          OtherWorkKeepsJobs(w, e);
        }
    }
  }

  lemma OnePerAppCarries(was: seq<Job>, now: seq<Job>)
    requires OnePerApp(was) && |was| <= |now| <= |was| + 1
    requires forall i :: 0 <= i < |was| ==>
      now[i].appid == was[i].appid && (ActivePrefill(now[i]) ==> ActivePrefill(was[i]))
    requires |now| > |was| && now[|was|].kind.Prefill? ==>
      forall i :: 0 <= i < |was| ==> !InFlight(was[i], now[|was|].appid, Prefill)
    ensures OnePerApp(now)
  {
    forall i, k | 0 <= i < k < |now| && ActivePrefill(now[i]) && ActivePrefill(now[k])
      ensures now[i].appid != now[k].appid
    {
      assert ActivePrefill(was[i]);
      if k < |was| {
        assert ActivePrefill(was[k]);
      } else {
        assert !InFlight(was[i], now[k].appid, Prefill);
      }
    }
  }

  lemma OnePerAppKept(w: World, e: Event)
    requires Sound(w)
    ensures OnePerApp(Step(w, e).db.jobs)
  {
    var jobs := Step(w, e).db.jobs;
    NewJobs(w, e);
    forall i: nat | i < |w.db.jobs|
      ensures jobs[i].appid == w.db.jobs[i].appid && (ActivePrefill(jobs[i]) ==> ActivePrefill(w.db.jobs[i]))
    {
      StepIsLawful(w, e, i);
    }
    hide Step;
    OnePerAppCarries(w.db.jobs, jobs);
  }

  /** Between a claim and its end the worker keeps to one job. */
  lemma WorkerKeepsToItsJob(w: World, e: Event)
    requires ActorOf(e).Thread? && !e.Polls?
    ensures var now := OnWorker(w, e).worker;
      || now == w.worker
      || (now.Idle? && (e.Finishes? || e.CollectionEnds?) && Busy(w.worker))
      || (Busy(w.worker) && Busy(now) && now.job == w.worker.job && !w.worker.Collecting? && !now.Collecting?)
  {
  }

  lemma PollHoldsRunning(w: World)
    requires WorkerHoldsRunning(w)
    ensures WorkerHoldsRunning(OnWorker(w, Polls))
  {
  }

  /** Outside the worker thread only a crash and a start touch the worker. */
  lemma WorkerMovesItself(w: World, e: Event)
    requires !ActorOf(e).Thread? || w.worker.Down?
    ensures || Step(w, e).worker == w.worker
            || (e.Crashes? && Step(w, e).worker.Down?)
            || (e.Starts? && w.worker.Down? && Step(w, e).worker.Idle?)
  {
    if ActorOf(e).Thread? { DownStaysDown(w, e); } else { hide OnWorker; }
  }

  lemma DownStaysDown(w: World, e: Event)
    requires w.worker.Down? && ActorOf(e).Thread?
    ensures OnWorker(w, e) == w
  {
  }

  lemma WorkHoldsRunning(w: World, e: Event)
    requires WorkerHoldsRunning(w) && ActorOf(e).Thread?
    ensures WorkerHoldsRunning(OnWorker(w, e))
  {
    hide OnWorker;
    if e.Polls? {
      PollHoldsRunning(w);
    } else {
      WorkerKeepsToItsJob(w, e);
      if Busy(w.worker) { WorkerIsLawful(w, e, w.worker.job); }
      if Busy(w.worker) && Busy(OnWorker(w, e).worker) { StillRunning(w, e); }
    }
  }

  lemma StillRunning(w: World, e: Event)
    requires WorkerHoldsRunning(w) && ActorOf(e).Thread? && !e.Polls? && Busy(w.worker)
    requires Busy(OnWorker(w, e).worker)
    ensures w.worker.job < |OnWorker(w, e).db.jobs|
    ensures OnWorker(w, e).db.jobs[w.worker.job].status == Running
  {
    if !WritesJobs(e) {
      OtherWorkKeepsJobs(w, e);
    }
  }

  lemma HeldJobRuns(w: World, e: Event)
    requires WorkerHoldsRunning(w)
    ensures WorkerHoldsRunning(Step(w, e))
  {
    if ActorOf(e).Thread? {
      WorkHoldsRunning(w, e);
    } else {
      hide Step;
      WorkerMovesItself(w, e);
      if Busy(w.worker) { StepIsLawful(w, e, w.worker.job); }
    }
  }

  // ---------------------------------------------------------------- who writes the run columns

  /** Every way a step can change the hand-off columns of an existing job. */
  ghost predicate RunLaw(w: World, e: Event, i: nat, now: Handoff)
    requires i < |w.db.jobs|
  {
    var was := w.db.jobs[i];
    || now == was.run
    || (&& e.HandsOff? && w.queueMode && w.worker.Started? && w.worker.job == i
        && now == NoHandoff.(useForce := Some(w.worker.force)))
    || (&& e.RunnerClaims? && AwaitsRunner(was)
        && now == was.run.(claimedBy := Some(e.runner), claimedAt := Some(w.clock), heartbeatAt := Some(w.clock)))
    || (&& e.RunnerBeats? && e.id == i && HeldBy(was, e.runner)
        && now == was.run.(heartbeatAt := Some(w.clock)))
    || (&& e.RunnerReports? && e.id == i && HeldBy(was, e.runner)
        && now == was.run.(result := Some(e.outcome)))
  }

  lemma WorkFollowsRunLaw(w: World, e: Event, i: nat)
    requires WorkerHoldsRunning(w) && i < |w.db.jobs| && ActorOf(e).Thread?
    ensures i < |OnWorker(w, e).db.jobs| && RunLaw(w, e, i, OnWorker(w, e).db.jobs[i].run)
  {
    if !WritesJobs(e) {
      OtherWorkKeepsJobs(w, e);
    }
  }

  lemma StepFollowsRunLaw(w: World, e: Event, i: nat)
    requires WorkerHoldsRunning(w) && i < |w.db.jobs|
    ensures i < |Step(w, e).db.jobs| && RunLaw(w, e, i, Step(w, e).db.jobs[i].run)
  {
    match ActorOf(e) {
      case Api =>
      case Deleter => DeleteIsLawful(w, e);
      case Thread => WorkFollowsRunLaw(w, e, i);
      case Outside =>
    }
  }

  lemma LetGoMeansEnded(w: World, e: Event)
    requires WorkerHoldsRunning(w) && Busy(w.worker) && ActorOf(e).Thread? && OnWorker(w, e).worker.Idle?
    ensures w.worker.job < |OnWorker(w, e).db.jobs|
    ensures OnWorker(w, e).db.jobs[w.worker.job].status != Running
  {
    match e {
      case Finishes => FinishEnds(w);
      case CollectionEnds(_) =>
      case _ => WorkerKeepsToItsJob(w, e);
    }
  }

  lemma FinishEnds(w: World)
    requires WorkerHoldsRunning(w) && Busy(w.worker) && OnFinish(w).worker.Idle?
    ensures w.worker.job < |OnFinish(w).db.jobs|
    ensures OnFinish(w).db.jobs[w.worker.job].status != Running
  {
  }

  lemma StartEndsOrphans(w: World, i: nat)
    requires w.worker.Down? && i < |w.db.jobs| && Orphan(w.db.jobs[i], w.queueMode)
    ensures Step(w, Starts).db.jobs[i].status == Error
  {
  }

  lemma PollTakesWhatItStarts(w: World, i: nat)
    requires w.worker.Idle? && i < |w.db.jobs| && w.db.jobs[i].status == Queued
    requires Step(w, Polls).db.jobs[i].status == Running
    ensures Holds(Step(w, Polls).worker, i)
  {
  }

  lemma WorkerInStep(w: World, e: Event)
    requires WorkerHoldsRunning(w) && ActorOf(e).Thread? && !e.Polls? && Busy(w.worker)
    ensures Busy(Step(w, e).worker) ==> Step(w, e).worker.job == w.worker.job
    ensures !Step(w, e).worker.Down?
    ensures Step(w, e).worker.Idle? ==>
      w.worker.job < |Step(w, e).db.jobs| && Step(w, e).db.jobs[w.worker.job].status != Running
  {
    WorkerKeepsToItsJob(w, e);
    if OnWorker(w, e).worker.Idle? { LetGoMeansEnded(w, e); }
  }

  lemma PollsOnlyWhenIdle(w: World)
    requires !w.worker.Idle?
    ensures Step(w, Polls) == w
  {
  }

  lemma OwnRunStaysHeld(w: World, e: Event, i: nat)
    requires Sound(w) && i < |Step(w, e).db.jobs| && NotHandedOff(Step(w, e).db.jobs[i], w.queueMode)
    ensures Step(w, e).worker.Down? || Holds(Step(w, e).worker, i)
    ensures i < |w.db.jobs|
    ensures NotHandedOff(w.db.jobs[i], w.queueMode) || (w.worker.Idle? && Holds(Step(w, e).worker, i))
  {
    hide Step;
    NewJobs(w, e);
    assert i < |w.db.jobs|;
    StepIsLawful(w, e, i);
    StepFollowsRunLaw(w, e, i);
    if w.db.jobs[i].status != Running {
      PollTakesWhatItStarts(w, i);
    } else if e.Starts? && w.worker.Down? {
      StartEndsOrphans(w, i);
    } else if !ActorOf(e).Thread? || w.worker.Down? {
      WorkerMovesItself(w, e);
    } else if e.Polls? {
      PollsOnlyWhenIdle(w);
    } else {
      WorkerInStep(w, e);
    }
  }

  lemma WorkKeepsMode(w: World, e: Event)
    ensures OnWorker(w, e).queueMode == w.queueMode && OnWorker(w, e).lease == w.lease
  {
  }

  lemma StepKeepsMode(w: World, e: Event)
    ensures Step(w, e).queueMode == w.queueMode && Step(w, e).lease == w.lease
  {
    WorkKeepsMode(w, e);
    hide OnWorker;
  }

  lemma SoundKept(w: World, e: Event)
    requires Sound(w)
    ensures Sound(Step(w, e))
  {
    hide Step;
    OnePerAppKept(w, e);
    HeldJobRuns(w, e);
    StepKeepsMode(w, e);
    var now := Step(w, e);
    forall i: nat | i < |now.db.jobs| && NotHandedOff(now.db.jobs[i], now.queueMode)
      ensures now.worker.Down? || Holds(now.worker, i)
      ensures i < |w.db.jobs|
      ensures NotHandedOff(w.db.jobs[i], w.queueMode) || (w.worker.Idle? && Holds(now.worker, i))
    {
      OwnRunStaysHeld(w, e, i);
    }
  }

  lemma {:induction false} SoundAlways(w: World, events: seq<Event>)
    requires Sound(w)
    ensures Sound(Run(w, events))
  {
    if events != [] {
      SoundAlways(w, events[..|events| - 1]);
      SoundKept(Run(w, events[..|events| - 1]), events[|events| - 1]);
    }
  }
}
