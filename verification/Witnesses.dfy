/** Short runs from an empty database that reach the states in which the documented behaviour fails. */
module Witnesses {
  import opened ForceFlag
  import opened JobLaws
  import opened JobRuns
  import opened Lifecycle
  import opened Options
  import opened QueueMode
  import opened Tables

  // ---------------------------------------------------------------- one prefill of app 7, step by step

  function Fresh(queueMode: bool): World {
    World(Db(map[], {}, []), {}, Down, map[], 0, queueMode, 90)
  }

  function Seven(status: AppStatus, jobs: seq<Job>, worker: Worker, queueMode: bool): World {
    World(Db(map[7 := App(status, None, true)], {}, jobs), {}, worker, map[], 0, queueMode, 90)
  }

  function Running7(stop: Option<Stop>, run: Handoff): Job {
    Job(7, Prefill, Running, Some(0), stop, run)
  }

  lemma Queues(queueMode: bool)
    ensures Step(Step(Fresh(queueMode), Starts), Prefills(7)) == Seven(AppIdle, [NewJob(7, Prefill)], Idle, queueMode)
  {
    var up := Fresh(queueMode).(worker := Idle);
    assert RecoverStaleJobs(Fresh(queueMode).db, queueMode) == Fresh(queueMode).db;
    assert Step(Fresh(queueMode), Starts) == up;
    assert EnqueuePrefill(up.db, 7).0 == Db(map[7 := FreshApp], {}, [NewJob(7, Prefill)]);
  }

  lemma Claims(queueMode: bool)
    ensures Step(Seven(AppIdle, [NewJob(7, Prefill)], Idle, queueMode), Polls)
         == Seven(AppIdle, [Running7(None, NoHandoff)], Claimed(0), queueMode)
  {
    var db := Seven(AppIdle, [NewJob(7, Prefill)], Idle, queueMode).db;
    assert db.jobs[0].status == Queued;
    assert FindActiveRun(db) == None && NextQueued(db.jobs) == Some(0);
    assert ClaimNextJob(db, 0).0.jobs == [Running7(None, NoHandoff)];
  }

  lemma Marks(queueMode: bool)
    ensures Step(Seven(AppIdle, [Running7(None, NoHandoff)], Claimed(0), queueMode), MarksRunning)
         == Seven(AppRunning, [Running7(None, NoHandoff)], Marked(0), queueMode)
  {
    var db := Seven(AppIdle, [Running7(None, NoHandoff)], Claimed(0), queueMode).db;
    assert SetAppStatus(db, 7, AppRunning, None).apps == map[7 := App(AppRunning, None, true)];
  }

  lemma UpToTheClaim(queueMode: bool) returns (events: seq<Event>)
    ensures Run(Fresh(queueMode), events) == Seven(AppIdle, [Running7(None, NoHandoff)], Claimed(0), queueMode)
  {
    hide *;
    var w := Fresh(queueMode);
    Queues(queueMode);
    Claims(queueMode);
    NoEvents(w);
    events := Then(w, [], Starts);
    events := Then(w, events, Prefills(7));
    events := Then(w, events, Polls);
  }

  lemma UpToTheMark(queueMode: bool) returns (events: seq<Event>)
    ensures Run(Fresh(queueMode), events) == Seven(AppRunning, [Running7(None, NoHandoff)], Marked(0), queueMode)
  {
    hide *;
    Marks(queueMode);
    events := UpToTheClaim(queueMode);
    events := Then(Fresh(queueMode), events, MarksRunning);
  }

  lemma NoEvents(w: World)
    ensures Run(w, []) == w
  {
  }

  lemma FreshIsInitial(queueMode: bool)
    ensures Initial(Fresh(queueMode)) && Fresh(queueMode).queueMode == queueMode
  {
  }

  // ---------------------------------------------------------------- a stop request that outlives its job

  lemma CancelGetsRequested()
    ensures var now := Step(Seven(AppIdle, [Running7(None, NoHandoff)], Claimed(0), false), Cancels(0));
      now.db.jobs == [Running7(Some(StopCancel), NoHandoff)] && now.queueMode == false
  {
  }

  /** A prefill is claimed, cancelled while it runs, and vault-api dies before the worker sees the
      request: after the restart the job is in `error`, with the request, in every further run. */
  lemma FailedWithAStopRequest(rest: seq<Event>) returns (events: seq<Event>)
    ensures Initial(Fresh(false))
    ensures var later := Run(Step(Step(Run(Fresh(false), events), Crashes), Starts), rest);
      |later.db.jobs| > 0 && later.db.jobs[0].status == Error && later.db.jobs[0].stop == Some(StopCancel)
  {
    hide *;
    FreshIsInitial(false);
    events := UpToTheClaim(false);
    CancelGetsRequested();
    events := Then(Fresh(false), events, Cancels(0));
    var w := Run(Fresh(false), events);
    ReachableIsSound(Fresh(false), events);
    OrphanSeven(w.db.jobs[0]);
    RecoveryKeepsStopRequest(w, 0, StopCancel, rest);
  }

  lemma OrphanSeven(job: Job)
    requires job == Running7(Some(StopCancel), NoHandoff)
    ensures Orphan(job, false) && job.stop == Some(StopCancel)
  {
  }

  // ---------------------------------------------------------------- a status taken from a running prefill

  /** A collection queued beside a running prefill of the same app is cancelled: the prefill runs on
      while its app shows `idle`. */
  lemma IdleWhileRunning() returns (events: seq<Event>)
    ensures Initial(Fresh(false))
    ensures var w := Run(Fresh(false), events);
      && |w.db.jobs| == 2 && w.db.jobs[0] == Running7(None, NoHandoff) && w.worker == Marked(0)
      && w.db.jobs[1].kind == Gc(true) && w.db.jobs[1].status == Cancelled
      && 7 in w.db.apps && w.db.apps[7].status == AppIdle
  {
    hide *;
    FreshIsInitial(false);
    events := UpToTheMark(false);
    CollectionGetsCancelled();
    events := Then(Fresh(false), events, Collects(7, true));
    events := Then(Fresh(false), events, Cancels(1));
  }

  lemma CollectionGetsCancelled()
    ensures var w := Step(Step(Seven(AppRunning, [Running7(None, NoHandoff)], Marked(0), false), Collects(7, true)), Cancels(1));
      && |w.db.jobs| == 2 && w.db.jobs[0] == Running7(None, NoHandoff) && w.worker == Marked(0)
      && w.db.jobs[1].kind == Gc(true) && w.db.jobs[1].status == Cancelled
      && 7 in w.db.apps && w.db.apps[7].status == AppIdle
  {
    var was := Seven(AppRunning, [Running7(None, NoHandoff)], Marked(0), false);
    var both := [Running7(None, NoHandoff), NewJob(7, Gc(true))];
    assert Step(was, Collects(7, true)).db.jobs == both;
  }

  // ---------------------------------------------------------------- a stranded run

  function Taken(result: Option<RunOutcome>): Handoff {
    Handoff(Some(true), Some(1), Some(0), Some(0), result)
  }

  lemma HandsOver()
    ensures Step(Step(Step(Seven(AppRunning, [Running7(None, NoHandoff)], Marked(0), true), ReadsFlag), HandsOff), RunnerClaims(1))
         == Seven(AppRunning, [Running7(None, Taken(None))], Waiting(0, true), true)
  {
    hide *;
    Offers();
    Takes();
  }

  function Offered(): World {
    Seven(AppRunning, [Running7(None, NoHandoff.(useForce := Some(true)))], Waiting(0, true), true)
  }

  lemma Offers()
    ensures Step(Step(Seven(AppRunning, [Running7(None, NoHandoff)], Marked(0), true), ReadsFlag), HandsOff) == Offered()
  {
    var started := Seven(AppRunning, [Running7(None, NoHandoff)], Started(0, true), true);
    assert Step(Seven(AppRunning, [Running7(None, NoHandoff)], Marked(0), true), ReadsFlag) == started;
  }

  lemma Takes()
    ensures Step(Offered(), RunnerClaims(1)) == Seven(AppRunning, [Running7(None, Taken(None))], Waiting(0, true), true)
  {
    var db := Offered().db;
    assert AwaitsRunner(db.jobs[0]);
    assert ClaimRun(db, 1, 0).0.jobs == [Running7(None, Taken(None))];
  }

  lemma ReportsTooEarly()
    ensures var down := Step(Seven(AppRunning, [Running7(None, Taken(None))], Waiting(0, true), true), Crashes);
      var late := Step(Step(down, Starts), RunnerReports(0, 1, Succeeded));
      Stranded(late, 0) && late.db.jobs == [Running7(None, Taken(Some(Succeeded)))]
  {
    hide Step;
    Restarts();
    ReportsToNobody(Step(Seven(AppRunning, [Running7(None, Taken(None))], Down, true), Starts));
  }

  lemma Restarts()
    ensures var down := Seven(AppRunning, [Running7(None, Taken(None))], Down, true);
      && Step(Seven(AppRunning, [Running7(None, Taken(None))], Waiting(0, true), true), Crashes) == down
      && Step(down, Starts).worker == Idle && Step(down, Starts).db.jobs == down.db.jobs
  {
    var db := Seven(AppRunning, [Running7(None, Taken(None))], Down, true).db;
    assert Recovered(db.jobs[0], true) == db.jobs[0];
    hide OrphanOf;
    assert RecoverStaleJobs(db, true).jobs == db.jobs;
  }

  lemma ReportsToNobody(w: World)
    requires w.worker == Idle && w.db.jobs == [Running7(None, Taken(None))]
    ensures var late := Step(w, RunnerReports(0, 1, Succeeded));
      Stranded(late, 0) && late.db.jobs == [Running7(None, Taken(Some(Succeeded)))]
  {
    assert HeldBy(w.db.jobs[0], 1);
  }

  /** A run is handed off and taken; vault-api dies and is up again, and before its worker polls for
      the first time the runner reports success: nobody will ever write that result up. */
  lemma SuccessThatStrands(rest: seq<Event>) returns (events: seq<Event>)
    ensures Initial(Fresh(true))
    ensures Run(Fresh(true), events).db.jobs == [Running7(None, Taken(Some(Succeeded)))]
    ensures Stranded(Run(Run(Fresh(true), events), rest), 0)
  {
    hide *;
    FreshIsInitial(true);
    events := UpToTheMark(true);
    HandsOver();
    ReportsTooEarly();
    events := Then(Fresh(true), events, ReadsFlag);
    events := Then(Fresh(true), events, HandsOff);
    events := Then(Fresh(true), events, RunnerClaims(1));
    events := Then(Fresh(true), events, Crashes);
    events := Then(Fresh(true), events, Starts);
    events := Then(Fresh(true), events, RunnerReports(0, 1, Succeeded));
    var w := Run(Fresh(true), events);
    ReachableIsCoherent(Fresh(true), events);
    ModeIsFixed(Fresh(true), events);
    QueueCoherence(w);
    StrandedForever(w, rest, 0);
  }

  lemma QueueCoherence(w: World)
    requires Coherent(w) && w.queueMode
    ensures QueueSound(w)
  {
  }
}
