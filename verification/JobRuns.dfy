/** Safety of the job queue over whole runs: outcomes are final, order is kept, restarts lose
    no paused job, and exactly which finished jobs still carry a stop request. */
module JobRuns {
  import opened JobLaws
  import opened Lifecycle
  import opened Options
  import opened Tables

  /** From the first start on, every run of every event sequence satisfies the queue's laws. */
  lemma ReachableIsSound(w: World, events: seq<Event>)
    requires Initial(w)
    ensures Sound(Run(w, events))
  {
    SoundAlways(w, events);
  }

  /** Without a hand-off to runners at most one job is running, whatever happens. */
  lemma OneRunningJob(w: World, events: seq<Event>, i: nat, k: nat)
    requires Sound(w) && !w.queueMode
    requires i < k < |Run(w, events).db.jobs|
    ensures Run(w, events).db.jobs[i].status != Running || Run(w, events).db.jobs[k].status != Running
  {
    SoundAlways(w, events);
    ModeIsFixed(w, events);
  }

  lemma {:induction false} ModeIsFixed(w: World, events: seq<Event>)
    ensures Run(w, events).queueMode == w.queueMode && Run(w, events).lease == w.lease
  {
    if events != [] {
      ModeIsFixed(w, events[..|events| - 1]);
      StepKeepsMode(Run(w, events[..|events| - 1]), events[|events| - 1]);
    }
  }

  // ---------------------------------------------------------------- outcomes are final

  lemma WorkSparesTerminal(w: World, e: Event, i: nat)
    requires WorkerHoldsRunning(w) && i < |w.db.jobs| && Terminal(w.db.jobs[i].status) && ActorOf(e).Thread?
    ensures i < |OnWorker(w, e).db.jobs| && OnWorker(w, e).db.jobs[i] == w.db.jobs[i]
  {
    if !WritesJobs(e) {
      OtherWorkKeepsJobs(w, e);
    }
  }

  lemma TerminalStep(w: World, e: Event, i: nat)
    requires WorkerHoldsRunning(w) && i < |w.db.jobs| && Terminal(w.db.jobs[i].status)
    ensures i < |Step(w, e).db.jobs| && Step(w, e).db.jobs[i] == w.db.jobs[i]
  {
    match ActorOf(e) {
      case Api =>
      case Deleter => DeleteIsLawful(w, e);
      case Thread => WorkSparesTerminal(w, e, i);
      case Outside =>
    }
  }

  /** A finished job's row never changes again: no late report, no second runner, no control
      request and no restart touches it. */
  lemma {:induction false} OutcomesAreFinal(w: World, events: seq<Event>, i: nat)
    requires Sound(w) && i < |w.db.jobs| && Terminal(w.db.jobs[i].status)
    ensures i < |Run(w, events).db.jobs| && Run(w, events).db.jobs[i] == w.db.jobs[i]
  {
    if events != [] {
      var front := events[..|events| - 1];
      OutcomesAreFinal(w, front, i);
      SoundAlways(w, front);
      TerminalStep(Run(w, front), events[|events| - 1], i);
    }
  }

  /** A job cancelled while it was queued is never started. */
  lemma CancelledInQueueNeverRuns(w: World, i: nat, events: seq<Event>)
    requires Sound(w) && i < |w.db.jobs| && w.db.jobs[i].status == Queued
    ensures var later := Run(Step(w, Cancels(i)), events);
      i < |later.db.jobs| && later.db.jobs[i].status == Cancelled
  {
    SoundKept(w, Cancels(i));
    OutcomesAreFinal(Step(w, Cancels(i)), events, i);
  }

  // ---------------------------------------------------------------- order and pauses

  predicate QueuedAt(w: World, i: nat) {
    i < |w.db.jobs| && w.db.jobs[i].status == Queued
  }

  predicate RunningAt(w: World, i: nat) {
    i < |w.db.jobs| && w.db.jobs[i].status == Running
  }

  lemma NoClaimPast(w: World, e: Event, i: nat, k: nat)
    requires Sound(w) && i < k && QueuedAt(w, i) && !RunningAt(w, k)
    ensures !RunningAt(Step(w, e), k)
  {
    hide Step;
    NewJobs(w, e);
    if k < |w.db.jobs| { StepIsLawful(w, e, k); }
  }

  /** Claims follow ids: for as long as a job waits in the queue - a resumed one included, which
      keeps its id - no job with a later id is started, whether it was there already or not. */
  lemma {:induction false} ClaimsFollowIds(w: World, events: seq<Event>, i: nat, k: nat)
    requires Sound(w) && i < k && !RunningAt(w, k)
    requires forall m :: 0 <= m <= |events| ==> QueuedAt(Run(w, events[..m]), i)
    ensures !RunningAt(Run(w, events), k)
  {
    hide Step, Sound, QueuedAt, RunningAt;
    if events != [] {
      var n := |events| - 1;
      var front := events[..n];
      forall m | 0 <= m <= n ensures QueuedAt(Run(w, front[..m]), i) {
        assert front[..m] == events[..m];
      }
      ClaimsFollowIds(w, front, i, k);
      SoundAlways(w, front);
      assert QueuedAt(Run(w, events[..n]), i);
      NoClaimPast(Run(w, front), events[n], i, k);
    }
  }

  /** Only its own resume or cancel moves a paused job, however often the process restarts. */
  lemma {:induction false} PausedJobsWait(w: World, events: seq<Event>, i: nat)
    requires Sound(w) && i < |w.db.jobs| && w.db.jobs[i].status == Paused
    requires forall k :: 0 <= k < |events| ==> events[k] != Resumes(i) && events[k] != Cancels(i)
    ensures i < |Run(w, events).db.jobs| && Run(w, events).db.jobs[i].status == Paused
  {
    if events != [] {
      var front, last := events[..|events| - 1], events[|events| - 1];
      PausedJobsWait(w, front, i);
      SoundAlways(w, front);
      StepIsLawful(Run(w, front), last, i);
    }
  }

  // ---------------------------------------------------------------- stop requests

  /** A job that reaches its outcome carries a stop request exactly when it was failed by the
      start-up recovery while one was pending; every other way to an outcome clears it. */
  lemma StopRequestAtTheEnd(w: World, e: Event, i: nat)
    requires Sound(w) && i < |w.db.jobs| && !Terminal(w.db.jobs[i].status)
    requires i < |Step(w, e).db.jobs| && Terminal(Step(w, e).db.jobs[i].status)
    ensures Step(w, e).db.jobs[i].stop.Some? <==> e.Starts? && w.db.jobs[i].stop.Some?
  {
    StepIsLawful(w, e, i);
    if e.Finishes? { FinishClears(w, i); }
  }

  lemma FinishClears(w: World, i: nat)
    requires WorkerHoldsRunning(w) && i < |w.db.jobs| && !Terminal(w.db.jobs[i].status)
    requires i < |OnFinish(w).db.jobs| && Terminal(OnFinish(w).db.jobs[i].status)
    ensures OnFinish(w).db.jobs[i].stop.None?
  {
  }

  /** A stop asked for just before a crash stays on the failed job for good. */
  lemma RecoveryKeepsStopRequest(w: World, i: nat, stop: Stop, events: seq<Event>)
    requires Sound(w) && i < |w.db.jobs|
    requires Orphan(w.db.jobs[i], w.queueMode) && w.db.jobs[i].stop == Some(stop)
    ensures var later := Run(Step(Step(w, Crashes), Starts), events);
      i < |later.db.jobs| && later.db.jobs[i].status == Error && later.db.jobs[i].stop == Some(stop)
  {
    SoundKept(w, Crashes);
    SoundKept(Step(w, Crashes), Starts);
    var up := Step(Step(w, Crashes), Starts);
    assert up.db.jobs[i] == w.db.jobs[i].(status := Error);
    OutcomesAreFinal(up, events, i);
  }

  /** Cancelling a waiting job moves its app's status exactly when the app shows `running` - and
      then, for a queued collection beside a running prefill, the status no longer tells. */
  lemma WaitingCancelMovesStatus(w: World, i: nat)
    requires i < |w.db.jobs| && (w.db.jobs[i].status == Queued || w.db.jobs[i].status == Paused)
    ensures var appid := w.db.jobs[i].appid;
      var after := Step(w, Cancels(i));
      && (after.db.apps != w.db.apps <==> appid in w.db.apps && w.db.apps[appid].status == AppRunning)
      && (after.db.apps != w.db.apps ==> after.db.apps[appid].status == AppIdle)
      && (forall k :: 0 <= k < |w.db.jobs| && k != i ==> after.db.jobs[k] == w.db.jobs[k])
  {
    var appid := w.db.jobs[i].appid;
    var after := Step(w, Cancels(i));
    if appid in w.db.apps && w.db.apps[appid].status == AppRunning {
      assert after.db.apps[appid].status == AppIdle;
    }
  }
}
