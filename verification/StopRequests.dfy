/** What becomes of a request to cancel or pause a running job, over every run. */
module StopRequests {
  import opened JobLaws
  import opened Lifecycle
  import opened Options
  import opened Tables

  /** The stop column of a job after a step that leaves it with status `now`: set only by a cancel
      or pause of the running job, carried through a claim and a restart, cleared on every other
      change of status. */
  function StopAfter(was: Job, e: Event, i: nat, now: JobStatus): Option<Stop> {
    if now == was.status then
      if was.status == Running && e == Cancels(i) then Some(StopCancel)
      else if was.status == Running && e == Pauses(i) && was.kind.Prefill? then Some(StopPause)
      else was.stop
    else if e.Polls? || e.Starts? then was.stop
    else None
  }

  ghost predicate StopLaw(w: World, e: Event, i: nat, now: Job)
    requires i < |w.db.jobs|
  {
    now.stop == StopAfter(w.db.jobs[i], e, i, now.status)
  }

  lemma RequestFollowsStopLaw(w: World, e: Event, i: nat)
    requires i < |w.db.jobs| && ActorOf(e).Api?
    ensures i < |OnRequest(w, e).db.jobs| && StopLaw(w, e, i, OnRequest(w, e).db.jobs[i])
  {
  }

  lemma OutsideFollowsStopLaw(w: World, e: Event, i: nat)
    requires i < |w.db.jobs| && ActorOf(e).Outside?
    ensures i < |OnOutside(w, e).db.jobs| && StopLaw(w, e, i, OnOutside(w, e).db.jobs[i])
  {
  }

  lemma FinishFollowsStopLaw(w: World, i: nat)
    requires WorkerHoldsRunning(w) && i < |w.db.jobs|
    ensures i < |OnFinish(w).db.jobs| && StopLaw(w, Finishes, i, OnFinish(w).db.jobs[i])
  {
  }

  lemma WorkFollowsStopLaw(w: World, e: Event, i: nat)
    requires WorkerHoldsRunning(w) && i < |w.db.jobs| && ActorOf(e).Thread?
    ensures i < |OnWorker(w, e).db.jobs| && StopLaw(w, e, i, OnWorker(w, e).db.jobs[i])
  {
    if !WritesJobs(e) {
      OtherWorkKeepsJobs(w, e);
    } else if e.Finishes? {
      FinishFollowsStopLaw(w, i);
    }
  }

  lemma StepFollowsStopLaw(w: World, e: Event, i: nat)
    requires WorkerHoldsRunning(w) && i < |w.db.jobs|
    ensures i < |Step(w, e).db.jobs| && StopLaw(w, e, i, Step(w, e).db.jobs[i])
  {
    match ActorOf(e)
    case Api => RequestFollowsStopLaw(w, e, i);
    case Deleter => DeleteIsLawful(w, e);
    case Thread => WorkFollowsStopLaw(w, e, i);
    case Outside => OutsideFollowsStopLaw(w, e, i);
  }

  // ---------------------------------------------------------------- over runs

  /** Only a running job, or one the start-up recovery failed, has a stop request. */
  ghost predicate StopsBelongToRuns(w: World) {
    forall i :: 0 <= i < |w.db.jobs| && w.db.jobs[i].stop.Some? ==>
      w.db.jobs[i].status == Running || w.db.jobs[i].status == Error
  }

  lemma StopsStay(w: World, e: Event)
    requires Sound(w) && StopsBelongToRuns(w)
    ensures StopsBelongToRuns(Step(w, e))
  {
    hide Step, Lawful, StopLaw, Sound;
    assert WorkerHoldsRunning(w) by { SoundHolds(w); }
    var jobs := Step(w, e).db.jobs;
    NewJobs(w, e);
    forall i: nat | i < |jobs| && jobs[i].stop.Some? ensures jobs[i].status == Running || jobs[i].status == Error {
      if i < |w.db.jobs| {
        StepIsLawful(w, e, i);
        StepFollowsStopLaw(w, e, i);
        StopByLaws(w, e, i, jobs[i]);
      }
    }
  }

  lemma SoundHolds(w: World)
    requires Sound(w)
    ensures WorkerHoldsRunning(w)
  {
  }

  lemma StopByLaws(w: World, e: Event, i: nat, now: Job)
    requires i < |w.db.jobs| && StopsBelongToRuns(w) && Lawful(w, e, i, now) && StopLaw(w, e, i, now) && now.stop.Some?
    ensures now.status == Running || now.status == Error
  {
  }

  /** In every reachable state a job that waits, a paused one included, has no stop request: it is
      claimed with a clean slate. */
  lemma {:induction false} WaitingJobsHaveNoStop(w: World, events: seq<Event>)
    requires Sound(w) && StopsBelongToRuns(w)
    ensures StopsBelongToRuns(Run(w, events))
  {
    hide Step, Sound, StopsBelongToRuns;
    if events != [] {
      var front := events[..|events| - 1];
      WaitingJobsHaveNoStop(w, front);
      SoundAlways(w, front);
      StopsStay(Run(w, front), events[|events| - 1]);
    }
  }

  lemma NoStopsAtFirst(w: World, events: seq<Event>)
    requires Initial(w)
    ensures StopsBelongToRuns(Run(w, events))
  {
    WaitingJobsHaveNoStop(w, events);
  }

  /** The last cancel or pause of job `i` among the events; collections cannot be paused. */
  function LastAsked(events: seq<Event>, i: nat, prefill: bool): Option<Stop> {
    if events == [] then None
    else
      var last := events[|events| - 1];
      if last == Cancels(i) then Some(StopCancel)
      else if last == Pauses(i) && prefill then Some(StopPause)
      else LastAsked(events[..|events| - 1], i, prefill)
  }

  predicate RunningIn(w: World, i: nat) {
    i < |w.db.jobs| && w.db.jobs[i].status == Running
  }

  /** As long as a job keeps running, what is pending for it is exactly the last request made since
      it was claimed: none is forgotten, and a later one replaces an earlier one. */
  lemma {:induction false} PendingIsLastAsked(w: World, events: seq<Event>, i: nat)
    requires Sound(w) && RunningIn(w, i) && w.db.jobs[i].stop.None?
    requires forall k :: 0 <= k <= |events| ==> RunningIn(Run(w, events[..k]), i)
    ensures i < |Run(w, events).db.jobs| && Run(w, events).db.jobs[i].kind == w.db.jobs[i].kind
    ensures Run(w, events).db.jobs[i].stop == LastAsked(events, i, w.db.jobs[i].kind.Prefill?)
  {
    hide Step, Sound, Lawful;
    assert events[..|events|] == events;
    if events != [] {
      var n := |events| - 1;
      var front := events[..n];
      forall k | 0 <= k <= n ensures RunningIn(Run(w, front[..k]), i) {
        assert front[..k] == events[..k];
      }
      PendingIsLastAsked(w, front, i);
      SoundAlways(w, front);
      SoundHolds(Run(w, front));
      StepFollowsStopLaw(Run(w, front), events[n], i);
      StepKeepsKind(Run(w, front), events[n], i);
      assert RunningIn(Run(w, front[..n]), i);
    }
  }

  lemma StepKeepsKind(w: World, e: Event, i: nat)
    requires WorkerHoldsRunning(w) && i < |w.db.jobs|
    ensures i < |Step(w, e).db.jobs| && Step(w, e).db.jobs[i].kind == w.db.jobs[i].kind
  {
    hide Step;
    StepIsLawful(w, e, i);
  }
}
