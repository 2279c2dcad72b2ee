/** Which recheck stands behind every removed depot directory, in every interleaving. */
module Removals {
  import opened CacheDelete
  import opened Deletion
  import opened Lifecycle
  import opened Options
  import opened Tables

  /** Every other claim on the depot is readable and belongs to a tracked app that is idle, was
      never filled or was reset since, and has no queued, running or paused job. */
  ghost predicate NobodyElseHasContent(db: Db, appid: nat, depot: nat) {
    forall r :: r in db.rows && OtherClaim(r, appid, depot) ==>
      match CoercePositiveId(r.owner)
      case None => false
      case Some(owner) =>
        && owner in db.apps
        && db.apps[owner].status == AppIdle
        && db.apps[owner].lastPrefill == None
        && !HasActiveJob(db.jobs, owner)
  }

  predicate AwaitsRemoval(w: World, req: nat, appid: nat, depot: nat) {
    && req in w.requests && w.requests[req].Rechecked?
    && w.requests[req].appid == appid && w.requests[req].depot == depot
  }

  /** Step `k` of the run is the recheck on which the pending removal rests: the database
      answered, nobody else had content, and the request has been waiting to remove ever since. */
  ghost predicate RestsOn(w: World, events: seq<Event>, k: nat, req: nat, appid: nat, depot: nat)
    requires k < |events|
  {
    && events[k] == Rechecks(req, depot, true)
    && NobodyElseHasContent(Run(w, events[..k]).db, appid, depot)
    && (forall m :: k < m <= |events| ==> AwaitsRemoval(Run(w, events[..m]), req, appid, depot))
  }

  lemma WorkKeepsDisk(w: World, e: Event)
    ensures OnWorker(w, e).disk == w.disk && OnWorker(w, e).requests == w.requests
  {
    hide SetAppStatus, ClearNeedsForceIfUnchanged, ClaimNextJob, FinishJob, ParkPaused, HandoffRun, UpsertMapping, SetNeedsForce,
      ResetIfRunning, MappingUnreadable, StaleDepots, RunIsStale, FindActiveRun, NeedsForce, JobApp, Terminal;
  }

  /** Only a request that passed its recheck takes a directory away, in its own next phase. */
  lemma OnlyRemovalsRemove(w: World, e: Event, depot: nat)
    requires depot in w.disk && depot !in Step(w, e).disk
    ensures e.Removes? && e.removable && e.req in w.requests
    ensures w.requests[e.req].Rechecked? && w.requests[e.req].depot == depot
  {
    match ActorOf(e) {
      case Api =>
      case Deleter =>
      case Outside =>
      case Thread => WorkKeepsDisk(w, e);
    }
  }

  lemma RecheckPrecedes(w: World, e: Event, req: nat, appid: nat, depot: nat)
    requires AwaitsRemoval(Step(w, e), req, appid, depot) && !AwaitsRemoval(w, req, appid, depot)
    ensures e == Rechecks(req, depot, true) && NobodyElseHasContent(w.db, appid, depot)
  {
    match ActorOf(e) {
      case Api =>
      case Deleter => assert !Protected(w.db, appid, depot);
      case Outside =>
      case Thread => WorkKeepsDisk(w, e);
    }
  }

  lemma {:induction false} EveryRemovalRestsOnARecheck(w: World, events: seq<Event>, req: nat, appid: nat, depot: nat)
    returns (k: nat)
    requires w.requests == map[] && AwaitsRemoval(Run(w, events), req, appid, depot)
    ensures k < |events| && RestsOn(w, events, k, req, appid, depot)
  {
    var n := |events| - 1;
    var front := events[..n];
    assert events == front + [events[n]];
    if AwaitsRemoval(Run(w, front), req, appid, depot) {
      k := EveryRemovalRestsOnARecheck(w, front, req, appid, depot);
      assert front[..k] == events[..k];
      forall m | k < m <= n + 1 ensures AwaitsRemoval(Run(w, events[..m]), req, appid, depot) {
        if m <= n { assert front[..m] == events[..m]; } else { assert events[..m] == events; }
      }
    } else {
      RecheckPrecedes(Run(w, front), events[n], req, appid, depot);
      k := n;
      assert events[..n + 1] == events;
    }
  }

  /** Shared content in use is not removed: in every run, a depot directory disappears only by
      the removal phase of a DELETE whose own recheck, earlier in the same run, found every other
      owner of the depot readable, tracked, idle, unfilled and free of jobs. */
  lemma RemovedOnlyAfterRecheck(w: World, events: seq<Event>, e: Event, depot: nat) returns (k: nat, req: nat, appid: nat)
    requires w.requests == map[]
    requires depot in Run(w, events).disk && depot !in Step(Run(w, events), e).disk
    ensures e == Removes(req, true) && k < |events| && RestsOn(w, events, k, req, appid, depot)
  {
    OnlyRemovalsRemove(Run(w, events), e, depot);
    req := e.req;
    appid := Run(w, events).requests[req].appid;
    k := EveryRemovalRestsOnARecheck(w, events, req, appid, depot);
  }

  /** An unreadable claim protects a depot from every request but its own owner's, always. */
  lemma UnreadableOwnerProtects(w: World, req: nat, depot: nat, answered: bool, r: Row, appid: nat)
    requires r in w.db.rows && OtherClaim(r, appid, depot) && CoercePositiveId(r.owner).None?
    requires req in w.requests && w.requests[req].Removing? && w.requests[req].appid == appid
    ensures !AwaitsRemoval(Step(w, Rechecks(req, depot, answered)), req, appid, depot)
  {
    assert OwnerHasContent(w.db, r.owner);
  }

  /** The recheck is as far as it goes: between it and the removal nothing is held, and a prefill
      requested for a co-owner in that moment does not stop the directory from going away. */
  lemma WindowAfterTheRecheck(w: World, req: nat, coOwner: nat)
    requires req in w.requests && w.requests[req].Rechecked? && w.requests[req].depot in w.disk
    ensures var requested := Step(w, Prefills(coOwner));
      && HasContent(requested.db, coOwner)
      && w.requests[req].depot !in Step(requested, Removes(req, true)).disk
  {
    var (db, id) := EnqueuePrefill(w.db, coOwner);
    assert Active(db.jobs[id].status) && db.jobs[id].appid == coOwner;
  }

  // ---------------------------------------------------------------- phases run alone

  /** The plan of a request releases exactly the depots that nobody else protected while it
      read the tables. */
  lemma PlannedCandidates(db: Db, appid: nat)
    requires appid > 0
    ensures var rows := LoadMappingRows(db, appid);
      Candidates(rows, appid, LoadCoOwnerStates(db, OtherOwnerIds(rows, appid))) == Releasable(db, appid)
  {
    var rows := LoadMappingRows(db, appid);
    var states := LoadCoOwnerStates(db, OtherOwnerIds(rows, appid));
    forall d: nat ensures d in Candidates(rows, appid, states) <==> d in Releasable(db, appid) {
      ReleasableIs(db, appid, d);
      if d > 0 { PlanAgreesWithRecheck(db, appid, d); }
      if d in Releasable(db, appid) {
        var r := Row(Number(d), Number(appid));
        assert r in rows && CoercePositiveId(r.depot) == Some(d);
      }
    }
  }
}
