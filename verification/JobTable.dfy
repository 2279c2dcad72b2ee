/** The job-control module as it runs: transactions that read rows, decide and write rows. Each
    method is proved to have the effect its specification function in `Tables` describes. */
module JobTable {
  import opened Options
  import opened Tables

  lemma OrphansSoFar(jobs: seq<Job>, i: nat, appid: nat, queueMode: bool)
    requires i < |jobs|
    ensures OrphanOf(jobs[..i + 1], appid, queueMode)
       <==> OrphanOf(jobs[..i], appid, queueMode) || (jobs[i].appid == appid && Orphan(jobs[i], queueMode))
  {
    if k :| 0 <= k < i + 1 && jobs[k].appid == appid && Orphan(jobs[k], queueMode) {
      assert jobs[..i + 1][k] == jobs[k];
      if k < i { assert jobs[..i][k] == jobs[k]; }
    }
    if OrphanOf(jobs[..i], appid, queueMode) {
      var k :| 0 <= k < i && jobs[..i][k].appid == appid && Orphan(jobs[..i][k], queueMode);
      assert jobs[..i + 1][k] == jobs[k];
    }
    if jobs[i].appid == appid && Orphan(jobs[i], queueMode) {
      assert jobs[..i + 1][i] == jobs[i];
    }
  }

  // ---------------------------------------------------------------- the recovery pass

  function JobsSoFar(jobs: seq<Job>, i: nat, queueMode: bool): seq<Job> {
    seq(|jobs|, k requires 0 <= k < |jobs| => if k < i then Recovered(jobs[k], queueMode) else jobs[k])
  }

  function AppAfterRecovery(app: App, jobs: seq<Job>, appid: nat, queueMode: bool): App {
    if app.status == AppRunning && OrphanOf(jobs, appid, queueMode) then app.(status := AppError) else app
  }

  function AppsSoFar(apps: map<nat, App>, seen: seq<Job>, queueMode: bool): map<nat, App> {
    map a | a in apps :: AppAfterRecovery(apps[a], seen, a, queueMode)
  }

  lemma RecoveryStarts(db: Db, queueMode: bool)
    ensures JobsSoFar(db.jobs, 0, queueMode) == db.jobs
    ensures AppsSoFar(db.apps, db.jobs[..0], queueMode) == db.apps
  {
  }

  lemma RecoveryOfJob(jobs: seq<Job>, i: nat, queueMode: bool)
    requires i < |jobs|
    ensures var (was, job) := (JobsSoFar(jobs, i, queueMode), jobs[i]);
      && |was| == |jobs|
      && JobsSoFar(jobs, i + 1, queueMode) == (if Orphan(job, queueMode) then was[i := job.(status := Error)] else was)
    ensures Orphan(jobs[i], queueMode) <==>
      jobs[i].status == Running && !(queueMode && jobs[i].kind == Prefill && jobs[i].run.useForce.Some?)
  {
  }

  lemma RecoveryOfApps(apps: map<nat, App>, jobs: seq<Job>, i: nat, queueMode: bool)
    requires i < |jobs|
    ensures var (was, job) := (AppsSoFar(apps, jobs[..i], queueMode), jobs[i]);
      AppsSoFar(apps, jobs[..i + 1], queueMode)
        == if Orphan(job, queueMode) && job.appid in was && was[job.appid].status == AppRunning
           then was[job.appid := was[job.appid].(status := AppError)] else was
  {
    hide OrphanOf, Orphan;
    forall a | a in apps
      ensures OrphanOf(jobs[..i + 1], a, queueMode)
         <==> OrphanOf(jobs[..i], a, queueMode) || (jobs[i].appid == a && Orphan(jobs[i], queueMode))
    {
      OrphansSoFar(jobs, i, a, queueMode);
    }
  }

  lemma RecoveryEnds(db: Db, queueMode: bool)
    ensures Tables.RecoverStaleJobs(db, queueMode)
         == Db(AppsSoFar(db.apps, db.jobs[..|db.jobs|], queueMode), db.rows, JobsSoFar(db.jobs, |db.jobs|, queueMode))
  {
    hide OrphanOf, Orphan;
    assert db.jobs[..|db.jobs|] == db.jobs;
    var after := Tables.RecoverStaleJobs(db, queueMode);
    assert after.jobs == JobsSoFar(db.jobs, |db.jobs|, queueMode);
    assert after.apps == AppsSoFar(db.apps, db.jobs, queueMode);
  }

  /** Some other job than `id` is in flight for the app. */
  predicate ActiveBeside(jobs: seq<Job>, id: nat, appid: nat) {
    exists k :: 0 <= k < |jobs| && k != id && jobs[k].appid == appid && Active(jobs[k].status)
  }

  lemma EndedCountsNoMore(was: seq<Job>, now: seq<Job>, id: nat, appid: nat)
    requires id < |was| == |now| && Terminal(now[id].status)
    requires forall k :: 0 <= k < |was| && k != id ==> now[k] == was[k]
    ensures HasActiveJob(now, appid) <==> ActiveBeside(was, id, appid)
  {
    if ActiveBeside(was, id, appid) {
      var k :| 0 <= k < |was| && k != id && was[k].appid == appid && Active(was[k].status);
      assert now[k] == was[k];
    }
  }

  class JobTable {
    var db: Db

    constructor (db: Db)
      ensures this.db == db
    {
      this.db := db;
    }

    method EnqueuePrefill(appid: nat) returns (id: nat, created: bool)
      modifies this
      ensures (db, id) == Tables.EnqueuePrefill(old(db), appid)
      ensures created <==> |db.jobs| > |old(db).jobs|
      ensures InFlight(db.jobs[id], appid, Prefill)
    {
      if appid !in db.apps {
        db := db.(apps := db.apps[appid := FreshApp]);
      }
      var existing := Oldest(db.jobs, (j: Job) => InFlight(j, appid, Prefill));
      if existing.Some? {
        return existing.value, false;
      }
      id, created := |db.jobs|, true;
      db := db.(jobs := db.jobs + [NewJob(appid, Prefill)]);
    }

    method EnqueueGc(appid: nat, execute: bool) returns (id: nat, created: bool)
      modifies this
      ensures (db, id) == Tables.EnqueueGc(old(db), appid, execute)
      ensures created <==> |db.jobs| > |old(db).jobs|
      ensures InFlight(db.jobs[id], appid, Gc(execute))
    {
      var existing := Oldest(db.jobs, (j: Job) => InFlight(j, appid, Gc(execute)));
      if existing.Some? {
        return existing.value, false;
      }
      id, created := |db.jobs|, true;
      db := db.(jobs := db.jobs + [NewJob(appid, Gc(execute))]);
    }

    method ClaimNextJob(now: nat) returns (claimed: Option<nat>)
      modifies this
      ensures (db, claimed) == Tables.ClaimNextJob(old(db), now)
      ensures claimed.Some? ==> claimed.value < |db.jobs| && old(db).jobs[claimed.value].status == Queued
      ensures claimed.Some? ==> forall i :: 0 <= i < claimed.value ==> old(db).jobs[i].status != Queued
      ensures claimed.None? ==> forall i :: 0 <= i < |old(db).jobs| ==> old(db).jobs[i].status != Queued
    {
      claimed := Oldest(db.jobs, (j: Job) => j.status == Queued);
      if claimed.Some? {
        var job := db.jobs[claimed.value];
        db := db.(jobs := db.jobs[claimed.value := job.(status := Running, startedAt := Some(now))]);
      }
    }

    method FinishJob(id: nat, status: JobStatus)
      requires id < |db.jobs|
      modifies this
      ensures db == Tables.FinishJob(old(db), id, status)
      ensures |db.jobs| == |old(db).jobs| && db.jobs[id].stop.None? && db.jobs[id].run == old(db).jobs[id].run
      ensures forall k :: 0 <= k < |db.jobs| && k != id ==> db.jobs[k] == old(db).jobs[k]
      ensures Terminal(status) ==> forall a :: HasActiveJob(db.jobs, a) <==> ActiveBeside(old(db).jobs, id, a)
    {
      ghost var was := db.jobs;
      db := db.(jobs := db.jobs[id := db.jobs[id].(status := status, stop := None)]);
      if Terminal(status) {
        forall a ensures HasActiveJob(db.jobs, a) <==> ActiveBeside(was, id, a) {
          EndedCountsNoMore(was, db.jobs, id, a);
        }
      }
    }

    method CancelJob(id: nat) returns (outcome: ControlOutcome)
      modifies this
      ensures (db, outcome) == Tables.CancelJob(old(db), id)
      ensures outcome == Unknown <==> id >= |old(db).jobs|
      ensures outcome == Conflict <==> id < |old(db).jobs| && Terminal(old(db).jobs[id].status)
      ensures outcome == Requested <==> id < |old(db).jobs| && old(db).jobs[id].status == Running
      ensures outcome != Immediate && outcome != Requested ==> db == old(db)
      ensures outcome == Immediate ==> db.jobs[id].status == Cancelled
      ensures outcome == Requested ==> db.jobs[id].stop == Some(StopCancel) && db.apps == old(db).apps
    {
      if id >= |db.jobs| {
        return Unknown;
      }
      var job := db.jobs[id];
      if Terminal(job.status) {
        return Conflict;
      }
      if job.status == Queued || job.status == Paused {
        db := db.(jobs := db.jobs[id := job.(status := Cancelled, stop := None)]);
        if job.appid in db.apps && db.apps[job.appid].status == AppRunning {
          db := db.(apps := db.apps[job.appid := db.apps[job.appid].(status := AppIdle)]);
        }
        return Immediate;
      }
      db := db.(jobs := db.jobs[id := job.(stop := Some(StopCancel))]);
      outcome := Requested;
    }

    method RequestPause(id: nat) returns (outcome: ControlOutcome)
      modifies this
      ensures (db, outcome) == Tables.RequestPause(old(db), id)
      ensures outcome == Unknown <==> id >= |old(db).jobs|
      ensures outcome == Requested <==>
        id < |old(db).jobs| && old(db).jobs[id].status == Running && old(db).jobs[id].kind.Prefill?
      ensures outcome == Requested ==> db.jobs[id].stop == Some(StopPause) && db.apps == old(db).apps
      ensures outcome != Requested ==> db == old(db)
    {
      if id >= |db.jobs| {
        return Unknown;
      }
      var job := db.jobs[id];
      if job.kind != Prefill {
        return Conflict;
      }
      if job.status != Running {
        return Conflict;
      }
      db := db.(jobs := db.jobs[id := job.(stop := Some(StopPause))]);
      outcome := Requested;
    }

    method ResumeJob(id: nat) returns (outcome: ControlOutcome)
      modifies this
      ensures (db, outcome) == Tables.ResumeJob(old(db), id)
      ensures outcome == Unknown <==> id >= |old(db).jobs|
      ensures outcome == Resumed <==> id < |old(db).jobs| && old(db).jobs[id].status == Paused
      ensures outcome == Resumed ==> db.jobs[id].status == Queued && |db.jobs| == |old(db).jobs|
      ensures outcome != Resumed ==> db == old(db)
    {
      if id >= |db.jobs| {
        return Unknown;
      }
      if db.jobs[id].status != Paused {
        return Conflict;
      }
      db := db.(jobs := db.jobs[id := db.jobs[id].(status := Queued, stop := None)]);
      outcome := Resumed;
    }

    /** The start-up recovery: one pass over the rows a dead process left `running`. */
    method RecoverStaleJobs(queueMode: bool) returns (recovered: nat)
      modifies this
      ensures db == Tables.RecoverStaleJobs(old(db), queueMode)
      ensures recovered == 0 <==> forall i :: 0 <= i < |old(db).jobs| ==> !Orphan(old(db).jobs[i], queueMode)
    {
      hide *;
      var jobs := db.jobs;
      ghost var apps := db.apps;
      recovered := 0;
      RecoveryStarts(db, queueMode);
      for i := 0 to |jobs|
        invariant db.rows == old(db).rows
        invariant db.jobs == JobsSoFar(jobs, i, queueMode)
        invariant db.apps == AppsSoFar(apps, jobs[..i], queueMode)
        invariant recovered == 0 <==> forall k :: 0 <= k < i ==> !Orphan(jobs[k], queueMode)
      {
        var job := jobs[i];
        RecoveryOfJob(jobs, i, queueMode);
        RecoveryOfApps(apps, jobs, i, queueMode);
        if job.status != Running || (queueMode && job.kind == Prefill && job.run.useForce.Some?) {
          continue;
        }
        db := db.(jobs := db.jobs[i := job.(status := Error)]);
        if job.appid in db.apps && db.apps[job.appid].status == AppRunning {
          db := db.(apps := db.apps[job.appid := db.apps[job.appid].(status := AppError)]);
        }
        recovered := recovered + 1;
      }
      RecoveryEnds(old(db), queueMode);
    }

    method HandoffRun(id: nat, useForce: bool)
      requires id < |db.jobs|
      modifies this
      ensures db == Tables.HandoffRun(old(db), id, useForce)
      ensures |db.jobs| == |old(db).jobs| && forall k :: 0 <= k < |db.jobs| && k != id ==> db.jobs[k] == old(db).jobs[k]
      ensures old(db).jobs[id].status == Running && old(db).jobs[id].kind == Prefill ==>
        AwaitsRunner(db.jobs[id]) && Reattachable(db.jobs[id])
      ensures LastSign(db.jobs[id]) == old(db).jobs[id].startedAt && forall runner :: !HeldBy(db.jobs[id], runner)
    {
      db := db.(jobs := db.jobs[id := db.jobs[id].(run := Handoff(Some(useForce), None, None, None, None))]);
    }

    method ClaimRun(runner: nat, now: nat) returns (claimed: Option<nat>)
      modifies this
      ensures (db, claimed) == Tables.ClaimRun(old(db), runner, now)
      ensures claimed.Some? ==> claimed.value < |db.jobs| && HeldBy(db.jobs[claimed.value], runner)
      ensures claimed.Some? ==> old(db).jobs[claimed.value].run.claimedBy.None?
    {
      claimed := Oldest(db.jobs, (j: Job) => AwaitsRunner(j));
      if claimed.Some? {
        var job := db.jobs[claimed.value];
        var run := job.run.(claimedBy := Some(runner), claimedAt := Some(now), heartbeatAt := Some(now));
        db := db.(jobs := db.jobs[claimed.value := job.(run := run)]);
      }
    }

    /** Replace-semantics of a finished prefill: afterwards the app's integer rows are exactly the
        observed depots and no other row has moved. An empty observation changes nothing, and so
        does a mapped depot that cannot be read as an integer, which raises. */
    method ApplyObservedMapping(appid: nat, observed: set<nat>) returns (raised: bool)
      modifies this
      ensures raised <==> observed != {} && MappingUnreadable(old(db), appid)
      ensures raised || observed == {} ==> db == old(db)
      ensures !raised && observed != {} ==> forall r ::
        r in db.rows <==> if r.owner == Number(appid) && r.depot.Number? then ObservedRow(r, observed) else r in old(db).rows
      ensures db.jobs == old(db).jobs
      ensures db.apps == if raised || observed == {} then old(db).apps else EnsureApp(old(db).apps, appid)
    {
      raised := false;
      if observed == {} {
        return;
      }
      if MappingUnreadable(db, appid) {
        return true;
      }
      var todo := set r | r in db.rows && StaleRow(r, appid, observed);
      while todo != {}
        invariant db.jobs == old(db).jobs && db.apps == old(db).apps
        invariant forall r :: r in todo ==> r in db.rows && StaleRow(r, appid, observed)
        invariant forall r :: r in old(db).rows ==> (r in db.rows <==> !StaleRow(r, appid, observed) || r in todo)
        invariant db.rows <= old(db).rows
        decreases |todo|
      {
        var r :| r in todo;
        todo := todo - {r};
        db := db.(rows := db.rows - {r});
      }
      var rest := observed;
      while rest != {}
        invariant rest <= observed && db.jobs == old(db).jobs
        invariant forall r: Row :: r.owner != Number(appid) || r.depot.Text? ==> (r in db.rows <==> r in old(db).rows)
        invariant forall r: Row :: r.owner == Number(appid) && r.depot.Number? && r in db.rows ==> ObservedRow(r, observed)
        invariant forall d :: d in observed - rest ==> Row(Number(d), Number(appid)) in db.rows
        invariant db.apps == if rest == observed then old(db).apps else EnsureApp(old(db).apps, appid)
        decreases |rest|
      {
        var d :| d in rest;
        rest := rest - {d};
        db := UpsertMapping(db, d, appid);
      }
    }
  }
}
