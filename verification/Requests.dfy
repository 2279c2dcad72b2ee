/** What the requests, the worker's poll and a start leave in the tables, written out row by row, and how
    ids are read from them. */
module Requests {
  import opened CacheDelete
  import opened Deletion
  import opened Digits
  import opened Lifecycle
  import opened Options
  import opened Tables

  // ---------------------------------------------------------------- ids in columns

  /** A stored id is usable when it is a positive number, or a text of digits that spells one. */
  lemma IdExactlyWhen(raw: RawId, n: nat)
    ensures CoercePositiveId(raw) == Some(n) <==>
      n > 0 && if raw.Number? then raw.n == n else Spells(raw.s, n)
  {
    if raw.Text? { SpellsIsRead(raw.s, n); }
    hide Spells, AllDigits, DigitsValue;
  }

  // ---------------------------------------------------------------- the queue

  /** The job is queued, running or paused. */
  predicate Open(job: Job) {
    job.status in {Queued, Running, Paused}
  }

  predicate Asks(job: Job, appid: nat, kind: JobKind) {
    job.appid == appid && job.kind == kind && Open(job)
  }

  /** A prefill request: an app nobody knew is idle, was never filled and must be filled by force;
      one job waits at the end of the queue unless the app has an open prefill already. */
  lemma PrefillMeans(w: World, appid: nat)
    ensures var now := Step(w, Prefills(appid));
      && now == w.(db := now.db) && now.db.rows == w.db.rows
      && now.db.apps == (if appid in w.db.apps then w.db.apps else w.db.apps[appid := App(AppIdle, None, true)])
      && now.db.jobs == (if exists i :: 0 <= i < |w.db.jobs| && Asks(w.db.jobs[i], appid, Prefill) then w.db.jobs
                         else w.db.jobs + [Job(appid, Prefill, Queued, None, None, NoHandoff)])
  {
    OneOrNone(w.db.jobs, appid, Prefill);
  }

  /** A collection request: likewise per app and mode, without an app row. */
  lemma CollectMeans(w: World, appid: nat, execute: bool)
    ensures var now := Step(w, Collects(appid, execute));
      now == w.(db := w.db.(jobs :=
        if exists i :: 0 <= i < |w.db.jobs| && Asks(w.db.jobs[i], appid, Gc(execute)) then w.db.jobs
        else w.db.jobs + [Job(appid, Gc(execute), Queued, None, None, NoHandoff)]))
  {
    OneOrNone(w.db.jobs, appid, Gc(execute));
  }

  lemma OneOrNone(jobs: seq<Job>, appid: nat, kind: JobKind)
    ensures Oldest(jobs, (j: Job) => InFlight(j, appid, kind)).Some? <==> exists i :: 0 <= i < |jobs| && Asks(jobs[i], appid, kind)
  {
    var existing := Oldest(jobs, (j: Job) => InFlight(j, appid, kind));
    hide Oldest;
    if existing.Some? { assert Asks(jobs[existing.value], appid, kind); }
    if i :| 0 <= i < |jobs| && Asks(jobs[i], appid, kind) { assert InFlight(jobs[i], appid, kind); }
  }

  /** A cancel: nothing for an unknown or ended job; a stop request for a running one, which goes on;
      a waiting one is cancelled at once, and its app, if it shows running, is idle. */
  lemma CancelMeans(w: World, i: nat)
    ensures var now := Step(w, Cancels(i)).db;
      if i >= |w.db.jobs| || !Open(w.db.jobs[i]) then now == w.db
      else if w.db.jobs[i].status == Running then now == w.db.(jobs := w.db.jobs[i := w.db.jobs[i].(stop := Some(StopCancel))])
      else
        var a := w.db.jobs[i].appid;
        && now.rows == w.db.rows && now.jobs == w.db.jobs[i := w.db.jobs[i].(status := Cancelled, stop := None)]
        && now.apps == if a in w.db.apps && w.db.apps[a].status == AppRunning then w.db.apps[a := w.db.apps[a].(status := AppIdle)]
                       else w.db.apps
  {
  }

  /** A pause is a stop request for a running prefill, a resume puts a paused job back; nothing else. */
  lemma PauseAndResumeMean(w: World, i: nat)
    ensures Step(w, Pauses(i)).db
         == if i < |w.db.jobs| && w.db.jobs[i].status == Running && w.db.jobs[i].kind == Prefill
            then w.db.(jobs := w.db.jobs[i := w.db.jobs[i].(stop := Some(StopPause))]) else w.db
    ensures Step(w, Resumes(i)).db
         == if i < |w.db.jobs| && w.db.jobs[i].status == Paused
            then w.db.(jobs := w.db.jobs[i := w.db.jobs[i].(status := Queued, stop := None)]) else w.db
  {
  }

  /** A mapping row is written as depot and app, with an app row beside it, and taken away alone. */
  lemma MappingMeans(w: World, depot: nat, appid: nat, r: Row)
    ensures var (put, dropped) := (Step(w, PutsMapping(depot, appid)).db, Step(w, DropsMapping(depot, appid)).db);
      var written := r.depot == Number(depot) && r.owner == Number(appid);
      && (r in put.rows <==> r in w.db.rows || written)
      && (r in dropped.rows <==> r in w.db.rows && !written)
      && put.apps == (if appid in w.db.apps then w.db.apps else w.db.apps[appid := App(AppIdle, None, true)])
      && put.jobs == w.db.jobs && dropped == w.db.(rows := dropped.rows)
  {
  }

  /** A poll of the free worker takes the first queued job: it runs from now on, and nothing else in
      the tables moves. */
  lemma PollMeans(w: World, i: nat)
    requires w.worker.Idle? && (w.queueMode ==> FindActiveRun(w.db).None?)
    requires i < |w.db.jobs| && w.db.jobs[i].status == Queued && forall k :: 0 <= k < i ==> w.db.jobs[k].status != Queued
    ensures Step(w, Polls) == w.(db := w.db.(jobs := w.db.jobs[i := w.db.jobs[i].(status := Running, startedAt := Some(w.clock))]),
                                 worker := if w.db.jobs[i].kind.Prefill? then Claimed(i) else Collecting(i))
  {
    var next := NextQueued(w.db.jobs);
    hide Oldest, FindActiveRun;
    assert next == Some(i);
  }

  /** The claimed job's app shows running from then on; when it was filled and its flag stay. */
  lemma MarkMeans(w: World)
    requires w.worker.Claimed?
    ensures var (now, a) := (Step(w, MarksRunning), JobApp(w.db, w.worker.job));
      && now.db.rows == w.db.rows && now.db.jobs == w.db.jobs && now.worker == Marked(w.worker.job)
      && now.db.apps == w.db.apps[a := if a in w.db.apps then w.db.apps[a].(status := AppRunning) else App(AppRunning, None, true)]
  {
  }

  /** The run is forced exactly when the app's flag is up or the app has no row. */
  lemma ReadMeans(w: World)
    requires w.worker.Marked?
    ensures var a := JobApp(w.db, w.worker.job);
      Step(w, ReadsFlag) == w.(worker := Started(w.worker.job, a in w.db.apps ==> w.db.apps[a].needsForce))
  {
  }

  /** A start of the process: every running job it can have left behind - in queue mode not those
      handed off - has failed, and so has every app that shows running because of one. */
  lemma StartMeans(w: World)
    requires w.worker.Down?
    ensures var now := Step(w, Starts);
      && now == w.(db := now.db, worker := Idle) && now.db.rows == w.db.rows
      && |now.db.jobs| == |w.db.jobs| && now.db.apps.Keys == w.db.apps.Keys
      && (forall i :: 0 <= i < |w.db.jobs| ==>
            now.db.jobs[i] == if LeftBehind(w.db.jobs[i], w.queueMode) then w.db.jobs[i].(status := Error) else w.db.jobs[i])
      && (forall a :: a in w.db.apps ==>
            now.db.apps[a] == if w.db.apps[a].status == AppRunning && HasLeftBehind(w.db.jobs, a, w.queueMode)
                              then w.db.apps[a].(status := AppError) else w.db.apps[a])
  {
    forall job: Job ensures Orphan(job, w.queueMode) <==> LeftBehind(job, w.queueMode) {
    }
    hide Orphan, LeftBehind;
  }

  predicate LeftBehind(job: Job, queueMode: bool) {
    job.status == Running && (!queueMode || job.kind != Prefill || job.run.useForce.None?)
  }

  predicate HasLeftBehind(jobs: seq<Job>, appid: nat, queueMode: bool) {
    exists i :: 0 <= i < |jobs| && jobs[i].appid == appid && LeftBehind(jobs[i], queueMode)
  }

  /** Time passes and files arrive without touching the tables; a death leaves tables and disk as they
      are and forgets the worker's place and every request under way. */
  lemma OutsideMeans(w: World, depot: nat)
    ensures Step(w, Ticks) == w.(clock := w.clock + 1)
    ensures Step(w, Stores(depot)) == w.(disk := w.disk + {depot})
    ensures Step(w, Crashes) == w.(worker := Down, requests := map[])
  {
  }

  /** A hand-off starts a fresh attempt with the value read at the claim. */
  lemma HandOffMeans(w: World)
    requires w.worker.Started? && w.queueMode && w.worker.job < |w.db.jobs|
    ensures var i := w.worker.job;
      Step(w, HandsOff) == w.(db := w.db.(jobs := w.db.jobs[i := w.db.jobs[i].(run := Handoff(Some(w.worker.force), None, None, None, None))]),
                              worker := Waiting(i, w.worker.force))
  {
  }

  /** A collection flags the apps whose depots it touched, and ends with the outcome given. */
  lemma CollectionMeans(w: World, appids: set<nat>, status: JobStatus)
    requires w.worker.Collecting? && w.worker.job < |w.db.jobs| && status in {Done, Error, Cancelled}
    ensures var (touched, ended, i) := (Step(w, TouchesDepot(appids)), Step(w, CollectionEnds(status)), w.worker.job);
      && touched == w.(db := w.db.(apps := touched.db.apps)) && touched.db.apps.Keys == w.db.apps.Keys
      && (forall a :: a in w.db.apps ==> touched.db.apps[a] == if a in appids then w.db.apps[a].(needsForce := true) else w.db.apps[a])
      && ended == w.(db := w.db.(jobs := w.db.jobs[i := w.db.jobs[i].(status := status, stop := None)]), worker := Idle)
  {
  }

  // ---------------------------------------------------------------- a DELETE, phase by phase

  /** A request starts only for a tracked app with a mapping row, and with the rows of all its depots. */
  lemma BeginMeans(w: World, req: nat, appid: nat)
    requires req !in w.requests
    ensures var now := Step(w, ReadsRows(req, appid));
      if appid > 0 && appid in w.db.apps && exists r :: r in w.db.rows && r.owner == Number(appid) then
        && req in now.requests && now == w.(requests := w.requests[req := now.requests[req]])
        && now.requests[req].HaveRows? && now.requests[req].appid == appid
        && forall r :: r in now.requests[req].rows <==> r in w.db.rows && Row(r.depot, Number(appid)) in w.db.rows
      else now == w
  {
    var rows := LoadMappingRows(w.db, appid);
    if r :| r in w.db.rows && r.owner == Number(appid) {
      assert r in rows;
    }
    if rows != {} {
      var r :| r in rows;
      assert Row(r.depot, Number(appid)) in w.db.rows;
    }
  }

  /** An open job of the app ends the request here; else it goes on with nothing done yet. */
  lemma JobCheckMeans(w: World, req: nat)
    requires req in w.requests && w.requests[req].HaveStates?
    ensures var (r, now) := (w.requests[req], Step(w, Plans(req)));
      if exists i :: 0 <= i < |w.db.jobs| && w.db.jobs[i].appid == r.appid && Open(w.db.jobs[i]) then
        now == w.(requests := w.requests - {req})
      else
        && req in now.requests && now == w.(requests := w.requests[req := now.requests[req]])
        && now.requests[req].Removing? && now.requests[req].appid == r.appid && now.requests[req].outcome == Outcome(map[], {}, {}, {})
  {
    forall job: Job ensures Active(job.status) <==> Open(job) {
    }
    hide Active, Open, Candidates, UnusableIds;
  }

  /** The recheck of one depot: unanswered, it has failed; with a claim of somebody cached, it is kept;
      else it is to be removed, with the readable co-owners noted. */
  lemma RecheckMeans(w: World, req: nat, depot: nat, answered: bool)
    requires req in w.requests && w.requests[req].Removing? && depot in w.requests[req].todo
    ensures var (r, now) := (w.requests[req], Step(w, Rechecks(req, depot, answered)));
      && now == w.(requests := w.requests[req := now.requests[req]])
      && now.requests[req].appid == r.appid && now.requests[req].unusable == r.unusable && now.requests[req].todo == r.todo - {depot}
      && (!answered ==> now.requests[req].Removing? && now.requests[req].outcome == r.outcome.(failed := r.outcome.failed + {depot}))
      && (answered && Protected(w.db, r.appid, depot) ==>
            now.requests[req].Removing? && now.requests[req].outcome == r.outcome.(kept := r.outcome.kept + {depot}))
      && (answered && !Protected(w.db, r.appid, depot) ==>
            && now.requests[req].Rechecked? && now.requests[req].outcome == r.outcome && now.requests[req].depot == depot
            && now.requests[req].coOwners == CoOwners(w.db, r.appid, depot))
  {
    hide Protected, CoOwners;
  }

  /** The removal: gone from the disk and deleted if it can be removed, deleted also if it was not
      there, failed otherwise; its co-owners are to be flagged in each case. */
  lemma RemoveMeans(w: World, req: nat, removable: bool)
    requires req in w.requests && w.requests[req].Rechecked?
    ensures var (r, now) := (w.requests[req], Step(w, Removes(req, removable)));
      && now == w.(disk := now.disk, requests := w.requests[req := now.requests[req]])
      && now.disk == (if removable then w.disk - {r.depot} else w.disk)
      && now.requests[req].Removing? && now.requests[req].todo == r.todo
      && now.requests[req].appid == r.appid && now.requests[req].unusable == r.unusable
      && var outcome := now.requests[req].outcome;
         && outcome.kept == r.outcome.kept && outcome.flagged == r.outcome.flagged + r.coOwners
         && outcome.deleted.Keys == (if removable || r.depot !in w.disk then r.outcome.deleted.Keys + {r.depot} else r.outcome.deleted.Keys)
         && outcome.failed == (if removable || r.depot !in w.disk then r.outcome.failed else r.outcome.failed + {r.depot})
  {
  }

  /** The reset at the end and the flags behind it. */
  lemma ResetMeans(w: World, req: nat)
    requires req in w.requests && w.requests[req].Removing? && w.requests[req].todo == {} && w.requests[req].appid in w.db.apps
    ensures var (r, now) := (w.requests[req], Step(w, Resets(req)));
      var clean := r.outcome.failed == {} && !r.unusable;
      var was := w.db.apps[r.appid];
      && now == w.(db := w.db.(apps := w.db.apps[r.appid := App(if clean then AppIdle else AppError, None,
                                                                was.needsForce || r.outcome.deleted != map[] || !clean)]),
                   requests := w.requests[req := WasReset(r.outcome.flagged)])
  {
  }

  lemma FlagMeans(w: World, req: nat, a: nat)
    requires req in w.requests && w.requests[req].WasReset?
    ensures var now := Step(w, Flags(req));
      && now == w.(db := w.db.(apps := now.db.apps), requests := w.requests - {req}) && now.db.apps.Keys == w.db.apps.Keys
      && (a in w.db.apps ==>
            now.db.apps[a] == if a in w.requests[req].flagged then w.db.apps[a].(needsForce := true) else w.db.apps[a])
  {
  }
}
