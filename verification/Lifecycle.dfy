/** vault-api as a step system: API requests, the one worker thread, runner processes, the
    phases of every DELETE request, crashes and restarts, in any interleaving. No lock is held
    between steps; each step is one transaction or one filesystem call. */
module Lifecycle {
  import opened CacheDelete
  import opened Deletion
  import opened Options
  import opened Tables

  /** How far the worker thread has got with the job it holds. `force` is the value of
      `needs_force` the run read when it was claimed. */
  datatype Worker =
    | Down
    | Idle
    | Claimed(job: nat)
    | Marked(job: nat)
    | Started(job: nat, force: bool)
    | Waiting(job: nat, force: bool)
    | Remapping(job: nat, force: bool, stale: set<StoredId>, observed: set<nat>)
    | Mapped(job: nat, force: bool)
    | Recorded(job: nat, force: bool)
    | Settled(job: nat)
    | Stopping(job: nat, pause: bool)
    | Failing(job: nat)
    | Collecting(job: nat)

  /** How far one DELETE request has got. */
  datatype Request =
    | HaveRows(appid: nat, rows: set<Row>)
    | HaveStates(appid: nat, rows: set<Row>, states: map<nat, bool>)
    | Removing(appid: nat, todo: set<nat>, outcome: Outcome, unusable: bool)
    | Rechecked(appid: nat, todo: set<nat>, outcome: Outcome, unusable: bool, depot: nat, coOwners: set<nat>)
    | WasReset(flagged: set<nat>)

  datatype World = World(
    db: Db,
    disk: set<nat>,
    worker: Worker,
    requests: map<nat, Request>,
    clock: nat,
    queueMode: bool,
    lease: nat)

  datatype Event =
    // API requests; the worker queues its automatic collections by the same transaction
    | Prefills(appid: nat)
    | Collects(appid: nat, execute: bool)
    | Cancels(id: nat)
    | Pauses(id: nat)
    | Resumes(id: nat)
    | PutsMapping(depot: nat, appid: nat)
    | DropsMapping(depot: nat, appid: nat)
    // the phases of DELETE /v1/cache/{appid}
    | ReadsRows(req: nat, appid: nat)
    | ReadsStates(req: nat)
    | Plans(req: nat)
    | Rechecks(req: nat, depot: nat, answered: bool)
    | Removes(req: nat, removable: bool)
    | Resets(req: nat)
    | Flags(req: nat)
    // the worker thread
    | Polls
    | MarksRunning
    | ReadsFlag
    | HandsOff
    | RunEnds(outcome: RunOutcome, considered: bool, observed: set<nat>)
    | Awaits(considered: bool, observed: set<nat>)
    | DropsStale(stale: StoredId)
    | MapsObserved(depot: nat)
    | RecordsDone
    | ClearsFlag
    | Finishes
    | Breaks
    | TouchesDepot(appids: set<nat>)
    | CollectionEnds(status: JobStatus)
    // runner processes, cache writers, the clock, the process itself
    | RunnerClaims(runner: nat)
    | RunnerBeats(id: nat, runner: nat)
    | RunnerReports(id: nat, runner: nat, outcome: RunOutcome)
    | Stores(depot: nat)
    | Ticks
    | Crashes
    | Starts

  // ---------------------------------------------------------------- the worker thread

  predicate Holds(worker: Worker, id: nat) {
    !worker.Down? && !worker.Idle? && worker.job == id
  }

  function JobApp(db: Db, id: nat): nat {
    if id < |db.jobs| then db.jobs[id].appid else 0
  }

  /** One pass of the worker loop: reattach to a handed-off run first, else claim. */
  function OnPoll(w: World): World {
    var active := if w.queueMode then FindActiveRun(w.db) else None;
    if active.Some? then
      w.(worker := Waiting(active.value, w.db.jobs[active.value].run.useForce == Some(true)))
    else
      var (db, claimed) := ClaimNextJob(w.db, w.clock);
      match claimed
      case None => w
      case Some(id) =>
        w.(db := db, worker := if w.db.jobs[id].kind.Prefill? then Claimed(id) else Collecting(id))
  }

  /** The job goes on to be recorded as failed. */
  function Fail(w: World, id: nat): World {
    w.(db := SetAppStatus(w.db, JobApp(w.db, id), AppError, None), worker := Failing(id))
  }

  /** `_finalize_prefill_result` up to the first write of a successful run. */
  function Finalize(w: World, id: nat, force: bool, outcome: RunOutcome, considered: bool, observed: set<nat>): World {
    var appid := JobApp(w.db, id);
    match outcome
    case StoppedByCancel => w.(db := ResetIfRunning(w.db, appid), worker := Stopping(id, false))
    case StoppedByPause => w.(db := ResetIfRunning(w.db, appid), worker := Stopping(id, true))
    case Failed => Fail(w, id)
    case Succeeded =>
      if !considered then Fail(w, id)
      else if observed == {} then w.(worker := Mapped(id, force))
      else if MappingUnreadable(w.db, appid) then Fail(w, id)
      else w.(worker := Remapping(id, force, StaleDepots(w.db, appid, observed), observed))
  }

  function StaleDepots(db: Db, appid: nat, observed: set<nat>): set<StoredId> {
    set r | r in db.rows && StaleRow(r, appid, observed) :: r.depot
  }

  /** One pass of `await_run_result`. */
  function OnAwait(w: World, id: nat, force: bool, considered: bool, observed: set<nat>): World
    requires id < |w.db.jobs|
  {
    var job := w.db.jobs[id];
    if job.run.result.Some? then Finalize(w, id, force, job.run.result.value, considered, observed)
    else if RunIsStale(job, w.lease, w.clock) then Fail(w, id)
    else w
  }

  function OnFinish(w: World): World {
    match w.worker
    case Settled(id) =>
      if id < |w.db.jobs| then w.(db := FinishJob(w.db, id, Done), worker := Idle) else w
    case Stopping(id, pause) =>
      if id < |w.db.jobs| then
        w.(db := if pause then ParkPaused(w.db, id) else FinishJob(w.db, id, Cancelled), worker := Idle)
      else w
    case Failing(id) =>
      if id < |w.db.jobs| then w.(db := FinishJob(w.db, id, Error), worker := Idle) else w
    case _ => w
  }

  function OnWorker(w: World, e: Event): World {
    match e
    case Polls => if w.worker.Idle? then OnPoll(w) else w
    case MarksRunning =>
      if w.worker.Claimed?
      then w.(db := SetAppStatus(w.db, JobApp(w.db, w.worker.job), AppRunning, None), worker := Marked(w.worker.job))
      else w
    case ReadsFlag =>
      if w.worker.Marked?
      then w.(worker := Started(w.worker.job, NeedsForce(w.db, JobApp(w.db, w.worker.job))))
      else w
    case HandsOff =>
      if w.worker.Started? && w.queueMode && w.worker.job < |w.db.jobs|
      then w.(db := HandoffRun(w.db, w.worker.job, w.worker.force), worker := Waiting(w.worker.job, w.worker.force))
      else w
    case RunEnds(outcome, considered, observed) =>
      if w.worker.Started? && !w.queueMode
      then Finalize(w, w.worker.job, w.worker.force, outcome, considered, observed)
      else w
    case Awaits(considered, observed) =>
      if w.worker.Waiting? && w.worker.job < |w.db.jobs|
      then OnAwait(w, w.worker.job, w.worker.force, considered, observed)
      else w
    case DropsStale(depot) =>
      if w.worker.Remapping? && depot in w.worker.stale
      then w.(db := w.db.(rows := w.db.rows - {Row(depot, Number(JobApp(w.db, w.worker.job)))}),
              worker := w.worker.(stale := w.worker.stale - {depot}))
      else w
    case MapsObserved(depot) =>
      if w.worker.Remapping? && w.worker.stale == {} && depot in w.worker.observed
      then w.(db := UpsertMapping(w.db, depot, JobApp(w.db, w.worker.job)),
              worker := if w.worker.observed == {depot} then Mapped(w.worker.job, w.worker.force)
                        else w.worker.(observed := w.worker.observed - {depot}))
      else w
    case RecordsDone =>
      if w.worker.Mapped?
      then w.(db := SetAppStatus(w.db, JobApp(w.db, w.worker.job), AppDone, Some(w.clock)),
              worker := Recorded(w.worker.job, w.worker.force))
      else w
    case ClearsFlag =>
      if w.worker.Recorded?
      then w.(db := ClearNeedsForceIfUnchanged(w.db, JobApp(w.db, w.worker.job), w.worker.force),
              worker := Settled(w.worker.job))
      else w
    case Finishes => OnFinish(w)
    case Breaks =>
      if w.worker.Down? || w.worker.Idle? || w.worker.Collecting? then w else Fail(w, w.worker.job)
    case TouchesDepot(appids) =>
      if w.worker.Collecting? then w.(db := SetNeedsForce(w.db, appids)) else w
    case CollectionEnds(status) =>
      if w.worker.Collecting? && Terminal(status) && w.worker.job < |w.db.jobs|
      then w.(db := FinishJob(w.db, w.worker.job, status), worker := Idle)
      else w
    case _ => w
  }

  // ---------------------------------------------------------------- DELETE, phase by phase

  function OnDelete(w: World, e: Event): World {
    match e
    case ReadsRows(req, appid) =>
      var rows := LoadMappingRows(w.db, appid);
      if req !in w.requests && appid > 0 && appid in w.db.apps && rows != {}
      then w.(requests := w.requests[req := HaveRows(appid, rows)])
      else w
    case ReadsStates(req) =>
      if req in w.requests && w.requests[req].HaveRows? then
        var r := w.requests[req];
        w.(requests := w.requests[req := HaveStates(r.appid, r.rows,
             LoadCoOwnerStates(w.db, OtherOwnerIds(r.rows, r.appid)))])
      else w
    case Plans(req) =>
      if req in w.requests && w.requests[req].HaveStates? then
        var r := w.requests[req];
        if HasActiveJob(w.db.jobs, r.appid) then w.(requests := w.requests - {req})
        else w.(requests := w.requests[req := Removing(r.appid, Candidates(r.rows, r.appid, r.states),
                  Outcome(map[], {}, {}, {}), UnusableIds(r.rows) != {})])
      else w
    case Rechecks(req, depot, answered) =>
      if req in w.requests && w.requests[req].Removing? && depot in w.requests[req].todo then
        var r := w.requests[req];
        var todo := r.todo - {depot};
        if !answered then
          w.(requests := w.requests[req := Removing(r.appid, todo, r.outcome.Add(depot, Unchecked, {}), r.unusable)])
        else if Protected(w.db, r.appid, depot) then
          w.(requests := w.requests[req := Removing(r.appid, todo, r.outcome.Add(depot, Kept, {}), r.unusable)])
        else
          w.(requests := w.requests[req := Rechecked(r.appid, todo, r.outcome, r.unusable, depot,
               CoOwners(w.db, r.appid, depot))])
      else w
    case Removes(req, removable) =>
      if req in w.requests && w.requests[req].Rechecked? then
        var r := w.requests[req];
        var fate := if removable || r.depot !in w.disk then Removed(0) else Stuck(0);
        w.(disk := if removable then w.disk - {r.depot} else w.disk,
           requests := w.requests[req := Removing(r.appid, r.todo, r.outcome.Add(r.depot, fate, r.coOwners), r.unusable)])
      else w
    case Resets(req) =>
      if req in w.requests && w.requests[req].Removing? && w.requests[req].todo == {} then
        var r := w.requests[req];
        w.(db := ResetDeleted(w.db, r.appid, r.outcome.failed == {} && !r.unusable, r.outcome.deleted != map[]),
           requests := w.requests[req := WasReset(r.outcome.flagged)])
      else w
    case Flags(req) =>
      if req in w.requests && w.requests[req].WasReset?
      then w.(db := SetNeedsForce(w.db, w.requests[req].flagged), requests := w.requests - {req})
      else w
    case _ => w
  }

  /** The depots a plan over these rows releases. */
  function Candidates(rows: set<Row>, appid: nat, states: map<nat, bool>): set<nat> {
    set r | r in rows && CoercePositiveId(r.depot).Some?
            && MayDelete(Judge(OwnersOf(rows, CoercePositiveId(r.depot).value), appid, states))
      :: CoercePositiveId(r.depot).value
  }

  // ---------------------------------------------------------------- everything else

  function OnRequest(w: World, e: Event): World {
    match e
    case Prefills(appid) => w.(db := EnqueuePrefill(w.db, appid).0)
    case Collects(appid, execute) => w.(db := EnqueueGc(w.db, appid, execute).0)
    case Cancels(id) => w.(db := CancelJob(w.db, id).0)
    case Pauses(id) => w.(db := RequestPause(w.db, id).0)
    case Resumes(id) => w.(db := ResumeJob(w.db, id).0)
    case PutsMapping(depot, appid) => w.(db := UpsertMapping(w.db, depot, appid))
    case DropsMapping(depot, appid) => w.(db := DeleteMapping(w.db, depot, appid))
    case _ => w
  }

  function OnOutside(w: World, e: Event): World {
    match e
    case RunnerClaims(runner) => w.(db := ClaimRun(w.db, runner, w.clock).0)
    case RunnerBeats(id, runner) => w.(db := RecordHeartbeat(w.db, id, runner, w.clock))
    case RunnerReports(id, runner, outcome) => w.(db := RecordResult(w.db, id, runner, outcome))
    case Stores(depot) => w.(disk := w.disk + {depot})
    case Ticks => w.(clock := w.clock + 1)
    case Crashes => w.(worker := Down, requests := map[])
    case Starts =>
      if w.worker.Down? then w.(db := RecoverStaleJobs(w.db, w.queueMode), worker := Idle) else w
    case _ => w
  }

  datatype Actor = Api | Deleter | Thread | Outside

  function ActorOf(e: Event): Actor {
    match e
    case Prefills(_) | Collects(_, _) | Cancels(_) | Pauses(_) | Resumes(_) | PutsMapping(_, _) | DropsMapping(_, _) => Api
    case ReadsRows(_, _) | ReadsStates(_) | Plans(_) | Rechecks(_, _, _) | Removes(_, _) | Resets(_) | Flags(_) => Deleter
    case RunnerClaims(_) | RunnerBeats(_, _) | RunnerReports(_, _, _) | Stores(_) | Ticks | Crashes | Starts => Outside
    case _ => Thread
  }

  /** One step. An event that is not possible now changes nothing. */
  function Step(w: World, e: Event): World {
    match ActorOf(e)
    case Api => OnRequest(w, e)
    case Deleter => OnDelete(w, e)
    case Thread => OnWorker(w, e)
    case Outside => OnOutside(w, e)
  }

  function Run(w: World, events: seq<Event>): World {
    if events == [] then w else Step(Run(w, events[..|events| - 1]), events[|events| - 1])
  }

  predicate Initial(w: World) {
    w.db.jobs == [] && w.worker.Down? && w.requests == map[]
  }
}
