/** The database tables that job control and cache deletion share, and every statement
    vault-api runs on them, as functions on the tables' values.

    A job's id is its position in `jobs`: ids are handed out by AUTOINCREMENT and job rows
    are never deleted, so the n-th inserted row keeps the n-th id for good. */
module Tables {

  import opened Digits
  import opened Options

  // ---------------------------------------------------------------- ids read back from SQLite

  /** A value found in an INTEGER column: SQLite's affinity does not enforce the type. */
  datatype RawId = Number(n: int) | Text(s: string)

  /** What INTEGER affinity can leave in a column: text that spells an integer is stored as one. */
  type StoredId = r: RawId | r.Text? ==> !AllDigits(r.s) witness Number(0)

  /** A usable depot or app id, or nothing. */
  function CoercePositiveId(raw: RawId): (id: Option<nat>)
    ensures id.Some? ==> id.value > 0
  {
    match raw
    case Number(n) => if n > 0 then Some(n) else None
    case Text(s) => if AllDigits(s) && DigitsValue(s) > 0 then Some(DigitsValue(s)) else None
  }

  // ---------------------------------------------------------------- the tables

  datatype AppStatus = AppIdle | AppRunning | AppDone | AppError

  datatype App = App(status: AppStatus, lastPrefill: Option<nat>, needsForce: bool)

  /** The row `ensure_app_row` and `upsert_mapping` insert: idle, never filled, forced. */
  const FreshApp := App(AppIdle, None, true)

  datatype Row = Row(depot: StoredId, owner: StoredId)

  datatype JobKind = Prefill | Gc(execute: bool)

  datatype JobStatus = Queued | Running | Paused | Done | Error | Cancelled

  datatype Stop = StopCancel | StopPause

  datatype RunOutcome = Succeeded | Failed | StoppedByCancel | StoppedByPause

  /** The queue-mode hand-off columns `run_*`. */
  datatype Handoff = Handoff(
    useForce: Option<bool>,
    claimedBy: Option<nat>,
    claimedAt: Option<nat>,
    heartbeatAt: Option<nat>,
    result: Option<RunOutcome>)

  const NoHandoff := Handoff(None, None, None, None, None)

  datatype Job = Job(
    appid: nat,
    kind: JobKind,
    status: JobStatus,
    startedAt: Option<nat>,
    stop: Option<Stop>,
    run: Handoff)

  datatype Db = Db(apps: map<nat, App>, rows: set<Row>, jobs: seq<Job>)

  predicate Active(status: JobStatus) {
    status == Queued || status == Running || status == Paused
  }

  predicate Terminal(status: JobStatus) {
    status == Done || status == Error || status == Cancelled
  }

  predicate HasActiveJob(jobs: seq<Job>, appid: nat) {
    exists i :: 0 <= i < |jobs| && jobs[i].appid == appid && Active(jobs[i].status)
  }

  /** `SELECT ... WHERE p ORDER BY id LIMIT 1`. */
  function Oldest(jobs: seq<Job>, p: Job -> bool): (r: Option<nat>)
    ensures r.Some? ==>
              && r.value < |jobs| && p(jobs[r.value])
              && forall i :: 0 <= i < r.value ==> !p(jobs[i])
    ensures r.None? ==> forall i :: 0 <= i < |jobs| ==> !p(jobs[i])
  {
    if |jobs| == 0 then None
    else
      var last := |jobs| - 1;
      var earlier := Oldest(jobs[..last], p);
      if earlier.Some? then earlier
      else if p(jobs[last]) then Some(last)
      else None
  }

  // ---------------------------------------------------------------- apps

  function EnsureApp(apps: map<nat, App>, appid: nat): map<nat, App> {
    if appid in apps then apps else apps[appid := FreshApp]
  }

  function SetAppStatus(db: Db, appid: nat, status: AppStatus, lastPrefill: Option<nat>): Db {
    var apps := EnsureApp(db.apps, appid);
    var app := apps[appid];
    var kept := if lastPrefill.Some? then lastPrefill else app.lastPrefill;
    db.(apps := apps[appid := app.(status := status, lastPrefill := kept)])
  }

  function NeedsForce(db: Db, appid: nat): bool {
    if appid in db.apps then db.apps[appid].needsForce else true
  }

  /** The compare-and-swap at the end of a successful prefill. */
  function ClearNeedsForceIfUnchanged(db: Db, appid: nat, expected: bool): Db {
    if appid in db.apps && db.apps[appid].needsForce == expected
    then db.(apps := db.apps[appid := db.apps[appid].(needsForce := false)])
    else db
  }

  /** `UPDATE apps SET needs_force = 1 WHERE appid IN (...)`. */
  function SetNeedsForce(db: Db, appids: set<nat>): Db {
    db.(apps := map a | a in db.apps ::
                  if a in appids then db.apps[a].(needsForce := true) else db.apps[a])
  }

  function ResetIfRunning(db: Db, appid: nat): Db {
    if appid in db.apps && db.apps[appid].status == AppRunning
    then db.(apps := db.apps[appid := db.apps[appid].(status := AppIdle)])
    else db
  }

  // ---------------------------------------------------------------- mapping rows

  function UpsertMapping(db: Db, depot: nat, appid: nat): Db {
    db.(apps := EnsureApp(db.apps, appid), rows := db.rows + {Row(Number(depot), Number(appid))})
  }

  function DeleteMapping(db: Db, depot: nat, appid: nat): Db {
    db.(rows := db.rows - {Row(Number(depot), Number(appid))})
  }

  /** What `int` reads of a text: digits, single underscores between them, a sign, white space
      around. */
  predicate IntegerText(s: string) {
    var t := Strip(s);
    DigitGroups(if t != "" && (t[0] == '+' || t[0] == '-') then t[1..] else t)
  }

  predicate DigitGroups(s: string) {
    && s != "" && s[0] != '_' && s[|s| - 1] != '_'
    && (forall i :: 0 <= i < |s| ==> '0' <= s[i] <= '9' || s[i] == '_')
    && (forall i :: 0 < i < |s| ==> s[i - 1] != '_' || s[i] != '_')
  }

  function Strip(s: string): string {
    if s == "" then ""
    else if Blank(s[0]) then Strip(s[1..])
    else if Blank(s[|s| - 1]) then Strip(s[..|s| - 1])
    else s
  }

  predicate Blank(c: char) {
    c == ' ' || '\t' <= c <= '\r'
  }

  /** Reading the app's mapped depots back as integers raises. */
  predicate MappingUnreadable(db: Db, appid: nat) {
    exists r :: r in db.rows && r.owner == Number(appid) && r.depot.Text? && !IntegerText(r.depot.s)
  }

  /** A row `apply_observed_mapping` deletes: the app's, with an integer depot nobody observed. A
      text that reads as an integer is compared as one, but the row it stands in does not match. */
  predicate StaleRow(r: Row, appid: nat, observed: set<nat>) {
    r.owner == Number(appid) && r.depot.Number? && !ObservedRow(r, observed)
  }

  /** The row's depot is among the depots a prefill was seen to write. */
  predicate ObservedRow(r: Row, observed: set<nat>) {
    r.depot.Number? && r.depot.n >= 0 && r.depot.n in observed
  }

  // ---------------------------------------------------------------- jobs

  function NewJob(appid: nat, kind: JobKind): Job {
    Job(appid, kind, Queued, None, None, NoHandoff)
  }

  function SetJob(db: Db, id: nat, job: Job): Db
    requires id < |db.jobs|
  {
    db.(jobs := db.jobs[id := job])
  }

  predicate InFlight(job: Job, appid: nat, kind: JobKind) {
    job.appid == appid && job.kind == kind && Active(job.status)
  }

  function EnqueuePrefill(db: Db, appid: nat): (Db, nat) {
    var db1 := db.(apps := EnsureApp(db.apps, appid));
    Enqueue(db1, appid, Prefill)
  }

  /** Dedupe is per app and mode: a dry run never folds into an execute run. */
  function EnqueueGc(db: Db, appid: nat, execute: bool): (Db, nat) {
    Enqueue(db, appid, Gc(execute))
  }

  function Enqueue(db: Db, appid: nat, kind: JobKind): (Db, nat) {
    var existing := Oldest(db.jobs, (j: Job) => InFlight(j, appid, kind));
    if existing.Some? then (db, existing.value)
    else (db.(jobs := db.jobs + [NewJob(appid, kind)]), |db.jobs|)
  }

  function NextQueued(jobs: seq<Job>): Option<nat> {
    Oldest(jobs, (j: Job) => j.status == Queued)
  }

  function ClaimNextJob(db: Db, now: nat): (Db, Option<nat>) {
    var next := NextQueued(db.jobs);
    if next.None? then (db, None)
    else (SetJob(db, next.value, db.jobs[next.value].(status := Running, startedAt := Some(now))), next)
  }

  function FinishJob(db: Db, id: nat, status: JobStatus): Db
    requires id < |db.jobs|
  {
    SetJob(db, id, db.jobs[id].(status := status, stop := None))
  }

  datatype ControlOutcome = Unknown | Immediate | Requested | Resumed | Conflict

  function CancelJob(db: Db, id: nat): (Db, ControlOutcome) {
    if id >= |db.jobs| then (db, Unknown)
    else
      var job := db.jobs[id];
      if Terminal(job.status) then (db, Conflict)
      else if job.status == Running then
        (SetJob(db, id, job.(stop := Some(StopCancel))), Requested)
      else
        (ResetIfRunning(SetJob(db, id, job.(status := Cancelled, stop := None)), job.appid), Immediate)
  }

  function RequestPause(db: Db, id: nat): (Db, ControlOutcome) {
    if id >= |db.jobs| then (db, Unknown)
    else
      var job := db.jobs[id];
      if job.kind != Prefill || job.status != Running then (db, Conflict)
      else (SetJob(db, id, job.(stop := Some(StopPause))), Requested)
  }

  function ParkPaused(db: Db, id: nat): Db
    requires id < |db.jobs|
  {
    if db.jobs[id].status != Running then db
    else SetJob(db, id, db.jobs[id].(status := Paused, stop := None))
  }

  function ResumeJob(db: Db, id: nat): (Db, ControlOutcome) {
    if id >= |db.jobs| then (db, Unknown)
    else if db.jobs[id].status != Paused then (db, Conflict)
    else (SetJob(db, id, db.jobs[id].(status := Queued, stop := None)), Resumed)
  }

  /** A `running` row that startup treats as left behind by a dead process. */
  predicate Orphan(job: Job, queueMode: bool) {
    job.status == Running && !(queueMode && job.kind == Prefill && job.run.useForce.Some?)
  }

  function Recovered(job: Job, queueMode: bool): Job {
    if Orphan(job, queueMode) then job.(status := Error) else job
  }

  predicate OrphanOf(jobs: seq<Job>, appid: nat, queueMode: bool) {
    exists i :: 0 <= i < |jobs| && jobs[i].appid == appid && Orphan(jobs[i], queueMode)
  }

  function RecoverStaleJobs(db: Db, queueMode: bool): Db {
    db.(jobs := seq(|db.jobs|, i requires 0 <= i < |db.jobs| => Recovered(db.jobs[i], queueMode)),
        apps := map a | a in db.apps ::
                  if db.apps[a].status == AppRunning && OrphanOf(db.jobs, a, queueMode)
                  then db.apps[a].(status := AppError)
                  else db.apps[a])
  }

  // ---------------------------------------------------------------- queue-mode hand-off

  /** Every hand-off is a fresh attempt: all runner-owned columns are reset with it. */
  function HandoffRun(db: Db, id: nat, useForce: bool): Db
    requires id < |db.jobs|
  {
    SetJob(db, id, db.jobs[id].(run := NoHandoff.(useForce := Some(useForce))))
  }

  predicate AwaitsRunner(job: Job) {
    job.status == Running && job.kind == Prefill && job.run.useForce.Some?
    && job.run.claimedBy.None? && job.run.result.None?
  }

  function ClaimRun(db: Db, runner: nat, now: nat): (Db, Option<nat>) {
    var next := Oldest(db.jobs, (j: Job) => AwaitsRunner(j));
    if next.None? then (db, None)
    else
      var job := db.jobs[next.value];
      var run := job.run.(claimedBy := Some(runner), claimedAt := Some(now), heartbeatAt := Some(now));
      (SetJob(db, next.value, job.(run := run)), next)
  }

  predicate HeldBy(job: Job, runner: nat) {
    job.run.claimedBy == Some(runner) && job.status == Running
  }

  function RecordHeartbeat(db: Db, id: nat, runner: nat, now: nat): Db {
    if id < |db.jobs| && HeldBy(db.jobs[id], runner)
    then SetJob(db, id, db.jobs[id].(run := db.jobs[id].run.(heartbeatAt := Some(now))))
    else db
  }

  function RecordResult(db: Db, id: nat, runner: nat, outcome: RunOutcome): Db {
    if id < |db.jobs| && HeldBy(db.jobs[id], runner)
    then SetJob(db, id, db.jobs[id].(run := db.jobs[id].run.(result := Some(outcome))))
    else db
  }

  predicate Reattachable(job: Job) {
    job.status == Running && job.kind == Prefill && job.run.useForce.Some? && job.run.result.None?
  }

  function FindActiveRun(db: Db): Option<nat> {
    Oldest(db.jobs, (j: Job) => Reattachable(j))
  }

  /** When a hand-off was last heard of: heartbeat, else claim, else start. */
  function LastSign(job: Job): Option<nat> {
    if job.run.heartbeatAt.Some? then job.run.heartbeatAt
    else if job.run.claimedAt.Some? then job.run.claimedAt
    else job.startedAt
  }

  predicate RunIsStale(job: Job, lease: nat, now: nat) {
    && job.run.result.None?
    && LastSign(job).Some?
    && now > LastSign(job).value + lease
  }

  // ---------------------------------------------------------------- who has cache content

  /** The one definition of "has cache content": a missing row, any status but idle, a recorded
      prefill or an active job each protect the app's depots. */
  predicate HasContent(db: Db, appid: nat) {
    appid !in db.apps
    || !(&& db.apps[appid].status == AppIdle
         && db.apps[appid].lastPrefill.None?
         && !HasActiveJob(db.jobs, appid))
  }

  predicate OwnerHasContent(db: Db, owner: StoredId) {
    match CoercePositiveId(owner)
    case None => true
    case Some(appid) => HasContent(db, appid)
  }

  predicate Owns(db: Db, appid: nat, depot: nat) {
    Row(Number(depot), Number(appid)) in db.rows
  }

  /** Some other claim on the depot is unreadable or belongs to an app with cache content. */
  predicate Protected(db: Db, appid: nat, depot: nat) {
    exists r :: r in db.rows && r.depot == Number(depot) && r.owner != Number(appid)
                && OwnerHasContent(db, r.owner)
  }
}
