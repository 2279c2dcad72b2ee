/** `DELETE /v1/cache/{appid}` run on its own: what one request leaves behind, and what a whole
    series of them can and cannot reclaim. */
module CacheDelete {
  import opened Deletion
  import opened Options
  import opened Sums
  import opened Tables

  // ---------------------------------------------------------------- what one request does

  /** What can go wrong outside the tables: a recheck the database refuses to answer, and a
      directory that cannot be removed, with the bytes that stay in it. */
  datatype Trouble = Trouble(uncheckable: set<nat>, stuck: map<nat, nat>)

  const NoTrouble := Trouble({}, map[])

  datatype Fate = Unchecked | Kept | Removed(freed: nat) | Stuck(left: nat)

  /** What becomes of one depot directory once the plan has released it. */
  function FateOf(db: Db, disk: map<nat, nat>, appid: nat, trouble: Trouble, depot: nat): Fate {
    if depot in trouble.uncheckable then Unchecked
    else if Protected(db, appid, depot) then Kept
    else if depot !in disk then Removed(0)
    else if depot in trouble.stuck then Stuck(trouble.stuck[depot])
    else Removed(disk[depot])
  }

  function MappedDepots(db: Db, appid: nat): set<nat> {
    set r | r in db.rows && r.owner == Number(appid) && CoercePositiveId(r.depot).Some?
      :: CoercePositiveId(r.depot).value
  }

  /** The depots an app may take with it: mapped by it and protected by nobody else. */
  function Releasable(db: Db, appid: nat): set<nat> {
    set d | d in MappedDepots(db, appid) && !Protected(db, appid, d)
  }

  predicate HasRows(db: Db, appid: nat) {
    exists r :: r in db.rows && r.owner == Number(appid)
  }

  predicate HasUnusableRow(db: Db, appid: nat) {
    exists r :: r in db.rows && r.owner == Number(appid) && CoercePositiveId(r.depot).None?
  }

  /** Neither of the two 404 answers nor the 409 answer applies. */
  predicate Accepts(db: Db, appid: nat) {
    appid in db.apps && HasRows(db, appid) && !HasActiveJob(db.jobs, appid)
  }

  datatype Answer =
    | UnknownApp
    | NothingMapped
    | JobActive
    | RootRefused
    | Report(deleted: map<nat, nat>, failed: set<nat>, unusable: set<RawId>, kept: set<nat>)

  // ---------------------------------------------------------------- the recheck

  predicate SomeCached(owners: map<nat, bool>) {
    exists o :: o in owners && owners[o]
  }

  predicate OtherClaim(r: Row, appid: nat, depot: nat) {
    r.depot == Number(depot) && r.owner != Number(appid)
  }

  /** Summary of the claims read so far: an unreadable owner is listed as id 0, cached. */
  ghost predicate Summarises(owners: map<nat, bool>, db: Db, claims: set<Row>) {
    && (SomeCached(owners) <==> exists r :: r in claims && OwnerHasContent(db, r.owner))
    && (forall r :: r in claims ==> (CoercePositiveId(r.owner).Some? ==> CoercePositiveId(r.owner).value in owners))
    && (forall o :: o in owners && !owners[o] ==> exists r :: r in claims && CoercePositiveId(r.owner) == Some(o))
  }

  lemma SummariseClaim(owners: map<nat, bool>, db: Db, claims: set<Row>, r: Row, o: nat, cached: bool)
    requires Summarises(owners, db, claims)
    requires o == (match CoercePositiveId(r.owner) case None => 0 case Some(id) => id)
    requires cached == OwnerHasContent(db, r.owner)
    ensures Summarises(owners[o := (o in owners && owners[o]) || cached], db, claims + {r})
  {
    var now := owners[o := (o in owners && owners[o]) || cached];
    if SomeCached(now) {
      var x :| x in now && now[x];
      if x == o && cached { assert r in claims + {r} && OwnerHasContent(db, r.owner); }
      else {
        assert x in owners && owners[x];
        var q :| q in claims && OwnerHasContent(db, q.owner);
        assert q in claims + {r};
      }
    }
    if q :| q in claims + {r} && OwnerHasContent(db, q.owner) {
      if q in claims {
        var x :| x in owners && owners[x];
        assert x in now && now[x];
      } else {
        assert o in now && now[o];
      }
    }
    forall x | x in now && !now[x] ensures exists q :: q in claims + {r} && CoercePositiveId(q.owner) == Some(x) {
      if x == o { assert r in claims + {r}; }
      else {
        assert x in owners && !owners[x];
        var q :| q in claims && CoercePositiveId(q.owner) == Some(x);
        assert q in claims + {r};
      }
    }
  }

  /** `load_co_owners`: run again immediately before each removal. */
  method LoadCoOwners(db: Db, depot: nat, appid: nat) returns (owners: map<nat, bool>)
    ensures SomeCached(owners) <==> Protected(db, appid, depot)
    ensures !SomeCached(owners) ==> owners.Keys == CoOwners(db, appid, depot)
  {
    var claims := set r | r in db.rows && OtherClaim(r, appid, depot);
    var rest := claims;
    ghost var read: set<Row> := {};
    owners := map[];
    while rest != {}
      invariant read + rest == claims
      invariant Summarises(owners, db, read)
      decreases |rest|
    {
      var r :| r in rest;
      var owner := match CoercePositiveId(r.owner) case None => 0 case Some(id) => id;
      var cached := OwnerHasContent(db, r.owner);
      SummariseClaim(owners, db, read, r, owner, cached);
      owners := owners[owner := (owner in owners && owners[owner]) || cached];
      rest := rest - {r};
      read := read + {r};
    }
    assert read == claims;
    CoOwnersSummarised(owners, db, claims, depot, appid);
  }

  lemma CoOwnersSummarised(owners: map<nat, bool>, db: Db, claims: set<Row>, depot: nat, appid: nat)
    requires claims == set r | r in db.rows && OtherClaim(r, appid, depot)
    requires Summarises(owners, db, claims)
    ensures SomeCached(owners) <==> Protected(db, appid, depot)
    ensures !SomeCached(owners) ==> owners.Keys == CoOwners(db, appid, depot)
  {
    if Protected(db, appid, depot) {
      var r :| r in db.rows && r.depot == Number(depot) && r.owner != Number(appid) && OwnerHasContent(db, r.owner);
      assert r in claims;
    }
    if !SomeCached(owners) {
      forall o | o in owners ensures o in CoOwners(db, appid, depot) {
        var r :| r in claims && CoercePositiveId(r.owner) == Some(o);
      }
      forall o | o in CoOwners(db, appid, depot) ensures o in owners {
        var r :| r in db.rows && OtherClaim(r, appid, depot) && CoercePositiveId(r.owner) == Some(o);
        assert r in claims;
      }
    }
  }

  // ---------------------------------------------------------------- the request

  /** What a request reports: bytes freed per deleted depot, failures, late finds of a cached
      co-owner, and the co-owners of every depot whose removal was carried out or attempted. */
  datatype Outcome = Outcome(deleted: map<nat, nat>, failed: set<nat>, kept: set<nat>, flagged: set<nat>) {
    function Add(depot: nat, fate: Fate, coOwners: set<nat>): Outcome {
      match fate
      case Unchecked => this.(failed := failed + {depot})
      case Kept => this.(kept := kept + {depot})
      case Removed(freed) => this.(deleted := deleted[depot := freed], flagged := flagged + coOwners)
      case Stuck(_) => this.(failed := failed + {depot}, flagged := flagged + coOwners)
    }
  }

  /** The outcome over a set of depots, each judged on the disk and tables the request started with. */
  function OutcomeOf(db: Db, disk: map<nat, nat>, appid: nat, trouble: Trouble, depots: set<nat>): Outcome {
    Outcome(
      map d | d in depots && FateOf(db, disk, appid, trouble, d).Removed? :: FateOf(db, disk, appid, trouble, d).freed,
      set d | d in depots && (FateOf(db, disk, appid, trouble, d).Unchecked? || FateOf(db, disk, appid, trouble, d).Stuck?),
      set d | d in depots && FateOf(db, disk, appid, trouble, d).Kept?,
      set d, o | d in depots && Touched(db, disk, appid, trouble, d) && o in CoOwners(db, appid, d) :: o)
  }

  predicate Touched(db: Db, disk: map<nat, nat>, appid: nat, trouble: Trouble, d: nat) {
    FateOf(db, disk, appid, trouble, d).Removed? || FateOf(db, disk, appid, trouble, d).Stuck?
  }

  /** The disk after the depots of `done` have met their fates. */
  function DiskAfter(db: Db, disk: map<nat, nat>, appid: nat, trouble: Trouble, done: set<nat>): map<nat, nat> {
    map d | d in disk && !(d in done && FateOf(db, disk, appid, trouble, d).Removed?)
      :: if d in done && FateOf(db, disk, appid, trouble, d).Stuck? then trouble.stuck[d] else disk[d]
  }

  lemma FateStable(db: Db, disk: map<nat, nat>, now: map<nat, nat>, appid: nat, trouble: Trouble, d: nat)
    requires d in now <==> d in disk
    requires d in disk ==> now[d] == disk[d]
    ensures FateOf(db, now, appid, trouble, d) == FateOf(db, disk, appid, trouble, d)
  {
  }

  lemma NothingDone(db: Db, disk: map<nat, nat>, appid: nat, trouble: Trouble)
    ensures OutcomeOf(db, disk, appid, trouble, {}) == Outcome(map[], {}, {}, {})
    ensures DiskAfter(db, disk, appid, trouble, {}) == disk
  {
  }

  lemma OutcomeExtend(db: Db, disk: map<nat, nat>, appid: nat, trouble: Trouble, done: set<nat>, d: nat)
    requires d !in done
    ensures OutcomeOf(db, disk, appid, trouble, done + {d})
         == OutcomeOf(db, disk, appid, trouble, done)
            .Add(d, FateOf(db, disk, appid, trouble, d), CoOwners(db, appid, d))
  {
  }

  lemma DiskAfterExtend(db: Db, disk: map<nat, nat>, appid: nat, trouble: Trouble, done: set<nat>, d: nat)
    requires d !in done
    ensures var before := DiskAfter(db, disk, appid, trouble, done);
            && (d in before <==> d in disk)
            && (d in disk ==> before[d] == disk[d])
            && DiskAfter(db, disk, appid, trouble, done + {d})
            == (match FateOf(db, disk, appid, trouble, d)
                case Removed(_) => before - {d}
                case Stuck(left) => before[d := left]
                case _ => before)
  {
  }

  /** `reset_app_after_deletion`. */
  function ResetDeleted(db: Db, appid: nat, clean: bool, touched: bool): Db {
    if appid !in db.apps then db
    else
      var app := App(if clean then AppIdle else AppError, None, db.apps[appid].needsForce || touched || !clean);
      db.(apps := db.apps[appid := app])
  }

  /** The app's own reset, then the flag for the co-owners of everything touched. */
  function DbAfter(db: Db, appid: nat, clean: bool, touched: bool, flagged: set<nat>): Db {
    SetNeedsForce(ResetDeleted(db, appid, clean, touched), flagged)
  }

  /** The request gets past both 404 answers, the 409 answer and the cache-root guard. */
  predicate Proceeds(db: Db, appid: nat, rootUsable: bool) {
    Accepts(db, appid) && rootUsable
  }

  function AfterDelete(db: Db, disk: map<nat, nat>, appid: nat, rootUsable: bool, trouble: Trouble)
    : (Db, map<nat, nat>)
  {
    if !Proceeds(db, appid, rootUsable) then (db, disk)
    else
      var outcome := OutcomeOf(db, disk, appid, trouble, Releasable(db, appid));
      (DbAfter(db, appid, CleanRun(db, disk, appid, trouble), outcome.deleted != map[], outcome.flagged),
       DiskAfter(db, disk, appid, trouble, Releasable(db, appid)))
  }

  function AnswerFor(db: Db, disk: map<nat, nat>, appid: nat, rootUsable: bool, trouble: Trouble): Answer {
    if appid !in db.apps then UnknownApp
    else if !HasRows(db, appid) then NothingMapped
    else if HasActiveJob(db.jobs, appid) then JobActive
    else if !rootUsable then RootRefused
    else
      var outcome := OutcomeOf(db, disk, appid, trouble, Releasable(db, appid));
      Report(outcome.deleted, outcome.failed, UnusableIds(LoadMappingRows(db, appid)),
             MappedDepots(db, appid) - Releasable(db, appid))
  }

  predicate CleanRun(db: Db, disk: map<nat, nat>, appid: nat, trouble: Trouble) {
    OutcomeOf(db, disk, appid, trouble, Releasable(db, appid)).failed == {} && !HasUnusableRow(db, appid)
  }

  lemma ReleasableIs(db: Db, appid: nat, d: nat)
    requires appid > 0
    ensures d in Releasable(db, appid) <==> d > 0 && Owns(db, appid, d) && !Protected(db, appid, d)
  {
  }

  /** The plan's candidates are exactly the releasable depots. */
  lemma PlanReleases(db: Db, appid: nat, plan: DeletionPlan)
    requires appid > 0
    requires plan.Consistent() && forall d: nat :: VerdictOf(plan, d) == PlannedVerdict(db, appid, d)
    ensures plan.exclusive + plan.remnant.Keys == Releasable(db, appid)
    ensures plan.shared.Keys == MappedDepots(db, appid) - Releasable(db, appid)
  {
    forall d: nat
      ensures d in plan.exclusive + plan.remnant.Keys <==> d in Releasable(db, appid)
      ensures d in plan.shared <==> d in MappedDepots(db, appid) && Protected(db, appid, d)
    {
      ReleasableIs(db, appid, d);
      assert VerdictOf(plan, d) == PlannedVerdict(db, appid, d);
      if d > 0 {
        PlanAgreesWithRecheck(db, appid, d);
      }
    }
  }

  lemma UnusableRows(db: Db, appid: nat)
    ensures UnusableIds(LoadMappingRows(db, appid)) != {} <==> HasUnusableRow(db, appid)
    ensures LoadMappingRows(db, appid) == {} <==> !HasRows(db, appid)
  {
    var rows := LoadMappingRows(db, appid);
    if r :| r in rows && CoercePositiveId(r.depot).None? {
      assert r.depot in UnusableIds(rows);
      var own := Row(r.depot, Number(appid));
      assert own in db.rows && own.owner == Number(appid);
    }
    if r :| r in db.rows && r.owner == Number(appid) {
      assert r in rows;
    }
  }

  /** Run alone, no recheck finds a cached co-owner the plan did not know. */
  lemma NoLateFinds(db: Db, disk: map<nat, nat>, appid: nat, trouble: Trouble)
    ensures OutcomeOf(db, disk, appid, trouble, Releasable(db, appid)).kept == {}
  {
    hide Protected, CoOwners, MappedDepots;
  }

  /** Both results of a request that proceeds, read off its plan and the outcome of its loop. */
  lemma Proceeded(db: Db, disk: map<nat, nat>, appid: nat, trouble: Trouble, plan: DeletionPlan, outcome: Outcome)
    requires appid > 0 && Accepts(db, appid)
    requires plan.Consistent() && plan.unusable == UnusableIds(LoadMappingRows(db, appid))
    requires forall d: nat :: VerdictOf(plan, d) == PlannedVerdict(db, appid, d)
    requires outcome == OutcomeOf(db, disk, appid, trouble, plan.exclusive + plan.remnant.Keys)
    ensures plan.exclusive + plan.remnant.Keys == Releasable(db, appid)
    ensures AnswerFor(db, disk, appid, true, trouble)
         == Report(outcome.deleted, outcome.failed, plan.unusable, plan.shared.Keys + outcome.kept)
    ensures AfterDelete(db, disk, appid, true, trouble)
         == (DbAfter(db, appid, outcome.failed == {} && plan.unusable == {}, outcome.deleted != map[], outcome.flagged),
             DiskAfter(db, disk, appid, trouble, Releasable(db, appid)))
  {
    hide DbAfter, OutcomeOf, DiskAfter, Releasable, MappedDepots, UnusableIds, LoadMappingRows, HasUnusableRow, HasRows,
      HasActiveJob, VerdictOf, PlannedVerdict;
    PlanReleases(db, appid, plan);
    UnusableRows(db, appid);
    NoLateFinds(db, disk, appid, trouble);
  }

  // ---------------------------------------------------------------- what the answer means

  /** Which request gets which answer. */
  lemma Refusals(db: Db, disk: map<nat, nat>, appid: nat, rootUsable: bool, trouble: Trouble)
    ensures var answer := AnswerFor(db, disk, appid, rootUsable, trouble);
      var mapped := exists r :: r in db.rows && r.owner == Number(appid);
      var busy := exists i :: 0 <= i < |db.jobs| && db.jobs[i].appid == appid && db.jobs[i].status in {Queued, Running, Paused};
      && (answer.UnknownApp? <==> appid !in db.apps)
      && (answer.NothingMapped? <==> appid in db.apps && !mapped)
      && (answer.JobActive? <==> appid in db.apps && mapped && busy)
      && (answer.RootRefused? <==> appid in db.apps && mapped && !busy && !rootUsable)
      && (!answer.Report? ==> AfterDelete(db, disk, appid, rootUsable, trouble) == (db, disk))
  {
    assert forall i :: 0 <= i < |db.jobs| ==> (Active(db.jobs[i].status) <==> db.jobs[i].status in {Queued, Running, Paused});
  }

  /** A depot is reported under one heading: deleted with the bytes the disk held for it, failed, or
      kept; what is reported as deleted is not on disk any more, and everything else is as it was but
      for what a failed removal left. */
  lemma ReportMeans(db: Db, disk: map<nat, nat>, appid: nat, rootUsable: bool, trouble: Trouble, d: nat)
    requires appid > 0
    ensures var (answer, now) := (AnswerFor(db, disk, appid, rootUsable, trouble), AfterDelete(db, disk, appid, rootUsable, trouble).1);
      var own := d > 0 && Row(Number(d), Number(appid)) in db.rows;
      var blocked := d in trouble.uncheckable || (d in disk && d in trouble.stuck);
      answer.Report? ==>
        && (d in answer.deleted <==> own && !Protected(db, appid, d) && !blocked)
        && (d in answer.failed <==> own && !Protected(db, appid, d) && blocked)
        && (d in answer.kept <==> own && Protected(db, appid, d))
        && (d in answer.deleted ==> answer.deleted[d] == (if d in disk then disk[d] else 0) && d !in now)
        && (d !in answer.deleted ==> (d in now <==> d in disk))
        && (d in now && d !in answer.failed ==> now[d] == disk[d])
        && (d in now && d in answer.failed ==> now[d] == if d in trouble.uncheckable then disk[d] else trouble.stuck[d])
  {
    hide Protected, CoOwners, DbAfter, UnusableIds, LoadMappingRows;
    ReleasableIs(db, appid, d);
    MappedIs(db, appid, d);
    hide MappedDepots;
  }

  lemma MappedIs(db: Db, appid: nat, d: nat)
    requires appid > 0
    ensures d in MappedDepots(db, appid) <==> d > 0 && Row(Number(d), Number(appid)) in db.rows
  {
    if d in MappedDepots(db, appid) {
      var r :| r in db.rows && r.owner == Number(appid) && CoercePositiveId(r.depot) == Some(d);
      StoredIdsAreNumbers(r.depot, d);
    }
    if d > 0 && Row(Number(d), Number(appid)) in db.rows {
      assert CoercePositiveId(Number(d)) == Some(d);
    }
  }

  /** No byte is reported twice and none that is still there: unless a failed removal has added to a
      directory, what the disk held is what it holds, what is reported as freed, and what failed
      removals have taken; with no such failure the report is exact. */
  lemma FreedIsGone(db: Db, disk: map<nat, nat>, appid: nat, rootUsable: bool, trouble: Trouble) returns (lost: map<nat, nat>)
    requires appid > 0 && forall d :: d in trouble.stuck && d in disk ==> trouble.stuck[d] <= disk[d]
    ensures var (answer, now) := (AnswerFor(db, disk, appid, rootUsable, trouble), AfterDelete(db, disk, appid, rootUsable, trouble).1);
      answer.Report? ==>
        && lost.Keys == now.Keys && (forall d :: d in now ==> d in disk && disk[d] == now[d] + lost[d])
        && Sum(disk) == Sum(now) + Sum(answer.deleted) + Sum(lost)
        && (trouble.stuck == map[] ==> Sum(disk) == Sum(now) + Sum(answer.deleted))
  {
    var answer := AnswerFor(db, disk, appid, rootUsable, trouble);
    var now := AfterDelete(db, disk, appid, rootUsable, trouble).1;
    lost := map[];
    if answer.Report? {
      hide *;
      forall d: nat ensures d in now ==> d in disk && now[d] <= disk[d]
                    ensures d in answer.deleted ==> answer.deleted[d] == (if d in disk then disk[d] else 0) && d !in now
                    ensures d in disk && d !in now ==> d in answer.deleted
                    ensures trouble.stuck == map[] && d in now ==> now[d] == disk[d] {
        ReportMeans(db, disk, appid, rootUsable, trouble, d);
      }
      lost := map d | d in now :: disk[d] - now[d];
      FreedSums(disk, now, answer.deleted, lost);
      if trouble.stuck == map[] { SumOfZeros(lost); }
    }
  }

  lemma FreedSums(disk: map<nat, nat>, now: map<nat, nat>, deleted: map<nat, nat>, lost: map<nat, nat>)
    requires lost.Keys == now.Keys && forall d :: d in now ==> d in disk && disk[d] == now[d] + lost[d]
    requires forall d :: d in deleted ==> deleted[d] == (if d in disk then disk[d] else 0) && d !in now
    requires forall d :: d in disk && d !in now ==> d in deleted
    ensures Sum(disk) == Sum(now) + Sum(deleted) + Sum(lost)
  {
    hide Sum;
    var gone := map d | d in disk && d !in now :: disk[d];
    DeletedSum(disk, gone, deleted);
    SumShrinks(disk, now, gone, lost);
  }

  lemma DeletedSum(disk: map<nat, nat>, gone: map<nat, nat>, deleted: map<nat, nat>)
    requires forall d :: d in gone ==> d in disk && d in deleted && gone[d] == disk[d]
    requires forall d :: d in deleted ==> (d in disk ==> d in gone) && deleted[d] == if d in disk then disk[d] else 0
    ensures Sum(deleted) == Sum(gone)
  {
    hide Sum;
    var absent := map d | d in deleted && d !in disk :: 0;
    SumParts(deleted, gone, absent);
    SumOfZeros(absent);
  }

  /** Another owner of a depot the request removes, or tries to. */
  predicate OwnsTouched(db: Db, appid: nat, trouble: Trouble, a: nat) {
    exists d, r ::
      && d in MappedDepots(db, appid) && !Protected(db, appid, d) && d !in trouble.uncheckable
      && r in db.rows && r.depot == Number(d) && r.owner != Number(appid) && CoercePositiveId(r.owner) == Some(a)
  }

  /** What a request that got through leaves in the tables: its app is idle, or in error if anything
      failed or could not be read, it was never filled, and must be filled by force if anything was
      deleted or failed; the readable co-owners of what was touched must be, too; nothing else moves. */
  lemma TablesAfter(db: Db, disk: map<nat, nat>, appid: nat, rootUsable: bool, trouble: Trouble, a: nat)
    requires appid > 0
    ensures var (answer, now) := (AnswerFor(db, disk, appid, rootUsable, trouble), AfterDelete(db, disk, appid, rootUsable, trouble).0);
      answer.Report? ==>
        var clean := answer.failed == {} && answer.unusable == {};
        && now.rows == db.rows && now.jobs == db.jobs && now.apps.Keys == db.apps.Keys && appid in db.apps
        && now.apps[appid].status == (if clean then AppIdle else AppError) && now.apps[appid].lastPrefill.None?
        && (a in db.apps ==>
              && (now.apps[a].needsForce <==>
                    || db.apps[a].needsForce || OwnsTouched(db, appid, trouble, a)
                    || (a == appid && (answer.deleted != map[] || !clean)))
              && (a != appid ==> now.apps[a].status == db.apps[a].status && now.apps[a].lastPrefill == db.apps[a].lastPrefill))
  {
    var answer := AnswerFor(db, disk, appid, rootUsable, trouble);
    if answer.Report? {
      UnusableRows(db, appid);
      FlaggedIs(db, disk, appid, trouble, a);
      hide OwnsTouched, Releasable, OutcomeOf, DiskAfter, HasRows, HasActiveJob, HasUnusableRow, UnusableIds, LoadMappingRows,
        MappedDepots;
    }
  }

  lemma FlaggedIs(db: Db, disk: map<nat, nat>, appid: nat, trouble: Trouble, a: nat)
    ensures a in OutcomeOf(db, disk, appid, trouble, Releasable(db, appid)).flagged <==> OwnsTouched(db, appid, trouble, a)
  {
    hide Protected, MappedDepots;
    var flagged := OutcomeOf(db, disk, appid, trouble, Releasable(db, appid)).flagged;
    if a in flagged {
      var d :| d in Releasable(db, appid) && Touched(db, disk, appid, trouble, d) && a in CoOwners(db, appid, d);
      var r :| r in db.rows && r.depot == Number(d) && r.owner != Number(appid) && CoercePositiveId(r.owner) == Some(a);
      assert d in MappedDepots(db, appid) && d !in trouble.uncheckable;
    }
    if OwnsTouched(db, appid, trouble, a) {
      var d, r :|
        && d in MappedDepots(db, appid) && !Protected(db, appid, d) && d !in trouble.uncheckable
        && r in db.rows && r.depot == Number(d) && r.owner != Number(appid) && CoercePositiveId(r.owner) == Some(a);
      assert Touched(db, disk, appid, trouble, d) && a in CoOwners(db, appid, d);
    }
  }

  /** The ids a request reports as unusable are those its app is mapped to and that do not read. */
  lemma UnusableMeans(db: Db, appid: nat, id: StoredId)
    ensures id in UnusableIds(LoadMappingRows(db, appid)) <==> Row(id, Number(appid)) in db.rows && CoercePositiveId(id).None?
  {
    if Row(id, Number(appid)) in db.rows {
      assert Row(id, Number(appid)) in LoadMappingRows(db, appid);
    }
  }

  class Vault {
    var db: Db
    var disk: map<nat, nat>

    /** One pass of the loop: recheck, then remove; `coOwners` are those the recheck listed. */
    method DeleteDepot(appid: nat, depot: nat, trouble: Trouble) returns (fate: Fate, coOwners: set<nat>)
      modifies this`disk
      ensures fate == FateOf(db, old(disk), appid, trouble, depot)
      ensures fate.Removed? || fate.Stuck? ==> coOwners == CoOwners(db, appid, depot)
      ensures disk == match fate
                      case Removed(_) => old(disk) - {depot}
                      case Stuck(left) => old(disk)[depot := left]
                      case _ => old(disk)
      ensures fate.Removed? ==> fate.freed == if depot in old(disk) then old(disk)[depot] else 0
    {
      if depot in trouble.uncheckable {
        return Unchecked, {};
      }
      var owners := LoadCoOwners(db, depot, appid);
      coOwners := owners.Keys;
      if SomeCached(owners) {
        fate := Kept;
      } else if depot !in disk {
        fate := Removed(0);
      } else if depot in trouble.stuck {
        fate := Stuck(trouble.stuck[depot]);
        disk := disk[depot := fate.left];
      } else {
        fate := Removed(disk[depot]);
        disk := disk - {depot};
      }
    }

    /** `delete_app_depots`: one recheck and at most one removal per depot. */
    method DeleteAppDepots(appid: nat, depots: set<nat>, trouble: Trouble) returns (outcome: Outcome)
      modifies this`disk
      ensures outcome == OutcomeOf(db, old(disk), appid, trouble, depots)
      ensures disk == DiskAfter(db, old(disk), appid, trouble, depots)
      ensures forall d :: d in outcome.deleted ==> outcome.deleted[d] == if d in old(disk) then old(disk)[d] else 0
    {
      outcome := Outcome(map[], {}, {}, {});
      ghost var start := disk;
      NothingDone(db, start, appid, trouble);
      hide FateOf, OutcomeOf, DiskAfter, CoOwners;
      var todo := depots;
      assert depots - todo == {};
      while todo != {}
        invariant todo <= depots
        invariant outcome == OutcomeOf(db, start, appid, trouble, depots - todo)
        invariant disk == DiskAfter(db, start, appid, trouble, depots - todo)
        invariant forall d :: d in outcome.deleted ==> outcome.deleted[d] == if d in start then start[d] else 0
        decreases |todo|
      {
        var depot :| depot in todo;
        ghost var done := depots - todo;
        OutcomeExtend(db, start, appid, trouble, done, depot);
        DiskAfterExtend(db, start, appid, trouble, done, depot);
        FateStable(db, start, disk, appid, trouble, depot);
        var fate, coOwners := DeleteDepot(appid, depot, trouble);
        outcome := outcome.Add(depot, fate, coOwners);
        todo := todo - {depot};
        assert depots - todo == done + {depot};
      }
      assert depots - todo == depots;
    }

    /** The route. Nothing is held between its phases, but run alone they see one database. */
    method DeleteCachedApp(appid: nat, rootUsable: bool, trouble: Trouble) returns (answer: Answer)
      requires appid > 0
      modifies this
      ensures answer == AnswerFor(old(db), old(disk), appid, rootUsable, trouble)
      ensures (db, disk) == AfterDelete(old(db), old(disk), appid, rootUsable, trouble)
      ensures !answer.Report? ==> db == old(db) && disk == old(disk)
      ensures answer.Report? && trouble == NoTrouble ==> Sum(old(disk)) == Sum(disk) + Sum(answer.deleted)
      ensures answer.Report? ==> forall id: StoredId ::
        id in answer.unusable <==> Row(id, Number(appid)) in old(db).rows && CoercePositiveId(id).None?
      ensures answer.Report? ==> forall d :: d in answer.deleted ==> answer.deleted[d] == if d in old(disk) then old(disk)[d] else 0
    {
      hide DbAfter, OutcomeOf, DiskAfter, Releasable, MappedDepots, UnusableIds, LoadMappingRows, HasUnusableRow, HasRows,
        HasActiveJob, VerdictOf, Judge, DeletionPlan.Consistent, LoadCoOwnerStates, OtherOwnerIds, CleanRun, OwnersOf;
      if appid !in db.apps {
        return UnknownApp;
      }
      var rows := LoadMappingRows(db, appid);
      UnusableRows(db, appid);
      if rows == {} {
        return NothingMapped;
      }
      var states := LoadCoOwnerStates(db, OtherOwnerIds(rows, appid));
      if HasActiveJob(db.jobs, appid) {
        return JobActive;
      }
      var plan := PlanDeletion(rows, appid, states);
      if !rootUsable {
        return RootRefused;
      }
      var outcome := DeleteAppDepots(appid, plan.exclusive + plan.remnant.Keys, trouble);
      forall id: StoredId ensures id in plan.unusable <==> Row(id, Number(appid)) in db.rows && CoercePositiveId(id).None? {
        UnusableMeans(db, appid, id);
      }
      Proceeded(db, old(disk), appid, trouble, plan, outcome);
      hide AnswerFor, AfterDelete;
      var clean := outcome.failed == {} && plan.unusable == {};
      db := DbAfter(db, appid, clean, outcome.deleted != map[], outcome.flagged);
      answer := Report(outcome.deleted, outcome.failed, plan.unusable, plan.shared.Keys + outcome.kept);
      if trouble == NoTrouble {
        ghost var lost := FreedIsGone(old(db), old(disk), appid, rootUsable, trouble);
      }
    }
  }
}
