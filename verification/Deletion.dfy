/** Per-game cache deletion: which depots an app may take with it, decided once from a plan
    and once again immediately before each removal. */
module Deletion {
  import opened Options
  import opened Tables

  // ---------------------------------------------------------------- the plan

  datatype DeletionPlan = DeletionPlan(
    exclusive: set<nat>,
    remnant: map<nat, set<nat>>,
    shared: map<nat, set<nat>>,
    unusable: set<RawId>)
  {
    /** Each depot is listed under one heading only. */
    ghost predicate Consistent() {
      && (forall d :: d in remnant ==> VerdictOf(this, d) == Remnant(remnant[d]))
      && (forall d :: d in shared ==> VerdictOf(this, d) == Shared(shared[d]))
    }
  }

  datatype Verdict = NotMapped | Exclusive | Remnant(coOwners: set<nat>) | Shared(coOwners: set<nat>)

  /** The readable owners of a depot among `rows`, and `None` for an unreadable one. */
  function OwnersOf(rows: set<Row>, depot: nat): set<Option<nat>> {
    set r | r in rows && CoercePositiveId(r.depot) == Some(depot) :: CoercePositiveId(r.owner)
  }

  function OtherIds(owners: set<Option<nat>>, appid: nat): set<nat> {
    set o | o in owners && o.Some? && o.value != appid :: o.value
  }

  predicate CountsAsCached(states: map<nat, bool>, owner: nat) {
    owner in states ==> states[owner]
  }

  predicate AnyCached(states: map<nat, bool>, owners: set<nat>) {
    exists o :: o in owners && CountsAsCached(states, o)
  }

  /** What the plan owes an app for one depot, given every owner of that depot. */
  function Judge(owners: set<Option<nat>>, appid: nat, states: map<nat, bool>): Verdict {
    var others := OtherIds(owners, appid);
    if Some(appid) !in owners then NotMapped
    else if None in owners then Shared(others)
    else if others == {} then Exclusive
    else if AnyCached(states, others) then Shared(others)
    else Remnant(others)
  }

  function VerdictOf(plan: DeletionPlan, depot: nat): Verdict {
    if depot in plan.exclusive then Exclusive
    else if depot in plan.remnant then Remnant(plan.remnant[depot])
    else if depot in plan.shared then Shared(plan.shared[depot])
    else NotMapped
  }

  /** What the first loop over the rows accumulates. */
  datatype Claims = Claims(own: set<nat>, others: map<nat, set<nat>>, unreadable: set<nat>, unusable: set<RawId>) {
    function OthersOf(depot: nat): set<nat> {
      if depot in others then others[depot] else {}
    }

    function Count(r: Row, appid: nat): Claims {
      match CoercePositiveId(r.depot)
      case None => this.(unusable := unusable + {r.depot})
      case Some(depot) =>
        match CoercePositiveId(r.owner)
        case None => this.(unreadable := unreadable + {depot})
        case Some(owner) =>
          if owner == appid then this.(own := own + {depot})
          else this.(others := others[depot := OthersOf(depot) + {owner}])
    }

    ghost predicate Agrees(rows: set<Row>, appid: nat, depot: nat) {
      && (depot in own <==> Some(appid) in OwnersOf(rows, depot))
      && (depot in unreadable <==> None in OwnersOf(rows, depot))
      && OthersOf(depot) == OtherIds(OwnersOf(rows, depot), appid)
      && (depot in others ==> others[depot] != {})
    }

    ghost predicate Describes(rows: set<Row>, appid: nat) {
      && (forall d: nat :: Agrees(rows, appid, d))
      && unusable == UnusableIds(rows)
    }
  }

  function UnusableIds(rows: set<Row>): set<RawId> {
    set r | r in rows && CoercePositiveId(r.depot).None? :: r.depot
  }

  lemma OwnersOfExtend(rows: set<Row>, r: Row, depot: nat)
    ensures OwnersOf(rows + {r}, depot)
         == OwnersOf(rows, depot)
            + (if CoercePositiveId(r.depot) == Some(depot) then {CoercePositiveId(r.owner)} else {})
  {
  }

  lemma OtherIdsExtend(owners: set<Option<nat>>, o: Option<nat>, appid: nat)
    ensures OtherIds(owners + {o}, appid)
         == OtherIds(owners, appid) + (if o.Some? && o.value != appid then {o.value} else {})
  {
  }

  lemma CountAgrees(t: Claims, rows: set<Row>, r: Row, appid: nat, depot: nat)
    requires t.Agrees(rows, appid, depot)
    ensures t.Count(r, appid).Agrees(rows + {r}, appid, depot)
  {
    OwnersOfExtend(rows, r, depot);
    if CoercePositiveId(r.depot) == Some(depot) {
      OtherIdsExtend(OwnersOf(rows, depot), CoercePositiveId(r.owner), appid);
    }
  }

  lemma UnusableIdsExtend(rows: set<Row>, r: Row)
    ensures UnusableIds(rows + {r})
         == UnusableIds(rows) + (if CoercePositiveId(r.depot).None? then {r.depot} else {})
  {
  }

  lemma CountDescribes(t: Claims, rows: set<Row>, r: Row, appid: nat)
    requires t.Describes(rows, appid)
    ensures t.Count(r, appid).Describes(rows + {r}, appid)
  {
    forall d: nat ensures t.Count(r, appid).Agrees(rows + {r}, appid, d) {
      CountAgrees(t, rows, r, appid, d);
    }
    UnusableIdsExtend(rows, r);
  }

  method GroupClaims(rows: set<Row>, appid: nat) returns (t: Claims)
    ensures t.Describes(rows, appid)
  {
    t := Claims({}, map[], {}, {});
    var rest := rows;
    ghost var read: set<Row> := {};
    while rest != {}
      invariant read + rest == rows
      invariant t.Describes(read, appid)
      decreases |rest|
    {
      var r :| r in rest;
      CountDescribes(t, read, r, appid);
      t := t.Count(r, appid);
      rest := rest - {r};
      read := read + {r};
    }
    assert read == rows;
  }

  /** The second loop's branches, read off the accumulators. */
  function VerdictFrom(t: Claims, states: map<nat, bool>, d: nat): Verdict {
    if d !in t.own then NotMapped
    else if d in t.unreadable then Shared(t.OthersOf(d))
    else if d !in t.others then Exclusive
    else if AnyCached(states, t.others[d]) then Shared(t.others[d])
    else Remnant(t.others[d])
  }

  lemma ClaimsJudge(t: Claims, rows: set<Row>, appid: nat, states: map<nat, bool>, d: nat)
    requires t.Describes(rows, appid)
    ensures VerdictFrom(t, states, d) == Judge(OwnersOf(rows, d), appid, states)
  {
    assert t.Agrees(rows, appid, d);
  }

  method Classify(t: Claims, states: map<nat, bool>) returns (plan: DeletionPlan)
    ensures forall d: nat :: VerdictOf(plan, d) == VerdictFrom(t, states, d)
    ensures plan.unusable == t.unusable
    ensures plan.Consistent()
  {
    hide VerdictFrom, AnyCached, Claims.OthersOf;
    var exclusive := set d | d in t.own && d !in t.others && d !in t.unreadable;
    var shared, remnant: map<nat, set<nat>> := map[], map[];
    var contested := t.own * (t.others.Keys + t.unreadable);
    var todo := contested;
    while todo != {}
      invariant todo <= contested
      invariant forall d :: d in shared ==> d in contested - todo && Shared(shared[d]) == VerdictFrom(t, states, d)
      invariant forall d :: d in remnant ==> d in contested - todo && Remnant(remnant[d]) == VerdictFrom(t, states, d)
      invariant forall d :: d in contested - todo ==> d in shared || d in remnant
      decreases |todo|
    {
      var d :| d in todo;
      todo := todo - {d};
      VerdictByBranch(t, states, d);
      if d in t.unreadable || AnyCached(states, t.others[d]) {
        shared := shared[d := t.OthersOf(d)];
      } else {
        remnant := remnant[d := t.others[d]];
      }
    }
    plan := DeletionPlan(exclusive, remnant, shared, t.unusable);
    forall d: nat ensures VerdictOf(plan, d) == VerdictFrom(t, states, d) {
      assert d in contested <==> d in t.own && (d in t.others || d in t.unreadable);
      VerdictByBranch(t, states, d);
    }
  }

  lemma VerdictByBranch(t: Claims, states: map<nat, bool>, d: nat)
    ensures VerdictFrom(t, states, d) ==
      if d !in t.own then NotMapped
      else if d !in t.others && d !in t.unreadable then Exclusive
      else if d in t.unreadable || AnyCached(states, t.others[d]) then Shared(t.OthersOf(d))
      else Remnant(t.others[d])
  {
    hide AnyCached;
  }

  method PlanDeletion(rows: set<Row>, appid: nat, states: map<nat, bool>) returns (plan: DeletionPlan)
    ensures forall d: nat :: VerdictOf(plan, d) == Judge(OwnersOf(rows, d), appid, states)
    ensures plan.unusable == UnusableIds(rows)
    ensures plan.Consistent()
  {
    var t := GroupClaims(rows, appid);
    plan := Classify(t, states);
    forall d: nat ensures VerdictOf(plan, d) == Judge(OwnersOf(rows, d), appid, states) {
      ClaimsJudge(t, rows, appid, states, d);
    }
  }

  // ---------------------------------------------------------------- plan and recheck agree

  /** `load_mapping_rows`: every row of every depot the app maps. */
  function LoadMappingRows(db: Db, appid: nat): set<Row> {
    set r | r in db.rows && Row(r.depot, Number(appid)) in db.rows
  }

  /** `load_co_owner_states`: ids without an `apps` row are absent. */
  function LoadCoOwnerStates(db: Db, owners: set<nat>): map<nat, bool> {
    map o | o in owners && o in db.apps :: HasContent(db, o)
  }

  function OtherOwnerIds(rows: set<Row>, appid: nat): set<nat> {
    set r | r in rows && CoercePositiveId(r.owner).Some? && CoercePositiveId(r.owner).value != appid
      :: CoercePositiveId(r.owner).value
  }

  predicate MayDelete(verdict: Verdict) {
    verdict.Exclusive? || verdict.Remnant?
  }

  /** Readable co-owners of a depot, as `load_co_owners` lists them. */
  function CoOwners(db: Db, appid: nat, depot: nat): set<nat> {
    set r | r in db.rows && r.depot == Number(depot) && r.owner != Number(appid)
            && CoercePositiveId(r.owner).Some? :: CoercePositiveId(r.owner).value
  }

  lemma StoredIdsAreNumbers(id: StoredId, n: nat)
    requires n > 0
    ensures CoercePositiveId(id) == Some(n) <==> id == Number(n)
  {
  }

  lemma OwnersOfMapped(db: Db, appid: nat, depot: nat)
    requires appid > 0 && depot > 0 && Owns(db, appid, depot)
    ensures OwnersOf(LoadMappingRows(db, appid), depot)
         == set r | r in db.rows && r.depot == Number(depot) :: CoercePositiveId(r.owner)
    ensures OtherIds(OwnersOf(LoadMappingRows(db, appid), depot), appid) == CoOwners(db, appid, depot)
  {
    var rows := LoadMappingRows(db, appid);
    var all := set r | r in db.rows && r.depot == Number(depot) :: CoercePositiveId(r.owner);
    forall r | r in db.rows ensures r in rows && CoercePositiveId(r.depot) == Some(depot) <==> r.depot == Number(depot) {
      StoredIdsAreNumbers(r.depot, depot);
    }
    forall o | o in OtherIds(all, appid) ensures o in CoOwners(db, appid, depot) {
      var r :| r in db.rows && r.depot == Number(depot) && CoercePositiveId(r.owner) == Some(o);
      assert r.owner != Number(appid);
    }
    forall o | o in CoOwners(db, appid, depot) ensures o in OtherIds(all, appid) {
      var r :| r in db.rows && r.depot == Number(depot) && r.owner != Number(appid) && CoercePositiveId(r.owner) == Some(o);
      StoredIdsAreNumbers(r.owner, appid);
      assert Some(o) in all;
    }
  }

  /** What the plan of one request decides about a depot. */
  function PlannedVerdict(db: Db, appid: nat, depot: nat): Verdict {
    var rows := LoadMappingRows(db, appid);
    Judge(OwnersOf(rows, depot), appid, LoadCoOwnerStates(db, OtherOwnerIds(rows, appid)))
  }

  /** On one database the plan and the recheck before removal reach the same decision: the plan
      releases exactly the mapped depots that no other claim protects, and its remnant lists are
      the recheck's co-owners. */
  lemma PlanAgreesWithRecheck(db: Db, appid: nat, depot: nat)
    requires appid > 0 && depot > 0
    ensures var verdict := PlannedVerdict(db, appid, depot);
            && (MayDelete(verdict) <==> Owns(db, appid, depot) && !Protected(db, appid, depot))
            && (verdict.Remnant? ==> verdict.coOwners == CoOwners(db, appid, depot))
            && (verdict.Shared? ==> Owns(db, appid, depot) && Protected(db, appid, depot) && verdict.coOwners == CoOwners(db, appid, depot))
            && (verdict.Exclusive? ==> CoOwners(db, appid, depot) == {})
            && (verdict.NotMapped? <==> !Owns(db, appid, depot))
  {
    var rows := LoadMappingRows(db, appid);
    var states := LoadCoOwnerStates(db, OtherOwnerIds(rows, appid));
    var owners := OwnersOf(rows, depot);
    if Some(appid) in owners {
      var r :| r in rows && CoercePositiveId(r.depot) == Some(depot) && CoercePositiveId(r.owner) == Some(appid);
      StoredIdsAreNumbers(r.depot, depot);
      StoredIdsAreNumbers(r.owner, appid);
    }
    if Owns(db, appid, depot) {
      OwnersOfMapped(db, appid, depot);
      assert Row(Number(depot), Number(appid)) in db.rows;
      assert Some(appid) in owners;
      forall r | r in db.rows && r.depot == Number(depot) && r.owner != Number(appid)
        ensures CoercePositiveId(r.owner) in owners
        ensures CoercePositiveId(r.owner) != Some(appid)
        ensures CoercePositiveId(r.owner).Some? ==>
                  var o := CoercePositiveId(r.owner).value;
                  o in OtherIds(owners, appid) && (CountsAsCached(states, o) <==> HasContent(db, o))
      {
        StoredIdsAreNumbers(r.owner, appid);
        assert r in rows;
      }
      forall o | o in OtherIds(owners, appid)
        ensures exists r :: r in db.rows && r.depot == Number(depot) && r.owner != Number(appid)
                            && CoercePositiveId(r.owner) == Some(o)
      {
        assert o in CoOwners(db, appid, depot);
      }
      if None in owners {
        var r :| r in db.rows && r.depot == Number(depot) && CoercePositiveId(r.owner) == None;
        assert r.owner != Number(appid);
      }
    }
  }
}
