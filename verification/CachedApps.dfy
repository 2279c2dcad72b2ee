/** The bulk question the scheduler and the "check all cached games" route share: which apps
    hold cache content, answered from one read of the mapping table. */
module CachedApps {
  import opened CacheDelete
  import opened Deletion
  import opened Options
  import opened Reclaim
  import opened Tables

  /** The app's own deletion plan has a depot to delete that has bytes on disk. */
  predicate HoldsContent(db: Db, depotBytes: map<nat, nat>, appid: nat) {
    exists d :: d in Releasable(db, appid) && d in depotBytes
  }

  /** The one read, regrouped in memory. */
  datatype Grouping = Grouping(
    groups: map<StoredId, set<Row>>,
    states: map<nat, bool>,
    ownKeys: map<nat, set<StoredId>>)
  {
    function Add(db: Db, r: Row): Grouping {
      var grouped := groups[r.depot := (if r.depot in groups then groups[r.depot] else {}) + {r}];
      match CoercePositiveId(r.owner)
      case None => this.(groups := grouped)
      case Some(owner) =>
        Grouping(grouped,
                 states[owner := HasContent(db, owner)],
                 ownKeys[owner := (if owner in ownKeys then ownKeys[owner] else {}) + {r.depot}])
    }

    ghost predicate Describes(db: Db, rows: set<Row>) {
      && (forall r :: r in rows ==> r.depot in groups && r in groups[r.depot])
      && (forall k :: k in groups ==> forall r :: r in groups[k] ==> r in rows && r.depot == k)
      && (forall o :: o in states ==> states[o] == HasContent(db, o))
      && (forall o :: o in ownKeys ==> o in states && o > 0 && ownKeys[o] != {})
      && (forall o, k :: o in ownKeys && k in ownKeys[o] ==> Row(k, Number(o)) in rows)
      && (forall r :: r in rows && CoercePositiveId(r.owner).Some? ==>
            CoercePositiveId(r.owner).value in ownKeys && r.depot in ownKeys[CoercePositiveId(r.owner).value])
    }
  }

  lemma AddDescribes(g: Grouping, db: Db, rows: set<Row>, r: Row)
    requires g.Describes(db, rows)
    ensures g.Add(db, r).Describes(db, rows + {r})
  {
    if CoercePositiveId(r.owner).Some? {
      StoredIdsAreNumbers(r.owner, CoercePositiveId(r.owner).value);
    }
  }

  method GroupRows(db: Db) returns (g: Grouping)
    ensures g.Describes(db, db.rows)
  {
    g := Grouping(map[], map[], map[]);
    var rest := db.rows;
    ghost var read: set<Row> := {};
    assert g.Describes(db, read);
    hide Grouping.Describes, Grouping.Add;
    while rest != {}
      invariant read + rest == db.rows
      invariant g.Describes(db, read)
      decreases |rest|
    {
      var r :| r in rest;
      AddDescribes(g, db, read, r);
      g := g.Add(db, r);
      rest := rest - {r};
      read := read + {r};
    }
    assert read == db.rows;
  }

  /** What the rebuilt slice of one app holds. */
  function RowsFor(g: Grouping, appid: nat): set<Row>
    requires appid in g.ownKeys
  {
    set k, r | k in g.ownKeys[appid] && k in g.groups && r in g.groups[k] :: r
  }

  lemma RowsForIsOwnSlice(g: Grouping, db: Db, appid: nat)
    requires g.Describes(db, db.rows) && appid in g.ownKeys
    ensures RowsFor(g, appid) == LoadMappingRows(db, appid)
  {
  }

  /** The bulk owner states judge like the states one DELETE loads for itself. */
  lemma BulkStatesJudgeAlike(g: Grouping, db: Db, appid: nat, depot: nat)
    requires g.Describes(db, db.rows)
    ensures Judge(OwnersOf(LoadMappingRows(db, appid), depot), appid, g.states) == PlannedVerdict(db, appid, depot)
  {
    var rows := LoadMappingRows(db, appid);
    var states := LoadCoOwnerStates(db, OtherOwnerIds(rows, appid));
    var others := OtherIds(OwnersOf(rows, depot), appid);
    forall o | o in others ensures CountsAsCached(states, o) == CountsAsCached(g.states, o) {
      OtherIsListed(rows, appid, depot, o);
      assert o in states <==> o in db.apps;
    }
    hide OwnersOf, OtherIds, LoadMappingRows, LoadCoOwnerStates, OtherOwnerIds, CountsAsCached;
  }

  lemma OtherIsListed(rows: set<Row>, appid: nat, depot: nat, o: nat)
    requires o in OtherIds(OwnersOf(rows, depot), appid)
    ensures o in OtherOwnerIds(rows, appid)
  {
    var r :| r in rows && CoercePositiveId(r.owner) == Some(o);
    assert o in OtherOwnerIds(rows, appid);
  }

  method AppidsWithCacheContent(db: Db, depotBytes: map<nat, nat>) returns (result: set<nat>)
    ensures forall a :: a in result <==> a > 0 && HoldsContent(db, depotBytes, a)
  {
    result := {};
    if depotBytes == map[] {
      return;
    }
    var g := GroupRows(db);
    HoldersAreKeyed(g, db, depotBytes);
    hide Releasable, Protected, MappedDepots, Judge, OwnersOf, VerdictOf, PlannedVerdict, Grouping.Describes;
    var todo := g.ownKeys.Keys;
    while todo != {}
      invariant todo <= g.ownKeys.Keys
      invariant forall a :: a in result <==> a in g.ownKeys.Keys - todo && HoldsContent(db, depotBytes, a)
      decreases |todo|
    {
      var appid :| appid in todo;
      todo := todo - {appid};
      var plan := PlanDeletion(RowsFor(g, appid), appid, g.states);
      var candidates := plan.exclusive + plan.remnant.Keys;
      assert candidates == Releasable(db, appid) by {
        RowsForIsOwnSlice(g, db, appid);
        forall d: nat ensures VerdictOf(plan, d) == PlannedVerdict(db, appid, d) {
          BulkStatesJudgeAlike(g, db, appid, d);
        }
        PlanReleases(db, appid, plan);
      }
      if exists d :: d in candidates && d in depotBytes {
        result := result + {appid};
      }
    }
  }

  lemma HoldersAreKeyed(g: Grouping, db: Db, depotBytes: map<nat, nat>)
    requires g.Describes(db, db.rows)
    ensures forall a: nat :: a > 0 && HoldsContent(db, depotBytes, a) ==> a in g.ownKeys
    ensures forall a: nat :: a in g.ownKeys ==> a > 0
  {
    forall a: nat | a > 0 && HoldsContent(db, depotBytes, a) ensures a in g.ownKeys {
      var d :| d in Releasable(db, a);
    }
  }

  /** Right after a deletion without failures the app is not in the answer, and every depot that
      an app with cache content shares with it still has all its bytes. */
  lemma DeletedAppDropsOut(db: Db, disk: map<nat, nat>, appid: nat)
    requires appid > 0 && Accepts(db, appid)
    ensures var (after, left) := AfterDelete(db, disk, appid, true, NoTrouble);
      && !HoldsContent(after, left, appid)
      && (forall d, o: nat :: o > 0 && o != appid && Owns(db, o, d) && HasContent(db, o) ==>
            (d in left <==> d in disk) && (d in left ==> left[d] == disk[d]))
  {
    OneDeletion(db, disk, appid);
    var (after, left) := AfterDelete(db, disk, appid, true, NoTrouble);
    forall r | r in db.rows && r.owner != Number(appid)
      ensures OwnerHasContent(after, r.owner) <==> OwnerHasContent(db, r.owner)
    {
      if CoercePositiveId(r.owner) == Some(appid) { StoredIdsAreNumbers(r.owner, appid); }
    }
    forall d: nat | d in Releasable(after, appid) ensures d !in left {
      assert d in Releasable(db, appid);
    }
    forall d: nat, o: nat | o > 0 && o != appid && Owns(db, o, d) && HasContent(db, o)
      ensures d !in Releasable(db, appid)
    {
      ReleasableIs(db, appid, d);
      assert OtherClaim(Row(Number(d), Number(o)), appid, d);
    }
  }

  /** ... and the shared bytes are handed on: a depot on disk whose only other claims belong to
      apps without content is attributed to its last cached owner from then on. */
  lemma SharedDepotPassesOn(db: Db, disk: map<nat, nat>, appid: nat, heir: nat, depot: nat)
    requires appid > 0 && heir > 0 && depot > 0 && heir != appid
    requires Accepts(db, appid) && !HasUnusableRow(db, appid)
    requires Owns(db, appid, depot) && Owns(db, heir, depot) && HasContent(db, heir) && depot in disk
    requires forall r :: r in db.rows && r.depot == Number(depot) && r.owner != Number(heir) && r.owner != Number(appid)
               ==> !OwnerHasContent(db, r.owner)
    ensures var (after, left) := AfterDelete(db, disk, appid, true, NoTrouble);
      depot in left && HoldsContent(after, left, heir)
  {
    OneDeletion(db, disk, appid);
    DeletedAppDropsOut(db, disk, appid);
    var (after, left) := AfterDelete(db, disk, appid, true, NoTrouble);
    forall r | r in db.rows && OtherClaim(r, heir, depot) ensures !OwnerHasContent(after, r.owner) {
      if CoercePositiveId(r.owner).Some? { StoredIdsAreNumbers(r.owner, CoercePositiveId(r.owner).value); }
    }
    ReleasableIs(after, heir, depot);
  }
}
