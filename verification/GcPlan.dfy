/** The plan of one collection run, and what more evidence can and cannot change about it. */
module GcPlan {
  import opened CacheDelete
  import opened Deletion
  import opened ExtraManifests
  import opened Gc
  import opened Options
  import opened StringOrder
  import opened Tables

  datatype Status = Planned | MissingDir | Unmapped | UnreadableOwner | NoCountingApps | NoManifest

  /** One stored id with several copies: the newest stays, the rest may go. */
  datatype Candidate = Candidate(keep: string, duplicates: set<string>)

  datatype DepotPlan = DepotPlan(
    depot: nat,
    status: Status,
    keep: set<string>,
    orphans: map<string, nat>,
    dedupe: map<string, Candidate>)

  // ---------------------------------------------------------------- the keep set

  ghost function GateOf(e: Evidence, depot: nat, manifests: map<string, map<string, Copy>>, apps: set<MappedApp>): Status {
    if apps == {} then Unmapped
    else if exists a :: a in apps && a.appid == 0 then UnreadableOwner
    else if forall a :: a in apps ==> !Counting(a) then NoCountingApps
    else if exists a :: a in apps && Counting(a) && CurrentChunks(e, depot, manifests, a).None? then NoManifest
    else Planned
  }

  ghost predicate Requires(e: Evidence, depot: nat, manifests: map<string, map<string, Copy>>, a: MappedApp, chunk: string) {
    Counting(a) && CurrentChunks(e, depot, manifests, a).Some? && chunk in CurrentChunks(e, depot, manifests, a).value
  }

  ghost predicate Adds(e: Evidence, depot: nat, manifests: map<string, map<string, Copy>>, id: string, chunk: string) {
    ValidManifestId(id) && ChunksOf(e, depot, manifests, id).Some? && chunk in ChunksOf(e, depot, manifests, id).value
  }

  /** What a planned depot keeps: every chunk of a counting app's current manifest, and every
      chunk of a readable extra manifest. */
  ghost predicate Kept(e: Evidence, depot: nat, manifests: map<string, map<string, Copy>>, apps: set<MappedApp>,
                       extras: seq<string>, chunk: string) {
    || (exists a :: a in apps && Requires(e, depot, manifests, a, chunk))
    || (exists id :: id in UsedExtras(extras) && Adds(e, depot, manifests, id, chunk))
  }

  method ResolveAppManifest(e: Evidence, depot: nat, manifests: map<string, map<string, Copy>>, app: MappedApp)
    returns (chunks: Option<set<string>>)
    ensures chunks == CurrentChunks(e, depot, manifests, app)
  {
    if app.recorded.Some? {
      if !ValidManifestId(app.recorded.value) {
        return None;
      }
      chunks := ReadManifestById(e, depot, manifests, app.recorded.value);
      return;
    }
    var newest := NewestStoredId(manifests);
    if newest.None? {
      return None;
    }
    NewestIsThe(manifests, newest.value);
    chunks := TryStoredCopies(e.parse, depot, newest.value, manifests[newest.value]);
  }

  lemma NewestIsThe(manifests: map<string, map<string, Copy>>, id: string)
    requires IsNewestId(manifests, id)
    ensures forall other :: IsNewestId(manifests, other) ==> other == id
  {
    forall other | IsNewestId(manifests, other) ensures other == id {
      OneNewestId(manifests, other, id);
    }
  }

  /** The counting apps one by one; the keep set is of use only when all of them resolved. */
  method RequiredChunks(e: Evidence, depot: nat, counting: set<MappedApp>, manifests: map<string, map<string, Copy>>)
    returns (allResolved: bool, keep: set<string>)
    requires forall a :: a in counting ==> Counting(a)
    ensures allResolved <==> forall a :: a in counting ==> CurrentChunks(e, depot, manifests, a).Some?
    ensures forall c :: c in keep <==> exists a :: a in counting && Requires(e, depot, manifests, a, c)
  {
    hide CurrentChunks;
    allResolved, keep := true, {};
    var todo := counting;
    while todo != {}
      invariant todo <= counting
      invariant allResolved <==> forall a :: a in counting - todo ==> CurrentChunks(e, depot, manifests, a).Some?
      invariant forall c :: c in keep <==> exists a :: a in counting - todo && Requires(e, depot, manifests, a, c)
      decreases |todo|
    {
      var app :| app in todo;
      ghost var done := counting - todo;
      todo := todo - {app};
      assert counting - todo == done + {app};
      var parsed := ResolveAppManifest(e, depot, manifests, app);
      if parsed.None? {
        allResolved := false;
      } else {
        keep := keep + parsed.value;
      }
    }
    assert counting - todo == counting;
  }

  /** `_union_extra_manifests`: extras only ever add to the keep set. */
  method UnionExtraManifests(e: Evidence, depot: nat, manifests: map<string, map<string, Copy>>, extras: seq<string>,
                             required: set<string>)
    returns (keep: set<string>)
    ensures forall c :: c in keep <==>
      c in required || exists id :: id in UsedExtras(extras) && Adds(e, depot, manifests, id, c)
  {
    keep := required;
    var ordered := OrderExtras(extras);
    FirstAreUsed(ordered, extras);
    var used := if |ordered| <= MAX_EXTRA_MANIFESTS then ordered else ordered[..MAX_EXTRA_MANIFESTS];
    forall id | id in used ensures ValidManifestId(id) { UsedIsValid(extras, id); }
    hide ValidManifestId, UsedExtras, ChunksOf;
    for i := 0 to |used|
      invariant forall c :: c in keep <==>
        c in required || exists k :: 0 <= k < i && Adds(e, depot, manifests, used[k], c)
    {
      var parsed := ReadManifestById(e, depot, manifests, used[i]);
      if parsed.Some? {
        keep := keep + parsed.value;
      }
    }
    forall c ensures c in keep <==>
      c in required || exists id :: id in UsedExtras(extras) && Adds(e, depot, manifests, id, c)
    {
      if id :| id in UsedExtras(extras) && Adds(e, depot, manifests, id, c) {
        var k :| 0 <= k < |used| && used[k] == id;
      }
    }
  }

  method ResolveDepotChunkset(e: Evidence, depot: nat, apps: set<MappedApp>, manifests: map<string, map<string, Copy>>,
                              extras: seq<string>)
    returns (status: Status, keep: set<string>)
    ensures status == GateOf(e, depot, manifests, apps)
    ensures status == Planned ==> forall c :: c in keep <==> Kept(e, depot, manifests, apps, extras, c)
    ensures status != Planned ==> keep == {}
  {
    if apps == {} {
      return Unmapped, {};
    }
    if exists a :: a in apps && a.appid == 0 {
      return UnreadableOwner, {};
    }
    var counting := set a | a in apps && Counting(a);
    if counting == {} {
      assert forall a :: a in apps ==> a !in counting;
      return NoCountingApps, {};
    }
    hide CurrentChunks;
    var allResolved, required := RequiredChunks(e, depot, counting, manifests);
    if !allResolved {
      assert exists a :: a in counting && CurrentChunks(e, depot, manifests, a).None?;
      return NoManifest, {};
    }
    status := Planned;
    keep := UnionExtraManifests(e, depot, manifests, extras, required);
  }

  // ---------------------------------------------------------------- one depot

  ghost predicate CandidateFor(copies: map<string, Copy>, c: Candidate) {
    && IsHead(copies, c.keep)
    && c.duplicates != {}
    && forall n :: n in c.duplicates <==> n in copies && copies[n].Copy? && n != c.keep
  }

  /** Stored more than once: two copies of one valid id. */
  predicate StoredTwice(manifests: map<string, map<string, Copy>>, id: string) {
    && id in manifests && ValidManifestId(id)
    && exists n, m :: n in manifests[id] && m in manifests[id] && n != m && manifests[id][n].Copy? && manifests[id][m].Copy?
  }

  ghost predicate DedupeDescribes(dedupe: map<string, Candidate>, manifests: map<string, map<string, Copy>>) {
    && (forall id :: id in dedupe <==> StoredTwice(manifests, id))
    && (forall id :: id in dedupe ==> id in manifests && CandidateFor(manifests[id], dedupe[id]))
  }

  /** What a plan of an existing depot directory says, declaratively. */
  ghost predicate PlanDescribes(plan: DepotPlan, e: Evidence, depot: nat, dir: DepotDir, apps: set<MappedApp>, extras: seq<string>) {
    && plan.depot == depot
    && plan.status == GateOf(e, depot, dir.manifests, apps)
    && (plan.status == Planned ==> forall c :: c in plan.keep <==> Kept(e, depot, dir.manifests, apps, extras, c))
    && (plan.status == Planned ==> plan.orphans == map n | n in ScanChunks(dir.chunks) && n !in plan.keep :: ScanChunks(dir.chunks)[n])
    && (plan.status != Planned ==> plan.orphans == map[])
    && DedupeDescribes(plan.dedupe, dir.manifests)
  }

  /** `dedupe_candidates`: one candidate for every id stored more than once, skipped depot or not. */
  method DedupeCandidates(manifests: map<string, map<string, Copy>>) returns (dedupe: map<string, Candidate>)
    ensures DedupeDescribes(dedupe, manifests)
  {
    hide StoredTwice, CandidateFor, ValidManifestId, NewestFirst;
    dedupe := map[];
    var todo := manifests.Keys;
    while todo != {}
      invariant todo <= manifests.Keys
      invariant forall id :: id in dedupe <==> id in manifests.Keys - todo && StoredTwice(manifests, id)
      invariant forall id :: id in dedupe ==> id in manifests && CandidateFor(manifests[id], dedupe[id])
      decreases |todo|
    {
      var id :| id in todo;
      todo := todo - {id};
      StoredTwiceIsValid(manifests, id);
      if ValidManifestId(id) {
        var names := ScanCopies(manifests[id]);
        ScanShowsDuplicates(manifests, id, names);
        if |names| > 1 {
          dedupe := dedupe[id := Candidate(names[0], set n | n in names[1..])];
        }
      }
    }
    OnlyStoredTwice(manifests);
  }

  lemma StoredTwiceIsValid(manifests: map<string, map<string, Copy>>, id: string)
    ensures StoredTwice(manifests, id) ==> ValidManifestId(id)
  {
  }

  lemma OnlyStoredTwice(manifests: map<string, map<string, Copy>>)
    ensures forall id :: StoredTwice(manifests, id) ==> id in manifests
  {
  }

  /** Newest first, the head is kept and the rest are its duplicates. */
  lemma ScanShowsDuplicates(manifests: map<string, map<string, Copy>>, id: string, names: seq<string>)
    requires id in manifests && ValidManifestId(id) && NewestFirst(manifests[id], names)
    ensures StoredTwice(manifests, id) <==> |names| > 1
    ensures |names| > 1 ==> CandidateFor(manifests[id], Candidate(names[0], set n | n in names[1..]))
  {
    hide ValidManifestId;
    var copies := manifests[id];
    if |names| > 1 {
      HeadOfScan(copies, names);
      assert names[1] in names[1..] && NewerCopy(copies, names[0], names[1]);
      Trichotomy(names[0], names[1]);
      assert names[0] in manifests[id] && names[1] in manifests[id] && names[0] != names[1];
      assert StoredTwice(manifests, id);
      var rest := set n | n in names[1..];
      assert names[1] in rest;
      forall n ensures n in rest <==> n in copies && copies[n].Copy? && n != names[0] {
        if n in names[1..] {
          var k :| 0 < k < |names| && names[k] == n;
          assert NewerCopy(copies, names[0], n);
          Trichotomy(names[0], n);
        }
        if n in copies && copies[n].Copy? && n != names[0] {
          var k :| 0 <= k < |names| && names[k] == n;
          assert names[1..][k - 1] == n;
        }
      }
    }
  }

  method PlanOneDepot(e: Evidence, depot: nat, apps: set<MappedApp>, dir: Option<DepotDir>, extras: seq<string>)
    returns (plan: DepotPlan)
    ensures dir.None? ==> plan == DepotPlan(depot, MissingDir, {}, map[], map[])
    ensures dir.Some? ==> PlanDescribes(plan, e, depot, dir.value, apps, extras)
  {
    if dir.None? {
      return DepotPlan(depot, MissingDir, {}, map[], map[]);
    }
    var onDisk := ScanChunks(dir.value.chunks);
    var dedupe := DedupeCandidates(dir.value.manifests);
    var status, keep := ResolveDepotChunkset(e, depot, apps, dir.value.manifests, extras);
    if status != Planned {
      return DepotPlan(depot, status, {}, map[], dedupe);
    }
    plan := DepotPlan(depot, status, keep, map n | n in onDisk && n !in keep :: onDisk[n], dedupe);
  }

  // ---------------------------------------------------------------- all depots of an app

  /** The claim a mapping row makes on its depot. */
  function ClaimOf(db: Db, recorded: map<(nat, nat), string>, depot: nat, r: Row): MappedApp {
    match CoercePositiveId(r.owner)
    case None => MappedApp(0, true, None)
    case Some(owner) =>
      MappedApp(owner, HasContent(db, owner),
                if (owner, depot) in recorded then Some(recorded[(owner, depot)]) else None)
  }

  function AppsOf(db: Db, recorded: map<(nat, nat), string>, depot: nat): set<MappedApp> {
    set r | r in db.rows && r.depot == Number(depot) :: ClaimOf(db, recorded, depot, r)
  }

  function DirOf(dirs: map<nat, DepotDir>, depot: nat): Option<DepotDir> {
    if depot in dirs then Some(dirs[depot]) else None
  }

  function ExtrasOf(oracle: map<nat, seq<string>>, depot: nat): seq<string> {
    if depot in oracle then oracle[depot] else []
  }

  ghost predicate PlanFor(plan: DepotPlan, e: Evidence, db: Db, recorded: map<(nat, nat), string>,
                          dirs: map<nat, DepotDir>, oracle: map<nat, seq<string>>, depot: nat)
  {
    if depot !in dirs then plan == DepotPlan(depot, MissingDir, {}, map[], map[])
    else PlanDescribes(plan, e, depot, dirs[depot], AppsOf(db, recorded, depot), ExtrasOf(oracle, depot))
  }

  function ClaimsAmong(db: Db, recorded: map<(nat, nat), string>, rows: set<Row>, depot: nat): set<MappedApp> {
    set r | r in rows && CoercePositiveId(r.depot) == Some(depot) :: ClaimOf(db, recorded, depot, r)
  }

  function OwnersAt(owners: map<nat, set<MappedApp>>, depot: nat): set<MappedApp> {
    if depot in owners then owners[depot] else {}
  }

  function AddClaim(owners: map<nat, set<MappedApp>>, db: Db, recorded: map<(nat, nat), string>, r: Row): map<nat, set<MappedApp>> {
    match CoercePositiveId(r.depot)
    case None => owners
    case Some(d) => owners[d := OwnersAt(owners, d) + {ClaimOf(db, recorded, d, r)}]
  }

  lemma AddClaimAt(owners: map<nat, set<MappedApp>>, db: Db, recorded: map<(nat, nat), string>, read: set<Row>, r: Row, depot: nat)
    requires OwnersAt(owners, depot) == ClaimsAmong(db, recorded, read, depot)
    ensures OwnersAt(AddClaim(owners, db, recorded, r), depot) == ClaimsAmong(db, recorded, read + {r}, depot)
  {
    assert ClaimsAmong(db, recorded, read + {r}, depot)
        == ClaimsAmong(db, recorded, read, depot) + ClaimsAmong(db, recorded, {r}, depot);
    assert ClaimsAmong(db, recorded, {r}, depot)
        == if CoercePositiveId(r.depot) == Some(depot) then {ClaimOf(db, recorded, depot, r)} else {};
  }

  /** The rows of the app's depots, regrouped per depot. */
  method GroupOwners(db: Db, recorded: map<(nat, nat), string>, rows: set<Row>)
    returns (owners: map<nat, set<MappedApp>>)
    ensures forall d: nat :: OwnersAt(owners, d) == ClaimsAmong(db, recorded, rows, d)
  {
    owners := map[];
    var rest := rows;
    ghost var read: set<Row> := {};
    assert forall d: nat :: OwnersAt(owners, d) == ClaimsAmong(db, recorded, read, d);
    hide *;
    while rest != {}
      invariant read + rest == rows
      invariant forall d: nat :: OwnersAt(owners, d) == ClaimsAmong(db, recorded, read, d)
      decreases |rest|
    {
      var r :| r in rest;
      forall d: nat ensures OwnersAt(AddClaim(owners, db, recorded, r), d) == ClaimsAmong(db, recorded, read + {r}, d) {
        AddClaimAt(owners, db, recorded, read, r, d);
      }
      owners := AddClaim(owners, db, recorded, r);
      rest := rest - {r};
      read := read + {r};
    }
    assert read == rows;
  }

  lemma OwnDepotClaims(db: Db, recorded: map<(nat, nat), string>, appid: nat, depot: nat)
    requires depot in MappedDepots(db, appid)
    ensures ClaimsAmong(db, recorded, LoadMappingRows(db, appid), depot) == AppsOf(db, recorded, depot)
  {
    forall r | r in db.rows
      ensures r in LoadMappingRows(db, appid) && CoercePositiveId(r.depot) == Some(depot) <==> r.depot == Number(depot)
    {
      StoredIdsAreNumbers(r.depot, depot);
    }
  }

  /** `plan_gc`: one plan per depot the app maps, whether or not it has a directory. */
  method PlanGc(e: Evidence, db: Db, recorded: map<(nat, nat), string>, dirs: map<nat, DepotDir>,
                oracle: map<nat, seq<string>>, appid: nat)
    returns (plans: map<nat, DepotPlan>)
    ensures plans.Keys == MappedDepots(db, appid)
    ensures forall d :: d in plans ==> PlanFor(plans[d], e, db, recorded, dirs, oracle, d)
  {
    var owners := GroupOwners(db, recorded, LoadMappingRows(db, appid));
    plans := map[];
    var own := MappedDepots(db, appid);
    var todo := own;
    hide MappedDepots, PlanDescribes, ClaimsAmong, LoadMappingRows, AppsOf;
    while todo != {}
      invariant todo <= own && plans.Keys == own - todo
      invariant forall d :: d in plans ==> PlanFor(plans[d], e, db, recorded, dirs, oracle, d)
      decreases |todo|
    {
      var d :| d in todo;
      todo := todo - {d};
      OwnDepotClaims(db, recorded, appid, d);
      var plan := PlanOneDepot(e, d, OwnersAt(owners, d), DirOf(dirs, d), ExtrasOf(oracle, d));
      plans := plans[d := plan];
    }
  }

  // ---------------------------------------------------------------- what a plan can name

  /** Exactly the regular chunk files that no counting app's current manifest and no extra lists. */
  lemma OrphansAreExactly(plan: DepotPlan, e: Evidence, depot: nat, dir: DepotDir, apps: set<MappedApp>, extras: seq<string>, n: string)
    requires PlanDescribes(plan, e, depot, dir, apps, extras)
    ensures n in plan.orphans <==>
      && GateOf(e, depot, dir.manifests, apps) == Planned
      && IsChunkName(n) && n in dir.chunks && dir.chunks[n].File?
      && !Kept(e, depot, dir.manifests, apps, extras, n)
  {
  }

  /** A planned depot resolved every counting app's current manifest, and names none of its chunks. */
  lemma PlanSparesCurrentManifests(plan: DepotPlan, e: Evidence, depot: nat, dir: DepotDir, apps: set<MappedApp>,
                                   extras: seq<string>, a: MappedApp)
    requires PlanDescribes(plan, e, depot, dir, apps, extras)
    requires plan.status == Planned && a in apps && Counting(a)
    ensures CurrentChunks(e, depot, dir.manifests, a).Some?
    ensures CurrentChunks(e, depot, dir.manifests, a).value !! plan.orphans.Keys
  {
    forall n | n in CurrentChunks(e, depot, dir.manifests, a).value ensures n !in plan.orphans {
      assert Requires(e, depot, dir.manifests, a, n);
    }
  }

  /** More evidence never adds an orphan: neither a further mapped app nor extra manifests do. */
  lemma EvidenceOnlyProtects(few: DepotPlan, many: DepotPlan, e: Evidence, depot: nat, dir: DepotDir,
                             apps: set<MappedApp>, more: set<MappedApp>, less: seq<string>, extras: seq<string>)
    requires apps <= more && (exists a :: a in apps && Counting(a))
    requires UsedExtras(less) <= UsedExtras(extras)
    requires PlanDescribes(few, e, depot, dir, apps, less)
    requires PlanDescribes(many, e, depot, dir, more, extras)
    ensures many.orphans.Keys <= few.orphans.Keys
  {
    forall n | n in many.orphans ensures n in few.orphans {
      OrphansAreExactly(many, e, depot, dir, more, extras, n);
      OrphansAreExactly(few, e, depot, dir, apps, less, n);
      assert GateOf(e, depot, dir.manifests, apps) == Planned;
    }
  }

  /** With the ids of `extras` instead of `less` no planned depot ever loses protection. */
  ghost predicate NeverExposes(depot: nat, less: seq<string>, extras: seq<string>) {
    forall e: Evidence, manifests: map<string, map<string, Copy>>, apps: set<MappedApp>, chunk: string ::
      GateOf(e, depot, manifests, apps) == Planned && Kept(e, depot, manifests, apps, less, chunk)
      ==> Kept(e, depot, manifests, apps, extras, chunk)
  }

  /** An id that is read with `less` and not with `extras`: some archived manifest makes its chunk
      an orphan only once the further ids are known. */
  lemma PushedOutExposes(depot: nat, less: seq<string>, extras: seq<string>, id: string)
    returns (e: Evidence, apps: set<MappedApp>)
    requires id in UsedExtras(less) && id !in UsedExtras(extras)
    ensures GateOf(e, depot, map[], apps) == Planned
    ensures Kept(e, depot, map[], apps, less, "c") && !Kept(e, depot, map[], apps, extras, "c")
  {
    var own := if id == "1" then "2" else "1";
    assert ValidManifestId(own) && own != id;
    e := Evidence(map[(depot, own) := {}, (depot, id) := {"c"}], (b: string) => None);
    var app := MappedApp(7, true, Some(own));
    apps := {app};
    hide ValidManifestId, UsedExtras;
    assert ChunksOf(e, depot, map[], own) == Some({}) && ChunksOf(e, depot, map[], id) == Some({"c"});
    assert CurrentChunks(e, depot, map[], app) == Some({});
    assert Counting(app) && app in apps;
    assert ValidManifestId(id) by { UsedIsValid(less, id); }
    assert Adds(e, depot, map[], id, "c");
  }

  lemma UsedIsValid(extras: seq<string>, id: string)
    requires id in UsedExtras(extras)
    ensures ValidManifestId(id)
  {
  }

  /** Knowing more extra manifests only protects if and only if at most as many distinct valid ids
      are known as the cap allows. */
  lemma MoreIdsOnlyProtectExactlyWhen(depot: nat, extras: seq<string>)
    ensures (forall less: seq<string> :: ValidExtras(less) <= ValidExtras(extras) ==> NeverExposes(depot, less, extras))
       <==> |ValidExtras(extras)| <= MAX_EXTRA_MANIFESTS
  {
    hide ValidExtras, UsedExtras, GateOf, Adds, Requires;
    OnlyAddsExactlyWhen(extras);
    if !OnlyAdds(extras) {
      var less: seq<string> :| ValidExtras(less) <= ValidExtras(extras) && !(UsedExtras(less) <= UsedExtras(extras));
      var id :| id in UsedExtras(less) && id !in UsedExtras(extras);
      var e, apps := PushedOutExposes(depot, less, extras, id);
    }
  }

  /** A further co-owner that is verifiably uncached and has no recorded manifest neither blocks a
      depot nor moves a single orphan. */
  lemma UncachedCoOwnerChangesNothing(plan: DepotPlan, wider: DepotPlan, e: Evidence, depot: nat, dir: DepotDir,
                                      apps: set<MappedApp>, extra: MappedApp, extras: seq<string>)
    requires extra.appid > 0 && !Counting(extra) && apps != {}
    requires PlanDescribes(plan, e, depot, dir, apps, extras)
    requires PlanDescribes(wider, e, depot, dir, apps + {extra}, extras)
    ensures wider.status == plan.status && wider.orphans == plan.orphans
  {
    var more := apps + {extra};
    assert forall a :: a in more && Counting(a) ==> a in apps;
    assert GateOf(e, depot, dir.manifests, more) == GateOf(e, depot, dir.manifests, apps);
    forall n ensures Kept(e, depot, dir.manifests, more, extras, n) <==> Kept(e, depot, dir.manifests, apps, extras, n) {
    }
  }
}
