/** What a collection plan says, written out on the rows, the files and the stored manifests. */
module GcMeaning {
  import opened Deletion
  import opened ExtraManifests
  import opened Gc
  import opened GcExecute
  import opened GcPlan
  import opened Options
  import opened StringOrder
  import opened Tables

  // ---------------------------------------------------------------- reading one manifest

  /** A stored copy whose bytes decode to this manifest of this depot. */
  predicate Decodes(e: Evidence, depot: nat, id: string, copies: map<string, Copy>, n: string, chunks: set<string>) {
    n in copies && copies[n].Copy? && e.parse(copies[n].bytes) == Some(Parsed(depot, id, chunks))
  }

  /** Stored later; on a tie the greater name. */
  predicate StoredAfter(copies: map<string, Copy>, n: string, m: string)
    requires n in copies && m in copies && copies[n].Copy? && copies[m].Copy?
  {
    copies[n].mtime > copies[m].mtime || (copies[n].mtime == copies[m].mtime && Less(m, n))
  }

  /** The newest of the copies that decode says these chunks. */
  ghost predicate NewestSays(e: Evidence, depot: nat, id: string, copies: map<string, Copy>, chunks: set<string>) {
    exists n :: Decodes(e, depot, id, copies, n, chunks)
      && forall m, other :: m != n && Decodes(e, depot, id, copies, m, other) ==> StoredAfter(copies, n, m)
  }

  /** A manifest by its id: what the archive has of it, else what the newest copy stored under it
      that decodes says. */
  ghost predicate Says(e: Evidence, depot: nat, manifests: map<string, map<string, Copy>>, id: string, chunks: set<string>) {
    if (depot, id) in e.archive then chunks == e.archive[(depot, id)]
    else id in manifests && NewestSays(e, depot, id, manifests[id], chunks)
  }

  lemma UsableDecodes(e: Evidence, depot: nat, id: string, copies: map<string, Copy>, n: string)
    ensures n in copies && Usable(e.parse, depot, id, copies[n])
       <==> exists chunks :: Decodes(e, depot, id, copies, n, chunks)
    ensures n in copies && Usable(e.parse, depot, id, copies[n]) ==>
      Decodes(e, depot, id, copies, n, e.parse(copies[n].bytes).value.chunks)
  {
    if n in copies && Usable(e.parse, depot, id, copies[n]) {
      var p := e.parse(copies[n].bytes).value;
      assert p == Parsed(depot, id, p.chunks);
      assert Decodes(e, depot, id, copies, n, p.chunks);
    }
  }

  lemma ReadFromMeans(e: Evidence, depot: nat, id: string, copies: map<string, Copy>, n: string)
    ensures IsReadFrom(e.parse, depot, id, copies, n) <==>
      && (exists chunks :: Decodes(e, depot, id, copies, n, chunks))
      && forall m, other :: m != n && Decodes(e, depot, id, copies, m, other) ==> StoredAfter(copies, n, m)
  {
    forall m: string ensures m in copies && Usable(e.parse, depot, id, copies[m]) <==> exists chunks :: Decodes(e, depot, id, copies, m, chunks)
    {
      UsableDecodes(e, depot, id, copies, m);
    }
    hide Usable;
    if IsReadFrom(e.parse, depot, id, copies, n) {
      forall m, other | m != n && Decodes(e, depot, id, copies, m, other) ensures StoredAfter(copies, n, m) {
        assert Usable(e.parse, depot, id, copies[m]);
        assert NewerCopy(copies, n, m);
      }
    }
    if (exists chunks :: Decodes(e, depot, id, copies, n, chunks))
      && forall m, other :: m != n && Decodes(e, depot, id, copies, m, other) ==> StoredAfter(copies, n, m) {
      forall m | m in copies && m != n && Usable(e.parse, depot, id, copies[m]) ensures NewerCopy(copies, n, m) {
        var other :| Decodes(e, depot, id, copies, m, other);
        assert StoredAfter(copies, n, m);
      }
    }
  }

  lemma StoredSays(e: Evidence, depot: nat, id: string, copies: map<string, Copy>, chunks: set<string>)
    ensures StoredChunks(e.parse, depot, id, copies) == Some(chunks) <==> NewestSays(e, depot, id, copies, chunks)
  {
    forall n: string ensures IsReadFrom(e.parse, depot, id, copies, n) <==>
      && (exists c :: Decodes(e, depot, id, copies, n, c))
      && forall m, other :: m != n && Decodes(e, depot, id, copies, m, other) ==> StoredAfter(copies, n, m)
    {
      ReadFromMeans(e, depot, id, copies, n);
    }
    hide IsReadFrom, StoredAfter;
    if StoredChunks(e.parse, depot, id, copies) == Some(chunks) {
      var n :| IsReadFrom(e.parse, depot, id, copies, n) && chunks == e.parse(copies[n].bytes).value.chunks;
      assert Decodes(e, depot, id, copies, n, chunks);
    }
    if NewestSays(e, depot, id, copies, chunks) {
      var n :| Decodes(e, depot, id, copies, n, chunks)
        && forall m, other :: m != n && Decodes(e, depot, id, copies, m, other) ==> StoredAfter(copies, n, m);
      assert IsReadFrom(e.parse, depot, id, copies, n);
      forall m | IsReadFrom(e.parse, depot, id, copies, m) ensures m == n { OneReadFrom(e.parse, depot, id, copies, m, n); }
    }
  }

  lemma ReadSays(e: Evidence, depot: nat, manifests: map<string, map<string, Copy>>, id: string, chunks: set<string>)
    ensures ChunksOf(e, depot, manifests, id) == Some(chunks) <==> Says(e, depot, manifests, id, chunks)
  {
    if id in manifests { StoredSays(e, depot, id, manifests[id], chunks); }
    hide StoredChunks, NewestSays;
  }

  // ---------------------------------------------------------------- the manifest of an app

  /** A decimal id: 1 to 20 digits, none of them a leading zero. */
  predicate IsManifestId(id: string) {
    1 <= |id| <= 20 && (forall i :: 0 <= i < |id| ==> '0' <= id[i] <= '9') && id[0] != '0'
  }

  lemma ManifestIdExactlyWhen(id: string)
    ensures ValidManifestId(id) <==> IsManifestId(id)
  {
    if IsManifestId(id) {
      forall c | c in id ensures '0' <= c <= '9' {
        var i :| 0 <= i < |id| && id[i] == c;
      }
    }
    if ValidManifestId(id) {
      forall i | 0 <= i < |id| ensures '0' <= id[i] <= '9' {
        assert id[i] in id;
      }
    }
  }

  /** A copy stored under a valid id, of whatever content. */
  predicate IsStored(manifests: map<string, map<string, Copy>>, id: string, n: string) {
    IsManifestId(id) && id in manifests && n in manifests[id] && manifests[id][n].Copy?
  }

  /** Some copy under this id was stored after every copy under any other valid id; on a tie the
      greater id. */
  ghost predicate StoredLast(manifests: map<string, map<string, Copy>>, id: string) {
    exists n :: IsStored(manifests, id, n)
      && forall other, m :: other != id && IsStored(manifests, other, m) ==>
           || manifests[id][n].mtime > manifests[other][m].mtime
           || (manifests[id][n].mtime == manifests[other][m].mtime && Less(other, id))
  }

  /** The chunks of an app's current manifest: of the one recorded for it, or, with none recorded,
      of what is stored last, archive or not. */
  ghost predicate CurrentSays(e: Evidence, depot: nat, manifests: map<string, map<string, Copy>>, recorded: Option<string>,
                              chunks: set<string>) {
    match recorded
    case Some(id) => IsManifestId(id) && Says(e, depot, manifests, id, chunks)
    case None => exists id :: StoredLast(manifests, id) && NewestSays(e, depot, id, manifests[id], chunks)
  }

  lemma NewestExactlyWhen(manifests: map<string, map<string, Copy>>, id: string)
    ensures IsNewestId(manifests, id) <==> StoredLast(manifests, id)
  {
    forall x: string ensures ValidManifestId(x) <==> IsManifestId(x) { ManifestIdExactlyWhen(x); }
    hide ValidManifestId, IsManifestId, Less;
    if IsNewestId(manifests, id) {
      var n :| n in manifests[id] && manifests[id][n].Copy? && OutlastsOthers(manifests, id, n);
      assert IsStored(manifests, id, n);
    }
    if StoredLast(manifests, id) {
      var n :| IsStored(manifests, id, n)
        && forall other, m :: other != id && IsStored(manifests, other, m) ==>
             || manifests[id][n].mtime > manifests[other][m].mtime
             || (manifests[id][n].mtime == manifests[other][m].mtime && Less(other, id));
      forall other, m | other in manifests && other != id && ValidManifestId(other)
                        && m in manifests[other] && manifests[other][m].Copy?
        ensures Later(manifests[id][n].mtime, id, manifests[other][m].mtime, other)
      {
        assert IsStored(manifests, other, m);
      }
      assert OutlastsOthers(manifests, id, n);
    }
  }

  lemma CurrentExactlyWhen(e: Evidence, depot: nat, manifests: map<string, map<string, Copy>>, app: MappedApp, chunks: set<string>)
    ensures CurrentChunks(e, depot, manifests, app) == Some(chunks) <==> CurrentSays(e, depot, manifests, app.recorded, chunks)
  {
    hide ValidManifestId, IsManifestId, ChunksOf, StoredChunks, NewestSays, Says, IsNewestId, StoredLast;
    match app.recorded {
      case Some(id) =>
        ManifestIdExactlyWhen(id);
        ReadSays(e, depot, manifests, id, chunks);
      case None =>
        forall id: string ensures IsNewestId(manifests, id) <==> StoredLast(manifests, id) { NewestExactlyWhen(manifests, id); }
        if id :| IsNewestId(manifests, id) {
          NewestIsThe(manifests, id);
          StoredLastIsThere(manifests, id);
          StoredSays(e, depot, id, manifests[id], chunks);
        }
    }
  }

  lemma StoredLastIsThere(manifests: map<string, map<string, Copy>>, id: string)
    requires StoredLast(manifests, id)
    ensures id in manifests
  {
  }

  // ---------------------------------------------------------------- the plan of one depot, on the rows

  /** An owner that counts: one with a recorded manifest of the depot, or with cache content. */
  predicate CountsFor(db: Db, recorded: map<(nat, nat), string>, depot: nat, r: Row) {
    r in db.rows && r.depot == Number(depot) && CoercePositiveId(r.owner).Some?
    && ((CoercePositiveId(r.owner).value, depot) in recorded || HasContent(db, CoercePositiveId(r.owner).value))
  }

  function RecordOf(recorded: map<(nat, nat), string>, depot: nat, r: Row): Option<string>
    requires CoercePositiveId(r.owner).Some?
  {
    var owner := CoercePositiveId(r.owner).value;
    if (owner, depot) in recorded then Some(recorded[(owner, depot)]) else None
  }

  /** This counting owner's current manifest can be read, and says these chunks. */
  ghost predicate OwnerSays(e: Evidence, db: Db, recorded: map<(nat, nat), string>, depot: nat,
                            manifests: map<string, map<string, Copy>>, r: Row, chunks: set<string>) {
    CountsFor(db, recorded, depot, r) && CurrentSays(e, depot, manifests, RecordOf(recorded, depot, r), chunks)
  }

  ghost predicate AllResolve(e: Evidence, db: Db, recorded: map<(nat, nat), string>, depot: nat,
                             manifests: map<string, map<string, Copy>>) {
    forall r :: CountsFor(db, recorded, depot, r) ==> exists chunks :: OwnerSays(e, db, recorded, depot, manifests, r, chunks)
  }

  predicate Claimed(db: Db, depot: nat) {
    exists r :: r in db.rows && r.depot == Number(depot)
  }

  predicate Unclear(db: Db, depot: nat) {
    exists r :: r in db.rows && r.depot == Number(depot) && CoercePositiveId(r.owner).None?
  }

  predicate Wanted(db: Db, recorded: map<(nat, nat), string>, depot: nat) {
    exists r :: r in db.rows && CountsFor(db, recorded, depot, r)
  }

  lemma ClaimMeans(db: Db, recorded: map<(nat, nat), string>, depot: nat, r: Row)
    requires r in db.rows && r.depot == Number(depot)
    ensures ClaimOf(db, recorded, depot, r) in AppsOf(db, recorded, depot)
    ensures ClaimOf(db, recorded, depot, r).appid == 0 <==> CoercePositiveId(r.owner).None?
    ensures CoercePositiveId(r.owner).Some? ==>
      && (Counting(ClaimOf(db, recorded, depot, r)) <==> CountsFor(db, recorded, depot, r))
      && ClaimOf(db, recorded, depot, r).recorded == RecordOf(recorded, depot, r)
  {
    hide HasContent;
  }

  lemma ClaimsAreRows(db: Db, recorded: map<(nat, nat), string>, depot: nat, a: MappedApp) returns (r: Row)
    requires a in AppsOf(db, recorded, depot)
    ensures r in db.rows && r.depot == Number(depot) && a == ClaimOf(db, recorded, depot, r)
  {
    r :| r in db.rows && r.depot == Number(depot) && a == ClaimOf(db, recorded, depot, r);
  }

  /** Why a depot is planned or not, in this order: no directory, no row, a row whose owner cannot be
      read, no owner that counts, a counting owner whose current manifest cannot be read. */
  lemma StatusExactlyWhen(plan: DepotPlan, e: Evidence, db: Db, recorded: map<(nat, nat), string>, dirs: map<nat, DepotDir>,
                          oracle: map<nat, seq<string>>, depot: nat)
    requires PlanFor(plan, e, db, recorded, dirs, oracle, depot)
    ensures plan.status == MissingDir <==> depot !in dirs
    ensures depot in dirs ==>
      var resolved := AllResolve(e, db, recorded, depot, dirs[depot].manifests);
      && (plan.status == Unmapped <==> !Claimed(db, depot))
      && (plan.status == UnreadableOwner <==> Unclear(db, depot))
      && (plan.status == NoCountingApps <==> Claimed(db, depot) && !Unclear(db, depot) && !Wanted(db, recorded, depot))
      && (plan.status == NoManifest <==> !Unclear(db, depot) && Wanted(db, recorded, depot) && !resolved)
      && (plan.status == Planned <==> !Unclear(db, depot) && Wanted(db, recorded, depot) && resolved)
  {
    if depot in dirs {
      var manifests := dirs[depot].manifests;
      GateMeans(e, db, recorded, depot, manifests);
      hide AppsOf, GateOf, Claimed, Unclear, Wanted, AllResolve, Kept;
    }
  }

  lemma GateMeans(e: Evidence, db: Db, recorded: map<(nat, nat), string>, depot: nat, manifests: map<string, map<string, Copy>>)
    ensures var (status, resolved) := (GateOf(e, depot, manifests, AppsOf(db, recorded, depot)), AllResolve(e, db, recorded, depot, manifests));
      && status != MissingDir
      && (status == Unmapped <==> !Claimed(db, depot))
      && (status == UnreadableOwner <==> Unclear(db, depot))
      && (status == NoCountingApps <==> Claimed(db, depot) && !Unclear(db, depot) && !Wanted(db, recorded, depot))
      && (status == NoManifest <==> !Unclear(db, depot) && Wanted(db, recorded, depot) && !resolved)
      && (status == Planned <==> !Unclear(db, depot) && Wanted(db, recorded, depot) && resolved)
  {
    var apps := AppsOf(db, recorded, depot);
    ClaimedMeans(db, recorded, depot);
    UnclearMeans(db, recorded, depot);
    if !Unclear(db, depot) {
      WantedMeans(db, recorded, depot);
      ResolveMeans(e, db, recorded, depot, manifests);
    }
    if Unclear(db, depot) { assert Claimed(db, depot); }
    if Wanted(db, recorded, depot) { assert Claimed(db, depot); }
    hide AppsOf, Claimed, Unclear, Wanted, AllResolve, Counting, CurrentChunks;
  }

  lemma ClaimedMeans(db: Db, recorded: map<(nat, nat), string>, depot: nat)
    ensures AppsOf(db, recorded, depot) != {} <==> Claimed(db, depot)
  {
    hide ClaimOf;
    if a :| a in AppsOf(db, recorded, depot) { var r := ClaimsAreRows(db, recorded, depot, a); }
    if r :| r in db.rows && r.depot == Number(depot) { assert ClaimOf(db, recorded, depot, r) in AppsOf(db, recorded, depot); }
  }

  lemma UnclearMeans(db: Db, recorded: map<(nat, nat), string>, depot: nat)
    ensures (exists a :: a in AppsOf(db, recorded, depot) && a.appid == 0) <==> Unclear(db, depot)
  {
    hide ClaimOf, AppsOf;
    if a :| a in AppsOf(db, recorded, depot) && a.appid == 0 {
      var r := ClaimsAreRows(db, recorded, depot, a);
      ClaimMeans(db, recorded, depot, r);
    }
    if r :| r in db.rows && r.depot == Number(depot) && CoercePositiveId(r.owner).None? { ClaimMeans(db, recorded, depot, r); }
  }

  lemma WantedMeans(db: Db, recorded: map<(nat, nat), string>, depot: nat)
    requires !Unclear(db, depot)
    ensures (exists a :: a in AppsOf(db, recorded, depot) && Counting(a)) <==> Wanted(db, recorded, depot)
  {
    hide ClaimOf, AppsOf, Counting;
    if a :| a in AppsOf(db, recorded, depot) && Counting(a) {
      var r := ClaimsAreRows(db, recorded, depot, a);
      ClaimMeans(db, recorded, depot, r);
    }
    if r :| r in db.rows && CountsFor(db, recorded, depot, r) { ClaimMeans(db, recorded, depot, r); }
  }

  lemma ResolveMeans(e: Evidence, db: Db, recorded: map<(nat, nat), string>, depot: nat, manifests: map<string, map<string, Copy>>)
    requires !Unclear(db, depot)
    ensures (exists a :: a in AppsOf(db, recorded, depot) && Counting(a) && CurrentChunks(e, depot, manifests, a).None?)
       <==> !AllResolve(e, db, recorded, depot, manifests)
  {
    hide ClaimOf, AppsOf, Counting, CurrentChunks, CurrentSays, RecordOf;
    if a :| a in AppsOf(db, recorded, depot) && Counting(a) && CurrentChunks(e, depot, manifests, a).None? {
      var r := ClaimsAreRows(db, recorded, depot, a);
      ClaimMeans(db, recorded, depot, r);
      forall chunks ensures !OwnerSays(e, db, recorded, depot, manifests, r, chunks) {
        CurrentExactlyWhen(e, depot, manifests, a, chunks);
      }
    }
    if !AllResolve(e, db, recorded, depot, manifests) {
      var r :| CountsFor(db, recorded, depot, r) && !exists chunks :: OwnerSays(e, db, recorded, depot, manifests, r, chunks);
      ClaimMeans(db, recorded, depot, r);
      var a := ClaimOf(db, recorded, depot, r);
      if CurrentChunks(e, depot, manifests, a).Some? {
        CurrentExactlyWhen(e, depot, manifests, a, CurrentChunks(e, depot, manifests, a).value);
        assert OwnerSays(e, db, recorded, depot, manifests, r, CurrentChunks(e, depot, manifests, a).value);
      }
    }
  }

  /** Some counting owner's current manifest lists the chunk. */
  ghost predicate OwnerNeeds(e: Evidence, db: Db, recorded: map<(nat, nat), string>, depot: nat,
                             manifests: map<string, map<string, Copy>>, n: string) {
    exists r, chunks :: OwnerSays(e, db, recorded, depot, manifests, r, chunks) && n in chunks
  }

  /** An extra manifest that is read lists it: one of the 32 first of the distinct valid ids. */
  ghost predicate ExtraNeeds(e: Evidence, depot: nat, manifests: map<string, map<string, Copy>>, extras: seq<string>, n: string) {
    exists id, chunks :: id in UsedExtras(extras) && Says(e, depot, manifests, id, chunks) && n in chunks
  }

  lemma NeedMeans(e: Evidence, db: Db, recorded: map<(nat, nat), string>, depot: nat, manifests: map<string, map<string, Copy>>, n: string)
    requires !Unclear(db, depot)
    ensures (exists a :: a in AppsOf(db, recorded, depot) && Requires(e, depot, manifests, a, n))
       <==> OwnerNeeds(e, db, recorded, depot, manifests, n)
  {
    hide ClaimOf, AppsOf, Counting, CurrentChunks, CurrentSays, RecordOf, CountsFor;
    if a :| a in AppsOf(db, recorded, depot) && Requires(e, depot, manifests, a, n) {
      var r := ClaimsAreRows(db, recorded, depot, a);
      ClaimMeans(db, recorded, depot, r);
      var chunks := CurrentChunks(e, depot, manifests, a).value;
      CurrentExactlyWhen(e, depot, manifests, a, chunks);
      assert OwnerSays(e, db, recorded, depot, manifests, r, chunks);
    }
    if r, chunks :| OwnerSays(e, db, recorded, depot, manifests, r, chunks) && n in chunks {
      CountingRow(db, recorded, depot, r);
      ClaimMeans(db, recorded, depot, r);
      CurrentExactlyWhen(e, depot, manifests, ClaimOf(db, recorded, depot, r), chunks);
      assert Requires(e, depot, manifests, ClaimOf(db, recorded, depot, r), n);
    }
  }

  lemma CountingRow(db: Db, recorded: map<(nat, nat), string>, depot: nat, r: Row)
    requires CountsFor(db, recorded, depot, r)
    ensures r in db.rows && r.depot == Number(depot) && CoercePositiveId(r.owner).Some?
  {
  }

  lemma ExtraMeans(e: Evidence, depot: nat, manifests: map<string, map<string, Copy>>, extras: seq<string>, n: string)
    ensures (exists id :: id in UsedExtras(extras) && Adds(e, depot, manifests, id, n)) <==> ExtraNeeds(e, depot, manifests, extras, n)
  {
    hide ValidManifestId, ChunksOf, Says, UsedExtras;
    if id :| id in UsedExtras(extras) && Adds(e, depot, manifests, id, n) {
      ReadSays(e, depot, manifests, id, ChunksOf(e, depot, manifests, id).value);
    }
    if id, chunks :| id in UsedExtras(extras) && Says(e, depot, manifests, id, chunks) && n in chunks {
      UsedIsValid(extras, id);
      ReadSays(e, depot, manifests, id, chunks);
      assert Adds(e, depot, manifests, id, n);
    }
  }

  /** What a plan names: with every owner readable, one that counts, and all that count resolved,
      every regular file with a chunk's name that neither a counting owner's current manifest nor an
      extra one lists - and nothing else. */
  lemma OrphanExactlyWhen(plan: DepotPlan, e: Evidence, db: Db, recorded: map<(nat, nat), string>, dirs: map<nat, DepotDir>,
                          oracle: map<nat, seq<string>>, depot: nat, n: string)
    requires PlanFor(plan, e, db, recorded, dirs, oracle, depot)
    ensures n in plan.orphans <==>
      && depot in dirs && n in dirs[depot].chunks && dirs[depot].chunks[n].File?
      && |n| == 40 && (forall i :: 0 <= i < 40 ==> '0' <= n[i] <= '9' || 'a' <= n[i] <= 'f')
      && !Unclear(db, depot) && Wanted(db, recorded, depot)
      && AllResolve(e, db, recorded, depot, dirs[depot].manifests)
      && !OwnerNeeds(e, db, recorded, depot, dirs[depot].manifests, n)
      && !ExtraNeeds(e, depot, dirs[depot].manifests, if depot in oracle then oracle[depot] else [], n)
    ensures n in plan.orphans ==> plan.orphans[n] == dirs[depot].chunks[n].size
  {
    if depot in dirs {
      var (dir, extras) := (dirs[depot], ExtrasOf(oracle, depot));
      assert extras == if depot in oracle then oracle[depot] else [];
      StatusExactlyWhen(plan, e, db, recorded, dirs, oracle, depot);
      ChunkNameIs(n);
      if !Unclear(db, depot) { NeedMeans(e, db, recorded, depot, dir.manifests, n); }
      ExtraMeans(e, depot, dir.manifests, extras, n);
      SizeIs(plan, e, depot, dir, AppsOf(db, recorded, depot), extras, n);
      hide IsChunkName, AppsOf, Requires, Adds, UsedExtras, OwnerNeeds, ExtraNeeds, Unclear, Wanted, AllResolve, ExtrasOf;
      PlannedMeans(plan, e, depot, dir, AppsOf(db, recorded, depot), extras, n);
      hide GateOf, PlanFor;
    }
  }

  lemma PlannedMeans(plan: DepotPlan, e: Evidence, depot: nat, dir: DepotDir, apps: set<MappedApp>, extras: seq<string>, n: string)
    requires PlanDescribes(plan, e, depot, dir, apps, extras)
    ensures n in plan.orphans <==>
      && plan.status == Planned && IsChunkName(n) && n in dir.chunks && dir.chunks[n].File?
      && !(exists a :: a in apps && Requires(e, depot, dir.manifests, a, n))
      && !(exists id :: id in UsedExtras(extras) && Adds(e, depot, dir.manifests, id, n))
  {
    OrphansAreExactly(plan, e, depot, dir, apps, extras, n);
    hide IsChunkName, Requires, Adds, UsedExtras, GateOf;
  }

  lemma SizeIs(plan: DepotPlan, e: Evidence, depot: nat, dir: DepotDir, apps: set<MappedApp>, extras: seq<string>, n: string)
    requires PlanDescribes(plan, e, depot, dir, apps, extras)
    ensures n in plan.orphans ==> n in dir.chunks && dir.chunks[n].File? && plan.orphans[n] == dir.chunks[n].size
  {
    hide IsChunkName, Kept, GateOf;
  }

  // ---------------------------------------------------------------- the other duties of a plan

  /** What one planned name meets, judged by what stands at it. */
  lemma RemovalExactlyWhen(chunks: map<string, Entry>, n: string)
    ensures var r := RemovalOf(chunks, n);
      var named := |n| == 40 && (forall i :: 0 <= i < 40 ==> '0' <= n[i] <= '9' || 'a' <= n[i] <= 'f');
      && (r.RefusedUnsafeName? <==> !named)
      && (r.AlreadyGone? <==> named && n !in chunks)
      && (r.RefusedLink? <==> named && n in chunks && chunks[n].Link?)
      && (r.RefusedNotAFile? <==> named && n in chunks && chunks[n].NotAFile?)
      && (r.FailedRemoval? <==> named && n in chunks && (chunks[n].Unreadable? || (chunks[n].File? && chunks[n].locked)))
      && (r.Gone? ==> r.freed == chunks[n].size)
  {
    ChunkNameIs(n);
    hide IsChunkName;
  }

  /** Likewise for a stored copy. */
  lemma CopyRemovalExactlyWhen(copies: map<string, Copy>, n: string)
    ensures var r := CopyRemovalOf(copies, n);
      && !r.RefusedUnsafeName? && !r.RefusedLink?
      && (r.AlreadyGone? <==> n !in copies)
      && (r.RefusedNotAFile? <==> n in copies && copies[n].NoCopy?)
      && (r.FailedRemoval? <==> n in copies && copies[n].Copy? && copies[n].locked)
      && (r.Gone? ==> r.freed == |copies[n].bytes|)
  {
  }

  /** An id is collapsed exactly when it is a valid one with two copies: the one stored last stays,
      all others are candidates, and among those only the copies with its very bytes go. */
  lemma CollapsedExactlyWhen(plan: DepotPlan, e: Evidence, db: Db, recorded: map<(nat, nat), string>, dirs: map<nat, DepotDir>,
                             oracle: map<nat, seq<string>>, depot: nat, id: string)
    requires PlanFor(plan, e, db, recorded, dirs, oracle, depot) && depot in dirs
    ensures id in plan.dedupe <==> exists n, m :: n != m && IsStored(dirs[depot].manifests, id, n) && IsStored(dirs[depot].manifests, id, m)
    ensures id in plan.dedupe ==>
      && id in dirs[depot].manifests
      && var (copies, keep) := (dirs[depot].manifests[id], plan.dedupe[id].keep);
         && keep in copies && copies[keep].Copy?
         && forall n :: n in plan.dedupe[id].duplicates <==>
              n in copies && copies[n].Copy? && n != keep && StoredAfter(copies, keep, n)
  {
    var manifests := dirs[depot].manifests;
    ManifestIdExactlyWhen(id);
    hide ValidManifestId, IsManifestId, Kept, GateOf, AppsOf, ScanChunks;
    assert DedupeDescribes(plan.dedupe, manifests);
    if id in plan.dedupe {
      var (copies, keep) := (manifests[id], plan.dedupe[id].keep);
      assert CandidateFor(copies, plan.dedupe[id]) && StoredTwice(manifests, id);
      var n, m :| n in copies && m in copies && n != m && copies[n].Copy? && copies[m].Copy?;
      assert IsStored(manifests, id, n) && IsStored(manifests, id, m);
      forall n | n in copies && copies[n].Copy? && n != keep ensures StoredAfter(copies, keep, n) {
        assert NewerCopy(copies, keep, n);
      }
    }
    if n, m :| n != m && IsStored(manifests, id, n) && IsStored(manifests, id, m) {
      assert StoredTwice(manifests, id);
    }
  }
}
