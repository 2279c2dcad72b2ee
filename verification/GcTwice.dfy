/** Collecting again: removing duplicates leaves every resolved manifest as it was, so a second
    run on the same tables and clock finds nothing to do. */
module GcTwice {
  import opened Gc
  import opened GcExecute
  import opened GcPlan
  import opened Options
  import opened StringOrder

  ghost predicate FitsDisk(manifests: map<string, map<string, Copy>>, dedupe: map<string, Candidate>) {
    forall id :: id in dedupe ==> id in manifests && CandidateFor(manifests[id], dedupe[id])
  }

  /** A copy that outlasts every other id's copies does so before and after. */
  lemma NewestIdSurvives(manifests: map<string, map<string, Copy>>, dedupe: map<string, Candidate>, id: string)
    requires FitsDisk(manifests, dedupe)
    ensures IsNewestId(manifests, id) <==> IsNewestId(ManifestsAfter(manifests, dedupe), id)
  {
    var left: map<string, map<string, Copy>> := ManifestsAfter(manifests, dedupe);
    if IsNewestId(manifests, id) {
      var n :| n in manifests[id] && manifests[id][n].Copy? && OutlastsOthers(manifests, id, n);
      var h := if id in dedupe then dedupe[id].keep else n;
      assert h in left[id] && left[id][h].Copy?;
      assert h == n || NewerCopy(manifests[id], h, n);
      assert OutlastsOthers(left, id, h);
    }
    if IsNewestId(left, id) {
      var n :| n in left[id] && left[id][n].Copy? && OutlastsOthers(left, id, n);
      forall other, m | other in manifests && other != id && ValidManifestId(other)
                        && m in manifests[other] && manifests[other][m].Copy?
        ensures Later(manifests[id][n].mtime, id, manifests[other][m].mtime, other)
      {
        var h := if other in dedupe then dedupe[other].keep else m;
        assert h in left[other] && left[other][h].Copy?;
        assert h == m || NewerCopy(manifests[other], h, m);
        assert Later(left[id][n].mtime, id, left[other][h].mtime, other);
      }
      assert OutlastsOthers(manifests, id, n);
    }
  }

  lemma ManifestReadsAlike(e: Evidence, depot: nat, manifests: map<string, map<string, Copy>>,
                           dedupe: map<string, Candidate>, id: string)
    requires FitsDisk(manifests, dedupe)
    ensures ChunksOf(e, depot, ManifestsAfter(manifests, dedupe), id) == ChunksOf(e, depot, manifests, id)
  {
    if id in dedupe { DuplicatesCarryNoEvidence(e, depot, id, manifests[id], dedupe[id]); }
  }

  /** Removing verified duplicates changes no app's current manifest. */
  lemma ResolutionSurvivesDedupe(e: Evidence, depot: nat, manifests: map<string, map<string, Copy>>,
                                 dedupe: map<string, Candidate>, app: MappedApp)
    requires FitsDisk(manifests, dedupe)
    ensures CurrentChunks(e, depot, ManifestsAfter(manifests, dedupe), app) == CurrentChunks(e, depot, manifests, app)
  {
    var left: map<string, map<string, Copy>> := ManifestsAfter(manifests, dedupe);
    if app.recorded.Some? {
      ManifestReadsAlike(e, depot, manifests, dedupe, app.recorded.value);
    } else {
      forall id: string ensures IsNewestId(manifests, id) <==> IsNewestId(left, id) {
        NewestIdSurvives(manifests, dedupe, id);
      }
      if id :| IsNewestId(manifests, id) {
        NewestIsThe(manifests, id);
        NewestIsThe(left, id);
        if id in dedupe { DuplicatesCarryNoEvidence(e, depot, id, manifests[id], dedupe[id]); }
      }
    }
  }

  lemma KeepSetSurvives(e: Evidence, depot: nat, manifests: map<string, map<string, Copy>>, dedupe: map<string, Candidate>,
                        apps: set<MappedApp>, extras: seq<string>)
    requires FitsDisk(manifests, dedupe)
    ensures GateOf(e, depot, ManifestsAfter(manifests, dedupe), apps) == GateOf(e, depot, manifests, apps)
    ensures forall c :: Kept(e, depot, ManifestsAfter(manifests, dedupe), apps, extras, c)
                   <==> Kept(e, depot, manifests, apps, extras, c)
  {
    var left: map<string, map<string, Copy>> := ManifestsAfter(manifests, dedupe);
    forall a | a in apps ensures CurrentChunks(e, depot, left, a) == CurrentChunks(e, depot, manifests, a) {
      ResolutionSurvivesDedupe(e, depot, manifests, dedupe, a);
    }
    forall id: string ensures ChunksOf(e, depot, left, id) == ChunksOf(e, depot, manifests, id) {
      ManifestReadsAlike(e, depot, manifests, dedupe, id);
    }
    hide CurrentChunks, ChunksOf, ManifestsAfter;
    forall c ensures Kept(e, depot, left, apps, extras, c) <==> Kept(e, depot, manifests, apps, extras, c) {
      forall a | a in apps ensures Requires(e, depot, left, a, c) <==> Requires(e, depot, manifests, a, c) {
      }
      forall id: string ensures Adds(e, depot, left, id, c) <==> Adds(e, depot, manifests, id, c) {
      }
    }
  }

  /** A second run after a clean one removes no chunk, whatever was held back the first time. */
  lemma SecondRunRemovesNothing(first: DepotPlan, second: DepotPlan, e: Evidence, depot: nat, dir: DepotDir,
                                apps: set<MappedApp>, extras: seq<string>, grace: Grace)
    requires PlanDescribes(first, e, depot, dir, apps, extras)
    requires TollFor(dir, first, grace).problems == {}
    requires PlanDescribes(second, e, depot, DirAfter(dir, first, grace), apps, extras)
    ensures second.status == first.status
    ensures ToDelete(second, grace, DirAfter(dir, first, grace).chunks) == {}
    ensures DirAfter(DirAfter(dir, first, grace), second, grace).chunks == DirAfter(dir, first, grace).chunks
  {
    hide GateOf, Kept, FitsDisk, CandidateFor, IsChunkName, HeldBack, StoredTwice, CopiesAfter, ScanChunks;
    var after := DirAfter(dir, first, grace);
    if first.status == Planned {
      assert FitsDisk(dir.manifests, first.dedupe) by { FitsPlan(first, e, depot, dir, apps, extras); }
      KeepSetSurvives(e, depot, dir.manifests, first.dedupe, apps, extras);
      forall n | n in second.orphans ensures HeldBack(grace, after.chunks, n) {
        OrphansAreExactly(second, e, depot, after, apps, extras, n);
        OrphansAreExactly(first, e, depot, dir, apps, extras, n);
        LeftBehind(first, dir, grace, n);
      }
      NothingRemovedAgain(second, grace, after.chunks);
    }
  }

  lemma FitsPlan(plan: DepotPlan, e: Evidence, depot: nat, dir: DepotDir, apps: set<MappedApp>, extras: seq<string>)
    requires PlanDescribes(plan, e, depot, dir, apps, extras)
    ensures FitsDisk(dir.manifests, plan.dedupe)
  {
  }

  /** An orphan a clean run left in place was held back by the grace window. */
  lemma LeftBehind(plan: DepotPlan, dir: DepotDir, grace: Grace, n: string)
    requires plan.status == Planned && TollFor(dir, plan, grace).problems == {}
    requires n in plan.orphans && n in DirAfter(dir, plan, grace).chunks
    ensures HeldBack(grace, DirAfter(dir, plan, grace).chunks, n)
  {
    hide IsChunkName, ManifestsAfter;
    assert n in ToDelete(plan, grace, dir.chunks) ==> n !in TollFor(dir, plan, grace).problems;
  }

  lemma NothingRemovedAgain(plan: DepotPlan, grace: Grace, chunks: map<string, Entry>)
    requires forall n :: n in plan.orphans ==> HeldBack(grace, chunks, n)
    ensures ToDelete(plan, grace, chunks) == {} && ChunksAfter(chunks, ToDelete(plan, grace, chunks)) == chunks
  {
    hide HeldBack;
  }

  /** ... and no copy either: what is left beside the newest copy of an id differs from it. */
  lemma SecondRunKeepsCopies(first: DepotPlan, second: DepotPlan, e: Evidence, depot: nat, dir: DepotDir,
                             apps: set<MappedApp>, extras: seq<string>, grace: Grace, id: string)
    requires PlanDescribes(first, e, depot, dir, apps, extras) && first.status == Planned
    requires PlanDescribes(second, e, depot, DirAfter(dir, first, grace), apps, extras)
    requires id in first.dedupe && id in second.dedupe
    requires forall n :: n in dir.manifests[id] && dir.manifests[id][n].Copy? ==> !dir.manifests[id][n].locked
    ensures CopiesAfter(DirAfter(dir, first, grace).manifests[id], second.dedupe[id])
         == DirAfter(dir, first, grace).manifests[id]
  {
    var was := dir.manifests[id];
    var c := first.dedupe[id];
    var left := DirAfter(dir, first, grace).manifests[id];
    assert left == CopiesAfter(was, c);
    var d := second.dedupe[id];
    if d.keep != c.keep {
      assert NewerCopy(left, d.keep, c.keep) && NewerCopy(was, c.keep, d.keep);
      LaterIsTotal(was[c.keep].mtime, c.keep, was[d.keep].mtime, d.keep);
    }
    assert d.keep == c.keep;
    forall n | n in left ensures !Redundant(left, d, n) {
      assert !Redundant(was, c, n);
    }
  }
}
