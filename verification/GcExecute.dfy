/** Carrying out a collection plan, one file at a time, on a disk other actors also change. */
module GcExecute {
  import opened Gc
  import opened GcPlan
  import opened StringOrder
  import opened Sums

  /** What became of one name. */
  datatype Removal =
    | Gone(freed: nat)
    | AlreadyGone
    | RefusedUnsafeName
    | RefusedLink
    | RefusedNotAFile
    | FailedRemoval

  /** The grace window, in the unit of the clock; none when it is switched off. */
  datatype Grace = Off | Window(length: nat, now: int)

  const NoDir := DepotDir(map[], map[])

  function DirAt(dirs: map<nat, DepotDir>, depot: nat): DepotDir {
    if depot in dirs then dirs[depot] else NoDir
  }

  /** `_remove_planned_chunk` and `remove_one_file`: only a regular file of that name goes. */
  function RemovalOf(chunks: map<string, Entry>, n: string): Removal {
    if !IsChunkName(n) then RefusedUnsafeName
    else if n !in chunks then AlreadyGone
    else match chunks[n]
      case Unreadable => FailedRemoval
      case Link(_) => RefusedLink
      case NotAFile(_) => RefusedNotAFile
      case File(_, size, locked) => if locked then FailedRemoval else Gone(size)
  }

  /** `RecentlyStoredGrace`: young names are held back, and so are names that cannot be aged. */
  predicate HeldBack(grace: Grace, chunks: map<string, Entry>, n: string) {
    && grace.Window? && IsChunkName(n) && n in chunks
    && (chunks[n].Unreadable? || grace.now - chunks[n].storedAt < grace.length)
  }

  /** `orphans_to_delete`: exclusions only ever shrink what a plan named. */
  function ToDelete(plan: DepotPlan, grace: Grace, chunks: map<string, Entry>): set<string> {
    if plan.status != Planned then {} else set n | n in plan.orphans && !HeldBack(grace, chunks, n)
  }

  function ChunksAfter(chunks: map<string, Entry>, names: set<string>): map<string, Entry> {
    map n | n in chunks && !(n in names && RemovalOf(chunks, n).Gone?) :: chunks[n]
  }

  datatype Toll = Toll(removed: map<string, nat>, alreadyGone: set<string>, problems: set<string>) {
    function Add(n: string, r: Removal): Toll {
      match r
      case Gone(freed) => this.(removed := removed[n := freed])
      case AlreadyGone => this.(alreadyGone := alreadyGone + {n})
      case _ => this.(problems := problems + {n})
    }
  }

  function TollOf(chunks: map<string, Entry>, names: set<string>): Toll {
    Toll(map n | n in names && RemovalOf(chunks, n).Gone? :: RemovalOf(chunks, n).freed,
          set n | n in names && RemovalOf(chunks, n).AlreadyGone?,
          set n | n in names && !RemovalOf(chunks, n).Gone? && !RemovalOf(chunks, n).AlreadyGone?)
  }

  lemma TollExtend(chunks: map<string, Entry>, names: set<string>, n: string)
    requires n !in names
    ensures TollOf(chunks, names + {n}) == TollOf(chunks, names).Add(n, RemovalOf(chunks, n))
    ensures ChunksAfter(chunks, names + {n})
         == if RemovalOf(chunks, n).Gone? then ChunksAfter(chunks, names) - {n} else ChunksAfter(chunks, names)
    ensures RemovalOf(ChunksAfter(chunks, names), n) == RemovalOf(chunks, n)
  {
    var was, now := TollOf(chunks, names).Add(n, RemovalOf(chunks, n)), TollOf(chunks, names + {n});
    assert now.removed == was.removed;
    assert now.alreadyGone == was.alreadyGone;
    assert now.problems == was.problems;
  }

  /** A set that is being worked off one element at a time. */
  predicate Splits(all: set<string>, done: set<string>, todo: set<string>) {
    done + todo == all && done !! todo
  }

  lemma SplitsFirst(all: set<string>)
    ensures Splits(all, {}, all)
  {
  }

  lemma SplitsNext(all: set<string>, done: set<string>, todo: set<string>, n: string)
    requires Splits(all, done, todo) && n in todo
    ensures Splits(all, done + {n}, todo - {n}) && n in all && n !in done && done + {n} <= all
  {
  }

  lemma SplitsLast(all: set<string>, done: set<string>)
    requires Splits(all, done, {})
    ensures done == all
  {
  }

  lemma AddCounts(toll: Toll, n: string, r: Removal)
    ensures toll.Add(n, r).removed.Keys == if r.Gone? then toll.removed.Keys + {n} else toll.removed.Keys
  {
  }

  /** All directories once the names are gone from one of them, as far as they can be removed. */
  function Cleaned(dirs: map<nat, DepotDir>, depot: nat, names: set<string>): map<nat, DepotDir> {
    if depot in dirs then dirs[depot := dirs[depot].(chunks := ChunksAfter(dirs[depot].chunks, names))] else dirs
  }

  lemma NothingCleaned(dirs: map<nat, DepotDir>, depot: nat)
    ensures Cleaned(dirs, depot, {}) == dirs
  {
    NothingRemoved(DirAt(dirs, depot).chunks);
  }

  lemma CleanedExtend(dirs: map<nat, DepotDir>, depot: nat, names: set<string>, n: string)
    requires n !in names
    ensures var (was, r) := (Cleaned(dirs, depot, names), RemovalOf(DirAt(dirs, depot).chunks, n));
      && RemovalOf(DirAt(was, depot).chunks, n) == r
      && (r.Gone? ==> depot in was)
      && Cleaned(dirs, depot, names + {n})
         == if r.Gone? then was[depot := was[depot].(chunks := was[depot].chunks - {n})] else was
  {
    TollExtend(DirAt(dirs, depot).chunks, names, n);
    if depot !in dirs { NoDirNoRemoval(n); }
    hide ChunksAfter, RemovalOf, TollOf;
  }

  // ---------------------------------------------------------------- duplicate manifest copies

  /** The copies stored for one manifest id, none when the directory or the id is not there. */
  function CopiesIn(manifests: map<string, map<string, Copy>>, id: string): map<string, Copy> {
    if id in manifests then manifests[id] else map[]
  }

  function CopiesAt(dirs: map<nat, DepotDir>, depot: nat, id: string): map<string, Copy> {
    CopiesIn(DirAt(dirs, depot).manifests, id)
  }

  /** `_is_usable_manifest_copy`. */
  predicate IsCopy(copies: map<string, Copy>, n: string) {
    n in copies && copies[n].Copy?
  }

  /** `files_are_identical`: both can be read, and they hold the same bytes. */
  predicate Identical(copies: map<string, Copy>, keep: string, n: string) {
    IsCopy(copies, keep) && IsCopy(copies, n) && copies[n].bytes == copies[keep].bytes
  }

  /** `remove_one_file` on a stored copy. */
  function CopyRemovalOf(copies: map<string, Copy>, n: string): Removal {
    if n !in copies then AlreadyGone
    else match copies[n]
      case NoCopy => RefusedNotAFile
      case Copy(bytes, _, locked) => if locked then FailedRemoval else Gone(|bytes|)
  }

  /** The kept copy is there, and this one is byte for byte the same and can be removed. */
  predicate Redundant(copies: map<string, Copy>, c: Candidate, n: string) {
    n in c.duplicates && Identical(copies, c.keep, n) && !copies[n].locked
  }

  function CopiesAfter(copies: map<string, Copy>, c: Candidate): map<string, Copy> {
    map n | n in copies && !Redundant(copies, c, n) :: copies[n]
  }

  function FreedCopies(copies: map<string, Copy>, c: Candidate): map<string, nat> {
    map n | n in copies && Redundant(copies, c, n) :: |copies[n].bytes|
  }

  /** The same, as far as the names of `done`. */
  function CopiesLeft(copies: map<string, Copy>, c: Candidate, done: set<string>): map<string, Copy> {
    map n | n in copies && !(n in done && Redundant(copies, c, n)) :: copies[n]
  }

  function FreedSoFar(copies: map<string, Copy>, c: Candidate, done: set<string>): map<string, nat> {
    map n | n in copies && n in done && Redundant(copies, c, n) :: |copies[n].bytes|
  }

  lemma NoCopyYet(copies: map<string, Copy>, c: Candidate)
    ensures CopiesLeft(copies, c, {}) == copies && FreedSoFar(copies, c, {}) == map[]
  {
  }

  lemma AllCopiesDone(copies: map<string, Copy>, c: Candidate)
    ensures CopiesLeft(copies, c, c.duplicates) == CopiesAfter(copies, c)
    ensures FreedSoFar(copies, c, c.duplicates) == FreedCopies(copies, c)
  {
    hide Identical;
  }

  lemma NoKeeperNothingFreed(copies: map<string, Copy>, c: Candidate)
    requires !IsCopy(copies, c.keep)
    ensures CopiesAfter(copies, c) == copies && FreedCopies(copies, c) == map[]
  {
  }

  /** What one more name comes to, judged on the copies that are left by then. */
  lemma OneMoreCopy(copies: map<string, Copy>, c: Candidate, done: set<string>, n: string)
    requires c.keep !in c.duplicates && done <= c.duplicates && n in c.duplicates && n !in done
    ensures var (left, freed) := (CopiesLeft(copies, c, done), FreedSoFar(copies, c, done));
      var r := CopyRemovalOf(left, n);
      var goes := Identical(left, c.keep, n) && r.Gone?;
      && CopiesLeft(copies, c, done + {n}) == (if goes then left - {n} else left)
      && FreedSoFar(copies, c, done + {n}) == (if goes then freed[n := r.freed] else freed)
  {
  }

  function ManifestsAfter(manifests: map<string, map<string, Copy>>, dedupe: map<string, Candidate>)
    : map<string, map<string, Copy>>
  {
    map id | id in manifests :: if id in dedupe then CopiesAfter(manifests[id], dedupe[id]) else manifests[id]
  }

  /** The same, and what it frees, as far as the ids of `done`. */
  function DedupedOf(manifests: map<string, map<string, Copy>>, dedupe: map<string, Candidate>, done: set<string>)
    : map<string, map<string, Copy>>
    requires done <= dedupe.Keys
  {
    map id | id in manifests :: if id in done then CopiesAfter(manifests[id], dedupe[id]) else manifests[id]
  }

  function FreedOf(manifests: map<string, map<string, Copy>>, dedupe: map<string, Candidate>, done: set<string>)
    : map<string, map<string, nat>>
    requires done <= dedupe.Keys
  {
    map id | id in done :: FreedCopies(CopiesIn(manifests, id), dedupe[id])
  }

  lemma DedupeStarts(manifests: map<string, map<string, Copy>>, dedupe: map<string, Candidate>)
    ensures DedupedOf(manifests, dedupe, {}) == manifests && FreedOf(manifests, dedupe, {}) == map[]
  {
  }

  lemma DedupeExtend(manifests: map<string, map<string, Copy>>, dedupe: map<string, Candidate>, done: set<string>, id: string)
    requires done <= dedupe.Keys && id in dedupe && id !in done
    ensures var (was, freed) := (DedupedOf(manifests, dedupe, done), FreedOf(manifests, dedupe, done));
      && (id in was <==> id in manifests) && CopiesIn(was, id) == CopiesIn(manifests, id)
      && DedupedOf(manifests, dedupe, done + {id})
         == (if id in was then was[id := CopiesAfter(CopiesIn(was, id), dedupe[id])] else was)
      && FreedOf(manifests, dedupe, done + {id}) == freed[id := FreedCopies(CopiesIn(was, id), dedupe[id])]
  {
    hide CopiesAfter, FreedCopies;
  }

  lemma DedupeEnds(manifests: map<string, map<string, Copy>>, dedupe: map<string, Candidate>)
    ensures DedupedOf(manifests, dedupe, dedupe.Keys) == ManifestsAfter(manifests, dedupe)
    ensures FreedOf(manifests, dedupe, dedupe.Keys).Keys == dedupe.Keys
    ensures forall id :: id in dedupe ==>
      FreedOf(manifests, dedupe, dedupe.Keys)[id] == FreedCopies(CopiesIn(manifests, id), dedupe[id])
  {
    hide CopiesAfter, FreedCopies;
  }

  // ---------------------------------------------------------------- the executor

  predicate WellFormed(plan: DepotPlan) {
    forall id :: id in plan.dedupe ==> plan.dedupe[id].keep !in plan.dedupe[id].duplicates
  }

  /** One change the collector itself has made, between the directories as it found and left them. */
  datatype OwnStep =
    | ChunkGone(depot: nat, name: string, size: nat, before: map<nat, DepotDir>, after: map<nat, DepotDir>)
    | CopyGone(depot: nat, name: string, size: nat, before: map<nat, DepotDir>, after: map<nat, DepotDir>,
               id: string, keep: string, compared: map<nat, DepotDir>)

  /** One regular chunk file, or one stored copy that was byte for byte the kept one when the two were
      compared - of its reported size, and nothing else in any directory. */
  ghost predicate Faithful(s: OwnStep) {
    s.depot in s.before && var dir := s.before[s.depot];
    match s
    case ChunkGone(depot, name, size, before, after) =>
      RemovalOf(dir.chunks, name) == Gone(size) && after == before[depot := dir.(chunks := dir.chunks - {name})]
    case CopyGone(depot, name, size, before, after, id, keep, compared) =>
      && Identical(CopiesAt(compared, depot, id), keep, name)
      && CopyRemovalOf(CopiesAt(before, depot, id), name) == Gone(size)
      && after == WithCopies(before, depot, id, CopiesAt(before, depot, id) - {name})
  }

  /** A change the plan calls for. */
  ghost predicate Allowed(plan: DepotPlan, s: OwnStep) {
    && plan.status == Planned && s.depot == plan.depot && Faithful(s)
    && (s.ChunkGone? ==> s.name in plan.orphans && IsChunkName(s.name))
    && (s.CopyGone? ==> s.id in plan.dedupe && s.keep == plan.dedupe[s.id].keep && s.name in plan.dedupe[s.id].duplicates)
  }

  ghost predicate AllAllowed(plan: DepotPlan, steps: seq<OwnStep>) {
    forall i :: 0 <= i < |steps| ==> Allowed(plan, steps[i])
  }

  /** Every removal counted is one of the steps, with its size. */
  ghost predicate Shown(toll: Toll, steps: seq<OwnStep>) {
    forall n :: n in toll.removed ==>
      exists i :: 0 <= i < |steps| && steps[i].ChunkGone? && steps[i].name == n && steps[i].size == toll.removed[n]
  }

  lemma NoSteps(plan: DepotPlan)
    ensures AllAllowed(plan, []) && Shown(Toll(map[], {}, {}), [])
  {
  }

  lemma StepsJoin(plan: DepotPlan, a: seq<OwnStep>, b: seq<OwnStep>, toll: Toll)
    requires AllAllowed(plan, a) && AllAllowed(plan, b) && Shown(toll, a)
    ensures AllAllowed(plan, a + b) && Shown(toll, a + b)
  {
    hide Allowed;
    forall n | n in toll.removed
      ensures exists i :: 0 <= i < |a + b| && (a + b)[i].ChunkGone? && (a + b)[i].name == n && (a + b)[i].size == toll.removed[n]
    {
      var i :| 0 <= i < |a| && a[i].ChunkGone? && a[i].name == n && a[i].size == toll.removed[n];
      assert (a + b)[i] == a[i];
    }
  }

  lemma ChunkStep(plan: DepotPlan, steps: seq<OwnStep>, toll: Toll, n: string, r: Removal, before: map<nat, DepotDir>,
                  after: map<nat, DepotDir>)
    requires AllAllowed(plan, steps) && Shown(toll, steps) && plan.status == Planned && n in plan.orphans
    requires r == RemovalOf(DirAt(before, plan.depot).chunks, n)
    requires r.Gone? ==> IsChunkName(n) && plan.depot in before
    requires r.Gone? ==> after == before[plan.depot := before[plan.depot].(chunks := before[plan.depot].chunks - {n})]
    ensures var now := steps + OwnOf(plan.depot, n, r, before, after);
      AllAllowed(plan, now) && Shown(toll.Add(n, r), now)
  {
    hide RemovalOf, IsChunkName, CopiesAfter;
    if r.Gone? {
      var step := ChunkGone(plan.depot, n, r.freed, before, after);
      assert Faithful(step) && Allowed(plan, step);
      hide Allowed;
      var now := steps + [step];
      assert now[|steps|] == step;
      forall m | m in toll.removed
        ensures exists i :: 0 <= i < |now| && now[i].ChunkGone? && now[i].name == m && now[i].size == toll.removed[m]
      {
        var i :| 0 <= i < |steps| && steps[i].ChunkGone? && steps[i].name == m && steps[i].size == toll.removed[m];
        assert now[i] == steps[i];
      }
    } else {
      assert steps + [] == steps;
    }
  }

  /** Every copy counted is one of the steps, with its size. */
  ghost predicate CopiesShown(freed: map<string, nat>, id: string, steps: seq<OwnStep>) {
    forall n :: n in freed ==>
      exists i :: 0 <= i < |steps| && steps[i].CopyGone? && steps[i].id == id && steps[i].name == n && steps[i].size == freed[n]
  }

  ghost predicate AllCopiesShown(freed: map<string, map<string, nat>>, steps: seq<OwnStep>) {
    forall id :: id in freed ==> CopiesShown(freed[id], id, steps)
  }

  lemma NoCopySteps(id: string, steps: seq<OwnStep>)
    ensures CopiesShown(map[], id, steps) && AllCopiesShown(map[], steps)
  {
  }

  lemma MoreStepsShowMore(freed: map<string, nat>, id: string, a: seq<OwnStep>, b: seq<OwnStep>)
    requires CopiesShown(freed, id, a) || CopiesShown(freed, id, b)
    ensures CopiesShown(freed, id, a + b)
  {
    forall n | n in freed
      ensures exists i :: 0 <= i < |a + b| && (a + b)[i].CopyGone? && (a + b)[i].id == id && (a + b)[i].name == n && (a + b)[i].size == freed[n]
    {
      if CopiesShown(freed, id, a) {
        var i :| 0 <= i < |a| && a[i].CopyGone? && a[i].id == id && a[i].name == n && a[i].size == freed[n];
        assert (a + b)[i] == a[i];
      } else {
        var i :| 0 <= i < |b| && b[i].CopyGone? && b[i].id == id && b[i].name == n && b[i].size == freed[n];
        assert (a + b)[|a| + i] == b[i];
      }
    }
  }

  lemma CopiesShownJoin(freed: map<string, map<string, nat>>, id: string, more: map<string, nat>, a: seq<OwnStep>, b: seq<OwnStep>)
    requires AllCopiesShown(freed, a) && CopiesShown(more, id, b)
    ensures AllCopiesShown(freed[id := more], a + b)
  {
    hide CopiesShown;
    MoreStepsShowMore(more, id, a, b);
    forall d | d in freed ensures CopiesShown(freed[d], d, a + b) {
      MoreStepsShowMore(freed[d], d, a, b);
    }
  }

  lemma CopyStep(plan: DepotPlan, steps: seq<OwnStep>, freed: map<string, nat>, step: OwnStep)
    requires step.CopyGone? && Allowed(plan, step)
    requires AllAllowed(plan, steps) && CopiesShown(freed, step.id, steps)
    ensures AllAllowed(plan, steps + [step]) && CopiesShown(freed[step.name := step.size], step.id, steps + [step])
  {
    hide Allowed;
    var now := steps + [step];
    assert now[|steps|] == step;
    forall n | n in freed
      ensures exists i :: 0 <= i < |now| && now[i].CopyGone? && now[i].id == step.id && now[i].name == n && now[i].size == freed[n]
    {
      var i :| 0 <= i < |steps| && steps[i].CopyGone? && steps[i].id == step.id && steps[i].name == n && steps[i].size == freed[n];
      assert now[i] == steps[i];
    }
  }

  lemma CopyStepIsAllowed(plan: DepotPlan, id: string, n: string, r: Removal, compared: map<nat, DepotDir>,
                          before: map<nat, DepotDir>, after: map<nat, DepotDir>)
    requires plan.status == Planned && id in plan.dedupe && n in plan.dedupe[id].duplicates
    requires Identical(CopiesAt(compared, plan.depot, id), plan.dedupe[id].keep, n)
    requires r == CopyRemovalOf(CopiesAt(before, plan.depot, id), n) && r.Gone? && plan.depot in before
    requires after == WithCopies(before, plan.depot, id, CopiesAt(before, plan.depot, id) - {n})
    ensures Allowed(plan, CopyGone(plan.depot, n, r.freed, before, after, id, plan.dedupe[id].keep, compared))
  {
    hide Identical, CopyRemovalOf, CopiesAt, WithCopies;
  }

  function WithCopies(dirs: map<nat, DepotDir>, depot: nat, id: string, left: map<string, Copy>): map<nat, DepotDir>
    requires depot in dirs
  {
    dirs[depot := dirs[depot].(manifests := dirs[depot].manifests[id := left])]
  }

  ghost function OwnOf(depot: nat, n: string, r: Removal, before: map<nat, DepotDir>, after: map<nat, DepotDir>): seq<OwnStep> {
    if r.Gone? then [ChunkGone(depot, n, r.freed, before, after)] else []
  }

  /** The directories once the ids of `done` have been collapsed in one of them. */
  function Collapsed(dirs: map<nat, DepotDir>, depot: nat, dedupe: map<string, Candidate>, done: set<string>): map<nat, DepotDir>
    requires done <= dedupe.Keys
  {
    if depot in dirs then dirs[depot := dirs[depot].(manifests := DedupedOf(dirs[depot].manifests, dedupe, done))] else dirs
  }

  lemma NothingCollapsed(dirs: map<nat, DepotDir>, depot: nat, dedupe: map<string, Candidate>)
    ensures Collapsed(dirs, depot, dedupe, {}) == dirs
    ensures FreedOf(DirAt(dirs, depot).manifests, dedupe, {}) == map[]
  {
    if depot in dirs { DedupeStarts(dirs[depot].manifests, dedupe); }
  }

  /** The directories once one id has these copies, where the id is stored at all. */
  function Recopied(dirs: map<nat, DepotDir>, depot: nat, id: string, left: map<string, Copy>): map<nat, DepotDir> {
    if depot in dirs && id in dirs[depot].manifests then WithCopies(dirs, depot, id, left) else dirs
  }

  lemma RecopiedSame(dirs: map<nat, DepotDir>, depot: nat, id: string)
    ensures Recopied(dirs, depot, id, CopiesAt(dirs, depot, id)) == dirs
  {
    if depot in dirs && id in dirs[depot].manifests {
      assert dirs[depot].manifests[id := CopiesAt(dirs, depot, id)] == dirs[depot].manifests;
    }
  }

  lemma RecopiedIsRead(dirs: map<nat, DepotDir>, depot: nat, id: string, left: map<string, Copy>, n: string)
    requires CopiesAt(dirs, depot, id) != map[]
    ensures var was := Recopied(dirs, depot, id, left);
      && depot in was && CopiesAt(was, depot, id) == left
      && WithCopies(was, depot, id, left - {n}) == Recopied(dirs, depot, id, left - {n})
  {
    assert dirs[depot].manifests[id := left][id := left - {n}] == dirs[depot].manifests[id := left - {n}];
  }

  lemma CollapsedExtend(dirs: map<nat, DepotDir>, depot: nat, dedupe: map<string, Candidate>, done: set<string>, id: string)
    requires done <= dedupe.Keys && id in dedupe && id !in done
    ensures var (was, ms) := (Collapsed(dirs, depot, dedupe, done), DirAt(dirs, depot).manifests);
      var copies := CopiesAt(was, depot, id);
      && Collapsed(dirs, depot, dedupe, done + {id}) == Recopied(was, depot, id, CopiesAfter(copies, dedupe[id]))
      && FreedOf(ms, dedupe, done + {id}) == FreedOf(ms, dedupe, done)[id := FreedCopies(copies, dedupe[id])]
  {
    DedupeExtend(DirAt(dirs, depot).manifests, dedupe, done, id);
    hide DedupedOf, FreedOf, CopiesAfter, FreedCopies, CopiesIn;
  }

  lemma AllCollapsed(dirs: map<nat, DepotDir>, depot: nat, dedupe: map<string, Candidate>)
    ensures var after := Collapsed(dirs, depot, dedupe, dedupe.Keys);
      && after.Keys == dirs.Keys && (forall d :: d in dirs && d != depot ==> after[d] == dirs[d])
      && (depot in dirs ==> after[depot] == dirs[depot].(manifests := ManifestsAfter(dirs[depot].manifests, dedupe)))
    ensures FreedOf(DirAt(dirs, depot).manifests, dedupe, dedupe.Keys).Keys == dedupe.Keys
    ensures forall id :: id in dedupe ==>
      FreedOf(DirAt(dirs, depot).manifests, dedupe, dedupe.Keys)[id] == FreedCopies(CopiesAt(dirs, depot, id), dedupe[id])
  {
    DedupeEnds(DirAt(dirs, depot).manifests, dedupe);
    hide DedupedOf, FreedOf, CopiesAfter, FreedCopies, ManifestsAfter;
  }

  /** One plan has been carried out, with this toll. */
  ghost predicate OneCarriedOut(plan: DepotPlan, toll: Toll, was: map<nat, DepotDir>, now: map<nat, DepotDir>, grace: Grace) {
    && toll == TollFor(DirAt(was, plan.depot), plan, grace)
    && (plan.depot in now <==> plan.depot in was)
    && (plan.depot in now ==> now[plan.depot] == DirAfter(was[plan.depot], plan, grace))
  }

  /** The first plans have been carried out, with these tolls, and nothing else has moved. */
  ghost predicate CarriedOut(plans: seq<DepotPlan>, tolls: seq<Toll>, was: map<nat, DepotDir>, now: map<nat, DepotDir>,
                             grace: Grace)
    requires |tolls| <= |plans|
  {
    && now.Keys == was.Keys
    && (forall i :: 0 <= i < |tolls| ==> OneCarriedOut(plans[i], tolls[i], was, now, grace))
    && (forall d :: d in now && (forall i :: 0 <= i < |tolls| ==> plans[i].depot != d) ==> now[d] == was[d])
  }

  lemma NothingCarriedOut(plans: seq<DepotPlan>, dirs: map<nat, DepotDir>, grace: Grace)
    ensures CarriedOut(plans, [], dirs, dirs, grace)
  {
  }

  /** Only the directory of one depot has changed. */
  ghost predicate OnlyMoved(depot: nat, was: map<nat, DepotDir>, now: map<nat, DepotDir>) {
    now.Keys == was.Keys && forall d :: d in now && d != depot ==> now[d] == was[d]
  }

  lemma StaysCarriedOut(plan: DepotPlan, toll: Toll, was: map<nat, DepotDir>, before: map<nat, DepotDir>,
                        now: map<nat, DepotDir>, grace: Grace, depot: nat)
    requires OneCarriedOut(plan, toll, was, before, grace) && OnlyMoved(depot, before, now) && plan.depot != depot
    ensures OneCarriedOut(plan, toll, was, now, grace)
  {
    hide TollFor, DirAfter;
  }

  lemma NextCarriedOut(plan: DepotPlan, toll: Toll, was: map<nat, DepotDir>, before: map<nat, DepotDir>,
                       now: map<nat, DepotDir>, grace: Grace)
    requires OneCarriedOut(plan, toll, before, now, grace)
    requires before.Keys == was.Keys && (plan.depot in before ==> before[plan.depot] == was[plan.depot])
    ensures OneCarriedOut(plan, toll, was, now, grace)
  {
    hide TollFor, DirAfter;
  }

  lemma OneMoreCarriedOut(plans: seq<DepotPlan>, tolls: seq<Toll>, was: map<nat, DepotDir>, before: map<nat, DepotDir>,
                          now: map<nat, DepotDir>, grace: Grace, toll: Toll)
    requires |tolls| < |plans| && CarriedOut(plans, tolls, was, before, grace)
    requires forall i, k :: 0 <= i < k < |plans| ==> plans[i].depot != plans[k].depot
    requires OneCarriedOut(plans[|tolls|], toll, before, now, grace) && OnlyMoved(plans[|tolls|].depot, before, now)
    ensures CarriedOut(plans, tolls + [toll], was, now, grace)
  {
    hide OneCarriedOut;
    var plan := plans[|tolls|];
    NextCarriedOut(plan, toll, was, before, now, grace);
    forall i | 0 <= i < |tolls| ensures OneCarriedOut(plans[i], tolls[i], was, now, grace) {
      StaysCarriedOut(plans[i], tolls[i], was, before, now, grace, plan.depot);
    }
    forall d | d in now && (forall i :: 0 <= i < |tolls + [toll]| ==> plans[i].depot != d) ensures now[d] == was[d] {
      assert plans[|tolls|].depot != d;
    }
  }

  class Collector {
    var dirs: map<nat, DepotDir>
    ghost var own: seq<OwnStep>

    method RemovePlannedChunk(depot: nat, n: string) returns (r: Removal)
      modifies this
      ensures r == RemovalOf(DirAt(old(dirs), depot).chunks, n)
      ensures r.Gone? ==> IsChunkName(n) && depot in old(dirs)
      ensures r.Gone? ==> dirs == old(dirs)[depot := old(dirs)[depot].(chunks := old(dirs)[depot].chunks - {n})]
      ensures !r.Gone? ==> dirs == old(dirs)
      ensures own == old(own) + OwnOf(depot, n, r, old(dirs), dirs)
    {
      assert own + [] == own;
      if !IsChunkName(n) {
        return RefusedUnsafeName;
      }
      if depot !in dirs || n !in dirs[depot].chunks {
        return AlreadyGone;
      }
      match dirs[depot].chunks[n] {
        case Unreadable => r := FailedRemoval;
        case Link(_) => r := RefusedLink;
        case NotAFile(_) => r := RefusedNotAFile;
        case File(_, size, locked) =>
          if locked {
            return FailedRemoval;
          }
          r := Gone(size);
          ghost var before := dirs;
          dirs := dirs[depot := dirs[depot].(chunks := dirs[depot].chunks - {n})];
          own := own + [ChunkGone(depot, n, size, before, dirs)];
      }
    }

    /** Clients storing chunks, deletions, other tools: anything may happen to the directories. */
    method OthersAct()
      modifies this`dirs
    {
      dirs := *;
    }

    /** The chunk half of `execute_depot`. Whatever others do meanwhile, each of its changes is the
        removal of one regular file the plan names, counted with the size it had. */
    method RemoveOrphans(plan: DepotPlan, grace: Grace, others: bool) returns (toll: Toll, ghost steps: seq<OwnStep>)
      modifies this
      ensures own == old(own) + steps && AllAllowed(plan, steps) && Shown(toll, steps)
      ensures toll.removed.Keys <= ToDelete(plan, grace, DirAt(old(dirs), plan.depot).chunks)
      ensures var chunks := DirAt(old(dirs), plan.depot).chunks;
        forall n :: n in toll.removed ==>
          || grace.Off? || n !in chunks
          || (!chunks[n].Unreadable? && grace.now - chunks[n].storedAt >= grace.length)
      ensures !others ==> var (was, now) := (DirAt(old(dirs), plan.depot).chunks, DirAt(dirs, plan.depot).chunks);
        forall n :: n in was ==>
          (n !in now <==>
            && plan.status == Planned && n in plan.orphans
            && |n| == 40 && (forall i :: 0 <= i < 40 ==> '0' <= n[i] <= '9' || 'a' <= n[i] <= 'f')
            && was[n].File? && !was[n].locked
            && (grace.Off? || grace.now - was[n].storedAt >= grace.length))
      ensures !others ==> toll == TollOf(DirAt(old(dirs), plan.depot).chunks,
                                         ToDelete(plan, grace, DirAt(old(dirs), plan.depot).chunks))
      ensures !others ==>
        dirs == Cleaned(old(dirs), plan.depot, ToDelete(plan, grace, DirAt(old(dirs), plan.depot).chunks))
    {
      hide *;
      ghost var start := dirs;
      ghost var chunks := DirAt(dirs, plan.depot).chunks;
      var names := ToDelete(plan, grace, DirAt(dirs, plan.depot).chunks);
      NamesArePlanned(plan, grace, chunks);
      toll, steps := Toll(map[], {}, {}), [];
      NoSteps(plan);
      NothingRemoved(chunks);
      NothingCleaned(start, plan.depot);
      var todo := names;
      ghost var done: set<string> := {};
      SplitsFirst(names);
      while todo != {}
        invariant Splits(names, done, todo) && toll.removed.Keys <= done
        invariant own == old(own) + steps && AllAllowed(plan, steps) && Shown(toll, steps)
        invariant !others ==> toll == TollOf(chunks, done)
        invariant !others ==> dirs == Cleaned(start, plan.depot, done)
        decreases |todo|
      {
        var n :| n in todo;
        SplitsNext(names, done, todo, n);
        if others {
          OthersAct();
        } else {
          TollExtend(chunks, done, n);
          CleanedExtend(start, plan.depot, done, n);
        }
        ghost var before := dirs;
        var r := RemovePlannedChunk(plan.depot, n);
        ChunkStep(plan, steps, toll, n, r, before, dirs);
        AddCounts(toll, n, r);
        StepsRegroup(old(own), steps, OwnOf(plan.depot, n, r, before, dirs));
        steps := steps + OwnOf(plan.depot, n, r, before, dirs);
        toll := toll.Add(n, r);
        todo, done := todo - {n}, done + {n};
      }
      SplitsLast(names, done);
      ShownAreNamed(plan, toll, steps);
      ReleasedAreOld(plan, grace, chunks, toll.removed.Keys);
      if !others { CleanedLeaves(start, plan, grace); }
    }

    method RemoveCopy(depot: nat, id: string, n: string) returns (r: Removal)
      modifies this`dirs
      ensures r == CopyRemovalOf(CopiesAt(old(dirs), depot, id), n)
      ensures r.Gone? ==> depot in old(dirs) && dirs == WithCopies(old(dirs), depot, id, CopiesAt(old(dirs), depot, id) - {n})
      ensures !r.Gone? ==> dirs == old(dirs)
    {
      var copies := CopiesAt(dirs, depot, id);
      if n !in copies {
        return AlreadyGone;
      }
      match copies[n] {
        case NoCopy => r := RefusedNotAFile;
        case Copy(bytes, _, locked) =>
          if locked {
            return FailedRemoval;
          }
          r := Gone(|bytes|);
          dirs := WithCopies(dirs, depot, id, copies - {n});
      }
    }

    /** The duplicates of one manifest id: the kept copy is verified once, then the others are
        compared with it and removed one by one, and others may act between any two of these. */
    method RemoveDuplicates(plan: DepotPlan, id: string, others: bool) returns (freed: map<string, nat>, ghost steps: seq<OwnStep>)
      requires WellFormed(plan) && plan.status == Planned && id in plan.dedupe
      modifies this
      ensures own == old(own) + steps && AllAllowed(plan, steps) && CopiesShown(freed, id, steps)
      ensures freed.Keys <= plan.dedupe[id].duplicates
      ensures !others ==>
        && dirs == Recopied(old(dirs), plan.depot, id, CopiesAfter(CopiesAt(old(dirs), plan.depot, id), plan.dedupe[id]))
        && freed == FreedCopies(CopiesAt(old(dirs), plan.depot, id), plan.dedupe[id])
    {
      hide *;
      var (depot, c) := (plan.depot, plan.dedupe[id]);
      ghost var (start, copies) := (dirs, CopiesAt(dirs, depot, id));
      freed, steps := map[], [];
      NoSteps(plan);
      NoCopySteps(id, []);
      KeepersStay(plan);
      StepsNone(own);
      if others {
        OthersAct();
      }
      if !IsCopy(CopiesAt(dirs, depot, id), c.keep) {
        if !others {
          NoKeeperNothingFreed(copies, c);
          RecopiedSame(start, depot, id);
        }
        return;
      }
      if !others {
        NoCopyYet(copies, c);
        RecopiedSame(start, depot, id);
        IsCopyMeans(copies, c.keep);
      }
      var todo := c.duplicates;
      ghost var done: set<string> := {};
      SplitsFirst(c.duplicates);
      while todo != {}
        invariant Splits(c.duplicates, done, todo) && done <= c.duplicates
        invariant own == old(own) + steps && AllAllowed(plan, steps) && CopiesShown(freed, id, steps)
        invariant freed.Keys <= c.duplicates
        invariant !others ==> dirs == Recopied(start, depot, id, CopiesLeft(copies, c, done))
        invariant !others ==> freed == FreedSoFar(copies, c, done)
        decreases |todo|
      {
        var n :| n in todo;
        SplitsNext(c.duplicates, done, todo, n);
        if others {
          OthersAct();
        } else {
          OneMoreCopy(copies, c, done, n);
          RecopiedIsRead(start, depot, id, CopiesLeft(copies, c, done), n);
        }
        if Identical(CopiesAt(dirs, depot, id), c.keep, n) {
          ghost var compared := dirs;
          if others {
            OthersAct();
          }
          ghost var before := dirs;
          var r := RemoveCopy(depot, id, n);
          if r.Gone? {
            CopyStepIsAllowed(plan, id, n, r, compared, before, dirs);
            ghost var step := CopyGone(depot, n, r.freed, before, dirs, id, c.keep, compared);
            CopyStep(plan, steps, freed, step);
            StepsRegroup(old(own), steps, [step]);
            steps, own := steps + [step], own + [step];
            freed := freed[n := r.freed];
          }
        }
        todo, done := todo - {n}, done + {n};
      }
      SplitsLast(c.duplicates, done);
      if !others { AllCopiesDone(copies, c); }
    }

    /** `execute_dedupe`: every planned candidate, on the copies as they are by then. */
    method ExecuteDedupe(plan: DepotPlan, others: bool) returns (freed: map<string, map<string, nat>>, ghost steps: seq<OwnStep>)
      requires WellFormed(plan) && plan.status == Planned
      modifies this
      ensures own == old(own) + steps && AllAllowed(plan, steps) && AllCopiesShown(freed, steps)
      ensures freed.Keys == plan.dedupe.Keys
      ensures !others ==>
        && dirs.Keys == old(dirs).Keys && (forall d :: d in dirs && d != plan.depot ==> dirs[d] == old(dirs)[d])
        && (plan.depot in dirs ==>
              dirs[plan.depot] == old(dirs)[plan.depot].(manifests := ManifestsAfter(old(dirs)[plan.depot].manifests, plan.dedupe)))
      ensures !others ==> forall id :: id in plan.dedupe ==>
        freed[id] == FreedCopies(CopiesAt(old(dirs), plan.depot, id), plan.dedupe[id])
    {
      hide *;
      var (depot, dedupe) := (plan.depot, plan.dedupe);
      ghost var start := dirs;
      freed, steps := map[], [];
      NoSteps(plan);
      NoCopySteps("", []);
      StepsNone(own);
      NothingCollapsed(start, depot, dedupe);
      var todo := dedupe.Keys;
      ghost var done: set<string> := {};
      SplitsFirst(dedupe.Keys);
      while todo != {}
        invariant Splits(dedupe.Keys, done, todo) && done <= dedupe.Keys
        invariant own == old(own) + steps && AllAllowed(plan, steps) && AllCopiesShown(freed, steps)
        invariant freed.Keys == done
        invariant !others ==> dirs == Collapsed(start, depot, dedupe, done)
        invariant !others ==> freed == FreedOf(DirAt(start, depot).manifests, dedupe, done)
        decreases |todo|
      {
        var id :| id in todo;
        SplitsNext(dedupe.Keys, done, todo, id);
        if !others { CollapsedExtend(start, depot, dedupe, done, id); }
        var bytes;
        ghost var made;
        bytes, made := RemoveDuplicates(plan, id, others);
        AllowedJoin(plan, steps, made);
        CopiesShownJoin(freed, id, bytes, steps, made);
        StepsRegroup(old(own), steps, made);
        steps, freed := steps + made, freed[id := bytes];
        todo, done := todo - {id}, done + {id};
      }
      SplitsLast(dedupe.Keys, done);
      AllCollapsed(start, depot, dedupe);
    }

    /** `execute_depot`: a depot whose plan is not `planned` is not touched at all, and a planned one
        only as its plan allows, whatever others do meanwhile. */
    method ExecuteDepot(plan: DepotPlan, grace: Grace, others: bool) returns (toll: Toll, ghost steps: seq<OwnStep>)
      requires WellFormed(plan)
      modifies this
      ensures own == old(own) + steps && AllAllowed(plan, steps) && Shown(toll, steps)
      ensures plan.status != Planned ==> dirs == old(dirs) && steps == []
      ensures !others ==>
        && dirs.Keys == old(dirs).Keys && (forall d :: d in dirs && d != plan.depot ==> dirs[d] == old(dirs)[d])
        && (plan.depot in dirs ==> dirs[plan.depot] == DirAfter(old(dirs)[plan.depot], plan, grace))
        && toll == TollFor(DirAt(old(dirs), plan.depot), plan, grace)
    {
      hide Allowed, AllAllowed, Shown, WellFormed, ChunksAfter, ManifestsAfter, HeldBack, FreedCopies;
      if plan.status != Planned {
        NothingRemoved(DirAt(dirs, plan.depot).chunks);
        NoSteps(plan);
        toll, steps := Toll(map[], {}, {}), [];
        return;
      }
      ghost var chunkSteps, copySteps;
      toll, chunkSteps := RemoveOrphans(plan, grace, others);
      var freed;
      freed, copySteps := ExecuteDedupe(plan, others);
      StepsRegroup(old(own), chunkSteps, copySteps);
      StepsJoin(plan, chunkSteps, copySteps, toll);
      steps := chunkSteps + copySteps;
    }

    /** `run_gc` in execute mode: the plans in order, until a cancel request is seen between two of
        them. Whatever others do meanwhile, every change it makes is allowed by the plan of a depot
        it started; undisturbed, depots never started are left exactly as they were. */
    method RunGc(plans: seq<DepotPlan>, grace: Grace, cancelAt: nat, others: bool)
      returns (tolls: seq<Toll>, ghost steps: seq<seq<OwnStep>>)
      requires forall i :: 0 <= i < |plans| ==> WellFormed(plans[i])
      requires forall i, k :: 0 <= i < k < |plans| ==> plans[i].depot != plans[k].depot
      modifies this
      ensures |tolls| == |steps| == if cancelAt < |plans| then cancelAt else |plans|
      ensures own == old(own) + Flat(steps)
      ensures forall i :: 0 <= i < |tolls| ==> AllAllowed(plans[i], steps[i]) && Shown(tolls[i], steps[i])
      ensures !others ==> CarriedOut(plans, tolls, old(dirs), dirs, grace)
    {
      hide DirAfter, TollFor, WellFormed, AllAllowed, Shown, CarriedOut;
      tolls, steps := [], [];
      NothingCarriedOut(plans, dirs, grace);
      assert own + [] == own;
      for i := 0 to |plans|
        invariant |tolls| == |steps| == i <= cancelAt
        invariant own == old(own) + Flat(steps)
        invariant forall k :: 0 <= k < i ==> AllAllowed(plans[k], steps[k]) && Shown(tolls[k], steps[k])
        invariant !others ==> CarriedOut(plans, tolls, old(dirs), dirs, grace)
      {
        if i == cancelAt {
          return;
        }
        if others {
          OthersAct();
        }
        var toll;
        ghost var made;
        ghost var before := dirs;
        toll, made := ExecuteDepot(plans[i], grace, others);
        if !others { OneMoreCarriedOut(plans, tolls, old(dirs), before, dirs, grace, toll); }
        FlatGrows(steps, made);
        StepsRegroup(old(own), Flat(steps), made);
        tolls, steps := tolls + [toll], steps + [made];
      }
    }
  }

  lemma NamesArePlanned(plan: DepotPlan, grace: Grace, chunks: map<string, Entry>)
    ensures forall n :: n in ToDelete(plan, grace, chunks) ==> plan.status == Planned && n in plan.orphans
  {
  }

  /** Whatever the plan releases was absent or old enough when it was released, unless there is no
      grace window or the name is none a chunk can have. */
  lemma ReleasedAreOld(plan: DepotPlan, grace: Grace, chunks: map<string, Entry>, removed: set<string>)
    requires removed <= ToDelete(plan, grace, chunks) && forall n :: n in removed ==> IsChunkName(n)
    ensures forall n :: n in removed ==>
      || grace.Off? || n !in chunks
      || (!chunks[n].Unreadable? && grace.now - chunks[n].storedAt >= grace.length)
  {
    hide IsChunkName;
  }

  lemma ShownAreNamed(plan: DepotPlan, toll: Toll, steps: seq<OwnStep>)
    requires AllAllowed(plan, steps) && Shown(toll, steps)
    ensures forall n :: n in toll.removed ==> IsChunkName(n)
  {
    hide IsChunkName, Faithful;
  }

  lemma CleanedLeaves(dirs: map<nat, DepotDir>, plan: DepotPlan, grace: Grace)
    ensures var was := DirAt(dirs, plan.depot).chunks;
      var now := DirAt(Cleaned(dirs, plan.depot, ToDelete(plan, grace, was)), plan.depot).chunks;
      forall n :: n in was ==>
        (n !in now <==>
          && plan.status == Planned && n in plan.orphans
          && |n| == 40 && (forall i :: 0 <= i < 40 ==> '0' <= n[i] <= '9' || 'a' <= n[i] <= 'f')
          && was[n].File? && !was[n].locked
          && (grace.Off? || grace.now - was[n].storedAt >= grace.length))
  {
    var was := DirAt(dirs, plan.depot).chunks;
    var names := ToDelete(plan, grace, was);
    assert DirAt(Cleaned(dirs, plan.depot, names), plan.depot).chunks == ChunksAfter(was, names);
    forall n | n in was
      ensures n !in ChunksAfter(was, names) <==>
        && plan.status == Planned && n in plan.orphans
        && |n| == 40 && (forall i :: 0 <= i < 40 ==> '0' <= n[i] <= '9' || 'a' <= n[i] <= 'f')
        && was[n].File? && !was[n].locked
        && (grace.Off? || grace.now - was[n].storedAt >= grace.length)
    {
      GoesExactlyWhen(was, plan, grace, n);
    }
  }

  lemma ChunkNameIs(n: string)
    ensures IsChunkName(n) <==> |n| == 40 && (forall i :: 0 <= i < 40 ==> '0' <= n[i] <= '9' || 'a' <= n[i] <= 'f')
  {
    if |n| == 40 && forall c :: c in n ==> '0' <= c <= '9' || 'a' <= c <= 'f' {
      forall i | 0 <= i < 40 ensures '0' <= n[i] <= '9' || 'a' <= n[i] <= 'f' {
        assert n[i] in n;
      }
    }
  }

  lemma GoesExactlyWhen(was: map<string, Entry>, plan: DepotPlan, grace: Grace, n: string)
    requires n in was
    ensures n !in ChunksAfter(was, ToDelete(plan, grace, was)) <==>
      && plan.status == Planned && n in plan.orphans
      && |n| == 40 && (forall i :: 0 <= i < 40 ==> '0' <= n[i] <= '9' || 'a' <= n[i] <= 'f')
      && was[n].File? && !was[n].locked
      && (grace.Off? || grace.now - was[n].storedAt >= grace.length)
  {
    ChunkNameIs(n);
    hide IsChunkName;
  }

  lemma KeepersStay(plan: DepotPlan)
    requires WellFormed(plan)
    ensures forall id :: id in plan.dedupe ==> plan.dedupe[id].keep !in plan.dedupe[id].duplicates
  {
  }

  lemma IsCopyMeans(copies: map<string, Copy>, n: string)
    requires IsCopy(copies, n)
    ensures copies != map[]
  {
  }

  lemma StepsNone(steps: seq<OwnStep>)
    ensures steps == steps + []
  {
  }

  lemma AllowedJoin(plan: DepotPlan, a: seq<OwnStep>, b: seq<OwnStep>)
    requires AllAllowed(plan, a) && AllAllowed(plan, b)
    ensures AllAllowed(plan, a + b)
  {
    hide Allowed;
  }

  lemma StepsRegroup(a: seq<OwnStep>, b: seq<OwnStep>, c: seq<OwnStep>)
    ensures a + b + c == a + (b + c)
  {
  }

  ghost function Flat(steps: seq<seq<OwnStep>>): seq<OwnStep> {
    if steps == [] then [] else Flat(steps[..|steps| - 1]) + steps[|steps| - 1]
  }

  lemma FlatGrows(steps: seq<seq<OwnStep>>, more: seq<OwnStep>)
    ensures Flat(steps + [more]) == Flat(steps) + more
  {
    assert (steps + [more])[..|steps|] == steps;
  }

  /** The directory a plan leaves behind when nobody else touches it. */
  function DirAfter(dir: DepotDir, plan: DepotPlan, grace: Grace): DepotDir {
    if plan.status != Planned then dir
    else DepotDir(ChunksAfter(dir.chunks, ToDelete(plan, grace, dir.chunks)), ManifestsAfter(dir.manifests, plan.dedupe))
  }

  function TollFor(dir: DepotDir, plan: DepotPlan, grace: Grace): Toll {
    TollOf(dir.chunks, ToDelete(plan, grace, dir.chunks))
  }

  // ---------------------------------------------------------------- bytes

  function Sizes(chunks: map<string, Entry>): map<string, nat> {
    map n | n in chunks && chunks[n].File? :: chunks[n].size
  }

  /** What the run reports as freed is exactly what the depot lost. */
  lemma BytesAreAccountedFor(dir: DepotDir, plan: DepotPlan, grace: Grace)
    ensures Sum(Sizes(dir.chunks))
         == Sum(Sizes(DirAfter(dir, plan, grace).chunks)) + Sum(TollFor(dir, plan, grace).removed)
  {
    var gone := TollFor(dir, plan, grace).removed;
    var was := Sizes(dir.chunks);
    SumSplit(was, gone.Keys);
    assert (map n | n in was && n in gone.Keys :: was[n]) == gone;
    assert was - gone.Keys == Sizes(DirAfter(dir, plan, grace).chunks);
  }

  lemma DuplicateBytesAreAccountedFor(copies: map<string, Copy>, c: Candidate)
    ensures Sum(CopySizes(copies)) == Sum(CopySizes(CopiesAfter(copies, c))) + Sum(FreedCopies(copies, c))
  {
    var gone := FreedCopies(copies, c);
    var was := CopySizes(copies);
    SumSplit(was, gone.Keys);
    assert (map n | n in was && n in gone.Keys :: was[n]) == gone;
    assert was - gone.Keys == CopySizes(CopiesAfter(copies, c));
  }

  function CopySizes(copies: map<string, Copy>): map<string, nat> {
    map n | n in copies && copies[n].Copy? :: |copies[n].bytes|
  }

  lemma NothingRemoved(chunks: map<string, Entry>)
    ensures TollOf(chunks, {}) == Toll(map[], {}, {})
    ensures ChunksAfter(chunks, {}) == chunks
  {
  }

  lemma NoDirNoRemoval(n: string)
    ensures !RemovalOf(map[], n).Gone?
  {
  }

  lemma PlansAreWellFormed(plan: DepotPlan, e: Evidence, depot: nat, dir: DepotDir, apps: set<MappedApp>, extras: seq<string>)
    requires PlanDescribes(plan, e, depot, dir, apps, extras)
    ensures WellFormed(plan)
  {
  }

  // ---------------------------------------------------------------- what a run keeps

  /** Whatever the directory looks like when the plan is carried out - chunks stored, removed or
      replaced since it was made - no name in a counting app's current manifest is removed: a
      manifest that is fully on disk stays fully on disk. */
  lemma CurrentManifestsStayWhole(plan: DepotPlan, e: Evidence, depot: nat, planned: DepotDir, apps: set<MappedApp>,
                                  extras: seq<string>, a: MappedApp, now: DepotDir, grace: Grace, n: string)
    requires PlanDescribes(plan, e, depot, planned, apps, extras)
    requires a in apps && Requires(e, depot, planned.manifests, a, n)
    ensures n !in ToDelete(plan, grace, now.chunks)
    ensures n in DirAfter(now, plan, grace).chunks <==> n in now.chunks
    ensures n in now.chunks ==> DirAfter(now, plan, grace).chunks[n] == now.chunks[n]
  {
    if plan.status == Planned {
      PlanSparesCurrentManifests(plan, e, depot, planned, apps, extras, a);
    }
  }

  /** What becomes of a planned orphan: gone and counted with its size exactly when it is an unlocked
      regular file with a chunk's name that is old enough; reported as already gone exactly when it
      was not there; reported as a problem when its name is none of a chunk or when something old
      enough - or anything at all without a grace window - could not be removed; else held back. */
  lemma OrphansFate(dir: DepotDir, plan: DepotPlan, grace: Grace, n: string)
    requires plan.status == Planned && n in plan.orphans
    ensures var (after, toll, was) := (DirAfter(dir, plan, grace).chunks, TollFor(dir, plan, grace), dir.chunks);
      var named := |n| == 40 && (forall i :: 0 <= i < 40 ==> '0' <= n[i] <= '9' || 'a' <= n[i] <= 'f');
      var aged := grace.Off? || (n in was && !was[n].Unreadable? && grace.now - was[n].storedAt >= grace.length);
      var file := n in was && was[n].File? && !was[n].locked;
      && (n in toll.removed <==> named && file && aged)
      && (n in toll.removed ==> toll.removed[n] == was[n].size && n !in after)
      && (n !in toll.removed ==> (n in after <==> n in was) && (n in was ==> after[n] == was[n]))
      && (n in toll.alreadyGone <==> named && n !in was)
      && (n in toll.problems <==> !named || (n in was && aged && !file))
  {
    ChunkNameIs(n);
    hide IsChunkName;
  }

  /** The disk after a run is the disk before minus the planned, released, regular chunk files
      and the verified redundant copies - nothing else is gone and nothing has changed. */
  lemma NothingElseIsTouched(plan: DepotPlan, now: DepotDir, grace: Grace)
    ensures var after := DirAfter(now, plan, grace);
      && (forall n :: n in now.chunks ==>
            if n in after.chunks then after.chunks[n] == now.chunks[n]
            else plan.status == Planned && n in plan.orphans && !HeldBack(grace, now.chunks, n) && now.chunks[n].File?)
      && (forall n :: n in after.chunks ==> n in now.chunks)
      && after.manifests.Keys == now.manifests.Keys
      && (forall id, n :: id in now.manifests && n in now.manifests[id] ==>
            if n in after.manifests[id] then after.manifests[id][n] == now.manifests[id][n]
            else plan.status == Planned && id in plan.dedupe && Redundant(now.manifests[id], plan.dedupe[id], n))
  {
  }

  // ---------------------------------------------------------------- the kept copy

  /** No change the collector makes touches a kept copy, and so a manifest id is left without any
      copy only when someone else took the kept one between the comparison and the removal. */
  lemma KeptCopyStays(plan: DepotPlan, s: OwnStep, id: string)
    requires WellFormed(plan) && Allowed(plan, s) && id in plan.dedupe
    ensures var keep := plan.dedupe[id].keep;
      var (was, now) := (CopiesAt(s.before, plan.depot, id), CopiesAt(s.after, plan.depot, id));
      && (keep in now <==> keep in was)
      && (keep in was ==> now[keep] == was[keep])
    ensures s.CopyGone? && (forall n :: !IsCopy(CopiesAt(s.after, plan.depot, s.id), n)) ==>
      IsCopy(CopiesAt(s.compared, plan.depot, s.id), s.keep) && !IsCopy(CopiesAt(s.before, plan.depot, s.id), s.keep)
  {
    hide RemovalOf, IsChunkName, CopyRemovalOf;
    if s.CopyGone? {
      var (was, now) := (CopiesAt(s.before, plan.depot, s.id), CopiesAt(s.after, plan.depot, s.id));
      assert now == was - {s.name};
      assert IsCopy(was, s.keep) ==> IsCopy(now, s.keep);
      assert s.id != id ==> CopiesAt(s.after, plan.depot, id) == CopiesAt(s.before, plan.depot, id);
    } else {
      assert CopiesAt(s.after, plan.depot, id) == CopiesAt(s.before, plan.depot, id);
    }
  }

  /** And then it does: two equal copies, the kept one gone before the other is unlinked. */
  lemma LastCopyCanGo(plan: DepotPlan) returns (s: OwnStep)
    requires plan.status == Planned && plan.depot == 1 && plan.dedupe == map["7" := Candidate("b", {"a"})]
    ensures WellFormed(plan) && Allowed(plan, s) && s.CopyGone? && s.id == "7"
    ensures CopiesAt(s.compared, 1, "7").Keys == {"a", "b"}
    ensures CopiesAt(s.before, 1, "7").Keys == {"a"} && CopiesAt(s.after, 1, "7") == map[]
  {
    var a := Copy("x", 1, false);
    var compared := map[1 := DepotDir(map[], map["7" := map["a" := a, "b" := Copy("x", 2, false)]])];
    var before := map[1 := DepotDir(map[], map["7" := map["a" := a]])];
    s := CopyGone(1, "a", 1, before, WithCopies(before, 1, "7", map["a" := a] - {"a"}), "7", "b", compared);
  }

  // ---------------------------------------------------------------- duplicates never carry evidence

  lemma ReadFromSurvives(e: Evidence, depot: nat, id: string, copies: map<string, Copy>, c: Candidate, n: string)
    requires CandidateFor(copies, c)
    ensures IsReadFrom(e.parse, depot, id, copies, n) <==> IsReadFrom(e.parse, depot, id, CopiesAfter(copies, c), n)
  {
    var left := CopiesAfter(copies, c);
    if IsReadFrom(e.parse, depot, id, copies, n) && n !in left {
      assert Usable(e.parse, depot, id, copies[c.keep]);
      LaterIsTotal(copies[n].mtime, n, copies[c.keep].mtime, c.keep);
    }
    if IsReadFrom(e.parse, depot, id, left, n) {
      forall m | m in copies && m != n && Usable(e.parse, depot, id, copies[m]) ensures NewerCopy(copies, n, m) {
        if m in left {
          assert NewerCopy(left, n, m);
        } else {
          assert Usable(e.parse, depot, id, left[c.keep]);
          if c.keep != n {
            assert NewerCopy(left, n, c.keep) && NewerCopy(copies, c.keep, n);
            LaterIsTotal(copies[n].mtime, n, copies[c.keep].mtime, c.keep);
          }
        }
      }
    }
  }

  /** Reading one stored manifest id gives the same chunks before and after its duplicates go, and
      at least one copy of the id remains. */
  lemma DuplicatesCarryNoEvidence(e: Evidence, depot: nat, id: string, copies: map<string, Copy>, c: Candidate)
    requires CandidateFor(copies, c)
    ensures StoredChunks(e.parse, depot, id, CopiesAfter(copies, c)) == StoredChunks(e.parse, depot, id, copies)
    ensures c.keep in CopiesAfter(copies, c) && CopiesAfter(copies, c)[c.keep] == copies[c.keep]
  {
    var left := CopiesAfter(copies, c);
    forall n: string ensures IsReadFrom(e.parse, depot, id, copies, n) <==> IsReadFrom(e.parse, depot, id, left, n) {
      ReadFromSurvives(e, depot, id, copies, c, n);
    }
    if n :| IsReadFrom(e.parse, depot, id, copies, n) {
      forall m | IsReadFrom(e.parse, depot, id, copies, m) ensures m == n { OneReadFrom(e.parse, depot, id, copies, m, n); }
      assert IsReadFrom(e.parse, depot, id, left, n);
      forall m | IsReadFrom(e.parse, depot, id, left, m) ensures m == n { OneReadFrom(e.parse, depot, id, left, m, n); }
    }
  }
}
