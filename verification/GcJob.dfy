/** A collection job from its plans to the disk it leaves. */
module GcJob {
  import opened CacheDelete
  import opened Gc
  import opened GcExecute
  import opened GcPlan
  import opened Tables

  lemma {:induction false} Least(s: set<nat>) returns (least: nat)
    requires s != {}
    ensures least in s && forall x :: x in s ==> least <= x
    decreases |s|
  {
    var some :| some in s;
    var rest := s - {some};
    least := some;
    assert forall x :: x in s ==> x == some || x in rest;
    if rest != {} {
      var other := Least(rest);
      if other < some { least := other; }
    }
  }

  method Sorted(s: set<nat>) returns (ids: seq<nat>)
    ensures forall d :: d in ids <==> d in s
    ensures forall i, k :: 0 <= i < k < |ids| ==> ids[i] < ids[k]
  {
    ids := [];
    var todo := s;
    while todo != {}
      invariant todo <= s && forall d :: d in ids <==> d in s && d !in todo
      invariant forall i, k :: 0 <= i < |ids| && k in todo ==> ids[i] < k
      invariant forall i, k :: 0 <= i < k < |ids| ==> ids[i] < ids[k]
      decreases |todo|
    {
      ghost var least := Least(todo);
      var d :| d in todo && forall x :: x in todo ==> d <= x;
      ids, todo := ids + [d], todo - {d};
    }
  }

  /** One plan for every mapped depot, lowest depot first, each made from the directories given. */
  ghost predicate PlansOf(plans: seq<DepotPlan>, e: Evidence, db: Db, recorded: map<(nat, nat), string>,
                          dirs: map<nat, DepotDir>, oracle: map<nat, seq<string>>, appid: nat)
  {
    && (forall i :: 0 <= i < |plans| ==> PlanFor(plans[i], e, db, recorded, dirs, oracle, plans[i].depot))
    && (forall i, k :: 0 <= i < k < |plans| ==> plans[i].depot < plans[k].depot)
    && (forall d :: d in MappedDepots(db, appid) <==> exists i :: 0 <= i < |plans| && plans[i].depot == d)
  }

  lemma PlanForIsWellFormed(plan: DepotPlan, e: Evidence, db: Db, recorded: map<(nat, nat), string>,
                            dirs: map<nat, DepotDir>, oracle: map<nat, seq<string>>, depot: nat)
    requires PlanFor(plan, e, db, recorded, dirs, oracle, depot)
    ensures WellFormed(plan) && plan.depot == depot
  {
    if depot in dirs {
      PlansAreWellFormed(plan, e, depot, dirs[depot], AppsOf(db, recorded, depot), ExtrasOf(oracle, depot));
    }
  }

  method PlanInOrder(e: Evidence, db: Db, recorded: map<(nat, nat), string>, dirs: map<nat, DepotDir>,
                     oracle: map<nat, seq<string>>, appid: nat)
    returns (plans: seq<DepotPlan>)
    ensures PlansOf(plans, e, db, recorded, dirs, oracle, appid)
    ensures forall i :: 0 <= i < |plans| ==> WellFormed(plans[i])
  {
    hide PlanFor, WellFormed, MappedDepots;
    var planned := PlanGc(e, db, recorded, dirs, oracle, appid);
    var ids := Sorted(planned.Keys);
    forall d | d in planned ensures WellFormed(planned[d]) && planned[d].depot == d {
      PlanForIsWellFormed(planned[d], e, db, recorded, dirs, oracle, d);
    }
    plans := seq(|ids|, i requires 0 <= i < |ids| => planned[ids[i]]);
    forall d ensures d in planned <==> exists i :: 0 <= i < |plans| && plans[i].depot == d {
      if d in planned {
        var i :| 0 <= i < |ids| && ids[i] == d;
        assert plans[i].depot == d;
      }
    }
  }

  // ---------------------------------------------------------------- what the job keeps

  /** None of the steps removes a chunk of a current manifest of an app that maps the depot. */
  ghost predicate SparesCurrent(steps: seq<OwnStep>, e: Evidence, db: Db, recorded: map<(nat, nat), string>,
                                dirs: map<nat, DepotDir>, depot: nat)
  {
    depot in dirs ==> forall k, a :: 0 <= k < |steps| && steps[k].ChunkGone? && a in AppsOf(db, recorded, depot) ==>
      !Requires(e, depot, dirs[depot].manifests, a, steps[k].name)
  }

  lemma StepsSpareCurrent(plan: DepotPlan, e: Evidence, db: Db, recorded: map<(nat, nat), string>,
                          dirs: map<nat, DepotDir>, oracle: map<nat, seq<string>>, steps: seq<OwnStep>)
    requires PlanFor(plan, e, db, recorded, dirs, oracle, plan.depot) && AllAllowed(plan, steps)
    ensures SparesCurrent(steps, e, db, recorded, dirs, plan.depot)
  {
    hide Faithful, CurrentChunks, AppsOf, GateOf;
    if plan.depot in dirs {
      var apps := AppsOf(db, recorded, plan.depot);
      forall k, a | 0 <= k < |steps| && steps[k].ChunkGone? && a in apps
        ensures !Requires(e, plan.depot, dirs[plan.depot].manifests, a, steps[k].name)
      {
        assert Allowed(plan, steps[k]);
        OrphansAreExactly(plan, e, plan.depot, dirs[plan.depot], apps, ExtrasOf(oracle, plan.depot), steps[k].name);
      }
    }
  }

  /** Every chunk of a current manifest that was in the directory still is, unchanged. */
  ghost predicate StaysWhole(e: Evidence, db: Db, recorded: map<(nat, nat), string>, depot: nat, was: DepotDir, now: DepotDir) {
    forall a, n :: a in AppsOf(db, recorded, depot) && n in was.chunks && Requires(e, depot, was.manifests, a, n) ==>
      n in now.chunks && now.chunks[n] == was.chunks[n]
  }

  lemma PlanKeepsWhole(plan: DepotPlan, e: Evidence, db: Db, recorded: map<(nat, nat), string>,
                       dirs: map<nat, DepotDir>, oracle: map<nat, seq<string>>, grace: Grace)
    requires PlanFor(plan, e, db, recorded, dirs, oracle, plan.depot) && plan.depot in dirs
    ensures StaysWhole(e, db, recorded, plan.depot, dirs[plan.depot], DirAfter(dirs[plan.depot], plan, grace))
  {
    hide CurrentChunks, AppsOf, Requires, DirAfter;
    var (depot, was) := (plan.depot, dirs[plan.depot]);
    var apps := AppsOf(db, recorded, depot);
    forall a, n | a in apps && n in was.chunks && Requires(e, depot, was.manifests, a, n)
      ensures var now := DirAfter(was, plan, grace).chunks; n in now && now[n] == was.chunks[n]
    {
      CurrentManifestsStayWhole(plan, e, depot, was, apps, ExtrasOf(oracle, depot), a, was, grace, n);
    }
  }

  lemma UntouchedStaysWhole(e: Evidence, db: Db, recorded: map<(nat, nat), string>, depot: nat, dir: DepotDir)
    ensures StaysWhole(e, db, recorded, depot, dir, dir)
  {
  }

  /** `run_gc`: plan every mapped depot and, unless it is a dry run, carry the plans out in that
      order. Whatever others do to the disk meanwhile, every change it makes is allowed by a plan and
      none removes a chunk of a counting app's current manifest. Undisturbed, every such chunk that
      was on disk still is, and so is every depot the app does not map. */
  method CollectGarbage(c: Collector, e: Evidence, db: Db, recorded: map<(nat, nat), string>, oracle: map<nat, seq<string>>,
                        appid: nat, grace: Grace, execute: bool, cancelAt: nat, others: bool)
    returns (plans: seq<DepotPlan>, tolls: seq<Toll>, ghost steps: seq<seq<OwnStep>>)
    modifies c
    ensures PlansOf(plans, e, db, recorded, old(c.dirs), oracle, appid)
    ensures !execute ==> c.dirs == old(c.dirs) && c.own == old(c.own) && tolls == [] && steps == []
    ensures |steps| == |tolls| <= |plans| && c.own == old(c.own) + Flat(steps)
    ensures forall i :: 0 <= i < |steps| ==> AllAllowed(plans[i], steps[i]) && Shown(tolls[i], steps[i])
    ensures forall i :: 0 <= i < |steps| ==> SparesCurrent(steps[i], e, db, recorded, old(c.dirs), plans[i].depot)
    ensures !others ==> c.dirs.Keys == old(c.dirs).Keys
    ensures !others ==> forall d :: d in c.dirs && d !in MappedDepots(db, appid) ==> c.dirs[d] == old(c.dirs)[d]
    ensures !others ==> forall d :: d in c.dirs ==> StaysWhole(e, db, recorded, d, old(c.dirs)[d], c.dirs[d])
  {
    hide WellFormed, PlanFor, MappedDepots, AllAllowed, Shown, SparesCurrent, StaysWhole, TollFor, DirAfter;
    ghost var start := c.dirs;
    plans := PlanInOrder(e, db, recorded, c.dirs, oracle, appid);
    tolls, steps := [], [];
    assert c.own + [] == c.own;
    if execute {
      tolls, steps := c.RunGc(plans, grace, cancelAt, others);
    }
    forall i | 0 <= i < |steps| ensures SparesCurrent(steps[i], e, db, recorded, start, plans[i].depot) {
      StepsSpareCurrent(plans[i], e, db, recorded, start, oracle, steps[i]);
    }
    if !others {
      forall d | d in c.dirs ensures StaysWhole(e, db, recorded, d, start[d], c.dirs[d]) {
        UntouchedStaysWhole(e, db, recorded, d, start[d]);
        if i :| 0 <= i < |tolls| && plans[i].depot == d {
          PlanKeepsWhole(plans[i], e, db, recorded, start, oracle, grace);
        }
      }
    }
  }
}
