/** From a removal to the flags it owes: the app's own with the reset, its co-owners' after that,
    unless a crash in between forgets the request with the tables as they are. */
module RaisedFlags {
  import opened CacheDelete
  import opened ForceFlag
  import opened Lifecycle
  import opened Options
  import opened Removals
  import opened Tables

  /** A request that removed, failed on or could not read something, and has yet to reset its app;
      `owners` are among those it touched. */
  predicate Owes(w: World, req: nat, appid: nat, owners: set<nat>) {
    req in w.requests && OwesReset(w.requests[req], appid, owners)
  }

  predicate OwesReset(r: Request, appid: nat, owners: set<nat>) {
    && (r.Removing? || r.Rechecked?) && r.appid == appid
    && (r.outcome.deleted != map[] || r.outcome.failed != {} || r.unusable)
    && owners <= r.outcome.flagged
  }

  /** ... and one that has reset its app and has yet to flag them. */
  predicate OwesOwners(w: World, req: nat, owners: set<nat>) {
    req in w.requests && w.requests[req].WasReset? && owners <= w.requests[req].flagged
  }

  predicate AllUp(w: World, apps: map<nat, App>, owners: set<nat>) {
    forall o :: o in owners && o in apps ==> FlagUp(w, o)
  }

  /** Removing a depot, or failing to, owes the app and every co-owner its recheck listed. */
  lemma RemovalOwes(w: World, req: nat, removable: bool)
    requires req in w.requests && w.requests[req].Rechecked?
    ensures var r := w.requests[req];
      Owes(Step(w, Removes(req, removable)), req, r.appid, r.outcome.flagged + r.coOwners)
  {
    var r := w.requests[req];
    var now := Step(w, Removes(req, removable)).requests[req].outcome;
    if removable || r.depot !in w.disk { assert r.depot in now.deleted; } else { assert r.depot in now.failed; }
  }

  lemma OwesStep(w: World, e: Event, req: nat, appid: nat, owners: set<nat>)
    requires Owes(w, req, appid, owners)
    ensures e.Crashes? ==> Step(w, e).requests == map[] && Step(w, e).db == w.db
    ensures !e.Crashes? ==>
      || Owes(Step(w, e), req, appid, owners)
      || (e == Resets(req) && OwesOwners(Step(w, e), req, owners) && AllUp(Step(w, e), w.db.apps, {appid}))
  {
    match ActorOf(e) {
      case Api => RequestsLeaveRequests(w, e);
      case Deleter => DeleterOwes(w, e, req, appid, owners);
      case Thread => WorkKeepsDisk(w, e);
      case Outside =>
    }
  }

  lemma DeleterOwes(w: World, e: Event, req: nat, appid: nat, owners: set<nat>)
    requires Owes(w, req, appid, owners) && ActorOf(e).Deleter?
    ensures || Owes(Step(w, e), req, appid, owners)
            || (e == Resets(req) && OwesOwners(Step(w, e), req, owners) && AllUp(Step(w, e), w.db.apps, {appid}))
  {
    if e.Removes? && e.req == req && w.requests[req].Rechecked? { RemovalOwes(w, req, e.removable); }
  }

  lemma OwnersStep(w: World, e: Event, req: nat, owners: set<nat>)
    requires OwesOwners(w, req, owners)
    ensures e.Crashes? ==> Step(w, e).requests == map[] && Step(w, e).db == w.db
    ensures !e.Crashes? ==>
      || OwesOwners(Step(w, e), req, owners)
      || (e == Flags(req) && req !in Step(w, e).requests && AllUp(Step(w, e), w.db.apps, owners))
  {
    match ActorOf(e) {
      case Api => RequestsLeaveRequests(w, e);
      case Deleter => DeleterFlags(w, e, req, owners);
      case Thread => WorkKeepsDisk(w, e);
      case Outside =>
    }
  }

  lemma RequestsLeaveRequests(w: World, e: Event)
    requires ActorOf(e).Api?
    ensures OnRequest(w, e).requests == w.requests
  {
  }

  lemma DeleterFlags(w: World, e: Event, req: nat, owners: set<nat>)
    requires OwesOwners(w, req, owners) && ActorOf(e).Deleter?
    ensures || OwesOwners(Step(w, e), req, owners)
            || (e == Flags(req) && req !in Step(w, e).requests && AllUp(Step(w, e), w.db.apps, owners))
  {
  }

  predicate NoCrash(events: seq<Event>) {
    forall k :: 0 <= k < |events| ==> !events[k].Crashes?
  }

  lemma {:induction false} UntilReset(w: World, events: seq<Event>, req: nat, appid: nat, owners: set<nat>) returns (k: nat)
    requires Owes(w, req, appid, owners) && NoCrash(events)
    ensures k <= |events| && (k == |events| ==> Owes(Run(w, events), req, appid, owners))
    ensures k < |events| ==>
      && events[k] == Resets(req)
      && OwesOwners(Run(w, events[..k + 1]), req, owners)
      && AllUp(Run(w, events[..k + 1]), Run(w, events[..k]).db.apps, {appid})
  {
    hide Step, Owes, OwesOwners, AllUp;
    if events == [] {
      k := 0;
    } else {
      var n := |events| - 1;
      var front := events[..n];
      k := UntilReset(w, front, req, appid, owners);
      assert events[..n + 1] == events;
      if k < n {
        assert front[..k] == events[..k] && front[..k + 1] == events[..k + 1];
      } else {
        OwesStep(Run(w, front), events[n], req, appid, owners);
        if Owes(Run(w, events), req, appid, owners) { k := n + 1; }
      }
    }
  }

  lemma {:induction false} UntilFlags(w: World, events: seq<Event>, k: nat, req: nat, owners: set<nat>) returns (m: nat)
    requires k <= |events| && OwesOwners(Run(w, events[..k]), req, owners) && NoCrash(events)
    ensures k <= m <= |events| && (m == |events| ==> OwesOwners(Run(w, events), req, owners))
    ensures m < |events| ==>
      events[m] == Flags(req) && AllUp(Run(w, events[..m + 1]), Run(w, events[..m]).db.apps, owners)
  {
    hide Step, OwesOwners, AllUp;
    if k == |events| {
      m := k;
      assert events[..k] == events;
    } else {
      var n := |events| - 1;
      var front := events[..n];
      assert front[..k] == events[..k];
      m := UntilFlags(w, front, k, req, owners);
      assert events[..n + 1] == events;
      if m < n {
        assert front[..m] == events[..m] && front[..m + 1] == events[..m + 1];
      } else {
        OwnersStep(Run(w, front), events[n], req, owners);
        if OwesOwners(Run(w, events), req, owners) { m := n + 1; }
      }
    }
  }

  /** A request that removed or failed on something and gets to its end without a crash has raised
      its own app's flag with its reset and then the flag of every tracked co-owner of what it
      touched, whatever else happened in between. */
  lemma RemovalTellsEveryone(w: World, events: seq<Event>, req: nat, appid: nat, owners: set<nat>) returns (k: nat, m: nat)
    requires Owes(w, req, appid, owners) && NoCrash(events)
    requires req !in Run(w, events).requests
    ensures k < m < |events| && events[k] == Resets(req) && events[m] == Flags(req)
    ensures AllUp(Run(w, events[..k + 1]), Run(w, events[..k]).db.apps, {appid})
    ensures AllUp(Run(w, events[..m + 1]), Run(w, events[..m]).db.apps, owners)
  {
    hide Step, AllUp;
    k := UntilReset(w, events, req, appid, owners);
    m := UntilFlags(w, events, k + 1, req, owners);
  }
}
