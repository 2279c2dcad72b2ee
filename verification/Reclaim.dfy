/** What a series of deletions reclaims, for every sharing of depots between apps and every
    order of the requests. */
module Reclaim {
  import opened CacheDelete
  import opened Deletion
  import opened Options
  import opened Tables

  /** The route refuses ids below 1. */
  predicate AppIds(order: seq<nat>) {
    forall i :: 0 <= i < |order| ==> order[i] > 0
  }

  /** The requests of `order`, one after the other, each removal succeeding. */
  function DeleteAll(db: Db, disk: map<nat, nat>, order: seq<nat>): (Db, map<nat, nat>) {
    if order == [] then (db, disk)
    else
      var before := DeleteAll(db, disk, order[..|order| - 1]);
      AfterDelete(before.0, before.1, order[|order| - 1], true, NoTrouble)
  }

  /** Who counts as cached once the apps of `order` have been deleted. An app with an unusable
      mapping row ends in `error`, which still counts. */
  predicate CachedAfter(db: Db, order: seq<nat>, appid: nat) {
    if appid in order && Accepts(db, appid) then HasUnusableRow(db, appid) else HasContent(db, appid)
  }

  predicate ClaimProtects(db: Db, order: seq<nat>, r: Row) {
    match CoercePositiveId(r.owner)
    case None => true
    case Some(owner) => CachedAfter(db, order, owner)
  }

  predicate ProtectedAfter(db: Db, order: seq<nat>, appid: nat, depot: nat) {
    exists r :: r in db.rows && OtherClaim(r, appid, depot) && ClaimProtects(db, order, r)
  }

  /** One request keeps the mapping and the jobs, and changes who is cached for its own app only. */
  lemma OneDeletion(db: Db, disk: map<nat, nat>, appid: nat)
    requires appid > 0
    ensures var (after, left) := AfterDelete(db, disk, appid, true, NoTrouble);
      && after.rows == db.rows && after.jobs == db.jobs && after.apps.Keys == db.apps.Keys
      && (forall o: nat :: HasContent(after, o) <==>
            if o == appid && Accepts(db, appid) then HasUnusableRow(db, appid) else HasContent(db, o))
      && (forall d: nat :: d in left <==> d in disk && !(Accepts(db, appid) && d in Releasable(db, appid)))
      && (forall d: nat :: d in left ==> left[d] == disk[d])
  {
    if Accepts(db, appid) {
      var fates := OutcomeOf(db, disk, appid, NoTrouble, Releasable(db, appid));
      assert fates.failed == {};
    }
  }

  lemma {:induction false} AlongTheWay(db: Db, disk: map<nat, nat>, order: seq<nat>)
    requires AppIds(order)
    ensures var after := DeleteAll(db, disk, order).0;
      && after.rows == db.rows && after.jobs == db.jobs && after.apps.Keys == db.apps.Keys
      && (forall o: nat :: HasContent(after, o) <==> CachedAfter(db, order, o))
  {
    if order != [] {
      var front, last := order[..|order| - 1], order[|order| - 1];
      AlongTheWay(db, disk, front);
      var before := DeleteAll(db, disk, front);
      OneDeletion(before.0, before.1, last);
      assert order == front + [last];
      assert Accepts(before.0, last) == Accepts(db, last);
    }
  }

  /** The k-th request of the series removes the depot. */
  predicate Reclaims(db: Db, order: seq<nat>, k: nat, depot: nat)
    requires k < |order|
  {
    && Accepts(db, order[k])
    && depot in MappedDepots(db, order[k])
    && !ProtectedAfter(db, order[..k], order[k], depot)
  }

  lemma ProtectedAlongTheWay(db: Db, now: Db, order: seq<nat>, appid: nat, depot: nat)
    requires now.rows == db.rows
    requires forall o: nat :: HasContent(now, o) <==> CachedAfter(db, order, o)
    ensures Protected(now, appid, depot) <==> ProtectedAfter(db, order, appid, depot)
  {
    forall r | r in db.rows ensures OwnerHasContent(now, r.owner) <==> ClaimProtects(db, order, r) {
    }
    if ProtectedAfter(db, order, appid, depot) {
      var r :| r in db.rows && OtherClaim(r, appid, depot) && ClaimProtects(db, order, r);
      assert OwnerHasContent(now, r.owner);
    }
  }

  /** A depot directory survives a series of deletions exactly when no request of the series
      could take it, and a directory that survives keeps its bytes. */
  lemma {:induction false} SurvivesExactlyWhen(db: Db, disk: map<nat, nat>, order: seq<nat>, depot: nat)
    requires AppIds(order)
    ensures var left := DeleteAll(db, disk, order).1;
      && (depot in left <==> depot in disk && !exists k :: 0 <= k < |order| && Reclaims(db, order, k, depot))
      && (depot in left ==> left[depot] == disk[depot])
  {
    if order != [] {
      var n := |order| - 1;
      var front, last := order[..n], order[n];
      SurvivesExactlyWhen(db, disk, front, depot);
      AlongTheWay(db, disk, front);
      var before := DeleteAll(db, disk, front);
      OneDeletion(before.0, before.1, last);
      ProtectedAlongTheWay(db, before.0, front, last, depot);
      assert Accepts(before.0, last) && depot in Releasable(before.0, last) <==> Reclaims(db, order, n, depot);
      forall k | 0 <= k < n ensures Reclaims(db, front, k, depot) <==> Reclaims(db, order, k, depot) {
        assert front[..k] == order[..k];
      }
    }
  }

  // ---------------------------------------------------------------- with every depot id readable

  predicate DeletedIn(db: Db, order: seq<nat>, appid: nat) {
    appid in order && Accepts(db, appid)
  }

  /** The claim is readable and its owner is deleted in the series or had no content to begin with. */
  predicate LetsGo(db: Db, order: seq<nat>, r: Row) {
    match CoercePositiveId(r.owner)
    case None => false
    case Some(owner) => DeletedIn(db, order, owner) || !HasContent(db, owner)
  }

  predicate Reclaimable(db: Db, order: seq<nat>, depot: nat) {
    && (exists a :: a in order && Accepts(db, a) && depot in MappedDepots(db, a))
    && (forall r :: r in db.rows && r.depot == Number(depot) ==> LetsGo(db, order, r))
  }

  /** The last accepted request of the series for a depot's owner. */
  lemma {:induction false} LastOwner(db: Db, order: seq<nat>, depot: nat) returns (k: nat)
    requires exists a :: a in order && Accepts(db, a) && depot in MappedDepots(db, a)
    ensures k < |order| && Accepts(db, order[k]) && depot in MappedDepots(db, order[k])
    ensures forall a :: a in order && Accepts(db, a) && depot in MappedDepots(db, a) ==> a == order[k] || a in order[..k]
  {
    var n := |order| - 1;
    if Accepts(db, order[n]) && depot in MappedDepots(db, order[n]) {
      k := n;
      assert order == order[..n] + [order[n]];
    } else {
      assert order == order[..n] + [order[n]];
      k := LastOwner(db, order[..n], depot);
      assert order[..n][..k] == order[..k];
    }
  }

  /** With readable depot ids the order of the requests does not matter: a depot is gone exactly
      when some deleted app maps it and every claim on it is readable and belongs to an app that
      is deleted too or had no content anyway. */
  lemma OrderDoesNotMatter(db: Db, disk: map<nat, nat>, order: seq<nat>, depot: nat)
    requires AppIds(order) && forall a :: a in order ==> !HasUnusableRow(db, a)
    ensures depot in DeleteAll(db, disk, order).1 <==> depot in disk && !Reclaimable(db, order, depot)
  {
    SurvivesExactlyWhen(db, disk, order, depot);
    if k :| 0 <= k < |order| && Reclaims(db, order, k, depot) {
      assert order[k] in order;
      forall r | r in db.rows && r.depot == Number(depot) ensures LetsGo(db, order, r) {
        if r.owner != Number(order[k]) {
          assert OtherClaim(r, order[k], depot);
          assert !ClaimProtects(db, order[..k], r);
        }
      }
    }
    if Reclaimable(db, order, depot) {
      var k := LastOwner(db, order, depot);
      forall r | r in db.rows && OtherClaim(r, order[k], depot) ensures !ClaimProtects(db, order[..k], r) {
        assert LetsGo(db, order, r);
        var owner := CoercePositiveId(r.owner).value;
        StoredIdsAreNumbers(r.owner, owner);
        if DeletedIn(db, order, owner) {
          assert depot in MappedDepots(db, owner);
        }
      }
      assert Reclaims(db, order, k, depot);
    }
  }

  /** Nothing leaks: with readable rows, every mapped app tracked and idle of jobs, deleting all
      of them once, in any order, leaves no mapped depot on disk. */
  lemma NothingLeaks(db: Db, disk: map<nat, nat>, order: seq<nat>, r: Row)
    requires forall q :: q in db.rows ==>
      && CoercePositiveId(q.depot).Some? && CoercePositiveId(q.owner).Some?
      && CoercePositiveId(q.owner).value in order
      && CoercePositiveId(q.owner).value in db.apps
      && !HasActiveJob(db.jobs, CoercePositiveId(q.owner).value)
    requires AppIds(order)
    requires r in db.rows
    ensures CoercePositiveId(r.depot).value !in DeleteAll(db, disk, order).1
    ensures r in DeleteAll(db, disk, order).0.rows
  {
    var depot := CoercePositiveId(r.depot).value;
    OrderDoesNotMatter(db, disk, order, depot);
    AlongTheWay(db, disk, order);
    forall q | q in db.rows && q.depot == r.depot
      ensures LetsGo(db, order, q)
      ensures var a := CoercePositiveId(q.owner).value; Accepts(db, a) && depot in MappedDepots(db, a)
    {
      StoredIdsAreNumbers(q.owner, CoercePositiveId(q.owner).value);
    }
    StoredIdsAreNumbers(r.depot, depot);
  }

  // ---------------------------------------------------------------- without that

  function OwnerIds(db: Db, depot: nat): set<nat> {
    set r | r in db.rows && r.depot == Number(depot) && CoercePositiveId(r.owner).Some? :: CoercePositiveId(r.owner).value
  }

  /** Every claim on the depot is readable, and its app is tracked and idle of jobs. */
  predicate OwnersIdle(db: Db, depot: nat) {
    forall r :: r in db.rows && r.depot == Number(depot) ==>
      && CoercePositiveId(r.owner).Some?
      && CoercePositiveId(r.owner).value in db.apps && !HasActiveJob(db.jobs, CoercePositiveId(r.owner).value)
  }

  /** Requests among which every owner has one. */
  predicate DeletesAll(order: seq<nat>, owners: set<nat>) {
    AppIds(order) && forall a :: a in owners ==> a in order
  }

  /** Requests for the owners alone, one each. */
  predicate DeletesEachOnce(order: seq<nat>, owners: set<nat>) {
    && DeletesAll(order, owners)
    && (forall a :: a in order ==> a in owners)
    && (forall i, k :: 0 <= i < k < |order| ==> order[i] != order[k])
  }

  /** Two owners, one with an unusable mapping row and the other with cache content. */
  predicate StuckPair(db: Db, depot: nat, a: nat, b: nat) {
    a in OwnerIds(db, depot) && b in OwnerIds(db, depot) && a != b && HasUnusableRow(db, a) && HasContent(db, b)
  }

  lemma OwnerIsAccepted(db: Db, depot: nat, a: nat)
    requires OwnersIdle(db, depot) && depot > 0
    ensures a in OwnerIds(db, depot) <==> a > 0 && Owns(db, a, depot)
    ensures a in OwnerIds(db, depot) ==> Accepts(db, a) && depot in MappedDepots(db, a)
    ensures a > 0 && Accepts(db, a) && depot in MappedDepots(db, a) ==> a in OwnerIds(db, depot)
  {
    hide HasActiveJob;
    if r :| r in db.rows && r.depot == Number(depot) && CoercePositiveId(r.owner) == Some(a) {
      StoredIdsAreNumbers(r.owner, a);
      assert r == Row(Number(depot), Number(a));
      assert CoercePositiveId(r.depot) == Some(depot);
    }
    if r :| r in db.rows && a > 0 && r.owner == Number(a) && CoercePositiveId(r.depot) == Some(depot) {
      StoredIdsAreNumbers(r.depot, depot);
      StoredIdsAreNumbers(r.owner, a);
    }
  }

  /** A request for one owner takes the depot unless another owner counts as cached by then. */
  lemma TakenUnlessCached(db: Db, order: seq<nat>, k: nat, depot: nat)
    requires OwnersIdle(db, depot) && depot > 0 && AppIds(order) && k < |order|
    ensures Reclaims(db, order, k, depot) <==>
      order[k] in OwnerIds(db, depot) && !exists o :: o in OwnerIds(db, depot) && o != order[k] && CachedAfter(db, order[..k], o)
  {
    hide HasUnusableRow, HasContent, MappedDepots, Accepts, HasActiveJob, CachedAfter;
    OwnerIsAccepted(db, depot, order[k]);
    var before := order[..k];
    if o :| o in OwnerIds(db, depot) && o != order[k] && CachedAfter(db, before, o) {
      OwnerIsAccepted(db, depot, o);
      var r := Row(Number(depot), Number(o));
      assert OtherClaim(r, order[k], depot) && ClaimProtects(db, before, r);
    }
    if r :| r in db.rows && OtherClaim(r, order[k], depot) && ClaimProtects(db, before, r) {
      var o := CoercePositiveId(r.owner).value;
      StoredIdsAreNumbers(r.owner, o);
      assert o in OwnerIds(db, depot) && o != order[k] && CachedAfter(db, before, o);
    }
  }

  /** An owner's request that did not take the depot: another owner had been deleted and has an
      unusable row, or had not and has content. */
  lemma LeftBecauseOf(db: Db, order: seq<nat>, k: nat, depot: nat) returns (o: nat)
    requires OwnersIdle(db, depot) && depot > 0 && AppIds(order) && k < |order|
    requires order[k] in OwnerIds(db, depot) && !Reclaims(db, order, k, depot)
    ensures o in OwnerIds(db, depot) && o != order[k]
    ensures if o in order[..k] then HasUnusableRow(db, o) else HasContent(db, o)
  {
    TakenUnlessCached(db, order, k, depot);
    o :| o in OwnerIds(db, depot) && o != order[k] && CachedAfter(db, order[..k], o);
    OwnerIsAccepted(db, depot, o);
    hide Accepts, OwnerIds;
  }

  lemma {:induction false} FirstOf(order: seq<nat>, owners: set<nat>) returns (k: nat)
    requires owners != {} && forall a :: a in owners ==> a in order
    ensures k < |order| && order[k] in owners && forall a :: a in owners ==> a !in order[..k]
  {
    k := 0;
    while order[k] !in owners
      invariant k < |order| && forall a :: a in owners ==> a !in order[..k]
      decreases |order| - k
    {
      var a :| a in owners;
      assert order == order[..k] + [order[k]] + order[k + 1..];
      assert order[..k + 1] == order[..k] + [order[k]];
      k := k + 1;
    }
  }

  lemma {:induction false} LastOf(order: seq<nat>, owners: set<nat>) returns (k: nat)
    requires owners != {} && forall a :: a in owners ==> a in order
    ensures k < |order| && order[k] in owners && forall a :: a in owners ==> a == order[k] || a in order[..k]
  {
    var n := |order| - 1;
    var some :| some in owners;
    assert order == order[..n] + [order[n]];
    if order[n] in owners {
      k := n;
    } else {
      k := LastOf(order[..n], owners);
      assert order[..n][..k] == order[..k];
    }
  }

  /** A depot left behind after all its owners have been deleted has such a pair. */
  lemma LeftByAPair(db: Db, disk: map<nat, nat>, order: seq<nat>, depot: nat) returns (a: nat, b: nat)
    requires OwnersIdle(db, depot) && depot > 0 && OwnerIds(db, depot) != {} && DeletesAll(order, OwnerIds(db, depot))
    requires depot in DeleteAll(db, disk, order).1
    ensures StuckPair(db, depot, a, b)
  {
    hide OwnersIdle, OwnerIds, HasUnusableRow, HasContent, DeleteAll, Reclaims;
    var owners := OwnerIds(db, depot);
    SurvivesExactlyWhen(db, disk, order, depot);
    var last := LastOf(order, owners);
    a := LeftBecauseOf(db, order, last, depot);
    var first := FirstOf(order, owners);
    b := LeftBecauseOf(db, order, first, depot);
    if a == b {
      var own :| 0 <= own < |order| && order[own] == a;
      var other := LeftBecauseOf(db, order, own, depot);
      if other in order[..own] { a := other; } else { b := other; }
    }
  }

  lemma {:induction false} InSomeOrder(s: set<nat>) returns (q: seq<nat>)
    ensures forall a :: a in q <==> a in s
    ensures forall i, k :: 0 <= i < k < |q| ==> q[i] != q[k]
    decreases |s|
  {
    q := [];
    if s != {} {
      var a :| a in s;
      var rest := InSomeOrder(s - {a});
      q := [a] + rest;
      assert forall x :: x in s ==> x == a || x in s - {a};
    }
  }

  /** With such a pair, deleting the owner with the unusable row first leaves the depot behind. */
  lemma PairLeaves(db: Db, disk: map<nat, nat>, depot: nat, a: nat, b: nat) returns (order: seq<nat>)
    requires OwnersIdle(db, depot) && depot > 0 && depot in disk && StuckPair(db, depot, a, b)
    ensures DeletesEachOnce(order, OwnerIds(db, depot)) && depot in DeleteAll(db, disk, order).1
  {
    hide OwnersIdle, HasUnusableRow, HasContent, DeleteAll, Reclaims, Accepts, MappedDepots;
    var owners := OwnerIds(db, depot);
    var rest := InSomeOrder(owners - {a});
    order := [a] + rest;
    hide OwnerIds;
    forall i | 0 <= i < |order| ensures order[i] in owners && order[i] > 0 {
      if i > 0 { assert order[i] == rest[i - 1] && rest[i - 1] in rest; }
      OwnerIsAccepted(db, depot, order[i]);
    }
    forall i, k | 0 <= i < k < |order| ensures order[i] != order[k] {
      assert order[k] == rest[k - 1] && order[k] in owners - {a};
      if i > 0 { assert order[i] == rest[i - 1]; }
    }
    forall k | 0 <= k < |order| ensures !Reclaims(db, order, k, depot) {
      TakenUnlessCached(db, order, k, depot);
      if k == 0 {
        assert order[..k] == [] && CachedAfter(db, order[..k], b);
      } else {
        OwnerIsAccepted(db, depot, a);
        assert order[..k][0] == a && CachedAfter(db, order[..k], a);
      }
    }
    SurvivesExactlyWhen(db, disk, order, depot);
  }

  /** With the owners of a depot readable, tracked and idle, deleting all of them leaves it behind
      in some order - one request for each is enough - exactly when two of them stand in each
      other's way, one with an unusable row and the other with content. */
  lemma LeaksExactlyWhen(db: Db, disk: map<nat, nat>, depot: nat)
    requires depot > 0 && depot in disk && OwnersIdle(db, depot) && OwnerIds(db, depot) != {}
    ensures (exists order :: DeletesAll(order, OwnerIds(db, depot)) && depot in DeleteAll(db, disk, order).1)
        <==> exists a, b :: StuckPair(db, depot, a, b)
    ensures (exists order :: DeletesEachOnce(order, OwnerIds(db, depot)) && depot in DeleteAll(db, disk, order).1)
        <==> exists a, b :: StuckPair(db, depot, a, b)
  {
    hide OwnersIdle, OwnerIds, StuckPair, DeleteAll;
    if order :| DeletesAll(order, OwnerIds(db, depot)) && depot in DeleteAll(db, disk, order).1 {
      var a, b := LeftByAPair(db, disk, order, depot);
    }
    if a, b :| StuckPair(db, depot, a, b) {
      var order := PairLeaves(db, disk, depot, a, b);
    }
  }

  /** The readable-row hypothesis is needed: one unusable mapping row leaves its app in `error`,
      so a depot shared with it stays behind although both owners have been deleted, while the
      opposite order of the same two requests reclaims it. */
  lemma UnusableRowLeaks()
    ensures var done := App(AppDone, Some(0), false);
      var db := Db(map[1 := done, 2 := done],
                   {Row(Number(10), Number(1)), Row(Number(10), Number(2)), Row(Number(0), Number(1))}, []);
      && 10 in DeleteAll(db, map[10 := 5], [1, 2]).1
      && 10 !in DeleteAll(db, map[10 := 5], [2, 1]).1
  {
    var done := App(AppDone, Some(0), false);
    var rows := {Row(Number(10), Number(1)), Row(Number(10), Number(2)), Row(Number(0), Number(1))};
    var db := Db(map[1 := done, 2 := done], rows, []);
    var disk := map[10 := 5];
    var a, b, bad := Row(Number(10), Number(1)), Row(Number(10), Number(2)), Row(Number(0), Number(1));
    assert a in rows && b in rows && bad in rows;
    assert HasUnusableRow(db, 1) && !HasUnusableRow(db, 2);
    assert Accepts(db, 1) && Accepts(db, 2);
    SurvivesExactlyWhen(db, disk, [1, 2], 10);
    assert OtherClaim(b, 1, 10) && ClaimProtects(db, [], b);
    assert OtherClaim(a, 2, 10) && ClaimProtects(db, [1], a);
    assert [1, 2][..1] == [1];
    SurvivesExactlyWhen(db, disk, [2, 1], 10);
    assert [2, 1][..1] == [2];
    forall r | r in rows && OtherClaim(r, 1, 10) ensures !ClaimProtects(db, [2], r) {
    }
    assert CoercePositiveId(a.depot) == Some(10);
    assert 10 in MappedDepots(db, 1);
    assert Reclaims(db, [2, 1], 1, 10);
  }
}
