/** Stored library snapshots of the gaming machines and the diffs derived from them. */
module AgentReports {
  import opened Options

  const MIN_REPORTS_KEPT := 2

  /** One snapshot row; `apps` is nothing when the stored list cannot be decoded any more. */
  datatype Report = Report(rowid: nat, client: string, apps: Option<set<nat>>)

  datatype Answer = Answer(added: set<nat>, removed: set<nat>, first: bool)

  // ---------------------------------------------------------------- the table, in rowid order

  /** SQLite numbers a new row one above the largest rowid present. */
  function NextRowid(rows: seq<Report>): nat {
    if rows == [] then 1 else rows[|rows| - 1].rowid + 1
  }

  ghost predicate InOrder(rows: seq<Report>) {
    forall i, k :: 0 <= i < k < |rows| ==> rows[i].rowid < rows[k].rowid
  }

  /** The snapshots of one client, oldest first. */
  function History(rows: seq<Report>, client: string): seq<Option<set<nat>>> {
    if rows == [] then []
    else
      var n := |rows| - 1;
      History(rows[..n], client) + if rows[n].client == client then [rows[n].apps] else []
  }

  function Latest(history: seq<Option<set<nat>>>): Option<set<nat>> {
    if history == [] then None else history[|history| - 1]
  }

  /** Only the newest `keep` rows of the client stay. */
  function Prune(rows: seq<Report>, client: string, keep: nat): seq<Report> {
    if rows == [] then []
    else
      var n := |rows| - 1;
      if rows[n].client != client then Prune(rows[..n], client, keep) + [rows[n]]
      else if keep > 0 then Prune(rows[..n], client, keep - 1) + [rows[n]]
      else Prune(rows[..n], client, 0)
  }

  function Kept(keep: int): nat {
    if keep < MIN_REPORTS_KEPT then MIN_REPORTS_KEPT else keep
  }

  function Store(rows: seq<Report>, client: string, apps: set<nat>, keep: int): seq<Report> {
    Prune(rows + [Report(NextRowid(rows), client, Some(apps))], client, Kept(keep))
  }

  function Diff(previous: Option<set<nat>>, apps: set<nat>): Answer {
    match previous
    case None => Answer(apps, {}, true)
    case Some(before) => Answer(apps - before, before - apps, false)
  }

  function Forget(rows: seq<Report>, client: string): seq<Report> {
    if rows == [] then []
    else
      var n := |rows| - 1;
      Forget(rows[..n], client) + if rows[n].client == client then [] else [rows[n]]
  }

  /** The row a client stored last. */
  predicate IsNewest(rows: seq<Report>, client: string, k: nat) {
    k < |rows| && rows[k].client == client && forall i :: k < i < |rows| ==> rows[i].client != client
  }

  lemma {:induction false} LatestIsNewest(rows: seq<Report>, client: string)
    ensures (forall i :: 0 <= i < |rows| ==> rows[i].client != client) ==> Latest(History(rows, client)) == None
    ensures forall k: nat :: IsNewest(rows, client, k) ==> Latest(History(rows, client)) == rows[k].apps
  {
    if rows != [] {
      var n := |rows| - 1;
      LatestIsNewest(rows[..n], client);
      forall k: nat | IsNewest(rows, client, k) ensures Latest(History(rows, client)) == rows[k].apps {
        if k < n { assert IsNewest(rows[..n], client, k); }
      }
    }
  }

  class ReportTable {
    var rows: seq<Report>

    /** The newest row of a client by rowid, never by timestamp. */
    method LatestSnapshot(client: string) returns (apps: Option<set<nat>>)
      ensures apps == Latest(History(rows, client))
    {
      var i := |rows|;
      assert rows[..i] == rows;
      while i > 0
        invariant i <= |rows|
        invariant Latest(History(rows, client)) == Latest(History(rows[..i], client))
      {
        assert rows[..i][..i - 1] == rows[..i - 1];
        if rows[i - 1].client == client {
          return rows[i - 1].apps;
        }
        i := i - 1;
      }
      apps := None;
    }

    method PruneReports(client: string, keep: nat)
      modifies this
      ensures rows == Prune(old(rows), client, keep)
    {
      var left := keep;
      var kept: seq<Report> := [];
      var i := |rows|;
      assert rows[..i] == rows && Prune(rows, client, keep) + [] == Prune(rows, client, keep);
      while i > 0
        invariant i <= |rows| && rows == old(rows)
        invariant Prune(rows, client, keep) == Prune(rows[..i], client, left) + kept
      {
        var row := rows[i - 1];
        assert rows[..i][..i - 1] == rows[..i - 1];
        assert Prune(rows[..i - 1], client, left) + [row] + kept == Prune(rows[..i - 1], client, left) + ([row] + kept);
        if row.client != client {
          kept := [row] + kept;
        } else if left > 0 {
          assert Prune(rows[..i - 1], client, left - 1) + [row] + kept
              == Prune(rows[..i - 1], client, left - 1) + ([row] + kept);
          kept, left := [row] + kept, left - 1;
        }
        i := i - 1;
      }
      assert [] + kept == kept;
      rows := kept;
    }

    /** Reading the predecessor, inserting and pruning are one transaction. */
    method StoreReport(client: string, apps: set<nat>, keep: int) returns (answer: Answer)
      modifies this
      ensures rows == Store(old(rows), client, apps, keep)
      ensures answer == Diff(Latest(History(old(rows), client)), apps)
      ensures (forall i :: 0 <= i < |old(rows)| ==> old(rows)[i].client != client) ==> answer == Answer(apps, {}, true)
      ensures forall k: nat :: IsNewest(old(rows), client, k) ==>
        match old(rows)[k].apps
        case None => answer == Answer(apps, {}, true)
        case Some(before) =>
          && !answer.first
          && (forall a :: a in answer.added <==> a in apps && a !in before)
          && (forall a :: a in answer.removed <==> a in before && a !in apps)
    {
      var previous := LatestSnapshot(client);
      LatestIsNewest(rows, client);
      rows := rows + [Report(NextRowid(rows), client, Some(apps))];
      PruneReports(client, Kept(keep));
      match previous {
        case None => answer := Answer(apps, {}, true);
        case Some(before) => answer := Answer(apps - before, before - apps, false);
      }
    }

    method DeleteClient(client: string) returns (existed: bool)
      modifies this
      ensures rows == Forget(old(rows), client)
      ensures existed <==> History(old(rows), client) != []
    {
      existed := false;
      var kept: seq<Report> := [];
      for i := 0 to |rows|
        invariant rows == old(rows)
        invariant kept == Forget(rows[..i], client) && (existed <==> History(rows[..i], client) != [])
      {
        assert rows[..i + 1][..i] == rows[..i];
        if rows[i].client == client {
          existed := true;
        } else {
          kept := kept + [rows[i]];
        }
      }
      assert rows[..|rows|] == rows;
      rows := kept;
    }
  }

  // ---------------------------------------------------------------- what each operation does to a history

  function LastOf(history: seq<Option<set<nat>>>, keep: nat): seq<Option<set<nat>>> {
    if |history| <= keep then history else history[|history| - keep..]
  }

  lemma HistoryPlus(rows: seq<Report>, row: Report, client: string)
    ensures History(rows + [row], client)
         == if row.client == client then History(rows, client) + [row.apps] else History(rows, client)
  {
    assert (rows + [row])[..|rows|] == rows;
  }

  lemma LastOfPlus(history: seq<Option<set<nat>>>, apps: Option<set<nat>>, keep: nat)
    requires keep > 0
    ensures LastOf(history, keep - 1) + [apps] == LastOf(history + [apps], keep)
  {
  }

  lemma LastOfNone(rows: seq<Report>, client: string)
    ensures LastOf(History(rows, client), 0) == []
  {
  }

  lemma HistoryLast(rows: seq<Report>, client: string)
    requires rows != []
    ensures var n := |rows| - 1;
      History(rows, client)
        == if rows[n].client == client then History(rows[..n], client) + [rows[n].apps] else History(rows[..n], client)
  {
  }

  lemma PruneLast(rows: seq<Report>, client: string, keep: nat)
    requires rows != []
    ensures var (n, own) := (|rows| - 1, rows[|rows| - 1].client == client);
      Prune(rows, client, keep)
        == if own && keep == 0 then Prune(rows[..n], client, 0)
           else Prune(rows[..n], client, if own then keep - 1 else keep) + [rows[n]]
  {
  }

  lemma {:induction false} PruneKeepsNewest(rows: seq<Report>, client: string, keep: nat, other: string)
    ensures History(Prune(rows, client, keep), other)
         == if other == client then LastOf(History(rows, client), keep) else History(rows, other)
  {
    if rows == [] {
    } else {
      var n := |rows| - 1;
      var front, row := rows[..n], rows[n];
      var left := if row.client == client && keep > 0 then keep - 1 else keep;
      PruneKeepsNewest(front, client, left, other);
      if row.client != client || keep > 0 {
        HistoryPlus(Prune(front, client, left), row, other);
      }
      HistoryLast(rows, client);
      HistoryLast(rows, other);
      PruneLast(rows, client, keep);
      hide History, Prune, LastOf;
      if row.client == client {
        if keep > 0 { LastOfPlus(History(front, client), row.apps, keep); } else { LastOfNone(rows, client); }
      }
    }
  }

  lemma StoreAppends(rows: seq<Report>, client: string, apps: set<nat>, keep: int, other: string)
    ensures History(Store(rows, client, apps, keep), other)
         == if other == client then LastOf(History(rows, client) + [Some(apps)], Kept(keep)) else History(rows, other)
  {
    var longer := rows + [Report(NextRowid(rows), client, Some(apps))];
    assert longer[..|rows|] == rows;
    PruneKeepsNewest(longer, client, Kept(keep), other);
  }

  /** A client keeps its last snapshots, two at least, the new one among them. */
  lemma StoredSnapshots(rows: seq<Report>, client: string, apps: set<nat>, keep: int)
    ensures var (was, now) := (History(rows, client), History(Store(rows, client, apps, keep), client));
      var most := if keep <= 2 then 2 else keep;
      && |now| == (if |was| + 1 <= most then |was| + 1 else most)
      && |now| <= |was| + 1 && now == (was + [Some(apps)])[|was| + 1 - |now|..]
  {
    StoreAppends(rows, client, apps, keep, client);
    hide History, Store;
  }

  lemma {:induction false} ForgetClears(rows: seq<Report>, client: string, other: string)
    ensures History(Forget(rows, client), other) == if other == client then [] else History(rows, other)
  {
    if rows != [] {
      var n := |rows| - 1;
      ForgetClears(rows[..n], client, other);
      HistoryPlus(Forget(rows[..n], client), rows[n], other);
      assert Forget(rows[..n], client) + [] == Forget(rows[..n], client);
    }
  }

  // ---------------------------------------------------------------- whole runs

  datatype Act =
    | Reports(client: string, apps: set<nat>, keep: int)
    | Forgets(client: string)
    | Damages(client: string)

  /** The stored list of the client's newest row becomes unreadable. */
  function Damage(rows: seq<Report>, client: string): seq<Report> {
    if rows == [] then []
    else
      var n := |rows| - 1;
      if rows[n].client == client then rows[n := rows[n].(apps := None)]
      else Damage(rows[..n], client) + [rows[n]]
  }

  function Step(rows: seq<Report>, act: Act): seq<Report> {
    match act
    case Reports(client, apps, keep) => Store(rows, client, apps, keep)
    case Forgets(client) => Forget(rows, client)
    case Damages(client) => Damage(rows, client)
  }

  function Run(acts: seq<Act>): seq<Report> {
    if acts == [] then [] else Step(Run(acts[..|acts| - 1]), acts[|acts| - 1])
  }

  lemma {:induction false} DamageHidesNewest(rows: seq<Report>, client: string, other: string)
    ensures var was := History(rows, other);
      History(Damage(rows, client), other) == if other == client && was != [] then was[|was| - 1 := None] else was
  {
    if rows != [] {
      var n := |rows| - 1;
      var damaged := Damage(rows, client);
      if rows[n].client == client {
        assert damaged[..n] == rows[..n];
      } else {
        DamageHidesNewest(rows[..n], client, other);
        assert damaged[..|damaged| - 1] == Damage(rows[..n], client);
        var h := History(rows[..n], other);
        if other == client && h != [] { assert h[|h| - 1 := None] + [] == h[|h| - 1 := None]; }
      }
    }
  }

  /** A consumer that knows only the answers: start over on a first report, else add and remove. */
  function Follow(view: set<nat>, answer: Answer): set<nat> {
    if answer.first then answer.added else (view + answer.added) - answer.removed
  }

  /** What that consumer believes one client has installed. */
  function View(acts: seq<Act>, client: string): set<nat> {
    if acts == [] then {}
    else
      var front, last := acts[..|acts| - 1], acts[|acts| - 1];
      if last.Reports? && last.client == client
      then Follow(View(front, client), Diff(Latest(History(Run(front), client)), last.apps))
      else View(front, client)
  }

  function HistoryAfter(history: seq<Option<set<nat>>>, act: Act): seq<Option<set<nat>>> {
    match act
    case Reports(_, apps, keep) => LastOf(history + [Some(apps)], Kept(keep))
    case Forgets(_) => []
    case Damages(_) => if history == [] then [] else history[|history| - 1 := None]
  }

  /** A client's snapshots change through its own acts only, and only by what was there of it. */
  lemma StepOnHistory(rows: seq<Report>, act: Act, client: string)
    ensures History(Step(rows, act), client)
         == if act.client == client then HistoryAfter(History(rows, client), act) else History(rows, client)
  {
    match act {
      case Reports(c, apps, keep) => StoreAppends(rows, c, apps, keep, client);
      case Forgets(c) => ForgetClears(rows, c, client);
      case Damages(c) => DamageHidesNewest(rows, c, client);
    }
  }

  /** Folding one client's answers gives exactly its newest snapshot, in every serialised run of
      reports with any retention, deletions of clients and damaged rows. */
  lemma {:induction false} AnswersFoldToLatest(acts: seq<Act>, client: string)
    ensures var latest := Latest(History(Run(acts), client));
      latest.Some? ==> View(acts, client) == latest.value
  {
    if acts != [] {
      var front, last := acts[..|acts| - 1], acts[|acts| - 1];
      AnswersFoldToLatest(front, client);
      StepOnHistory(Run(front), last, client);
      hide History, Step, HistoryAfter, Latest;
      NewestAfter(History(Run(front), client), last);
    }
  }

  lemma NewestAfter(history: seq<Option<set<nat>>>, act: Act)
    ensures Latest(HistoryAfter(history, act)) == if act.Reports? then Some(act.apps) else None
  {
  }

  function Own(acts: seq<Act>, client: string): seq<Act> {
    if acts == [] then []
    else
      var front, last := Own(acts[..|acts| - 1], client), acts[|acts| - 1];
      if last.client == client then front + [last] else front
  }

  /** Clients never affect each other: snapshots and answers of one are what they would be had
      nobody else ever reported. */
  lemma {:induction false} ClientsAreIsolated(acts: seq<Act>, client: string)
    ensures History(Run(acts), client) == History(Run(Own(acts, client)), client)
    ensures View(acts, client) == View(Own(acts, client), client)
  {
    if acts != [] {
      var front, last := acts[..|acts| - 1], acts[|acts| - 1];
      ClientsAreIsolated(front, client);
      StepOnHistory(Run(front), last, client);
      var own := Own(front, client);
      if last.client == client {
        assert (own + [last])[..|own| + 1 - 1] == own;
        StepOnHistory(Run(own), last, client);
      }
    }
  }

  // ---------------------------------------------------------------- order

  lemma OrderPlus(some: seq<Report>, rows: seq<Report>)
    requires rows != [] && InOrder(rows) && InOrder(some)
    requires forall r :: r in some ==> r in rows[..|rows| - 1]
    ensures InOrder(some + [rows[|rows| - 1]])
  {
    forall i | 0 <= i < |some| ensures some[i].rowid < rows[|rows| - 1].rowid {
      assert some[i] in some && some[i] in rows[..|rows| - 1];
    }
  }

  lemma {:induction false} PruneKeepsOrder(rows: seq<Report>, client: string, keep: nat)
    requires InOrder(rows)
    ensures InOrder(Prune(rows, client, keep))
    ensures forall r :: r in Prune(rows, client, keep) ==> r in rows
  {
    if rows != [] {
      var n := |rows| - 1;
      var left := if rows[n].client == client && keep > 0 then keep - 1 else keep;
      PruneKeepsOrder(rows[..n], client, left);
      OrderPlus(Prune(rows[..n], client, left), rows);
    }
  }

  lemma {:induction false} ForgetKeepsOrder(rows: seq<Report>, client: string)
    requires InOrder(rows)
    ensures InOrder(Forget(rows, client))
    ensures forall r :: r in Forget(rows, client) ==> r in rows
  {
    if rows != [] {
      ForgetKeepsOrder(rows[..|rows| - 1], client);
      OrderPlus(Forget(rows[..|rows| - 1], client), rows);
    }
  }

  lemma {:induction false} DamageKeepsRowids(rows: seq<Report>, client: string)
    ensures |Damage(rows, client)| == |rows|
    ensures forall i :: 0 <= i < |rows| ==> Damage(rows, client)[i].rowid == rows[i].rowid
  {
    if rows != [] { DamageKeepsRowids(rows[..|rows| - 1], client); }
  }

  /** Rowid order is insertion order at all times, so the largest rowid of a client is its newest
      report - although rowids are handed out again after a client was deleted. */
  lemma {:induction false} RowidsFollowInsertion(acts: seq<Act>)
    ensures InOrder(Run(acts))
  {
    if acts != [] {
      var front, last := acts[..|acts| - 1], acts[|acts| - 1];
      RowidsFollowInsertion(front);
      var rows := Run(front);
      match last {
        case Reports(client, apps, keep) =>
          PruneKeepsOrder(rows + [Report(NextRowid(rows), client, Some(apps))], client, Kept(keep));
        case Forgets(client) => ForgetKeepsOrder(rows, client);
        case Damages(client) => DamageKeepsRowids(rows, client);
      }
    }
  }

  predicate Positive(rows: seq<Report>) {
    forall r :: r in rows ==> r.rowid > 0
  }

  lemma {:induction false} RowidsArePositive(acts: seq<Act>)
    ensures Positive(Run(acts)) && InOrder(Run(acts))
  {
    RowidsFollowInsertion(acts);
    if acts != [] {
      var rows, last := Run(acts[..|acts| - 1]), acts[|acts| - 1];
      RowidsArePositive(acts[..|acts| - 1]);
      match last {
        case Reports(client, apps, keep) =>
          var row := Report(NextRowid(rows), client, Some(apps));
          assert rows != [] ==> rows[|rows| - 1] in rows;
          OrderPlus(rows, rows + [row]);
          PruneKeepsOrder(rows + [row], client, Kept(keep));
        case Forgets(client) => ForgetKeepsOrder(rows, client);
        case Damages(client) =>
          DamageKeepsRowids(rows, client);
          forall r | r in Damage(rows, client) ensures r.rowid > 0 {
            var i :| 0 <= i < |Damage(rows, client)| && Damage(rows, client)[i] == r;
            assert rows[i] in rows;
          }
      }
    }
  }

  /** In every reachable table: a rowid that was handed out is handed out again exactly after the
      client of the newest row is deleted; reports and damaged rows never step back. */
  lemma RowidComesBackExactlyWhen(acts: seq<Act>, act: Act)
    ensures var rows := Run(acts);
      var newestGoes := act.Forgets? && rows != [] && rows[|rows| - 1].client == act.client;
      NextRowid(Step(rows, act)) < NextRowid(rows) <==> newestGoes
  {
    var rows := Run(acts);
    RowidsArePositive(acts);
    hide Run;
    match act {
      case Reports(client, apps, keep) =>
        var longer := rows + [Report(NextRowid(rows), client, Some(apps))];
        PruneLast(longer, client, Kept(keep));
        hide Prune;
      case Forgets(client) => ForgetSteps(rows, client);
      case Damages(client) => DamageKeepsRowids(rows, client);
    }
  }

  lemma ForgetSteps(rows: seq<Report>, client: string)
    requires InOrder(rows) && Positive(rows)
    ensures NextRowid(Forget(rows, client)) < NextRowid(rows) <==> rows != [] && rows[|rows| - 1].client == client
  {
    if rows != [] {
      var n := |rows| - 1;
      var left := Forget(rows[..n], client);
      ForgetKeepsOrder(rows[..n], client);
      assert rows[n] in rows;
      if left != [] {
        var last := left[|left| - 1];
        assert last in left && last in rows[..n];
        var i :| 0 <= i < n && rows[i] == last;
      }
      assert left + [] == left;
    }
  }

  /** Deleting the client of the newest row makes the next report take over its rowid. */
  lemma RowidIsReused(a: set<nat>, b: set<nat>)
    ensures var rows := [Report(1, "a", Some(a)), Report(2, "b", Some(b))];
      NextRowid(rows) == 3 && NextRowid(Forget(rows, "b")) == rows[1].rowid
  {
    var rows := [Report(1, "a", Some(a)), Report(2, "b", Some(b))];
    assert "a"[0] != "b"[0];
    assert rows[..1] == [rows[0]] && rows[..1][..0] == [];
    assert Forget(rows[..1], "b") == [rows[0]];
  }
}
