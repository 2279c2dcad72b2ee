/** Counting event lines: what one pass over any sequence of lines adds up to. */
module Tallies {
  import opened Digits
  import opened EventLine
  import opened Options

  datatype Stats = Stats(requests: nat, hits: nat, misses: nat, bypasses: nat, errors: nat, bytesServed: nat)

  const NoStats := Stats(0, 0, 0, 0, 0, 0)

  datatype Totals = Totals(clients: map<string, Stats>, depotMisses: map<nat, nat>, parsed: nat, skipped: nat)

  const NoTotals := Totals(map[], map[], 0, 0)

  function StatsAt(clients: map<string, Stats>, addr: string): Stats {
    if addr in clients then clients[addr] else NoStats
  }

  function MissesAt(misses: map<nat, nat>, depot: nat): nat {
    if depot in misses then misses[depot] else 0
  }

  predicate Served(e: Event) {
    200 <= e.status <= 299
  }

  function Count(s: Stats, e: Event): Stats {
    var seen := s.(requests := s.requests + 1);
    if !Served(e) then seen.(errors := s.errors + 1)
    else
      var served := seen.(bytesServed := s.bytesServed + e.bytesSent);
      match e.cache
      case Hit => served.(hits := s.hits + 1)
      case Bypass => served.(bypasses := s.bypasses + 1)
      case Miss => served.(misses := s.misses + 1)
  }

  function CountClient(clients: map<string, Stats>, e: Event): map<string, Stats> {
    clients[e.addr := Count(StatsAt(clients, e.addr), e)]
  }

  function CountMiss(misses: map<nat, nat>, e: Event): map<nat, nat> {
    if Served(e) && e.cache == Miss && e.depot.Some?
    then misses[e.depot.value := MissesAt(misses, e.depot.value) + 1]
    else misses
  }

  /** One line of the aggregation loop. */
  function AddLine(t: Totals, raw: string): Totals {
    match ParseLine(raw)
    case Rejected(_) => t.(skipped := t.skipped + 1)
    case Accepted(e) => Totals(CountClient(t.clients, e), CountMiss(t.depotMisses, e), t.parsed + 1, t.skipped)
  }

  function Tally(lines: seq<string>): Totals {
    if lines == [] then NoTotals else AddLine(Tally(lines[..|lines| - 1]), lines[|lines| - 1])
  }

  function AddStats(a: Stats, b: Stats): Stats {
    Stats(a.requests + b.requests, a.hits + b.hits, a.misses + b.misses, a.bypasses + b.bypasses,
          a.errors + b.errors, a.bytesServed + b.bytesServed)
  }

  function MergeClients(a: map<string, Stats>, b: map<string, Stats>): map<string, Stats> {
    map addr | addr in a.Keys + b.Keys :: AddStats(StatsAt(a, addr), StatsAt(b, addr))
  }

  function MergeMisses(a: map<nat, nat>, b: map<nat, nat>): map<nat, nat> {
    map d | d in a.Keys + b.Keys :: MissesAt(a, d) + MissesAt(b, d)
  }

  /** The commit: every counter of the batch is added to the stored one. */
  function Merge(a: Totals, b: Totals): Totals {
    Totals(MergeClients(a.clients, b.clients), MergeMisses(a.depotMisses, b.depotMisses),
           a.parsed + b.parsed, a.skipped + b.skipped)
  }

  lemma CountAdds(x: Stats, y: Stats, e: Event)
    ensures Count(AddStats(x, y), e) == AddStats(x, Count(y, e))
  {
  }

  lemma MergeClientsUpdate(a: map<string, Stats>, b: map<string, Stats>, addr: string, s: Stats)
    ensures MergeClients(a, b[addr := s]) == MergeClients(a, b)[addr := AddStats(StatsAt(a, addr), s)]
  {
  }

  lemma MergeCountClient(a: map<string, Stats>, b: map<string, Stats>, e: Event)
    ensures MergeClients(a, CountClient(b, e)) == CountClient(MergeClients(a, b), e)
  {
    MergeClientsUpdate(a, b, e.addr, Count(StatsAt(b, e.addr), e));
    CountAdds(StatsAt(a, e.addr), StatsAt(b, e.addr), e);
    MergedAt(a, b, e.addr);
    hide MergeClients, Count, AddStats;
  }

  lemma AddNothing(x: Stats, y: Stats)
    requires x == Stats(0, 0, 0, 0, 0, 0) && y == x
    ensures AddStats(x, y) == x
  {
    var sum := AddStats(x, y);
    assert sum.requests == 0 && sum.hits == 0 && sum.misses == 0;
  }

  lemma MergedAt(a: map<string, Stats>, b: map<string, Stats>, addr: string)
    ensures StatsAt(MergeClients(a, b), addr) == AddStats(StatsAt(a, addr), StatsAt(b, addr))
  {
    var merged := MergeClients(a, b);
    assert addr in merged <==> addr in a || addr in b;
    if addr in merged {
      assert merged[addr] == AddStats(StatsAt(a, addr), StatsAt(b, addr));
    } else {
      AddNothing(StatsAt(a, addr), StatsAt(b, addr));
    }
  }

  lemma MergeCountMiss(a: map<nat, nat>, b: map<nat, nat>, e: Event)
    ensures MergeMisses(a, CountMiss(b, e)) == CountMiss(MergeMisses(a, b), e)
  {
  }

  lemma MergeAddLine(a: Totals, b: Totals, raw: string)
    ensures Merge(a, AddLine(b, raw)) == AddLine(Merge(a, b), raw)
  {
    if ParseLine(raw).Accepted? {
      MergeCountClient(a.clients, b.clients, ParseLine(raw).event);
      MergeCountMiss(a.depotMisses, b.depotMisses, ParseLine(raw).event);
    }
    hide CountClient, CountMiss, MergeClients, MergeMisses, ParseLine;
  }

  lemma MergeNothing(a: Totals)
    ensures Merge(a, NoTotals) == a
  {
    assert Merge(a, NoTotals).clients == a.clients;
    assert Merge(a, NoTotals).depotMisses == a.depotMisses;
  }

  /** Counting in batches and adding up is counting once. */
  lemma {:induction false} TallyConcat(a: seq<string>, b: seq<string>)
    ensures Tally(a + b) == Merge(Tally(a), Tally(b))
  {
    hide Merge, AddLine;
    if b == [] {
      assert a + b == a;
      MergeNothing(Tally(a));
    } else {
      var front := b[..|b| - 1];
      TallyConcat(a, front);
      MergeAddLine(Tally(a), Tally(front), b[|b| - 1]);
      assert (a + b)[..|a + b| - 1] == a + front;
    }
  }

  /** Every line is either counted or skipped, and every request of a client is a hit, a miss, a
      bypass or an error. */
  lemma {:induction false} RequestsAddUp(lines: seq<string>, addr: string)
    ensures var s := StatsAt(Tally(lines).clients, addr);
      s.requests == s.hits + s.misses + s.bypasses + s.errors
    ensures Tally(lines).parsed + Tally(lines).skipped == |lines|
  {
    if lines != [] { RequestsAddUp(lines[..|lines| - 1], addr); }
  }

  // ---------------------------------------------------------------- what the counters mean, on the text

  predicate Is2xx(f: seq<string>) {
    |f| == 9 && f[8] != "" && f[8][0] == '2'
  }

  function One(c: bool): nat {
    if c then 1 else 0
  }

  /** What one line of acceptable fields does to the counters of its address: one request, and
      either an error or one hit, miss or bypass and the bytes sent. */
  predicate ClientMoves(was: Stats, now: Stats, f: seq<string>, bytesSent: nat)
    requires |f| == 9
  {
    && now.requests == was.requests + 1
    && now.hits == was.hits + One(f[3] == "HIT" && Is2xx(f))
    && now.misses == was.misses + One(f[3] == "MISS" && Is2xx(f))
    && now.bypasses == was.bypasses + One(f[3] == "BYPASS" && Is2xx(f))
    && now.errors == was.errors + One(!Is2xx(f))
    && now.bytesServed == was.bytesServed + (if Is2xx(f) then bytesSent else 0)
  }

  lemma CountMoves(was: Stats, e: Event, f: seq<string>)
    requires Acceptable(f) && Tells(e, f)
    ensures ClientMoves(was, Count(was, e), f, e.bytesSent)
    ensures Served(e) <==> Is2xx(f)
  {
    StatusClass(f[8], e.status);
    hide Spells;
  }

  lemma OneNumber(s: string, m: nat, n: nat)
    requires Spells(s, m) && Spells(s, n)
    ensures m == n
  {
    SpellsIsRead(s, m);
    SpellsIsRead(s, n);
  }

  /** One line made of any fields joined by tabs. Nine acceptable ones of at most 8192 bytes count:
      for the address in the third, with the bytes the seventh spells, and as one miss of the depot
      the fifth spells, if it is a 2xx miss. Every other line is skipped. */
  lemma LineCounts(t: Totals, f: seq<string>, raw: string, bytesSent: nat, depot: nat, addr: string)
    requires f != [] && (forall i :: 0 <= i < |f| ==> TAB !in f[i]) && raw == Join(f, TAB)
    requires Acceptable(f) ==> Spells(f[6], bytesSent)
    ensures var now := AddLine(t, raw);
      if |raw| <= 8192 && Acceptable(f) then
        && now.parsed == t.parsed + 1 && now.skipped == t.skipped
        && f[2] in now.clients && ClientMoves(StatsAt(t.clients, f[2]), now.clients[f[2]], f, bytesSent)
        && (addr != f[2] ==> StatsAt(now.clients, addr) == StatsAt(t.clients, addr))
        && MissesAt(now.depotMisses, depot)
           == MissesAt(t.depotMisses, depot) + One(f[3] == "MISS" && Is2xx(f) && f[4] != "-" && Spells(f[4], depot))
      else
        now == t.(skipped := t.skipped + 1)
  {
    SplitJoin(f, TAB);
    AcceptedExactlyWhen(raw);
    AddedLine(t, raw);
    hide *;
    if |raw| <= 8192 && Acceptable(f) {
      AcceptableIsNine(f);
      EventCounts(t.clients, t.depotMisses, ParseLine(raw).event, f, bytesSent, depot, addr);
    }
  }

  lemma AddedLine(t: Totals, raw: string)
    ensures AddLine(t, raw) == if ParseLine(raw).Accepted?
      then Totals(CountClient(t.clients, ParseLine(raw).event), CountMiss(t.depotMisses, ParseLine(raw).event), t.parsed + 1, t.skipped)
      else t.(skipped := t.skipped + 1)
  {
    hide ParseLine, CountClient, CountMiss;
  }

  lemma AcceptableIsNine(f: seq<string>)
    requires Acceptable(f)
    ensures |f| == 9
  {
  }

  lemma EventCounts(clients: map<string, Stats>, misses: map<nat, nat>, e: Event, f: seq<string>, bytesSent: nat,
                    depot: nat, addr: string)
    requires Acceptable(f) && Tells(e, f) && Spells(f[6], bytesSent)
    ensures var now := CountClient(clients, e);
      && f[2] in now && ClientMoves(StatsAt(clients, f[2]), now[f[2]], f, bytesSent)
      && (addr != f[2] ==> StatsAt(now, addr) == StatsAt(clients, addr))
    ensures MissesAt(CountMiss(misses, e), depot)
         == MissesAt(misses, depot) + One(f[3] == "MISS" && Is2xx(f) && f[4] != "-" && Spells(f[4], depot))
  {
    CountMoves(StatsAt(clients, f[2]), e, f);
    OneNumber(f[6], e.bytesSent, bytesSent);
    MissMoves(misses, e, f, depot);
    hide Acceptable, Count, ClientMoves, Spells, Is2xx, Served, CountMiss, MissesAt;
  }

  lemma MissMoves(was: map<nat, nat>, e: Event, f: seq<string>, depot: nat)
    requires Acceptable(f) && Tells(e, f) && (Served(e) <==> Is2xx(f))
    ensures MissesAt(CountMiss(was, e), depot)
         == MissesAt(was, depot) + One(f[3] == "MISS" && Is2xx(f) && f[4] != "-" && Spells(f[4], depot))
  {
    if f[4] != "-" && Spells(f[4], depot) { OneNumber(f[4], e.depot.value, depot); }
    hide Spells, Is2xx, Served, Acceptable;
  }

  // ---------------------------------------------------------------- ... over many lines

  /** A line of at most 8192 bytes whose fields are acceptable and name this address. */
  predicate IsLineOf(raw: string, addr: string) {
    |raw| <= 8192 && Acceptable(Split(raw, TAB)) && Split(raw, TAB)[2] == addr
  }

  function HowMany(lines: seq<string>, addr: string, p: seq<string> -> bool): nat {
    if lines == [] then 0
    else
      var last := lines[|lines| - 1];
      HowMany(lines[..|lines| - 1], addr, p) + One(IsLineOf(last, addr) && p(Split(last, TAB)))
  }

  function BytesServed(lines: seq<string>, addr: string): nat {
    if lines == [] then 0
    else
      var last := lines[|lines| - 1];
      BytesServed(lines[..|lines| - 1], addr)
      + if IsLineOf(last, addr) && Is2xx(Split(last, TAB)) then DigitsValue(Split(last, TAB)[6]) else 0
  }

  lemma SplitHasNoTabs(raw: string)
    ensures var f := Split(raw, TAB); f != [] && (forall i :: 0 <= i < |f| ==> TAB !in f[i]) && raw == Join(f, TAB)
  {
    JoinSplit(raw, TAB);
  }

  lemma LastLineCounts(t: Totals, raw: string, addr: string)
    ensures var (f, was, now) := (Split(raw, TAB), StatsAt(t.clients, addr), StatsAt(AddLine(t, raw).clients, addr));
      if IsLineOf(raw, addr) then ClientMoves(was, now, f, DigitsValue(f[6])) else now == was
  {
    var f := Split(raw, TAB);
    SplitHasNoTabs(raw);
    if Acceptable(f) {
      DigitsUpToIs(f[6], 15);
      LineCounts(t, f, raw, DigitsValue(f[6]), 0, addr);
    } else {
      LineCounts(t, f, raw, 0, 0, addr);
    }
    hide AddLine, Acceptable, ClientMoves, Split;
  }

  /** What the counters mean: how many acceptable lines of the address say what, a response outside
      2xx counting as an error and as nothing else. */
  lemma {:induction false} CountersMean(lines: seq<string>, addr: string)
    ensures var s := StatsAt(Tally(lines).clients, addr);
      && s.requests == HowMany(lines, addr, (f: seq<string>) => true)
      && s.hits == HowMany(lines, addr, (f: seq<string>) => Is2xx(f) && f[3] == "HIT")
      && s.misses == HowMany(lines, addr, (f: seq<string>) => Is2xx(f) && f[3] == "MISS")
      && s.bypasses == HowMany(lines, addr, (f: seq<string>) => Is2xx(f) && f[3] == "BYPASS")
      && s.errors == HowMany(lines, addr, (f: seq<string>) => !Is2xx(f))
      && s.bytesServed == BytesServed(lines, addr)
  {
    if lines != [] {
      var front, last := lines[..|lines| - 1], lines[|lines| - 1];
      CountersMean(front, addr);
      LastLineCounts(Tally(front), last, addr);
      hide AddLine, IsLineOf, Split, StatsAt;
    }
  }

  predicate IsDepotMiss(raw: string, depot: nat) {
    var f := Split(raw, TAB);
    |raw| <= 8192 && Acceptable(f) && Is2xx(f) && f[3] == "MISS" && f[4] != "-" && Spells(f[4], depot)
  }

  function DepotMissLines(lines: seq<string>, depot: nat): nat {
    if lines == [] then 0
    else DepotMissLines(lines[..|lines| - 1], depot) + One(IsDepotMiss(lines[|lines| - 1], depot))
  }

  function AcceptableLines(lines: seq<string>): nat {
    if lines == [] then 0
    else
      var last := lines[|lines| - 1];
      AcceptableLines(lines[..|lines| - 1]) + One(|last| <= 8192 && Acceptable(Split(last, TAB)))
  }

  lemma LastLineMisses(t: Totals, raw: string, depot: nat)
    ensures MissesAt(AddLine(t, raw).depotMisses, depot) == MissesAt(t.depotMisses, depot) + One(IsDepotMiss(raw, depot))
    ensures AddLine(t, raw).parsed == t.parsed + One(|raw| <= 8192 && Acceptable(Split(raw, TAB)))
  {
    var f := Split(raw, TAB);
    SplitHasNoTabs(raw);
    if Acceptable(f) {
      DigitsUpToIs(f[6], 15);
      LineCounts(t, f, raw, DigitsValue(f[6]), depot, "");
    } else {
      LineCounts(t, f, raw, 0, depot, "");
    }
    hide AddLine, Acceptable, ClientMoves, Split, Spells;
  }

  /** ... and of the other counters: the misses of a depot are the 2xx misses that name it, whoever
      asked. */
  lemma {:induction false} MissesMean(lines: seq<string>, depot: nat)
    ensures MissesAt(Tally(lines).depotMisses, depot) == DepotMissLines(lines, depot)
    ensures Tally(lines).parsed == AcceptableLines(lines)
  {
    hide AddLine, IsDepotMiss, Acceptable, Split;
    if lines != [] {
      MissesMean(lines[..|lines| - 1], depot);
      LastLineMisses(Tally(lines[..|lines| - 1]), lines[|lines| - 1], depot);
    }
  }

  /** `aggregate_lines`. */
  method AggregateLines(lines: seq<string>) returns (result: Totals)
    ensures result == Tally(lines)
  {
    result := NoTotals;
    for i := 0 to |lines|
      invariant result == Tally(lines[..i])
    {
      assert lines[..i + 1][..i] == lines[..i];
      match ParseLine(lines[i]) {
        case Rejected(reason) =>
          result := result.(skipped := result.skipped + 1);
        case Accepted(e) =>
          var stats := StatsAt(result.clients, e.addr);
          var misses := result.depotMisses;
          result := result.(parsed := result.parsed + 1, clients := result.clients[e.addr := Count(stats, e)]);
          if Served(e) && e.cache == Miss && e.depot.Some? {
            result := result.(depotMisses := misses[e.depot.value := MissesAt(misses, e.depot.value) + 1]);
          }
      }
    }
    assert lines[..|lines|] == lines;
  }
}
