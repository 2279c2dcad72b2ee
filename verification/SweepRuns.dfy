/** Whole runs of the sweeper: writers appending, sweeps of every size, crashes before the commit,
    its own truncation and rotation behind its back. */
module SweepRuns {
  import opened EventLine
  import opened Newlines
  import opened Sweep
  import opened Tallies

  /** The log file, the durable row, and the histories: what has been consumed of the present file
      and of all files together, and whether the file was emptied without the cursor being reset. */
  datatype State = State(log: string, cursor: nat, totals: Totals, oversized: nat, read: string, swept: string, torn: bool)

  datatype Act =
    | Writes(bytes: string)
    | Swaps(content: string)
    | Sweeps(late: string, limit: nat, permitted: bool)
    | DiesBeforeCommit
    | DiesBeforeReset(late: string, limit: nat, permitted: bool)

  const Fresh := State("", 0, NoTotals, 0, "", "", false)

  /** `maybe_truncate`: only a file that is big enough and fully swept, at the size it has then. */
  predicate Truncates(size: nat, cursor: nat, limit: nat, permitted: bool) {
    limit > 0 && cursor > 0 && size >= limit && size == cursor && permitted
  }

  /** `sweep_once` up to the commit, and what arrives between the read and the size check. */
  function Committed(decode: string -> string, s: State, late: string): State {
    BatchBounds(decode, s.log, s.cursor);
    var batch := BatchOf(decode, s.log, s.cursor);
    var taken := Taken(decode, s.log, s.cursor);
    State(s.log + late, batch.newCursor,
          Merge(s.totals, Tally(batch.lines)),
          s.oversized + SkippedLines(batch),
          (if batch.rotated then "" else s.read) + taken,
          s.swept + taken,
          false)
  }

  /** Emptying the file is one call and resetting the cursor a transaction after it: whoever dies,
      or fails to write, in between leaves an empty file and the old cursor. */
  function Emptied(s: State, limit: nat, permitted: bool, dies: bool): State {
    if !Truncates(|s.log|, s.cursor, limit, permitted) then s
    else if dies then s.(log := "", torn := true)
    else s.(log := "", cursor := 0, read := "")
  }

  function AfterSweep(decode: string -> string, s: State, late: string, limit: nat, permitted: bool, dies: bool): State {
    Emptied(Committed(decode, s, late), limit, permitted, dies)
  }

  function Step(decode: string -> string, s: State, act: Act): State {
    match act
    case Writes(bytes) => s.(log := s.log + bytes)
    case Swaps(content) => s.(log := content)
    case Sweeps(late, limit, permitted) => AfterSweep(decode, s, late, limit, permitted, false)
    case DiesBeforeCommit => s
    case DiesBeforeReset(late, limit, permitted) => AfterSweep(decode, s, late, limit, permitted, true)
  }

  function Run(decode: string -> string, s: State, acts: seq<Act>): State {
    if acts == [] then s else Step(decode, Run(decode, s, acts[..|acts| - 1]), acts[|acts| - 1])
  }

  /** The committed counters are those of one parse of everything consumed so far. */
  ghost predicate Counted(decode: string -> string, s: State) {
    && AtBoundary(s.swept) && AtBoundary(s.read) && |s.read| == s.cursor
    && ParseAll(decode, s.swept) == s.totals.(skipped := s.totals.skipped + s.oversized)
  }

  /** The batch, its tally and the bytes it took are those of one read of the file at the cursor. */
  ghost predicate ReadFrom(decode: string -> string, s: State, batch: Batch, aggregate: Totals, taken: string) {
    batch == BatchOf(decode, s.log, s.cursor) && aggregate == Tally(batch.lines) && taken == Taken(decode, s.log, s.cursor)
  }

  lemma CommittedIs(decode: string -> string, s: State, batch: Batch, aggregate: Totals, taken: string)
    requires ReadFrom(decode, s, batch, aggregate, taken)
    ensures Committed(decode, s, "")
         == State(s.log, batch.newCursor, Merge(s.totals, aggregate), s.oversized + SkippedLines(batch),
                  (if batch.rotated then "" else s.read) + taken, s.swept + taken, false)
  {
    hide BatchOf, Taken, Tally, Merge, SkippedLines;
    assert s.log + "" == s.log;
  }

  datatype Death = Survives | BeforeCommit | BeforeReset

  class Sweeper {
    const decode: string -> string
    var log: string
    var cursor: nat
    var totals: Totals
    var oversized: nat
    ghost var read: string
    ghost var swept: string
    ghost var torn: bool

    ghost function Current(): State
      reads this
    {
      State(log, cursor, totals, oversized, read, swept, torn)
    }

    /** `commit_batch`: statistics and cursor in one transaction, so that a batch of this file leaves
        the counters those of one parse of everything consumed, as they were before it. */
    method Commit(batch: Batch, aggregate: Totals, ghost taken: string)
      modifies this
      ensures log == old(log)
      ensures ReadFrom(decode, old(Current()), batch, aggregate, taken) ==>
        Current() == Committed(decode, old(Current()), "")
      ensures ReadFrom(decode, old(Current()), batch, aggregate, taken) && Decodes(decode) && Counted(decode, old(Current())) ==>
        Counted(decode, Current())
    {
      hide *;
      ghost var was := Current();
      CurrentIs();
      totals := Merge(totals, aggregate);
      oversized := oversized + SkippedLines(batch);
      cursor := batch.newCursor;
      read, swept, torn := (if batch.rotated then "" else read) + taken, swept + taken, false;
      CurrentIs();
      if ReadFrom(decode, was, batch, aggregate, taken) {
        CommittedIs(decode, was, batch, aggregate, taken);
        if Decodes(decode) && Counted(decode, was) { CommitCounts(decode, was, ""); }
      }
    }

    lemma CurrentIs()
      ensures Current() == State(log, cursor, totals, oversized, read, swept, torn)
    {
    }

    /** `maybe_truncate`: what has been written is emptied only once all of it is consumed. */
    method MaybeTruncate(limit: nat, permitted: bool, dies: bool) returns (truncated: bool)
      modifies this
      ensures Current() == Emptied(old(Current()), limit, permitted, dies)
      ensures truncated ==> log == "" && old(cursor) == |old(log)|
      ensures !truncated ==> log == old(log)
    {
      if limit == 0 || cursor == 0 || |log| < limit || |log| != cursor || !permitted {
        return false;
      }
      log, truncated := "", true;
      if dies {
        torn := true;
        return;
      }
      cursor, read := 0, "";
    }

    /** One sweep, or as much of it as is done before a death. */
    method SweepOnce(late: string, limit: nat, permitted: bool, death: Death)
      modifies this
      ensures Current() == Step(decode, old(Current()),
        match death
        case Survives => Sweeps(late, limit, permitted)
        case BeforeCommit => DiesBeforeCommit
        case BeforeReset => DiesBeforeReset(late, limit, permitted))
    {
      hide *;
      ghost var was := Current();
      CurrentIs();
      var batch := ReadBatch(decode, log, cursor);
      var aggregate := AggregateLines(batch.lines);
      StepsBy(decode, was, late, limit, permitted);
      if death.BeforeCommit? {
        return;
      }
      ReadIsRead(decode, was, batch, aggregate, Taken(decode, log, cursor));
      Commit(batch, aggregate, Taken(decode, log, cursor));
      CurrentIs();
      LateArrives(decode, was, late);
      log := log + late;
      CurrentIs();
      var truncated := MaybeTruncate(limit, permitted, death.BeforeReset?);
    }
  }

  lemma ReadIsRead(decode: string -> string, s: State, batch: Batch, aggregate: Totals, taken: string)
    requires batch == BatchOf(decode, s.log, s.cursor) && aggregate == Tally(batch.lines)
    requires taken == Taken(decode, s.log, s.cursor)
    ensures ReadFrom(decode, s, batch, aggregate, taken)
  {
  }

  lemma StepsBy(decode: string -> string, s: State, late: string, limit: nat, permitted: bool)
    ensures Step(decode, s, DiesBeforeCommit) == s
    ensures Step(decode, s, Sweeps(late, limit, permitted)) == Emptied(Committed(decode, s, late), limit, permitted, false)
    ensures Step(decode, s, DiesBeforeReset(late, limit, permitted)) == Emptied(Committed(decode, s, late), limit, permitted, true)
  {
    hide Committed;
  }

  lemma LateArrives(decode: string -> string, s: State, late: string)
    ensures var at := Committed(decode, s, ""); Committed(decode, s, late) == at.(log := s.log + late) && at.log == s.log
  {
    hide BatchOf, Tally, Merge, Taken, SkippedLines;
    assert s.log + "" == s.log;
  }

  // ---------------------------------------------------------------- counted exactly once

  lemma MergeSkips(a: Totals, b: Totals, x: nat, y: nat)
    ensures Merge(a.(skipped := a.skipped + x), b.(skipped := b.skipped + y))
         == Merge(a, b).(skipped := Merge(a, b).skipped + x + y)
  {
  }

  lemma CommitCounts(decode: string -> string, s: State, late: string)
    requires Decodes(decode) && Counted(decode, s)
    ensures Counted(decode, Committed(decode, s, late))
  {
    hide BatchOf, Taken, ParseAll, Merge, Tally, SkippedLines, Complete;
    BatchCountsWhatItTakes(decode, s.log, s.cursor);
    BatchBounds(decode, s.log, s.cursor);
    var batch := BatchOf(decode, s.log, s.cursor);
    var taken := Taken(decode, s.log, s.cursor);
    TakenLength(decode, s.log, s.cursor);
    ParseAllConcat(decode, s.swept, taken);
    BoundaryConcat(s.swept, taken);
    BoundaryConcat(s.read, taken);
    BoundaryConcat("", taken);
    MergeSkips(s.totals, Tally(batch.lines), s.oversized, SkippedLines(batch));
  }

  lemma TakenLength(decode: string -> string, log: string, cursor: nat)
    ensures |Taken(decode, log, cursor)| == BatchOf(decode, log, cursor).newCursor - StartOf(log, cursor)
  {
    BatchBounds(decode, log, cursor);
    hide BatchOf;
  }

  lemma SweepCounts(decode: string -> string, s: State, late: string, limit: nat, permitted: bool, dies: bool)
    requires Decodes(decode) && Counted(decode, s)
    ensures Counted(decode, AfterSweep(decode, s, late, limit, permitted, dies))
  {
    hide Committed, ParseAll;
    CommitCounts(decode, s, late);
  }

  /** For every batching, every partial tail, every death, every skipped oversized line, every
      truncation and every swap of the file: each complete line that was consumed is counted exactly
      once, as one parse of all consumed bytes counts it. */
  lemma {:induction false} EveryLineCountsOnce(decode: string -> string, acts: seq<Act>)
    requires Decodes(decode)
    ensures Counted(decode, Run(decode, Fresh, acts))
  {
    if acts == [] {
      assert Complete("") == [];
      assert ParseAll(decode, "") == NoTotals;
    } else {
      hide AfterSweep, ParseAll;
      var front, last := acts[..|acts| - 1], acts[|acts| - 1];
      EveryLineCountsOnce(decode, front);
      var s := Run(decode, Fresh, front);
      match last {
        case Sweeps(late, limit, permitted) => SweepCounts(decode, s, late, limit, permitted, false);
        case DiesBeforeReset(late, limit, permitted) => SweepCounts(decode, s, late, limit, permitted, true);
        case _ =>
      }
    }
  }

  // ---------------------------------------------------------------- nothing lost, nothing twice

  /** Everything vault-core has written, over all truncations. */
  function Written(acts: seq<Act>): string {
    if acts == [] then ""
    else Written(acts[..|acts| - 1]) + Adds(acts[|acts| - 1])
  }

  function Adds(act: Act): string {
    match act
    case Writes(bytes) => bytes
    case Sweeps(late, _, _) => late
    case DiesBeforeReset(late, _, _) => late
    case _ => ""
  }

  predicate NoSwaps(acts: seq<Act>) {
    forall i :: 0 <= i < |acts| ==> !acts[i].Swaps?
  }

  /** Where the cursor can stand in a file nobody else replaces. */
  predicate Placed(s: State) {
    if s.torn then s.cursor > 0 else s.cursor <= |s.log|
  }

  /** The bytes no sweep has consumed: all of a file whose cursor belongs to its emptied past. */
  function Unread(s: State): string {
    if s.torn then s.log else if s.cursor <= |s.log| then s.log[s.cursor..] else ""
  }

  predicate Commits(act: Act) {
    act.Sweeps? || act.DiesBeforeReset?
  }

  /** A sweep that takes a new file for the old one: emptied without a reset, and as long again. */
  predicate Overlooks(s: State, act: Act) {
    Commits(act) && s.torn && |s.log| >= s.cursor
  }

  lemma CommitMoves(decode: string -> string, s: State, late: string)
    requires Placed(s)
    ensures var from := StartOf(s.log, s.cursor);
      var at := Committed(decode, s, late);
      && from <= at.cursor <= |s.log| && !at.torn && at.log == s.log + late
      && at.swept == s.swept + s.log[from..at.cursor]
  {
    BatchBounds(decode, s.log, s.cursor);
    hide BatchOf, Merge, Tally, SkippedLines;
  }

  lemma CutLog(log: string, late: string, i: nat, k: nat)
    requires i <= k <= |log|
    ensures log[i..] == log[i..k] + log[k..]
    ensures (log + late)[k..] == log[k..] + late
  {
  }

  lemma Regroup(a: string, b: string, c: string, d: string)
    ensures a + (b + c) + d == a + b + (c + d)
  {
  }

  /** What a sweep accounts for: all of it, or all but the stretch it overlooks. */
  lemma SweepAccounts(decode: string -> string, s: State, late: string, limit: nat, permitted: bool, dies: bool)
    requires Placed(s)
    ensures var from := StartOf(s.log, s.cursor);
      var after := AfterSweep(decode, s, late, limit, permitted, dies);
      && Placed(after)
      && after.swept + Unread(after) == s.swept + s.log[from..] + late
  {
    var from := StartOf(s.log, s.cursor);
    var at := Committed(decode, s, late);
    CommitMoves(decode, s, late);
    hide Committed, StartOf;
    CutLog(s.log, late, from, at.cursor);
    Regroup(s.swept, s.log[from..at.cursor], s.log[at.cursor..], late);
    if Truncates(|at.log|, at.cursor, limit, permitted) {
      assert at.log[at.cursor..] == "";
      assert at.swept + "" == at.swept;
    }
  }

  lemma StepAccounts(decode: string -> string, s: State, act: Act)
    requires Placed(s) && !act.Swaps?
    ensures var after := Step(decode, s, act);
      && Placed(after)
      && (!Overlooks(s, act) ==> after.swept + Unread(after) == s.swept + Unread(s) + Adds(act))
      && (Overlooks(s, act) ==> |after.swept + Unread(after)| < |s.swept + Unread(s) + Adds(act)|)
  {
    hide AfterSweep, Split;
    match act {
      case Sweeps(late, limit, permitted) => SweepAccounts(decode, s, late, limit, permitted, false);
      case DiesBeforeReset(late, limit, permitted) => SweepAccounts(decode, s, late, limit, permitted, true);
      case Writes(bytes) => WriteExtends(s, bytes);
      case DiesBeforeCommit => assert s.swept + Unread(s) + "" == s.swept + Unread(s);
    }
  }

  lemma WriteExtends(s: State, bytes: string)
    requires Placed(s)
    ensures s.swept + Unread(s.(log := s.log + bytes)) == s.swept + Unread(s) + bytes
  {
    if !s.torn { CutLog(s.log, bytes, s.cursor, s.cursor); }
    assert s.swept + (Unread(s) + bytes) == s.swept + Unread(s) + bytes;
  }

  /** Some sweep of the history overlooks a stretch. */
  predicate Loses(decode: string -> string, acts: seq<Act>) {
    acts != []
    && (|| Loses(decode, acts[..|acts| - 1])
        || Overlooks(Run(decode, Fresh, acts[..|acts| - 1]), acts[|acts| - 1]))
  }

  lemma {:induction false} Accounts(decode: string -> string, acts: seq<Act>)
    requires NoSwaps(acts)
    ensures var s := Run(decode, Fresh, acts);
      && Placed(s)
      && (!Loses(decode, acts) ==> Written(acts) == s.swept + Unread(s))
      && (Loses(decode, acts) ==> |Written(acts)| > |s.swept + Unread(s)|)
  {
    if acts != [] {
      hide Step, Placed, Overlooks, Unread;
      var front, last := acts[..|acts| - 1], acts[|acts| - 1];
      assert !acts[|acts| - 1].Swaps?;
      Accounts(decode, front);
      StepAccounts(decode, Run(decode, Fresh, front), last);
    }
  }

  /** As long as nobody else replaces the file, what has been consumed and what is still unread make
      up exactly what was written, in order - no line lost, none read twice - if and only if no sweep
      finds a file that was emptied without a reset and has since grown to its old length. */
  lemma NothingIsLostExactlyWhen(decode: string -> string, acts: seq<Act>)
    requires NoSwaps(acts)
    ensures var s := Run(decode, Fresh, acts);
      Written(acts) == s.swept + Unread(s) <==> !Loses(decode, acts)
  {
    Accounts(decode, acts);
    hide Run, Unread, Written, Loses;
  }

  /** A sweep empties the file exactly when it may, there is a limit, the file has reached it, and all
      of it - what arrived after the read included - has been swept; else nothing in it changes. */
  lemma EmptiedExactlyWhen(decode: string -> string, s: State, late: string, limit: nat, permitted: bool)
    requires s.log + late != ""
    ensures var (swept, after) := (Committed(decode, s, late), Step(decode, s, Sweeps(late, limit, permitted)));
      var due := permitted && 0 < limit <= |s.log + late| && swept.cursor == |s.log + late|;
      && (if due then after.log == "" && after.cursor == 0 else after.log == s.log + late && after.cursor == swept.cursor)
      && after.totals == swept.totals && after.oversized == swept.oversized && after.swept == swept.swept
  {
    hide BatchOf, Taken, Merge, Tally, SkippedLines;
  }

  lemma SweptIsAPrefix(decode: string -> string, acts: seq<Act>)
    requires NoSwaps(acts) && !Loses(decode, acts)
    ensures var s := Run(decode, Fresh, acts);
      |s.swept| <= |Written(acts)| && Written(acts)[..|s.swept|] == s.swept && Written(acts)[|s.swept|..] == Unread(s)
  {
    Accounts(decode, acts);
    hide Run, Unread, Written, Loses;
  }

  /** The committed counters equal one parse of the committed prefix of everything written. */
  lemma CountersAreOneParse(decode: string -> string, acts: seq<Act>)
    requires Decodes(decode) && NoSwaps(acts) && !Loses(decode, acts)
    ensures var s := Run(decode, Fresh, acts);
      && |s.swept| <= |Written(acts)|
      && ParseAll(decode, Written(acts)[..|s.swept|]) == s.totals.(skipped := s.totals.skipped + s.oversized)
  {
    EveryLineCountsOnce(decode, acts);
    SweptIsAPrefix(decode, acts);
    hide Run, Written, ParseAll, Loses;
  }

  // ---------------------------------------------------------------- and in the end every line

  /** With no newline left unread the counters are those of one parse of everything written. */
  lemma CaughtUp(decode: string -> string, acts: seq<Act>)
    requires Decodes(decode) && NoSwaps(acts) && !Loses(decode, acts)
    requires NEWLINE !in Unread(Run(decode, Fresh, acts))
    ensures var s := Run(decode, Fresh, acts);
      ParseAll(decode, Written(acts)) == s.totals.(skipped := s.totals.skipped + s.oversized)
  {
    var s := Run(decode, Fresh, acts);
    EveryLineCountsOnce(decode, acts);
    Accounts(decode, acts);
    hide Run, Loses, Unread, Placed;
    SplitAppend(s.swept, Unread(s), NEWLINE);
    assert Complete(s.swept + Unread(s)) == Complete(s.swept);
  }

  /** Sweeps without new writes catch up: each one consumes something while a complete line waits. */
  lemma SweepsCatchUp(decode: string -> string, s: State, n: nat)
    requires n > |s.log| - StartOf(s.log, s.cursor)
    ensures var done := Run(decode, s, seq(n, _ => Sweeps("", 0, true)));
      done.log == s.log && done.cursor <= |s.log| && NEWLINE !in s.log[done.cursor..]
  {
    SweepsKeepUp(decode, s, n);
  }

  /** One quiet sweep: the log stays, and the cursor moves while a complete line waits. */
  lemma QuietSweepMoves(decode: string -> string, s: State)
    ensures var from, after := StartOf(s.log, s.cursor), AfterSweep(decode, s, "", 0, true, false);
      && after.log == s.log && from <= after.cursor <= |s.log|
      && (NEWLINE in s.log[after.cursor..] ==> after.cursor > from)
  {
    BatchBounds(decode, s.log, s.cursor);
    ReadsProgress(decode, s.log, s.cursor);
    assert s.log + "" == s.log;
    var from, after := StartOf(s.log, s.cursor), AfterSweep(decode, s, "", 0, true, false);
    var moved := BatchOf(decode, s.log, s.cursor).newCursor;
    assert after.log == s.log && after.cursor == moved;
    hide BatchOf, AfterSweep, StartOf;
    assert s.log[from..][moved - from..] == s.log[moved..];
  }

  lemma {:induction false} SweepsKeepUp(decode: string -> string, s: State, n: nat)
    requires n > 0
    ensures var done := Run(decode, s, seq(n, _ => Sweeps("", 0, true)));
      && done.log == s.log && StartOf(s.log, s.cursor) <= done.cursor <= |s.log|
      && (NEWLINE in s.log[done.cursor..] ==> done.cursor >= StartOf(s.log, s.cursor) + n)
  {
    hide AfterSweep;
    var acts, front := seq(n, _ => Sweeps("", 0, true)), seq(n - 1, _ => Sweeps("", 0, true));
    assert acts[..n - 1] == front;
    if n > 1 { SweepsKeepUp(decode, s, n - 1); }
    var before := Run(decode, s, front);
    QuietSweepMoves(decode, before);
    var done := Run(decode, s, acts);
    assert done == AfterSweep(decode, before, "", 0, true, false);
    hide Run;
    if n > 1 && NEWLINE in s.log[done.cursor..] { StillWaiting(s.log, before.cursor, done.cursor); }
  }

  lemma StillWaiting(log: string, i: nat, k: nat)
    requires i <= k <= |log| && NEWLINE in log[k..]
    ensures NEWLINE in log[i..]
  {
    assert log[i..][k - i..] == log[k..];
  }

  // ---------------------------------------------------------------- rotation by somebody else

  /** A swapped file is recognised exactly when it is shorter than the cursor. Recognised, it is
      read from its start; otherwise reading goes on behind the old position, and whatever the new
      file holds before it is never looked at. */
  lemma SwapIsSeenExactlyWhenShorter(decode: string -> string, s: State, content: string)
    ensures var swapped := Step(decode, s, Swaps(content));
      var batch := BatchOf(decode, swapped.log, swapped.cursor);
      && (batch.rotated <==> |content| < s.cursor)
      && batch.newCursor <= |content|
      && Taken(decode, swapped.log, swapped.cursor)
         == content[if |content| < s.cursor then 0 else s.cursor..batch.newCursor]
  {
    BatchBounds(decode, content, s.cursor);
  }

  lemma OneLineSweep(decode: string -> string, s: State, line: string)
    requires |line| == 2 && line[0] != NEWLINE && line[1] == NEWLINE
    requires s.cursor <= |s.log| && s.log[s.cursor..] == line
    ensures var after := AfterSweep(decode, s, "", 0, true, false);
      after.log == s.log && after.cursor == |s.log| && after.swept == s.swept + line
  {
    var chunk := s.log[s.cursor..ChunkEnd(s.log, s.cursor)];
    assert chunk == line && LastNewline(line) == 1;
    assert chunk[..2] == line && s.log + "" == s.log;
    hide Decoded, Complete, Split, Merge, Tally;
    assert BatchOf(decode, s.log, s.cursor).newCursor == |s.log|;
  }

  /** So a file that was rotated and has grown past the old position again loses lines silently:
      the first line of the new file is never read. */
  lemma RegrownFileLosesLines(decode: string -> string)
    ensures var a, swapped := "a\n", "b\nc\n";
      var swept := AfterSweep(decode, Fresh.(log := a), "", 0, true, false);
      var again := AfterSweep(decode, Step(decode, swept, Swaps(swapped)), "", 0, true, false);
      swept.swept == a && again.cursor == |swapped| && again.swept == "a\nc\n"
  {
    var a, swapped := "a\n", "b\nc\n";
    assert a[0..] == a && "" + a == a;
    OneLineSweep(decode, Fresh.(log := a), a);
    var swept := AfterSweep(decode, Fresh.(log := a), "", 0, true, false);
    var regrown := Step(decode, swept, Swaps(swapped));
    hide AfterSweep;
    assert swapped[2..] == "c\n";
    OneLineSweep(decode, regrown, "c\n");
    assert a + "c\n" == "a\nc\n";
  }

  /** The same loss without anybody else: a death between the emptying and the reset, and a new file
      that is as long as the old one by the next sweep. */
  lemma TornTruncationLosesLines(decode: string -> string) returns (acts: seq<Act>)
    ensures NoSwaps(acts) && Loses(decode, acts)
    ensures Run(decode, Fresh, acts).swept == "a\nc\n" && Written(acts) == "a\nb\nc\n"
  {
    hide *;
    FromNothing(decode);
    var one := Then(decode, [], Writes("a\n"));
    LineWritten(decode, "a\n");
    var two := Then(decode, one, DiesBeforeReset("", 1, true));
    SweptThenTorn(decode, Fresh.(log := "a\n"));
    var torn := Run(decode, Fresh, two);
    var three := Then(decode, two, Writes("b\nc\n"));
    LinesWritten(decode, torn, "b\nc\n");
    acts := Then(decode, three, Sweeps("", 0, true));
    TornEnd(decode, torn);
    assert "" + "a\n" + "" + "b\nc\n" + "" == "a\nb\nc\n" && "a\n" + "c\n" == "a\nc\n";
  }

  lemma Then(decode: string -> string, acts: seq<Act>, act: Act) returns (longer: seq<Act>)
    requires NoSwaps(acts) && !act.Swaps?
    ensures longer == acts + [act] && NoSwaps(longer)
    ensures Run(decode, Fresh, longer) == Step(decode, Run(decode, Fresh, acts), act)
    ensures Written(longer) == Written(acts) + Adds(act)
    ensures Overlooks(Run(decode, Fresh, acts), act) ==> Loses(decode, longer)
  {
    hide Step, Overlooks;
    longer := acts + [act];
    assert longer[..|acts|] == acts;
  }

  lemma FromNothing(decode: string -> string)
    ensures Run(decode, Fresh, []) == Fresh && NoSwaps([]) && Written([]) == ""
  {
  }

  lemma LineWritten(decode: string -> string, a: string)
    ensures Step(decode, Fresh, Writes(a)) == Fresh.(log := a) && Adds(Writes(a)) == a
  {
    assert "" + a == a;
  }

  lemma SweptThenTorn(decode: string -> string, s: State)
    requires s == Fresh.(log := "a\n")
    ensures var torn := Step(decode, s, DiesBeforeReset("", 1, true));
      torn.log == "" && torn.cursor == 2 && torn.torn && torn.swept == "a\n"
    ensures Adds(DiesBeforeReset("", 1, true)) == ""
  {
    hide AfterSweep;
    assert s.log[0..] == "a\n" && "" + "a\n" == "a\n";
    OneLineSweep(decode, s, "a\n");
    SweptThenEmptied(decode, s);
  }

  lemma LinesWritten(decode: string -> string, torn: State, bc: string)
    requires torn.log == "" && torn.torn && torn.cursor == 2 && |bc| == 4
    ensures Step(decode, torn, Writes(bc)) == torn.(log := bc) && Adds(Writes(bc)) == bc
    ensures Overlooks(torn.(log := bc), Sweeps("", 0, true)) && Adds(Sweeps("", 0, true)) == ""
  {
    assert "" + bc == bc;
  }

  lemma SweptThenEmptied(decode: string -> string, s: State)
    requires AfterSweep(decode, s, "", 0, true, false).cursor == |s.log| == 2
    ensures var after := AfterSweep(decode, s, "", 1, true, true);
      && after.log == "" && after.cursor == 2 && after.torn
      && after.swept == AfterSweep(decode, s, "", 0, true, false).swept
  {
    NothingLate(decode, s);
    hide Committed;
  }

  lemma NothingLate(decode: string -> string, s: State)
    ensures Committed(decode, s, "").log == s.log
  {
    hide BatchOf, Merge, Tally, SkippedLines, Taken;
    assert s.log + "" == s.log;
  }

  lemma TornEnd(decode: string -> string, torn: State)
    requires torn.cursor == 2
    ensures Step(decode, torn.(log := "b\nc\n"), Sweeps("", 0, true)).swept == torn.swept + "c\n"
  {
    hide AfterSweep;
    assert "b\nc\n"[2..] == "c\n";
    OneLineSweep(decode, torn.(log := "b\nc\n"), "c\n");
  }
}
