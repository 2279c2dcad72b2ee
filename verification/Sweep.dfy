/** The event-log sweeper: an incremental reader with a durable cursor that must agree with one
    parse of the whole log. */
module Sweep {
  import opened EventLine
  import opened Newlines
  import opened Tallies

  const MAX_BATCH_BYTES := 4 * 1024 * 1024

  // ---------------------------------------------------------------- lines of a byte string

  /** What is assumed of the UTF-8 decoder with replacement, beyond decoding line by line: no byte
      sequence shrinks by more than the four bytes one character can take. */
  ghost predicate Decodes(decode: string -> string) {
    decode("") == "" && forall s: string :: |s| <= 4 * |decode(s)|
  }

  /** Bytes that stand for themselves are such a decoder. */
  lemma PlainBytesDecode()
    ensures Decodes((s: string) => s)
  {
  }

  /** The complete lines of a byte string; an unterminated rest is not one. */
  function Complete(s: string): seq<string> {
    var parts := Split(s, NEWLINE);
    parts[..|parts| - 1]
  }

  function Decoded(decode: string -> string, lines: seq<string>): seq<string> {
    if lines == [] then []
    else
      var front := Decoded(decode, lines[..|lines| - 1]);
      var last := decode(lines[|lines| - 1]);
      if last == "" then front else front + [last]
  }

  /** One parse of everything: every complete, non-empty line once. */
  function ParseAll(decode: string -> string, s: string): Totals {
    Tally(Decoded(decode, Complete(s)))
  }

  lemma SplitAtBoundary(a: string)
    requires AtBoundary(a)
    ensures Split(a, NEWLINE) == Complete(a) + [""]
  {
  }

  lemma {:induction false} SplitConcat(a: string, b: string)
    requires AtBoundary(a)
    ensures Split(a + b, NEWLINE) == Complete(a) + Split(b, NEWLINE)
  {
    if b == "" {
      assert a + b == a && Split(b, NEWLINE) == [""];
      SplitAtBoundary(a);
    } else {
      hide *;
      var front, last := b[..|b| - 1], b[|b| - 1];
      SplitConcat(a, front);
      LastCharOf(a, b);
      var head, parts := Complete(a), Split(front, NEWLINE);
      AppendChar(a + front, a + b, last, head + parts);
      AppendChar(front, b, last, parts);
      TackOn(head, parts, last);
    }
  }

  lemma LastCharOf(a: string, b: string)
    requires b != ""
    ensures b == b[..|b| - 1] + [b[|b| - 1]] && a + b == a + b[..|b| - 1] + [b[|b| - 1]]
  {
  }

  lemma TackOn(head: seq<string>, parts: seq<string>, c: char)
    requires parts != []
    ensures head + parts + [""] == head + (parts + [""])
    ensures (head + parts)[..|head + parts| - 1] + [(head + parts)[|head + parts| - 1] + [c]]
         == head + (parts[..|parts| - 1] + [parts[|parts| - 1] + [c]])
  {
  }

  lemma AppendChar(s: string, longer: string, c: char, parts: seq<string>)
    requires longer == s + [c] && parts == Split(s, NEWLINE)
    ensures Split(longer, NEWLINE)
         == if c == NEWLINE then parts + [""] else parts[..|parts| - 1] + [parts[|parts| - 1] + [c]]
  {
    assert longer[..|longer| - 1] == s;
  }

  lemma CompleteConcat(a: string, b: string)
    requires AtBoundary(a)
    ensures Complete(a + b) == Complete(a) + Complete(b)
  {
    SplitConcat(a, b);
  }

  lemma {:induction false} DecodedConcat(decode: string -> string, a: seq<string>, b: seq<string>)
    ensures Decoded(decode, a + b) == Decoded(decode, a) + Decoded(decode, b)
  {
    if b == [] {
      assert a + b == a;
    } else {
      DecodedConcat(decode, a, b[..|b| - 1]);
      assert (a + b)[..|a + b| - 1] == a + b[..|b| - 1];
    }
  }

  lemma ParseAllConcat(decode: string -> string, a: string, b: string)
    requires AtBoundary(a)
    ensures ParseAll(decode, a + b) == Merge(ParseAll(decode, a), ParseAll(decode, b))
  {
    CompleteConcat(a, b);
    DecodedConcat(decode, Complete(a), Complete(b));
    TallyConcat(Decoded(decode, Complete(a)), Decoded(decode, Complete(b)));
  }

  // ---------------------------------------------------------------- one read

  /** Position of the last newline, or the length when there is none. */
  function LastNewline(s: string): (i: nat)
    ensures i <= |s|
    ensures i < |s| ==> s[i] == NEWLINE
    ensures forall k :: i < k < |s| ==> s[k] != NEWLINE
    ensures i == |s| ==> NEWLINE !in s
  {
    if s == "" then 0
    else if s[|s| - 1] == NEWLINE then |s| - 1
    else
      var i := LastNewline(s[..|s| - 1]);
      if i == |s| - 1 then |s| else i
  }

  datatype Batch = Batch(lines: seq<string>, newCursor: nat, rotated: bool, oversized: nat, stalled: bool)

  function StartOf(log: string, cursor: nat): nat {
    if |log| < cursor then 0 else cursor
  }

  function ChunkEnd(log: string, start: nat): nat {
    if |log| - start <= MAX_BATCH_BYTES then |log| else start + MAX_BATCH_BYTES
  }

  /** `read_batch`. */
  function BatchOf(decode: string -> string, log: string, cursor: nat): Batch {
    var start := StartOf(log, cursor);
    var rotated := |log| < cursor;
    var chunk := log[start..ChunkEnd(log, start)];
    var end := LastNewline(chunk);
    if end < |chunk| then
      Batch(Decoded(decode, Complete(chunk[..end + 1])), start + end + 1, rotated, 0, false)
    else if |chunk| < MAX_BATCH_BYTES then Batch([], start, rotated, 0, false)
    else
      var past := log[start + |chunk|..];
      var next := FirstNewline(past);
      if next < |past|
      then Batch([], start + |chunk| + next + 1, rotated, |chunk| + next + 1, false)
      else Batch([], start, rotated, 0, true)
  }

  /** `_skip_oversized`: block by block to the next newline of what follows, wherever it is. */
  method SkipOversized(past: string) returns (found: bool, index: nat)
    ensures found <==> FirstNewline(past) < |past|
    ensures found ==> index == FirstNewline(past)
  {
    var offset := 0;
    while offset < |past|
      invariant offset <= |past|
      invariant offset <= FirstNewline(past)
      decreases |past| - offset
    {
      var chunk := past[offset..ChunkEnd(past, offset)];
      var i := FirstNewline(chunk);
      FirstNewlineInBlock(past, offset, |chunk|);
      if i < |chunk| {
        return true, offset + i;
      }
      offset := offset + |chunk|;
    }
    found, index := false, 0;
  }

  method ReadBatch(decode: string -> string, log: string, cursor: nat) returns (batch: Batch)
    ensures batch == BatchOf(decode, log, cursor)
  {
    hide Decoded, Complete, LastNewline, FirstNewline;
    var start, rotated := cursor, false;
    if |log| < cursor {
      start, rotated := 0, true;
    }
    var chunk := log[start..ChunkEnd(log, start)];
    var end := LastNewline(chunk);
    if end == |chunk| {
      if |chunk| < MAX_BATCH_BYTES {
        return Batch([], start, rotated, 0, false);
      }
      var found, index := SkipOversized(log[start + |chunk|..]);
      if found {
        return Batch([], start + |chunk| + index + 1, rotated, |chunk| + index + 1, false);
      }
      return Batch([], start, rotated, 0, true);
    }
    batch := Batch(Decoded(decode, Complete(chunk[..end + 1])), start + end + 1, rotated, 0, false);
  }

  // ---------------------------------------------------------------- what one read takes

  /** The bytes one read consumes: nothing, or whole lines. */
  function Taken(decode: string -> string, log: string, cursor: nat): string {
    var batch := BatchOf(decode, log, cursor);
    log[StartOf(log, cursor)..batch.newCursor]
  }

  lemma BatchBounds(decode: string -> string, log: string, cursor: nat)
    ensures var batch := BatchOf(decode, log, cursor);
      && StartOf(log, cursor) <= batch.newCursor <= |log|
      && (batch.rotated <==> |log| < cursor)
      && (batch.oversized == 0 || (batch.lines == [] && batch.oversized == batch.newCursor - StartOf(log, cursor)))
      && (batch.oversized == 0 ==> batch.newCursor - StartOf(log, cursor) <= MAX_BATCH_BYTES)
  {
  }

  lemma {:induction false} OneLine(s: string)
    requires NEWLINE !in s
    ensures Complete(s + [NEWLINE]) == [s]
  {
    SplitAppend("", s, NEWLINE);
    assert "" + s == s;
    assert (s + [NEWLINE])[..|s|] == s;
  }

  /** A line too long for one read is skipped, and the parser would have refused it anyway. */
  lemma OversizedIsOneRejectedLine(decode: string -> string, line: string)
    requires Decodes(decode) && NEWLINE !in line && |line| >= MAX_BATCH_BYTES
    ensures ParseAll(decode, line + [NEWLINE]) == NoTotals.(skipped := 1)
  {
    OneLine(line);
    assert |line| <= 4 * |decode(line)|;
    assert Decoded(decode, [line][..0]) == [];
    assert Decoded(decode, [line]) == [decode(line)];
    assert [decode(line)][..0] == [];
    assert ParseLine(decode(line)) == Rejected(TooLong);
    assert Tally([decode(line)]) == AddLine(Tally([]), decode(line));
  }

  function SkippedLines(batch: Batch): nat {
    if batch.oversized > 0 then 1 else 0
  }

  /** What is taken: the whole lines of the chunk, one oversized line, or nothing. */
  lemma TakenCases(decode: string -> string, log: string, cursor: nat)
    ensures var start := StartOf(log, cursor);
      var chunk := log[start..ChunkEnd(log, start)];
      var batch := BatchOf(decode, log, cursor);
      var taken := Taken(decode, log, cursor);
      && batch.newCursor <= |log|
      && (LastNewline(chunk) < |chunk| ==>
            && taken == chunk[..LastNewline(chunk) + 1] && batch.oversized == 0
            && batch.lines == Decoded(decode, Complete(taken)))
      && (LastNewline(chunk) == |chunk| && batch.oversized == 0 ==> taken == "" && batch.lines == [])
      && (LastNewline(chunk) == |chunk| && batch.oversized > 0 ==>
            && batch.lines == []
            && taken == OversizedLine(log, start) + [NEWLINE]
            && |OversizedLine(log, start)| >= MAX_BATCH_BYTES && NEWLINE !in OversizedLine(log, start))
  {
    hide Decoded, Complete;
    var start := StartOf(log, cursor);
    var chunk := log[start..ChunkEnd(log, start)];
    var past := log[start + |chunk|..];
    if LastNewline(chunk) < |chunk| {
      assert Taken(decode, log, cursor) == chunk[..LastNewline(chunk) + 1];
    } else if |chunk| == MAX_BATCH_BYTES && FirstNewline(past) < |past| {
      OversizedLineIs(log, start, chunk, past);
    }
  }

  /** The bytes from the start of a batch without a newline to the next newline behind it. */
  function OversizedLine(log: string, start: nat): string
    requires start <= |log|
  {
    log[start..ChunkEnd(log, start)] + log[ChunkEnd(log, start)..][..FirstNewline(log[ChunkEnd(log, start)..])]
  }

  lemma OversizedLineIs(log: string, start: nat, chunk: string, past: string)
    requires start <= |log| && chunk == log[start..ChunkEnd(log, start)] && past == log[start + |chunk|..]
    requires |chunk| == MAX_BATCH_BYTES && NEWLINE !in chunk && FirstNewline(past) < |past|
    ensures log[start..start + |chunk| + FirstNewline(past) + 1] == OversizedLine(log, start) + [NEWLINE]
    ensures NEWLINE !in OversizedLine(log, start) && |OversizedLine(log, start)| >= MAX_BATCH_BYTES
  {
    hide FirstNewline;
    var n := FirstNewline(past);
    BlocksOf(log, start, |chunk|, n);
    NoneInEither(chunk, past, n);
    assert ChunkEnd(log, start) == start + |chunk|;
  }

  lemma NoneInEither(chunk: string, past: string, n: nat)
    requires n < |past| && NEWLINE !in chunk && forall k :: 0 <= k < n ==> past[k] != NEWLINE
    ensures NEWLINE !in chunk + past[..n] && |chunk + past[..n]| >= |chunk|
  {
  }

  lemma BlocksOf(log: string, start: nat, m: nat, n: nat)
    requires start + m + n < |log|
    ensures log[start..start + m + n + 1] == log[start..start + m] + log[start + m..][..n] + [log[start + m..][n]]
  {
  }

  /** The counters of one batch, an oversized line counted as one skipped line, are exactly those
      of one parse of the bytes it consumed; and the batch ends at a line boundary. */
  lemma BatchCountsWhatItTakes(decode: string -> string, log: string, cursor: nat)
    requires Decodes(decode)
    ensures var batch := BatchOf(decode, log, cursor);
      var tally := Tally(batch.lines);
      && batch.newCursor <= |log|
      && AtBoundary(Taken(decode, log, cursor))
      && ParseAll(decode, Taken(decode, log, cursor)) == tally.(skipped := tally.skipped + SkippedLines(batch))
  {
    hide BatchOf, Taken, Decoded, Complete, OversizedLine, Tally;
    TakenCases(decode, log, cursor);
    var start := StartOf(log, cursor);
    var chunk := log[start..ChunkEnd(log, start)];
    var batch := BatchOf(decode, log, cursor);
    NothingParsed(decode);
    if LastNewline(chunk) < |chunk| {
      assert batch.lines == Decoded(decode, Complete(Taken(decode, log, cursor)));
    } else if batch.oversized > 0 {
      OversizedIsOneRejectedLine(decode, OversizedLine(log, start));
    }
  }

  lemma NothingParsed(decode: string -> string)
    ensures ParseAll(decode, "") == NoTotals && Tally([]) == NoTotals
  {
    assert Complete("") == [];
  }

  /** A read makes progress whenever a complete line is waiting. */
  lemma ReadsProgress(decode: string -> string, log: string, cursor: nat)
    ensures BatchOf(decode, log, cursor).newCursor > StartOf(log, cursor) <==> NEWLINE in log[StartOf(log, cursor)..]
    ensures BatchOf(decode, log, cursor).stalled <==>
      NEWLINE !in log[StartOf(log, cursor)..] && |log| - StartOf(log, cursor) >= MAX_BATCH_BYTES
  {
    var start := StartOf(log, cursor);
    var chunk := log[start..ChunkEnd(log, start)];
    var rest := log[start..];
    var past := log[start + |chunk|..];
    assert rest == chunk + past;
    hide Decoded, Complete, Split;
    assert NEWLINE in rest <==> NEWLINE in chunk || NEWLINE in past;
    if LastNewline(chunk) < |chunk| {
      assert chunk[LastNewline(chunk)] == NEWLINE;
    } else if FirstNewline(past) < |past| {
      assert past[FirstNewline(past)] == NEWLINE;
    } else {
      assert NEWLINE !in past;
    }
  }
}
