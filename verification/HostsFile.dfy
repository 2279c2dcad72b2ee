/** The managed block in a hosts file: found by line, spliced by byte. */
module HostsFile {
  import opened HostsText
  import opened Newlines

  // ---------------------------------------------------------------- lines

  datatype FileLine = FileLine(text: string, eol: string)

  function LineBytes(l: FileLine): string {
    l.text + l.eol
  }

  /** One line with its terminator: CRLF, LF, or none at the end of the file. */
  function MakeLine(s: string): FileLine
    requires s != ""
  {
    var n := |s|;
    if s[n - 1] != NEWLINE then FileLine(s, "")
    else if n >= 2 && s[n - 2] == '\r' then FileLine(s[..n - 2], "\r\n")
    else FileLine(s[..n - 1], "\n")
  }

  function FirstLength(raw: string): (n: nat)
    ensures n <= |raw| && (raw != "" ==> n > 0)
  {
    if FirstNewline(raw) < |raw| then FirstNewline(raw) + 1 else |raw|
  }

  function Lines(raw: string): seq<FileLine> {
    if raw == "" then [] else [MakeLine(raw[..FirstLength(raw)])] + Lines(raw[FirstLength(raw)..])
  }

  function Concat(lines: seq<FileLine>): string {
    if lines == [] then "" else LineBytes(lines[0]) + Concat(lines[1..])
  }

  lemma LinesUnfold(raw: string)
    requires raw != ""
    ensures Lines(raw) == [MakeLine(raw[..FirstLength(raw)])] + Lines(raw[FirstLength(raw)..])
  {
  }

  lemma Regroup(front: seq<FileLine>, line: FileLine, rest: seq<FileLine>)
    ensures front + ([line] + rest) == front + [line] + rest
  {
  }

  /** The first line of a longer text, when the shorter one already ends it. */
  lemma FirstLineOf(a: string, b: string)
    requires a != "" && AtBoundary(a)
    ensures FirstLength(a + b) == FirstLength(a)
    ensures (a + b)[..FirstLength(a)] == a[..FirstLength(a)]
    ensures (a + b)[FirstLength(a)..] == a[FirstLength(a)..] + b
    ensures AtBoundary(a[FirstLength(a)..])
  {
    assert a[|a| - 1] == NEWLINE && FirstNewline(a) < |a|;
    assert (a + b)[..|a|] == a;
    FirstNewlineInPrefix(a + b, |a|);
  }

  lemma SplitStep(lines: seq<FileLine>, raw: string, start: nat)
    requires start < |raw|
    ensures var rest := raw[start..];
      var n := FirstLength(rest);
      && start + n <= |raw| && n > 0
      && lines + Lines(rest) == lines + [MakeLine(rest[..n])] + Lines(raw[start + n..])
  {
    hide MakeLine, FirstLength, Lines;
    var rest := raw[start..];
    LinesUnfold(rest);
    var n := FirstLength(rest);
    assert rest[n..] == raw[start + n..];
    Regroup(lines, MakeLine(rest[..n]), Lines(rest[n..]));
  }

  method SplitLines(raw: string) returns (lines: seq<FileLine>)
    ensures lines == Lines(raw)
  {
    hide *;
    lines := [];
    var start := 0;
    SplitStart(raw);
    while start < |raw|
      invariant start <= |raw|
      invariant lines + Lines(raw[start..]) == Lines(raw)
      decreases |raw| - start
    {
      SplitStep(lines, raw, start);
      var n := FirstLength(raw[start..]);
      lines := lines + [MakeLine(raw[start..][..n])];
      start := start + n;
    }
    SplitEnd(lines, raw);
  }

  lemma SplitStart(raw: string)
    ensures [] + Lines(raw[0..]) == Lines(raw)
  {
    assert raw[0..] == raw;
  }

  lemma SplitEnd(lines: seq<FileLine>, raw: string)
    ensures lines + Lines(raw[|raw|..]) == lines
  {
  }

  lemma MakeLineBytes(s: string)
    requires s != ""
    ensures LineBytes(MakeLine(s)) == s
  {
  }

  lemma {:induction false} ConcatOfLines(raw: string)
    ensures Concat(Lines(raw)) == raw
  {
    hide MakeLine, LineBytes, FirstLength;
    if raw != "" {
      var n := FirstLength(raw);
      MakeLineBytes(raw[..n]);
      ConcatOfLines(raw[n..]);
      assert raw == raw[..n] + raw[n..];
    }
  }

  /** A line: no line feed in it, and the terminator it stands with; only the last may have none. */
  predicate IsLine(l: FileLine, last: bool) {
    && NEWLINE !in l.text
    && (|| l.eol == "\r\n"
        || (l.eol == "\n" && (l.text != "" ==> l.text[|l.text| - 1] != '\r'))
        || (l.eol == "" && last && l.text != ""))
  }

  predicate AreLines(lines: seq<FileLine>) {
    forall i :: 0 <= i < |lines| ==> IsLine(lines[i], i == |lines| - 1)
  }

  lemma MadeLine(s: string)
    requires s != "" && NEWLINE !in s[..|s| - 1]
    ensures IsLine(MakeLine(s), true)
    ensures s[|s| - 1] == NEWLINE ==> IsLine(MakeLine(s), false)
  {
    var n := |s|;
    if s[n - 1] != NEWLINE {
      assert s == s[..n - 1] + [s[n - 1]];
    } else if n >= 2 {
      assert s[..n - 1] == s[..n - 2] + [s[n - 2]];
    }
  }

  lemma LineIsMade(l: FileLine)
    requires IsLine(l, true)
    ensures LineBytes(l) != "" && MakeLine(LineBytes(l)) == l
  {
    var s := LineBytes(l);
    if l.eol == "" {
      assert s == l.text && s[|s| - 1] in l.text;
    } else if l.eol == "\n" {
      assert s[..|s| - 1] == l.text;
      if |s| >= 2 { assert s[|s| - 2] == l.text[|l.text| - 1]; }
    } else {
      assert s[|s| - 1] == '\n' && s[|s| - 2] == '\r' && s[..|s| - 2] == l.text;
    }
  }

  /** Where the first line of a file ends. */
  lemma OwnLineEnds(l: FileLine, rest: string)
    requires IsLine(l, rest == "")
    ensures FirstLength(LineBytes(l) + rest) == |LineBytes(l)|
  {
    var s := LineBytes(l);
    var i := FirstNewline(s + rest);
    assert forall k :: 0 <= k < |l.text| ==> s[k] in l.text;
    if l.eol == "" {
      assert s + rest == l.text;
    } else {
      assert (s + rest)[|s| - 1] == NEWLINE;
      assert forall k :: 0 <= k < |s| - 1 ==> s[k] != NEWLINE;
    }
  }

  /** The lines of a file are the one way to cut it into lines. */
  lemma {:induction false} LinesExactlyWhen(lines: seq<FileLine>, raw: string)
    ensures lines == Lines(raw) <==> AreLines(lines) && Concat(lines) == raw
  {
    LinesAreLines(raw);
    ConcatOfLines(raw);
    if AreLines(lines) && Concat(lines) == raw { CutIsLines(lines, raw); }
  }

  lemma {:induction false} LinesAreLines(raw: string)
    ensures AreLines(Lines(raw))
  {
    if raw != "" {
      var n := FirstLength(raw);
      var first := raw[..n];
      assert forall k :: 0 <= k < n - 1 ==> first[k] != NEWLINE;
      MadeLine(first);
      LinesAreLines(raw[n..]);
      LinesUnfold(raw);
      hide Lines, MakeLine, IsLine, FirstLength;
      forall i | 0 <= i < |Lines(raw)| ensures IsLine(Lines(raw)[i], i == |Lines(raw)| - 1) {
        if i > 0 { assert Lines(raw)[i] == Lines(raw[n..])[i - 1]; }
        else { LastLineOnly(raw, n); }
      }
    }
  }

  lemma LastLineOnly(raw: string, n: nat)
    requires raw != "" && n == FirstLength(raw)
    ensures raw[n..] == "" ==> Lines(raw[n..]) == []
    ensures raw[n..] != "" ==> Lines(raw[n..]) != [] && raw[..n][n - 1] == NEWLINE
  {
    hide MakeLine;
  }

  lemma {:induction false} CutIsLines(lines: seq<FileLine>, raw: string)
    requires AreLines(lines) && Concat(lines) == raw
    ensures lines == Lines(raw)
  {
    if lines != [] {
      var (l, rest) := (lines[0], Concat(lines[1..]));
      hide IsLine, MakeLine;
      assert IsLine(l, |lines| == 1);
      NoRestBehindLast(lines);
      LineIsLine(l, |lines| == 1);
      LineIsMade(l);
      OwnLineEnds(l, rest);
      assert raw[..|LineBytes(l)|] == LineBytes(l) && raw[|LineBytes(l)|..] == rest;
      forall i | 0 <= i < |lines[1..]| ensures IsLine(lines[1..][i], i == |lines[1..]| - 1) {
        assert lines[1..][i] == lines[i + 1];
      }
      CutIsLines(lines[1..], rest);
      LinesUnfold(raw);
    }
  }

  lemma LineIsLine(l: FileLine, last: bool)
    requires IsLine(l, last)
    ensures IsLine(l, true) && LineBytes(l) != ""
  {
  }

  lemma NoRestBehindLast(lines: seq<FileLine>)
    requires AreLines(lines) && lines != []
    ensures Concat(lines[1..]) == "" <==> |lines| == 1
  {
    if |lines| > 1 {
      LineIsLine(lines[1], 1 == |lines| - 1);
    }
  }

  lemma {:induction false} ConcatAppend(a: seq<FileLine>, b: seq<FileLine>)
    ensures Concat(a + b) == Concat(a) + Concat(b)
  {
    if a == [] {
      assert a + b == b;
    } else {
      assert (a + b)[1..] == a[1..] + b;
      ConcatAppend(a[1..], b);
    }
  }

  lemma {:induction false} LinesAppend(a: string, b: string)
    requires AtBoundary(a)
    ensures Lines(a + b) == Lines(a) + Lines(b)
  {
    if a == "" {
      assert a + b == b;
    } else {
      hide FirstLength, MakeLine, Lines;
      FirstLineOf(a, b);
      LinesUnfold(a);
      LinesUnfold(a + b);
      LinesAppend(a[FirstLength(a)..], b);
      var n := FirstLength(a);
      Gather(MakeLine(a[..n]), Lines(a[n..]), Lines(b));
    }
  }

  lemma Gather(line: FileLine, front: seq<FileLine>, rest: seq<FileLine>)
    ensures [line] + (front + rest) == [line] + front + rest
  {
  }

  lemma HeadAndTail(raw: string)
    requires raw != ""
    ensures var n := FirstLength(raw);
      && Lines(raw) != [] && LineBytes(Lines(raw)[0]) == raw[..n] && Lines(raw)[1..] == Lines(raw[n..])
      && (|Lines(raw)| > 1 ==> AtBoundary(raw[..n]))
  {
    hide MakeLine, LineBytes, FirstLength, Lines, AtBoundary;
    LinesUnfold(raw);
    var n := FirstLength(raw);
    MakeLineBytes(raw[..n]);
    if n == |raw| { NoLinesAfter(raw); } else { FirstLineEnds(raw); }
  }

  lemma NoLinesAfter(raw: string)
    ensures Lines(raw[|raw|..]) == []
  {
  }

  lemma FirstLineEnds(raw: string)
    requires FirstLength(raw) < |raw|
    ensures AtBoundary(raw[..FirstLength(raw)])
  {
  }

  lemma ConcatHead(lines: seq<FileLine>, i: nat)
    requires 0 < i <= |lines|
    ensures Concat(lines[..i]) == LineBytes(lines[0]) + Concat(lines[1..][..i - 1])
  {
    assert lines[..i][1..] == lines[1..][..i - 1];
  }

  /** Up to any line that is not the last one, the file ends at a line boundary. */
  lemma {:induction false} PrefixAtBoundary(raw: string, i: nat)
    requires i < |Lines(raw)|
    ensures AtBoundary(Concat(Lines(raw)[..i]))
  {
    if i > 0 {
      assert raw != "";
      hide Lines, MakeLine, FirstLength, LineBytes, AtBoundary, Concat;
      HeadAndTail(raw);
      var n := FirstLength(raw);
      PrefixAtBoundary(raw[n..], i - 1);
      ConcatHead(Lines(raw), i);
      BoundaryConcat(raw[..n], Concat(Lines(raw[n..])[..i - 1]));
    }
  }

  /** Cutting the lines of a file anywhere gives the lines of both parts. */
  lemma LinesCut(raw: string, i: nat)
    requires i < |Lines(raw)|
    ensures Lines(Concat(Lines(raw)[..i])) == Lines(raw)[..i]
    ensures Lines(Concat(Lines(raw)[i..])) == Lines(raw)[i..]
  {
    hide *;
    var front, rest := Lines(raw)[..i], Lines(raw)[i..];
    LinesOfRest(raw, i);
    PrefixAtBoundary(raw, i);
    CutLines(Lines(raw), i);
    ConcatAppend(front, rest);
    ConcatOfLines(raw);
    LinesAppend(Concat(front), Concat(rest));
    CancelRest(Lines(Concat(front)), front, rest);
  }

  lemma CutLines(lines: seq<FileLine>, i: nat)
    requires i <= |lines|
    ensures lines == lines[..i] + lines[i..]
  {
  }

  lemma CancelRest(a: seq<FileLine>, b: seq<FileLine>, rest: seq<FileLine>)
    requires a + rest == b + rest
    ensures a == b
  {
    assert |a| == |b|;
    assert a == (a + rest)[..|a|] && b == (b + rest)[..|a|];
  }

  lemma {:induction false} LinesOfRest(raw: string, i: nat)
    requires i <= |Lines(raw)|
    ensures Lines(Concat(Lines(raw)[i..])) == Lines(raw)[i..]
  {
    if i == 0 {
      assert Lines(raw)[0..] == Lines(raw);
      ConcatOfLines(raw);
    } else {
      assert raw != "";
      hide Lines, MakeLine, FirstLength, LineBytes, AtBoundary, Concat;
      HeadAndTail(raw);
      LinesOfRest(raw[FirstLength(raw)..], i - 1);
      assert Lines(raw)[i..] == Lines(raw)[1..][i - 1..];
    }
  }

  // ---------------------------------------------------------------- the dominant line end

  function CountEol(lines: seq<FileLine>, eol: string): nat {
    if lines == [] then 0 else CountEol(lines[..|lines| - 1], eol) + if lines[|lines| - 1].eol == eol then 1 else 0
  }

  function EolFor(crlf: nat, lf: nat, windows: bool): string {
    if crlf == 0 && lf == 0 then if windows then "\r\n" else "\n"
    else if crlf >= lf then "\r\n"
    else "\n"
  }

  function Dominant(lines: seq<FileLine>, windows: bool): string {
    EolFor(CountEol(lines, "\r\n"), CountEol(lines, "\n"), windows)
  }

  lemma {:induction false} CountEolAppend(a: seq<FileLine>, b: seq<FileLine>, eol: string)
    ensures CountEol(a + b, eol) == CountEol(a, eol) + CountEol(b, eol)
  {
    if b == [] {
      assert a + b == a;
    } else {
      CountEolAppend(a, b[..|b| - 1], eol);
      assert (a + b)[..|a + b| - 1] == a + b[..|b| - 1];
    }
  }

  method DominantEol(lines: seq<FileLine>, windows: bool) returns (eol: string)
    ensures eol == Dominant(lines, windows)
  {
    var crlf, lf := 0, 0;
    for i := 0 to |lines|
      invariant crlf == CountEol(lines[..i], "\r\n") && lf == CountEol(lines[..i], "\n")
    {
      assert lines[..i + 1][..i] == lines[..i];
      if lines[i].eol == "\r\n" {
        crlf := crlf + 1;
      } else if lines[i].eol == "\n" {
        lf := lf + 1;
      }
    }
    assert lines[..|lines|] == lines;
    eol := EolFor(crlf, lf, windows);
  }

  // ---------------------------------------------------------------- finding the block

  datatype Found = NoBlock | Block(begin: nat, end: nat) | Corrupt

  function Begins(lines: seq<FileLine>): seq<nat> {
    if lines == [] then []
    else
      var n := |lines| - 1;
      Begins(lines[..n]) + if IsBegin(lines[n].text) then [n] else []
  }

  function Ends(lines: seq<FileLine>): seq<nat> {
    if lines == [] then []
    else
      var n := |lines| - 1;
      Ends(lines[..n]) + if !IsBegin(lines[n].text) && IsEnd(lines[n].text) then [n] else []
  }

  function FoundBy(begins: seq<nat>, ends: seq<nat>): Found {
    if begins == [] && ends == [] then NoBlock
    else if |begins| == 1 && |ends| == 1 && ends[0] > begins[0] then Block(begins[0], ends[0])
    else Corrupt
  }

  function Find(lines: seq<FileLine>): Found {
    FoundBy(Begins(lines), Ends(lines))
  }

  method FindMarkers(lines: seq<FileLine>) returns (found: Found)
    ensures found == Find(lines)
  {
    var begins: seq<nat>, ends: seq<nat> := [], [];
    for i := 0 to |lines|
      invariant begins == Begins(lines[..i]) && ends == Ends(lines[..i])
    {
      assert lines[..i + 1][..i] == lines[..i];
      if IsBegin(lines[i].text) {
        begins := begins + [i];
      } else if IsEnd(lines[i].text) {
        ends := ends + [i];
      }
    }
    assert lines[..|lines|] == lines;
    found := FoundBy(begins, ends);
  }

  predicate Unmarked(lines: seq<FileLine>) {
    forall i :: 0 <= i < |lines| ==> !IsBegin(lines[i].text) && !IsEnd(lines[i].text)
  }

  lemma {:induction false} MarkersExactly(lines: seq<FileLine>, i: nat)
    ensures i in Begins(lines) <==> i < |lines| && IsBegin(lines[i].text)
    ensures i in Ends(lines) <==> i < |lines| && !IsBegin(lines[i].text) && IsEnd(lines[i].text)
  {
    hide IsBegin, IsEnd;
    if lines != [] { MarkersExactly(lines[..|lines| - 1], i); }
  }

  lemma {:induction false} UnmarkedHasNone(lines: seq<FileLine>)
    ensures Unmarked(lines) <==> Begins(lines) == [] && Ends(lines) == []
  {
    hide IsBegin, IsEnd;
    if lines != [] {
      var front := lines[..|lines| - 1];
      UnmarkedHasNone(front);
      if Unmarked(lines) {
        assert Unmarked(front) by {
          forall i | 0 <= i < |front| ensures !IsBegin(front[i].text) && !IsEnd(front[i].text) {
            assert front[i] == lines[i];
          }
        }
      } else if Unmarked(front) {
        forall i | 0 <= i < |front| ensures !IsBegin(lines[i].text) && !IsEnd(lines[i].text) {
          assert front[i] == lines[i];
        }
      }
    }
  }

  lemma {:induction false} MarkersAppend(a: seq<FileLine>, b: seq<FileLine>)
    ensures Unmarked(b) ==> Begins(a + b) == Begins(a) && Ends(a + b) == Ends(a)
  {
    hide IsBegin, IsEnd;
    if b == [] {
      assert a + b == a;
    } else if Unmarked(b) {
      var front := b[..|b| - 1];
      assert (a + b)[..|a + b| - 1] == a + front;
      forall i | 0 <= i < |front| ensures !IsBegin(front[i].text) && !IsEnd(front[i].text) {
        assert front[i] == b[i];
      }
      MarkersAppend(a, front);
      assert (a + b)[|a + b| - 1] == b[|b| - 1];
    }
  }

  /** A file with one block in order is found as that, wherever the block stands. */
  lemma FindsBlock(pre: seq<FileLine>, begin: FileLine, inner: seq<FileLine>, end: FileLine, post: seq<FileLine>)
    requires Unmarked(pre) && Unmarked(inner) && Unmarked(post)
    requires IsBegin(begin.text) && IsEnd(end.text) && !IsBegin(end.text)
    ensures Find(pre + [begin] + inner + [end] + post) == Block(|pre|, |pre| + 1 + |inner|)
  {
    hide IsBegin, IsEnd;
    UnmarkedHasNone(pre);
    var a := pre + [begin];
    assert a[..|a| - 1] == pre;
    MarkersAppend(a, inner);
    var b := a + inner + [end];
    assert b[..|b| - 1] == a + inner;
    MarkersAppend(b, post);
  }

  /** ... and conversely a found block has its markers and no others around or inside it. */
  lemma BlockIsUnique(lines: seq<FileLine>)
    requires Find(lines).Block?
    ensures var (b, e) := (Find(lines).begin, Find(lines).end);
      && b < e < |lines|
      && IsBegin(lines[b].text) && IsEnd(lines[e].text) && !IsBegin(lines[e].text)
      && Unmarked(lines[..b]) && Unmarked(lines[b + 1..e]) && Unmarked(lines[e + 1..])
  {
    hide IsBegin, IsEnd, Begins, Ends, Unmarked;
    var (b, e) := (Find(lines).begin, Find(lines).end);
    assert Begins(lines) == [b] && Ends(lines) == [e];
    MarkersExactly(lines, b);
    MarkersExactly(lines, e);
    forall i: nat | i < |lines| && i != b && i != e ensures NoMarker(lines[i]) {
      MarkersExactly(lines, i);
    }
    UnmarkedPart(lines, 0, b);
    UnmarkedPart(lines, b + 1, e);
    UnmarkedPart(lines, e + 1, |lines|);
    assert lines[0..b] == lines[..b] && lines[e + 1..|lines|] == lines[e + 1..];
  }

  predicate NoMarker(l: FileLine) {
    !IsBegin(l.text) && !IsEnd(l.text)
  }

  lemma UnmarkedPart(lines: seq<FileLine>, i: nat, k: nat)
    requires i <= k <= |lines| && forall j :: i <= j < k ==> NoMarker(lines[j])
    ensures Unmarked(lines[i..k])
  {
    hide IsBegin, IsEnd;
    var part := lines[i..k];
    forall j | 0 <= j < |part| ensures !IsBegin(part[j].text) && !IsEnd(part[j].text) {
      assert part[j] == lines[i + j] && NoMarker(lines[i + j]);
    }
  }

  // ---------------------------------------------------------------- conflicts and rendering

  predicate HasConflict(lines: seq<FileLine>, found: Found) {
    exists i :: 0 <= i < |lines| && !(found.Block? && found.begin <= i <= found.end) && IsConflict(lines[i].text)
  }

  function BlockText(address: string, eol: string): string {
    BEGIN_MARKER + eol + EntryLine(address) + eol + END_MARKER
  }

  function RenderApplied(raw: string, lines: seq<FileLine>, found: Found, address: string, eol: string): string
    requires found.Block? ==> found.begin < found.end < |lines|
  {
    if found.Block? then
      Concat(lines[..found.begin]) + BlockText(address, eol) + lines[found.end].eol + Concat(lines[found.end + 1..])
    else
      raw + (if AtBoundary(raw) then "" else eol) + BlockText(address, eol) + eol
  }

  function RenderRemoved(raw: string, lines: seq<FileLine>, found: Found): string
    requires found.Block? ==> found.begin < found.end < |lines|
  {
    if found.Block? then Concat(lines[..found.begin]) + Concat(lines[found.end + 1..]) else raw
  }

  /** No UTF-16 or UTF-32 byte-order mark and no NUL byte. */
  predicate PlainText(raw: string) {
    && (|raw| >= 2 ==> (raw[0], raw[1]) != ('\U{FF}', '\U{FE}') && (raw[0], raw[1]) != ('\U{FE}', '\U{FF}'))
    && '\0' !in raw
  }

  datatype Outcome = BadAddress | NotPlainText | MarkersCorrupt | Conflicting | Bytes(raw: string)

  function Applied(raw: string, address: string, windows: bool): Outcome {
    var lines := Lines(raw);
    var found := Find(lines);
    if !ValidCacheIP(address) then BadAddress
    else if !PlainText(raw) then NotPlainText
    else if found.Corrupt? then MarkersCorrupt
    else if HasConflict(lines, found) then Conflicting
    else
      FoundInRange(lines);
      Bytes(RenderApplied(raw, lines, found, address, Dominant(lines, windows)))
  }

  function Removed(raw: string): Outcome {
    var lines := Lines(raw);
    var found := Find(lines);
    if !PlainText(raw) then NotPlainText
    else if found.Corrupt? then MarkersCorrupt
    else
      FoundInRange(lines);
      Bytes(RenderRemoved(raw, lines, found))
  }

  lemma FoundInRange(lines: seq<FileLine>)
    ensures Find(lines).Block? ==> Find(lines).begin < Find(lines).end < |lines|
  {
    if Find(lines).Block? { BlockIsUnique(lines); }
  }

  // ---------------------------------------------------------------- the file on disk

  class HostsFile {
    var raw: string
    var backup: string
    const windows: bool

    /** `Apply`: every refusal leaves file and backup alone, and so does a file that is already
        exactly right; otherwise the old bytes are saved first. */
    method Apply(address: string) returns (outcome: Outcome, changed: bool)
      modifies this
      ensures outcome == Applied(old(raw), address, windows)
      ensures raw == if outcome.Bytes? then outcome.raw else old(raw)
      ensures changed <==> raw != old(raw)
      ensures backup == if changed then old(raw) else old(backup)
    {
      changed := false;
      if !ValidCacheIP(address) {
        return BadAddress, false;
      }
      if !PlainText(raw) {
        return NotPlainText, false;
      }
      var lines := SplitLines(raw);
      var found := FindMarkers(lines);
      if found.Corrupt? {
        return MarkersCorrupt, false;
      }
      if HasConflict(lines, found) {
        return Conflicting, false;
      }
      FoundInRange(lines);
      var eol := DominantEol(lines, windows);
      var desired := RenderApplied(raw, lines, found, address, eol);
      outcome := Bytes(desired);
      if desired != raw {
        backup, raw, changed := raw, desired, true;
      }
    }

    /** `Remove`: never blocked by an entry outside the block. */
    method Remove() returns (outcome: Outcome, changed: bool)
      modifies this
      ensures outcome == Removed(old(raw))
      ensures raw == if outcome.Bytes? then outcome.raw else old(raw)
      ensures changed <==> raw != old(raw)
      ensures backup == if changed then old(raw) else old(backup)
    {
      changed := false;
      if !PlainText(raw) {
        return NotPlainText, false;
      }
      var lines := SplitLines(raw);
      var found := FindMarkers(lines);
      if found.Corrupt? {
        return MarkersCorrupt, false;
      }
      FoundInRange(lines);
      var desired := RenderRemoved(raw, lines, found);
      outcome := Bytes(desired);
      if desired != raw {
        backup, raw, changed := raw, desired, true;
      }
    }
  }
}
