/** What applying and removing the managed block guarantee, for every byte file. */
module HostsLaws {
  import opened EventLine
  import opened HostsFile
  import opened HostsText
  import opened Newlines

  // ---------------------------------------------------------------- verify

  datatype State = Absent | PresentCorrect | PresentDifferentIP | PresentModified | DamagedMarkers

  function Classify(inner: seq<FileLine>, expected: string): State {
    if |inner| != 1 then PresentModified
    else
      var f := EntryFields(inner[0].text);
      if |f| != 2 || !NamesCacheHost(f[1]) || !ValidCacheIP(f[0]) then PresentModified
      else if f[0] != expected then PresentDifferentIP
      else PresentCorrect
  }

  function Verify(raw: string, expected: string): State {
    var lines := Lines(raw);
    match Find(lines)
    case NoBlock => Absent
    case Corrupt => DamagedMarkers
    case Block(b, e) =>
      FoundInRange(lines);
      Classify(lines[b + 1..e], expected)
  }

  // ---------------------------------------------------------------- the shape of an applied file

  function BlockLines(ip: string, eol: string, last: string): seq<FileLine> {
    [FileLine(BEGIN_MARKER, eol), FileLine(EntryLine(ip), eol), FileLine(END_MARKER, last)]
  }

  function Spliced(pre: seq<FileLine>, ip: string, eol: string, last: string, post: seq<FileLine>): string {
    Concat(pre) + BlockText(ip, eol) + last + Concat(post)
  }

  predicate IsEol(s: string) {
    s == "\r\n" || s == "\n"
  }

  predicate Quiet(lines: seq<FileLine>) {
    Unmarked(lines) && forall i :: 0 <= i < |lines| ==> !IsConflict(lines[i].text)
  }

  /** `raw` is a file with our block for `ip` between lines that are no business of ours. */
  ghost predicate Shape(raw: string, pre: seq<FileLine>, ip: string, eol: string, last: string, post: seq<FileLine>) {
    && ValidCacheIP(ip) && IsEol(eol) && (IsEol(last) || (last == "" && post == []))
    && Quiet(pre) && Quiet(post)
    && Lines(Concat(pre)) == pre && AtBoundary(Concat(pre)) && Lines(Concat(post)) == post
    && PlainText(raw)
    && raw == Spliced(pre, ip, eol, last, post)
  }

  predicate OneLiner(text: string) {
    text != "" && NEWLINE !in text && text[|text| - 1] != '\r'
  }

  lemma LineOf(text: string, eol: string)
    requires OneLiner(text) && (IsEol(eol) || eol == "")
    ensures Lines(text + eol) == [FileLine(text, eol)]
  {
    hide *;
    var s := text + eol;
    LengthOfOne(text, eol);
    LinesUnfold(s);
    assert s[..|s|] == s && s[|s|..] == "";
    NoLines();
    MadeLine(text, eol);
  }

  lemma LengthOfOne(text: string, eol: string)
    requires OneLiner(text) && (IsEol(eol) || eol == "")
    ensures text + eol != "" && FirstLength(text + eol) == |text + eol|
  {
    var s := text + eol;
    FirstNewlineSkips(s, |text|);
    assert s[..|text|] == text && s[|text|..] == eol;
  }

  lemma NoLines()
    ensures Lines("") == [] && AtBoundary("")
  {
  }

  lemma MadeLine(text: string, eol: string)
    requires OneLiner(text) && (IsEol(eol) || eol == "")
    ensures MakeLine(text + eol) == FileLine(text, eol)
  {
    assert text + "" == text;
  }

  lemma NoNewlineIn(ip: string)
    requires ValidCacheIP(ip)
    ensures NEWLINE !in BEGIN_MARKER && NEWLINE !in END_MARKER && NEWLINE !in EntryLine(ip)
    ensures BEGIN_MARKER[|BEGIN_MARKER| - 1] != '\r' && END_MARKER[|END_MARKER| - 1] != '\r'
    ensures EntryLine(ip)[|EntryLine(ip)| - 1] != '\r'
  {
    EntryLineChars(ip);
    NoNewlineInMarkers();
    hide ValidCacheIP, EntryLine;
  }

  lemma NoNewlineInMarkers()
    ensures NEWLINE !in BEGIN_MARKER && NEWLINE !in END_MARKER
    ensures BEGIN_MARKER[|BEGIN_MARKER| - 1] != '\r' && END_MARKER[|END_MARKER| - 1] != '\r'
  {
    var tail := "- do not edit inside)";
    assert tail[|tail| - 1] == ')';
  }

  lemma EndsLine(text: string, eol: string)
    requires IsEol(eol)
    ensures AtBoundary(text + eol)
  {
  }

  lemma AddLine(front: string, text: string, eol: string, whole: string)
    requires AtBoundary(front) && OneLiner(text) && (IsEol(eol) || eol == "") && whole == front + text + eol
    ensures Lines(whole) == Lines(front) + [FileLine(text, eol)]
    ensures IsEol(eol) ==> AtBoundary(whole)
  {
    hide *;
    LineOf(text, eol);
    LinesAppend(front, text + eol);
    assert whole == front + (text + eol);
    if IsEol(eol) {
      EndsLine(text, eol);
      BoundaryConcat(front, text + eol);
    }
  }

  lemma LinesOfThree(a: string, b: string, c: string, eol: string, last: string, x: string, y: string, z: string)
    requires OneLiner(a) && OneLiner(b) && OneLiner(c) && IsEol(eol) && (IsEol(last) || last == "")
    requires x == "" + a + eol && y == x + b + eol && z == y + c + last
    ensures Lines(z) == [FileLine(a, eol), FileLine(b, eol), FileLine(c, last)]
    ensures IsEol(last) ==> AtBoundary(z)
  {
    hide *;
    NoLines();
    AddLine("", a, eol, x);
    AddLine(x, b, eol, y);
    AddLine(y, c, last, z);
    OneTwoThree(FileLine(a, eol), FileLine(b, eol), FileLine(c, last));
  }

  lemma OneTwoThree(a: FileLine, b: FileLine, c: FileLine)
    ensures [] + [a] + [b] + [c] == [a, b, c]
  {
  }

  lemma LinesOfBlock(ip: string, eol: string, last: string)
    requires ValidCacheIP(ip) && IsEol(eol) && (IsEol(last) || last == "")
    ensures Lines(BlockText(ip, eol) + last) == BlockLines(ip, eol, last)
    ensures IsEol(last) ==> AtBoundary(BlockText(ip, eol) + last)
  {
    NoNewlineIn(ip);
    EntryLineChars(ip);
    hide ValidCacheIP, EntryLine, Lines;
    var x := "" + BEGIN_MARKER + eol;
    var y := x + EntryLine(ip) + eol;
    var z := y + END_MARKER + last;
    LinesOfThree(BEGIN_MARKER, EntryLine(ip), END_MARKER, eol, last, x, y, z);
    assert x == BEGIN_MARKER + eol;
  }

  lemma LinesOfShape(raw: string, pre: seq<FileLine>, ip: string, eol: string, last: string, post: seq<FileLine>)
    requires Shape(raw, pre, ip, eol, last, post)
    ensures Lines(raw) == pre + BlockLines(ip, eol, last) + post
  {
    hide Lines, ValidCacheIP, BlockText, BlockLines, Quiet, PlainText;
    LinesOfBlock(ip, eol, last);
    var block := BlockText(ip, eol) + last;
    assert raw == Concat(pre) + (block + Concat(post));
    LinesAppend(Concat(pre), block + Concat(post));
    if IsEol(last) {
      LinesAppend(block, Concat(post));
      assert pre + (BlockLines(ip, eol, last) + post) == pre + BlockLines(ip, eol, last) + post;
    } else {
      assert Concat(post) == "" && block + Concat(post) == block;
      assert pre + BlockLines(ip, eol, last) + post == pre + BlockLines(ip, eol, last);
    }
  }

  lemma FoundAmong(pre: seq<FileLine>, begin: FileLine, entry: FileLine, end: FileLine, post: seq<FileLine>)
    requires Quiet(pre) && Quiet(post)
    requires IsBegin(begin.text) && IsEnd(end.text) && !IsBegin(end.text) && !IsBegin(entry.text) && !IsEnd(entry.text)
    ensures var lines := pre + [begin, entry, end] + post;
      Find(lines) == Block(|pre|, |pre| + 2) && !HasConflict(lines, Find(lines))
  {
    hide IsBegin, IsEnd, IsConflict, Find;
    FindsBlock(pre, begin, [entry], end, post);
    var lines := pre + [begin, entry, end] + post;
    assert pre + [begin] + [entry] + [end] + post == lines;
    forall i | 0 <= i < |lines| && !(|pre| <= i <= |pre| + 2) ensures !IsConflict(lines[i].text) {
      if i < |pre| { assert lines[i] == pre[i]; } else { assert lines[i] == post[i - |pre| - 3]; }
    }
  }

  lemma FoundInShape(raw: string, pre: seq<FileLine>, ip: string, eol: string, last: string, post: seq<FileLine>)
    requires Shape(raw, pre, ip, eol, last, post)
    ensures Find(Lines(raw)) == Block(|pre|, |pre| + 2)
    ensures !HasConflict(Lines(raw), Find(Lines(raw)))
  {
    hide Lines, ValidCacheIP, IsBegin, IsEnd, IsConflict, Find, HasConflict, BlockText, Quiet, EntryLine, EntryFields;
    LinesOfShape(raw, pre, ip, eol, last, post);
    OwnMarkers();
    EntryLineReads(ip);
    FoundAmong(pre, FileLine(BEGIN_MARKER, eol), FileLine(EntryLine(ip), eol), FileLine(END_MARKER, last), post);
  }

  /** Applying to a file of that shape keeps what is around the block and rewrites only the block. */
  lemma ApplyToShape(raw: string, pre: seq<FileLine>, ip: string, eol: string, last: string, post: seq<FileLine>,
                     address: string, windows: bool)
    requires Shape(raw, pre, ip, eol, last, post) && ValidCacheIP(address)
    ensures Applied(raw, address, windows) == Bytes(Spliced(pre, address, Dominant(Lines(raw), windows), last, post))
  {
    hide Lines, ValidCacheIP, Find, HasConflict, PlainText, Quiet, BlockText;
    FoundInShape(raw, pre, ip, eol, last, post);
    LinesOfShape(raw, pre, ip, eol, last, post);
    var lines := Lines(raw);
    assert lines[..|pre|] == pre;
    assert lines[|pre| + 2 + 1..] == post;
    assert lines[|pre| + 2] == FileLine(END_MARKER, last);
  }

  /** Removing takes exactly the block and the terminator of its last line. */
  lemma RemoveFromShape(raw: string, pre: seq<FileLine>, ip: string, eol: string, last: string, post: seq<FileLine>)
    requires Shape(raw, pre, ip, eol, last, post)
    ensures Removed(raw) == Bytes(Concat(pre) + Concat(post))
  {
    hide Lines, ValidCacheIP, Find, HasConflict, PlainText, Quiet, BlockText;
    FoundInShape(raw, pre, ip, eol, last, post);
    LinesOfShape(raw, pre, ip, eol, last, post);
    var lines := Lines(raw);
    assert lines[..|pre|] == pre;
    assert lines[|pre| + 2 + 1..] == post;
  }

  lemma VerifyShape(raw: string, pre: seq<FileLine>, ip: string, eol: string, last: string, post: seq<FileLine>, expected: string)
    requires Shape(raw, pre, ip, eol, last, post)
    ensures Verify(raw, expected) == if ip == expected then PresentCorrect else PresentDifferentIP
  {
    hide Lines, ValidCacheIP, Find, HasConflict, PlainText, Quiet, BlockText, EntryFields, NamesCacheHost, EntryLine;
    FoundInShape(raw, pre, ip, eol, last, post);
    LinesOfShape(raw, pre, ip, eol, last, post);
    EntryLineReads(ip);
    HostnameNamesIt();
    MiddleOf(pre, FileLine(BEGIN_MARKER, eol), FileLine(EntryLine(ip), eol), FileLine(END_MARKER, last), post);
  }

  lemma MiddleOf(pre: seq<FileLine>, a: FileLine, b: FileLine, c: FileLine, post: seq<FileLine>)
    ensures (pre + [a, b, c] + post)[|pre| + 1..|pre| + 2] == [b]
  {
  }

  // ---------------------------------------------------------------- applying gives that shape

  /** The same line with a terminator: a trailing carriage return may become part of it. */
  predicate Closed(was: FileLine, now: FileLine, eol: string) {
    && was.eol == "" && IsEol(now.eol)
    && (now == FileLine(was.text, eol) || (eol == "\n" && now.eol == "\r\n" && was.text == now.text + "\r"))
  }

  lemma SingleLine(s: string)
    requires s != "" && (FirstNewline(s) == |s| || FirstNewline(s) == |s| - 1)
    ensures Lines(s) == [MakeLine(s)]
  {
    assert FirstLength(s) == |s| && s[..|s|] == s && s[|s|..] == "";
  }

  lemma MakeClosed(raw: string, eol: string)
    requires raw != "" && NEWLINE !in raw && IsEol(eol)
    ensures MakeLine(raw) == FileLine(raw, "") && Closed(FileLine(raw, ""), MakeLine(raw + eol), eol)
  {
    var s := raw + eol;
    if eol == "\r\n" {
      assert s[..|s| - 2] == raw;
    } else {
      assert s[..|s| - 1] == raw;
      if raw[|raw| - 1] == '\r' { assert s[..|s| - 2] + "\r" == raw; }
    }
  }

  lemma CloseLine(raw: string, eol: string)
    requires raw != "" && NEWLINE !in raw && IsEol(eol)
    ensures Lines(raw) == [FileLine(raw, "")]
    ensures |Lines(raw + eol)| == 1 && Closed(FileLine(raw, ""), Lines(raw + eol)[0], eol)
  {
    FirstNewlineSkips(raw, |raw|);
    assert raw[..|raw|] == raw && raw[|raw|..] == "";
    var s := raw + eol;
    assert s[..|raw|] == raw && s[|raw|..] == eol;
    FirstNewlineSkips(s, |raw|);
    assert FirstNewline(eol) == |eol| - 1;
    hide Lines, MakeLine, FirstNewline;
    SingleLine(raw);
    SingleLine(s);
    MakeClosed(raw, eol);
  }

  /** Closing an unterminated file closes its last line and leaves all others. */
  lemma {:induction false} CloseFile(raw: string, eol: string)
    requires !AtBoundary(raw) && IsEol(eol)
    ensures var was, now := Lines(raw), Lines(raw + eol);
      && |was| == |now| > 0
      && was[..|was| - 1] == now[..|was| - 1]
      && Closed(was[|was| - 1], now[|was| - 1], eol)
  {
    hide Lines, Closed, IsEol, FirstNewline;
    var i := FirstNewline(raw);
    if i == |raw| {
      CloseLine(raw, eol);
    } else {
      var first, rest := raw[..i + 1], raw[i + 1..];
      assert raw == first + rest && rest[|rest| - 1] == raw[|raw| - 1];
      CloseFile(rest, eol);
      OneFirstLine(raw, i);
      assert raw + eol == first + (rest + eol);
      hide AtBoundary;
      LinesAppend(first, rest);
      LinesAppend(first, rest + eol);
      SameButLast(Lines(first), Lines(rest), Lines(rest + eol));
    }
  }

  lemma SameButLast(a: seq<FileLine>, was: seq<FileLine>, now: seq<FileLine>)
    requires |was| == |now| > 0 && was[..|was| - 1] == now[..|was| - 1]
    ensures (a + was)[..|a + was| - 1] == (a + now)[..|a + was| - 1]
    ensures (a + was)[|a + was| - 1] == was[|was| - 1] && (a + now)[|a + now| - 1] == now[|now| - 1]
  {
    assert (a + was)[..|a + was| - 1] == a + was[..|was| - 1];
    assert (a + now)[..|a + now| - 1] == a + now[..|now| - 1];
  }

  lemma OneFirstLine(raw: string, i: nat)
    requires i < |raw| && raw[i] == NEWLINE
    ensures AtBoundary(raw[..i + 1])
  {
  }

  lemma {:induction false} TerminatedInside(raw: string, i: nat)
    requires i < |Lines(raw)|
    ensures i + 1 < |Lines(raw)| ==> IsEol(Lines(raw)[i].eol)
    ensures IsEol(Lines(raw)[i].eol) || Lines(raw)[i].eol == ""
    ensures i + 1 == |Lines(raw)| && AtBoundary(raw) ==> IsEol(Lines(raw)[i].eol)
  {
    assert raw != "";
    hide Lines, MakeLine, FirstLength, IsEol, AtBoundary;
    LinesUnfold(raw);
    var n := FirstLength(raw);
    if i > 0 {
      BoundaryOfRest(raw, n);
      TerminatedInside(raw[n..], i - 1);
    } else {
      FirstTerminated(raw);
      if n == |raw| { NoLinesAfter(raw); }
    }
  }

  lemma BoundaryOfRest(raw: string, n: nat)
    requires n <= |raw|
    ensures AtBoundary(raw) ==> AtBoundary(raw[n..])
  {
  }

  lemma FirstTerminated(raw: string)
    requires raw != ""
    ensures var (n, eol) := (FirstLength(raw), MakeLine(raw[..FirstLength(raw)]).eol);
      && (IsEol(eol) || eol == "")
      && (n < |raw| || AtBoundary(raw) ==> IsEol(eol))
      && (n < |raw| ==> Lines(raw[n..]) != [])
  {
  }

  lemma PlainAppend(a: string, b: string)
    requires PlainText(a) && '\0' !in b
    requires b != "" ==> b[0] != '\U{FE}' && b[0] != '\U{FF}'
    ensures PlainText(a + b)
  {
  }

  lemma PlainPart(raw: string, a: string, b: string)
    requires PlainText(raw) && raw == a + b
    ensures PlainText(a) && '\0' !in b
  {
    assert forall k :: 0 <= k < |a| ==> a[k] == raw[k];
    assert forall k :: 0 <= k < |b| ==> b[k] == raw[|a| + k];
  }

  lemma PlainBlock(ip: string, eol: string)
    requires ValidCacheIP(ip) && IsEol(eol)
    ensures '\0' !in BlockText(ip, eol) && BlockText(ip, eol) != "" && BlockText(ip, eol)[0] == '#'
  {
    EntryLineChars(ip);
    NoNulInMarkers();
    hide ValidCacheIP, EntryLine;
    assert BEGIN_MARKER[0] == '#';
    NoNulJoin(BEGIN_MARKER, eol, EntryLine(ip), eol, END_MARKER);
  }

  lemma NoNulInMarkers()
    ensures '\0' !in BEGIN_MARKER && '\0' !in END_MARKER
  {
    assert '\0' !in BEGIN_PREFIX && '\0' !in " (managed block " && '\0' !in "- do not edit inside)";
  }

  lemma NoNulJoin(a: string, b: string, c: string, d: string, e: string)
    requires '\0' !in a && '\0' !in b && '\0' !in c && '\0' !in d && '\0' !in e
    ensures '\0' !in a + b + c + d + e
  {
  }

  lemma PlainParts(raw: string, lines: seq<FileLine>, b: nat, e: nat)
    requires b < e < |lines| && PlainText(raw) && Concat(lines) == raw
    ensures PlainText(Concat(lines[..b])) && '\0' !in Concat(lines[e + 1..])
  {
    hide *;
    CutLines(lines, b);
    ConcatAppend(lines[..b], lines[b..]);
    PlainPart(raw, Concat(lines[..b]), Concat(lines[b..]));
    CutLines(lines, e + 1);
    ConcatAppend(lines[..e + 1], lines[e + 1..]);
    PlainPart(raw, Concat(lines[..e + 1]), Concat(lines[e + 1..]));
  }

  /** The bytes before and after a found block are the lines before and after it. */
  lemma PartsOfBlock(raw: string, b: nat, e: nat)
    requires b < e < |Lines(raw)| && PlainText(raw)
    ensures var lines := Lines(raw);
      var pre, post := Concat(lines[..b]), Concat(lines[e + 1..]);
      && Lines(pre) == lines[..b] && AtBoundary(pre) && Lines(post) == lines[e + 1..]
      && PlainText(pre) && '\0' !in post
      && '\0' !in lines[e].eol && (IsEol(lines[e].eol) || (lines[e].eol == "" && lines[e + 1..] == []))
  {
    hide Lines, PlainText, MakeLine, AtBoundary, Concat;
    var lines := Lines(raw);
    PrefixAtBoundary(raw, b);
    LinesCut(raw, b);
    LinesOfRest(raw, e + 1);
    TerminatedInside(raw, e);
    ConcatOfLines(raw);
    PlainParts(raw, lines, b, e);
  }

  lemma QuietAround(lines: seq<FileLine>)
    requires Find(lines).Block? && !HasConflict(lines, Find(lines))
    ensures var (b, e) := (Find(lines).begin, Find(lines).end);
      b < e < |lines| && Quiet(lines[..b]) && Quiet(lines[e + 1..])
  {
    BlockIsUnique(lines);
    hide Find, IsBegin, IsEnd, IsConflict;
    var (b, e) := (Find(lines).begin, Find(lines).end);
    forall i | 0 <= i < b ensures !IsConflict(lines[..b][i].text) {
      assert lines[..b][i] == lines[i];
    }
    var post := lines[e + 1..];
    forall i | 0 <= i < |post| ensures !IsConflict(post[i].text) {
      assert post[i] == lines[e + 1 + i];
    }
  }

  /** A file with a block: what apply writes has the block between the old neighbours. */
  lemma ShapeFromBlock(raw: string, ip: string, windows: bool)
    requires Applied(raw, ip, windows).Bytes? && Find(Lines(raw)).Block?
    ensures var lines := Lines(raw);
      var (b, e) := (Find(lines).begin, Find(lines).end);
      && b < e < |lines|
      && Shape(Applied(raw, ip, windows).raw, lines[..b], ip, Dominant(lines, windows), lines[e].eol, lines[e + 1..])
  {
    hide Lines, Find, ValidCacheIP, BlockText, Quiet, HasConflict, PlainText, IsEol, Concat, AtBoundary, Dominant, Applied,
      Spliced;
    var lines := Lines(raw);
    AppliedToBlock(raw, ip, windows);
    QuietAround(lines);
    var (b, e) := (Find(lines).begin, Find(lines).end);
    PartsOfBlock(raw, b, e);
    DominantIsEol(lines, windows);
    PlainSpliced(lines[..b], ip, Dominant(lines, windows), lines[e].eol, lines[e + 1..]);
  }

  lemma DominantIsEol(lines: seq<FileLine>, windows: bool)
    ensures IsEol(Dominant(lines, windows))
  {
  }

  lemma AppliedToBlock(raw: string, ip: string, windows: bool)
    requires Applied(raw, ip, windows).Bytes? && Find(Lines(raw)).Block?
    ensures ValidCacheIP(ip) && PlainText(raw) && !HasConflict(Lines(raw), Find(Lines(raw)))
    ensures var lines := Lines(raw);
      var (b, e) := (Find(lines).begin, Find(lines).end);
      && b < e < |lines|
      && Applied(raw, ip, windows).raw
         == Spliced(lines[..b], ip, Dominant(lines, windows), lines[e].eol, lines[e + 1..])
  {
    hide Lines, Find, ValidCacheIP, BlockText, HasConflict, PlainText, Concat, Dominant;
    FoundInRange(Lines(raw));
  }

  lemma PlainSpliced(pre: seq<FileLine>, ip: string, eol: string, last: string, post: seq<FileLine>)
    requires ValidCacheIP(ip) && IsEol(eol)
    requires PlainText(Concat(pre)) && '\0' !in last && '\0' !in Concat(post)
    ensures PlainText(Spliced(pre, ip, eol, last, post))
  {
    hide ValidCacheIP, BlockText, PlainText, Concat;
    PlainBlock(ip, eol);
    var rest := BlockText(ip, eol) + last + Concat(post);
    PlainAppend(Concat(pre), rest);
    assert Spliced(pre, ip, eol, last, post) == Concat(pre) + rest;
  }

  function Fill(raw: string, eol: string): string {
    if AtBoundary(raw) then "" else eol
  }

  lemma QuietFile(lines: seq<FileLine>)
    requires Find(lines).NoBlock? && !HasConflict(lines, Find(lines))
    ensures Quiet(lines)
  {
    UnmarkedHasNone(lines);
  }

  lemma QuietButClosed(was: seq<FileLine>, now: seq<FileLine>, eol: string)
    requires Quiet(was) && |was| == |now| > 0 && was[..|was| - 1] == now[..|was| - 1]
    requires Closed(was[|was| - 1], now[|was| - 1], eol)
    ensures Quiet(now)
  {
    hide IsBegin, IsEnd, IsConflict;
    var n := |was| - 1;
    ReturnChangesNothing(now[n].text);
    forall i | 0 <= i < |now| ensures !IsBegin(now[i].text) && !IsEnd(now[i].text) && !IsConflict(now[i].text) {
      if i < n { assert now[i] == now[..n][i] && was[i] == was[..n][i]; }
    }
  }

  lemma QuietClosed(raw: string, eol: string)
    requires Quiet(Lines(raw)) && !AtBoundary(raw) && IsEol(eol)
    ensures Quiet(Lines(raw + eol))
  {
    hide Lines, Quiet, Closed;
    CloseFile(raw, eol);
    QuietButClosed(Lines(raw), Lines(raw + eol), eol);
  }

  lemma AppliedToNoBlock(raw: string, ip: string, windows: bool)
    requires Applied(raw, ip, windows).Bytes? && Find(Lines(raw)).NoBlock?
    ensures ValidCacheIP(ip) && PlainText(raw) && !HasConflict(Lines(raw), Find(Lines(raw)))
    ensures var eol := Dominant(Lines(raw), windows);
      Applied(raw, ip, windows).raw == raw + Fill(raw, eol) + BlockText(ip, eol) + eol
  {
    hide Lines, Find, ValidCacheIP, BlockText, HasConflict, PlainText;
  }

  /** A file without a block: what apply writes has the block behind the closed old file. */
  lemma ShapeFromNoBlock(raw: string, ip: string, windows: bool)
    requires Applied(raw, ip, windows).Bytes? && Find(Lines(raw)).NoBlock?
    ensures var eol := Dominant(Lines(raw), windows);
      var base := raw + Fill(raw, eol);
      && Concat(Lines(base)) == base
      && Shape(Applied(raw, ip, windows).raw, Lines(base), ip, eol, eol, [])
  {
    hide Lines, Find, ValidCacheIP, BlockText, Quiet, HasConflict, Applied;
    AppliedToNoBlock(raw, ip, windows);
    var eol := Dominant(Lines(raw), windows);
    var base := raw + Fill(raw, eol);
    QuietFile(Lines(raw));
    if AtBoundary(raw) { assert base == raw; } else { QuietClosed(raw, eol); EndsLine(raw, eol); }
    ConcatOfLines(base);
    PlainBlock(ip, eol);
    QuietNothing();
    var rest := Fill(raw, eol) + BlockText(ip, eol) + eol;
    PlainAppend(raw, rest);
    var g := Applied(raw, ip, windows).raw;
    assert g == raw + rest;
    assert Spliced(Lines(base), ip, eol, eol, []) == g + "";
  }

  lemma QuietNothing()
    ensures Quiet([]) && Lines("") == []
  {
  }

  // ---------------------------------------------------------------- which line end comes next

  function If(c: bool): nat {
    if c then 1 else 0
  }

  lemma CountBlock(ip: string, eol: string, last: string, x: string)
    ensures CountEol(BlockLines(ip, eol, last), x) == 2 * If(eol == x) + If(last == x)
  {
    var b := BlockLines(ip, eol, last);
    assert b[..2][..1] == b[..1] && b[..1][..0] == [];
    assert CountEol(b[..1], x) == If(eol == x);
    assert CountEol(b[..2], x) == CountEol(b[..1], x) + If(eol == x);
  }

  lemma CountShape(raw: string, pre: seq<FileLine>, ip: string, eol: string, last: string, post: seq<FileLine>, x: string)
    requires Shape(raw, pre, ip, eol, last, post)
    ensures CountEol(Lines(raw), x) == CountEol(pre, x) + CountEol(post, x) + 2 * If(eol == x) + If(last == x)
  {
    LinesOfShape(raw, pre, ip, eol, last, post);
    CountBlock(ip, eol, last, x);
    hide Shape, BlockLines, Lines;
    CountEolAppend(pre, BlockLines(ip, eol, last), x);
    CountEolAppend(pre + BlockLines(ip, eol, last), post, x);
  }

  lemma CountClosed(raw: string, eol: string)
    requires IsEol(eol)
    ensures var base := raw + Fill(raw, eol);
      var (c, l) := (CountEol(Lines(raw), "\r\n"), CountEol(Lines(raw), "\n"));
      var (d, m) := (CountEol(Lines(base), "\r\n"), CountEol(Lines(base), "\n"));
      || (d == c && m == l)
      || (d == c + 1 && m == l)
      || (eol == "\n" && d == c && m == l + 1)
  {
    if AtBoundary(raw) {
      assert raw + Fill(raw, eol) == raw;
    } else {
      CloseFile(raw, eol);
    }
  }

  /** Appending the block never changes which line end dominates. */
  lemma DominantAfterFirstApply(raw: string, ip: string, windows: bool)
    requires Applied(raw, ip, windows).Bytes? && Find(Lines(raw)).NoBlock?
    ensures Dominant(Lines(Applied(raw, ip, windows).raw), windows) == Dominant(Lines(raw), windows)
  {
    var eol := Dominant(Lines(raw), windows);
    var base := raw + Fill(raw, eol);
    ShapeFromNoBlock(raw, ip, windows);
    CountClosed(raw, eol);
    var g := Applied(raw, ip, windows).raw;
    hide Applied, Lines, Find, Shape;
    CountShape(g, Lines(base), ip, eol, eol, [], "\r\n");
    CountShape(g, Lines(base), ip, eol, eol, [], "\n");
  }

  // ---------------------------------------------------------------- the guarantees

  predicate AppliesTo(raw: string, ip: string, windows: bool) {
    Applied(raw, ip, windows).Bytes?
  }

  /** Removing what apply added gives back the file, closed by one line end if it was not. */
  lemma RemoveUndoesApply(raw: string, ip: string, windows: bool)
    requires AppliesTo(raw, ip, windows) && Find(Lines(raw)).NoBlock?
    ensures Removed(Applied(raw, ip, windows).raw)
         == Bytes(raw + if AtBoundary(raw) then "" else Dominant(Lines(raw), windows))
  {
    var eol := Dominant(Lines(raw), windows);
    var base := raw + Fill(raw, eol);
    hide Lines, Find, Applied, Shape, Removed, AtBoundary, Dominant;
    ShapeFromNoBlock(raw, ip, windows);
    RemoveFromShape(Applied(raw, ip, windows).raw, Lines(base), ip, eol, eol, []);
    assert base + "" == base;
  }

  /** Changing the address later is the same as having used it at once; a repeat changes nothing. */
  lemma LastAddressWins(raw: string, first: string, second: string, windows: bool)
    requires AppliesTo(raw, first, windows) && ValidCacheIP(second) && Find(Lines(raw)).NoBlock?
    ensures Applied(Applied(raw, first, windows).raw, second, windows) == Applied(raw, second, windows)
  {
    hide *;
    AppliesIs(raw, first, windows);
    AcceptsEitherAddress(raw, first, second, windows);
    var eol := Dominant(Lines(raw), windows);
    var base := Lines(raw + Fill(raw, eol));
    ShapeFromNoBlock(raw, first, windows);
    ShapeFromNoBlock(raw, second, windows);
    DominantAfterFirstApply(raw, first, windows);
    ApplyToShape(Applied(raw, first, windows).raw, base, first, eol, eol, [], second, windows);
    ShapeIsSpliced(Applied(raw, second, windows).raw, base, second, eol, eol, []);
  }

  /** Which address it is decides nothing but the address check. */
  lemma AcceptsEitherAddress(raw: string, first: string, second: string, windows: bool)
    requires Applied(raw, first, windows).Bytes? && ValidCacheIP(second)
    ensures Applied(raw, second, windows).Bytes?
  {
    hide Lines, Find, ValidCacheIP, PlainText, HasConflict, RenderApplied, Dominant;
  }

  lemma ShapeIsSpliced(raw: string, pre: seq<FileLine>, ip: string, eol: string, last: string, post: seq<FileLine>)
    requires Shape(raw, pre, ip, eol, last, post)
    ensures raw == Spliced(pre, ip, eol, last, post)
  {
    hide Spliced, Lines, ValidCacheIP, Quiet, PlainText;
  }

  /** What apply has written is present and correct, for any file it accepts. */
  lemma AppliedIsPresent(raw: string, ip: string, windows: bool)
    requires AppliesTo(raw, ip, windows)
    ensures Verify(Applied(raw, ip, windows).raw, ip) == PresentCorrect
  {
    hide Lines, Find, Applied, Shape, ValidCacheIP, Verify;
    var lines := Lines(raw);
    if Find(lines).NoBlock? {
      var eol := Dominant(lines, windows);
      ShapeFromNoBlock(raw, ip, windows);
      VerifyShape(Applied(raw, ip, windows).raw, Lines(raw + Fill(raw, eol)), ip, eol, eol, [], ip);
    } else {
      AcceptedIsNotCorrupt(raw, ip, windows);
      ShapeFromBlock(raw, ip, windows);
      var (b, e) := (Find(lines).begin, Find(lines).end);
      VerifyShape(Applied(raw, ip, windows).raw, lines[..b], ip, Dominant(lines, windows), lines[e].eol, lines[e + 1..], ip);
    }
  }

  lemma AcceptedIsNotCorrupt(raw: string, ip: string, windows: bool)
    requires AppliesTo(raw, ip, windows)
    ensures ValidCacheIP(ip) && Applied(raw, ip, windows).Bytes? && !Find(Lines(raw)).Corrupt?
  {
    hide Lines, Find, ValidCacheIP, PlainText, HasConflict, RenderApplied;
  }

  /** With a block in place, every byte outside it is kept - even of a file with mixed line ends. */
  lemma OutsideIsKept(raw: string, ip: string, windows: bool)
    requires AppliesTo(raw, ip, windows) && Find(Lines(raw)).Block?
    ensures var lines := Lines(raw);
      var (b, e) := (Find(lines).begin, Find(lines).end);
      && b < e < |lines|
      && var (pre, inner, post) := (Concat(lines[..b]), Concat(lines[b..e]) + lines[e].text, lines[e].eol + Concat(lines[e + 1..]));
      && raw == pre + inner + post
      && Applied(raw, ip, windows).raw == pre + BlockText(ip, Dominant(lines, windows)) + post
  {
    hide *;
    var lines := Lines(raw);
    AppliesIs(raw, ip, windows);
    FoundInRange(lines);
    AppliedToBlock(raw, ip, windows);
    ConcatOfLines(raw);
    var (b, e, eol) := (Find(lines).begin, Find(lines).end, Dominant(lines, windows));
    ThreeParts(lines, b, e);
    SplicedIs(lines[..b], ip, eol, lines[e].eol, lines[e + 1..]);
  }

  lemma SplicedIs(pre: seq<FileLine>, ip: string, eol: string, last: string, post: seq<FileLine>)
    ensures Spliced(pre, ip, eol, last, post) == Concat(pre) + BlockText(ip, eol) + (last + Concat(post))
  {
    hide Concat, BlockText;
    Tail(Concat(pre) + BlockText(ip, eol), last, Concat(post));
  }

  lemma Tail(a: string, b: string, c: string)
    ensures a + b + c == a + (b + c)
  {
  }

  lemma ThreeParts(lines: seq<FileLine>, b: nat, e: nat)
    requires b < e < |lines|
    ensures Concat(lines)
         == Concat(lines[..b]) + (Concat(lines[b..e]) + lines[e].text) + (lines[e].eol + Concat(lines[e + 1..]))
  {
    hide *;
    ConcatFrom(lines, e);
    var pre, inner, rest := lines[..b], lines[b..e], lines[e..];
    CutTwice(lines, b, e);
    ConcatAppend(pre, inner + rest);
    ConcatAppend(inner, rest);
    Regrouped(Concat(pre), Concat(inner), lines[e].text, lines[e].eol + Concat(lines[e + 1..]));
  }

  lemma CutTwice(lines: seq<FileLine>, b: nat, e: nat)
    requires b < e < |lines|
    ensures lines[..b] + (lines[b..e] + lines[e..]) == lines
  {
  }

  lemma ConcatFrom(lines: seq<FileLine>, e: nat)
    requires e < |lines|
    ensures Concat(lines[e..]) == lines[e].text + (lines[e].eol + Concat(lines[e + 1..]))
  {
    assert lines[e..][1..] == lines[e + 1..] && lines[e..][0] == lines[e];
  }

  lemma Regrouped(a: string, b: string, c: string, d: string)
    ensures a + (b + (c + d)) == a + (b + c) + d
  {
  }

  // ---------------------------------------------------------------- applying twice

  /** Line ends outside the interior of a found block, of one kind. */
  function Around(lines: seq<FileLine>, b: nat, e: nat, x: string): nat
    requires b < e < |lines|
  {
    CountEol(lines[..b], x) + CountEol(lines[e + 1..], x) + If(lines[e].eol == x)
  }

  /** The line end that dominates once the block has been written with `eol`. */
  function NextEol(lines: seq<FileLine>, b: nat, e: nat, eol: string, windows: bool): string
    requires b < e < |lines|
  {
    EolFor(Around(lines, b, e, "\r\n") + 2 * If(eol == "\r\n"), Around(lines, b, e, "\n") + 2 * If(eol == "\n"), windows)
  }

  /** The line end the block is written with is still ahead, counted without the old interior. */
  predicate Stable(lines: seq<FileLine>, b: nat, e: nat, eol: string)
    requires b < e < |lines|
  {
    if eol == "\r\n" then Around(lines, b, e, "\r\n") + 2 >= Around(lines, b, e, "\n")
    else Around(lines, b, e, "\n") + 2 > Around(lines, b, e, "\r\n")
  }

  lemma StableMeansSame(lines: seq<FileLine>, b: nat, e: nat, eol: string, windows: bool)
    requires b < e < |lines| && IsEol(eol)
    ensures NextEol(lines, b, e, eol, windows) == eol <==> Stable(lines, b, e, eol)
    ensures NextEol(lines, b, e, NextEol(lines, b, e, eol, windows), windows) == NextEol(lines, b, e, eol, windows)
    ensures IsEol(NextEol(lines, b, e, eol, windows))
  {
  }

  lemma AroundShape(g: string, lines: seq<FileLine>, b: nat, e: nat, ip: string, eol: string, windows: bool)
    requires b < e < |lines| && Shape(g, lines[..b], ip, eol, lines[e].eol, lines[e + 1..])
    ensures Dominant(Lines(g), windows) == NextEol(lines, b, e, eol, windows)
  {
    hide Shape, Lines;
    CountShape(g, lines[..b], ip, eol, lines[e].eol, lines[e + 1..], "\r\n");
    CountShape(g, lines[..b], ip, eol, lines[e].eol, lines[e + 1..], "\n");
  }

  /** Applying again to what apply has written: the block is rewritten with the line end that
      dominates now, between the same neighbours. */
  lemma ApplyAgain(raw: string, ip: string, second: string, windows: bool)
    requires AppliesTo(raw, ip, windows) && ValidCacheIP(second) && Find(Lines(raw)).Block?
    ensures var lines := Lines(raw);
      var (b, e) := (Find(lines).begin, Find(lines).end);
      var eol := Dominant(lines, windows);
      && b < e < |lines|
      && Applied(raw, ip, windows).raw == Spliced(lines[..b], ip, eol, lines[e].eol, lines[e + 1..])
      && Applied(Applied(raw, ip, windows).raw, second, windows)
         == Bytes(Spliced(lines[..b], second, NextEol(lines, b, e, eol, windows), lines[e].eol, lines[e + 1..]))
  {
    hide Find, Applied, Lines, Dominant, ValidCacheIP, Quiet, PlainText, Spliced, BlockText, NextEol;
    ShapeFromBlock(raw, ip, windows);
    var lines := Lines(raw);
    var (b, e) := (Find(lines).begin, Find(lines).end);
    var eol := Dominant(lines, windows);
    var g := Applied(raw, ip, windows).raw;
    AroundShape(g, lines, b, e, ip, eol, windows);
    ApplyToShape(g, lines[..b], ip, eol, lines[e].eol, lines[e + 1..], second, windows);
  }

  lemma SplicedTellsEol(pre: seq<FileLine>, ip: string, x: string, y: string, last: string, post: seq<FileLine>)
    requires IsEol(x) && IsEol(y)
    ensures Spliced(pre, ip, x, last, post) == Spliced(pre, ip, y, last, post) <==> x == y
  {
    if x != y {
      assert |BlockText(ip, x)| != |BlockText(ip, y)|;
      assert |Spliced(pre, ip, x, last, post)| != |Spliced(pre, ip, y, last, post)|;
    }
  }

  /** Applying the same address twice over an existing block writes nothing the second time exactly
      when the line end chosen first still dominates without the interior that was replaced. */
  lemma SecondApplyIsQuietExactlyWhen(raw: string, ip: string, windows: bool)
    requires AppliesTo(raw, ip, windows) && Find(Lines(raw)).Block?
    ensures var lines := Lines(raw);
      var (b, e) := (Find(lines).begin, Find(lines).end);
      && b < e < |lines|
      && (Applied(Applied(raw, ip, windows).raw, ip, windows) == Applied(raw, ip, windows)
          <==> Stable(lines, b, e, Dominant(lines, windows)))
  {
    hide Lines, Find, Applied, Spliced, NextEol, Stable;
    AcceptedIsNotCorrupt(raw, ip, windows);
    ApplyAgain(raw, ip, ip, windows);
    var lines := Lines(raw);
    var (b, e) := (Find(lines).begin, Find(lines).end);
    var eol := Dominant(lines, windows);
    StableMeansSame(lines, b, e, eol, windows);
    SplicedTellsEol(lines[..b], ip, eol, NextEol(lines, b, e, eol, windows), lines[e].eol, lines[e + 1..]);
  }

  /** The same condition decides whether changing the address over an existing block is the same as
      having used the second one at once. */
  lemma LastAddressWinsExactlyWhen(raw: string, first: string, second: string, windows: bool)
    requires AppliesTo(raw, first, windows) && ValidCacheIP(second) && Find(Lines(raw)).Block?
    ensures var lines := Lines(raw);
      var (b, e) := (Find(lines).begin, Find(lines).end);
      && b < e < |lines|
      && (Applied(Applied(raw, first, windows).raw, second, windows) == Applied(raw, second, windows)
          <==> Stable(lines, b, e, Dominant(lines, windows)))
  {
    hide Lines, Find, Applied, Spliced, NextEol, Stable, ValidCacheIP;
    ApplyAgain(raw, first, second, windows);
    AppliesWithOther(raw, first, second, windows);
    ApplyAgain(raw, second, second, windows);
    var lines := Lines(raw);
    var (b, e) := (Find(lines).begin, Find(lines).end);
    var eol := Dominant(lines, windows);
    StableMeansSame(lines, b, e, eol, windows);
    SplicedTellsEol(lines[..b], second, eol, NextEol(lines, b, e, eol, windows), lines[e].eol, lines[e + 1..]);
  }

  lemma AppliesWithOther(raw: string, first: string, second: string, windows: bool)
    requires AppliesTo(raw, first, windows) && ValidCacheIP(second)
    ensures AppliesTo(raw, second, windows) && Applied(raw, second, windows).Bytes?
  {
    hide Lines, Find, ValidCacheIP, PlainText, HasConflict, RenderApplied;
  }

  /** ... and from the second application on it is quiet for good. */
  lemma ThirdApplyIsQuiet(raw: string, ip: string, windows: bool)
    requires AppliesTo(raw, ip, windows)
    ensures var second := Applied(Applied(raw, ip, windows).raw, ip, windows);
      second.Bytes? && Applied(second.raw, ip, windows) == second
  {
    hide *;
    AcceptedIsNotCorrupt(raw, ip, windows);
    if Find(Lines(raw)).NoBlock? {
      LastAddressWins(raw, ip, ip, windows);
    } else {
      ShapeFromBlock(raw, ip, windows);
      var lines := Lines(raw);
      var (b, e) := (Find(lines).begin, Find(lines).end);
      ThirdOverShape(Applied(raw, ip, windows).raw, lines, b, e, ip, Dominant(lines, windows), windows);
    }
  }

  lemma ThirdOverShape(g: string, lines: seq<FileLine>, b: nat, e: nat, ip: string, eol: string, windows: bool)
    requires b < e < |lines| && Shape(g, lines[..b], ip, eol, lines[e].eol, lines[e + 1..])
    ensures var second := Applied(g, ip, windows);
      second.Bytes? && Applied(second.raw, ip, windows) == second
  {
    assert IsEol(eol);
    hide Find, Lines, ValidCacheIP, Quiet, PlainText, Spliced, BlockText, Applied, Shape, NextEol, Stable, Dominant;
    var (pre, post, last) := (lines[..b], lines[e + 1..], lines[e].eol);
    AroundShape(g, lines, b, e, ip, eol, windows);
    GetsAccepted(g, pre, ip, eol, last, post, windows);
    ApplyToShape(g, pre, ip, eol, last, post, ip, windows);
    var h := Applied(g, ip, windows).raw;
    var next := Dominant(Lines(g), windows);
    AroundShape(h, lines, b, e, ip, next, windows);
    ApplyToShape(h, pre, ip, next, last, post, ip, windows);
    StableMeansSame(lines, b, e, eol, windows);
  }

  /** Applying to a file of our shape gives a file of our shape. */
  lemma GetsAccepted(g: string, pre: seq<FileLine>, ip: string, eol: string, last: string, post: seq<FileLine>, windows: bool)
    requires Shape(g, pre, ip, eol, last, post)
    ensures ValidCacheIP(ip)
    ensures Applied(g, ip, windows).Bytes?
    ensures Shape(Applied(g, ip, windows).raw, pre, ip, Dominant(Lines(g), windows), last, post)
  {
    ApplyToShape(g, pre, ip, eol, last, post, ip, windows);
    FoundInShape(g, pre, ip, eol, last, post);
    LinesOfShape(g, pre, ip, eol, last, post);
    hide Find, ValidCacheIP, Quiet, PlainText, BlockText, Applied;
    ShapeFromBlock(g, ip, windows);
    var lines := Lines(g);
    assert lines[..|pre|] == pre && lines[|pre| + 2].eol == last && lines[|pre| + 3..] == post;
  }

  // ---------------------------------------------------------------- a file that needs two rounds

  lemma ShortLine(text: string)
    requires text == "a" || text == "b"
    ensures OneLiner(text) && !IsBegin(text) && !IsEnd(text) && !IsConflict(text)
  {
    NoMarkerThatShort(text);
    NoComment(text);
    OneField(text);
    hide TrimSpace, IsBegin, IsEnd, Fields, UpToComment, NamesCacheHost;
  }

  lemma NoMarkerThatShort(text: string)
    requires |text| == 1 && Visible(text[0])
    ensures !IsBegin(text) && !IsEnd(text)
  {
    hide TrimSpace, IsBegin, IsEnd;
    TrimmedAlready(text);
    if IsBegin(text) { BeginStarts(text); }
    if IsEnd(text) { EndStarts(text); }
  }

  lemma OneField(text: string)
    requires |text| == 1 && Visible(text[0])
    ensures |Fields(text)| == 1
  {
    TokenOfVisible(text, "");
    assert text + "" == text && text[..1] == text && text[1..] == "";
    assert Fields(text) == [text] + Fields("");
  }

  function MixedFile(): seq<FileLine> {
    var (a, b) := (FileLine("a", "\r\n"), FileLine("b", "\n"));
    [FileLine(BEGIN_MARKER, "\r\n"), a, a, a, FileLine(END_MARKER, "\n"), b, b, b]
  }

  lemma {:induction false} LinesBack(lines: seq<FileLine>)
    requires forall i :: 0 <= i < |lines| ==> OneLiner(lines[i].text) && IsEol(lines[i].eol)
    ensures Lines(Concat(lines)) == lines
  {
    if lines != [] {
      LinesBack(lines[1..]);
      var rest := Concat(lines[1..]);
      LineOf(lines[0].text, lines[0].eol);
      EndsLine(lines[0].text, lines[0].eol);
      hide Lines, OneLiner, IsEol, AtBoundary;
      LinesAppend(LineBytes(lines[0]), rest);
    }
  }

  lemma MixedFound(begin: FileLine, a: FileLine, end: FileLine, b: FileLine, lines: seq<FileLine>)
    requires lines == [begin, a, a, a, end, b, b, b]
    requires forall i :: 0 <= i < |lines| ==> OneLiner(lines[i].text) && IsEol(lines[i].eol)
    requires IsBegin(begin.text) && IsEnd(end.text) && !IsBegin(end.text)
    requires !IsBegin(a.text) && !IsEnd(a.text) && !IsBegin(b.text) && !IsEnd(b.text)
    ensures Lines(Concat(lines)) == lines && Find(lines) == Block(0, 4)
  {
    hide Lines, Concat, OneLiner, IsEol, IsBegin, IsEnd, Find;
    LinesBack(lines);
    FindsBlock([], begin, [a, a, a], end, [b, b, b]);
    EightLines(begin, a, end, b);
  }

  lemma EightLines(begin: FileLine, a: FileLine, end: FileLine, b: FileLine)
    ensures [] + [begin] + [a, a, a] + [end] + [b, b, b] == [begin, a, a, a, end, b, b, b]
  {
  }

  lemma MarkersAreLines()
    ensures OneLiner(BEGIN_MARKER) && OneLiner(END_MARKER)
  {
    NoNewlineInMarkers();
  }

  lemma MixedIsRead()
    ensures var raw := Concat(MixedFile());
      && Lines(raw) == MixedFile() && Find(MixedFile()) == Block(0, 4)
      && Dominant(MixedFile(), true) == "\r\n" && !Stable(MixedFile(), 0, 4, "\r\n")
      && !HasConflict(MixedFile(), Block(0, 4))
  {
    hide IsBegin, IsEnd, IsConflict, Lines, Find, Concat, OneLiner, Dominant, Stable;
    ShortLine("a");
    ShortLine("b");
    OwnMarkers();
    MarkersAreLines();
    var (a, b) := (FileLine("a", "\r\n"), FileLine("b", "\n"));
    var (begin, end) := (FileLine(BEGIN_MARKER, "\r\n"), FileLine(END_MARKER, "\n"));
    MixedFound(begin, a, end, b, MixedFile());
    CountMixed(a, b, begin, end);
  }

  lemma {:induction false} NoNulInLines(lines: seq<FileLine>)
    requires forall i :: 0 <= i < |lines| ==> '\0' !in lines[i].text && '\0' !in lines[i].eol
    ensures '\0' !in Concat(lines)
  {
    if lines != [] { NoNulInLines(lines[1..]); }
  }

  lemma MixedIsPlain()
    ensures PlainText(Concat(MixedFile()))
  {
    NoNulInMarkers();
    NoNulInLines(MixedFile());
    assert BEGIN_MARKER[0] == '#';
    hide Concat;
    ConcatFrom(MixedFile(), 0);
    assert MixedFile()[0..] == MixedFile();
  }

  /** The old interior decides for CRLF, everything that stays is LF: whatever the address, the first
      apply writes the block with CRLF, and the second rewrites it with LF. */
  lemma MixedInteriorTakesTwo(ip: string)
    requires ValidCacheIP(ip)
    ensures var raw := Concat(MixedFile());
      && AppliesTo(raw, ip, true) && AppliesTo(Applied(raw, ip, true).raw, ip, true)
      && Applied(Applied(raw, ip, true).raw, ip, true) != Applied(raw, ip, true)
    ensures ValidCacheIP("10.0.0.2")
  {
    hide *;
    SomeAddress();
    MixedIsRead();
    MixedIsPlain();
    AppliesWhen(Concat(MixedFile()), ip, true);
    AppliesIs(Concat(MixedFile()), ip, true);
    SecondApplyIsQuietExactlyWhen(Concat(MixedFile()), ip, true);
    ThirdApplyIsQuiet(Concat(MixedFile()), ip, true);
    AppliesIs(Applied(Concat(MixedFile()), ip, true).raw, ip, true);
  }

  lemma AppliesWhen(raw: string, ip: string, windows: bool)
    requires ValidCacheIP(ip) && PlainText(raw) && Find(Lines(raw)).Block? && !HasConflict(Lines(raw), Find(Lines(raw)))
    ensures AppliesTo(raw, ip, windows)
  {
    hide Lines, Find, ValidCacheIP, PlainText, HasConflict, RenderApplied;
  }

  lemma AppliesIs(raw: string, ip: string, windows: bool)
    ensures AppliesTo(raw, ip, windows) <==> Applied(raw, ip, windows).Bytes?
  {
    hide Applied;
  }

  lemma SomeAddress()
    ensures ValidCacheIP("10.0.0.2")
  {
    hide *;
    var parts := ["10", "0", "0", "2"];
    JoinedParts(parts);
    NoDots(parts);
    SplitJoin(parts, '.');
    SmallOctets();
    NeitherReserved();
    AddressOfParts("10.0.0.2", parts);
  }

  lemma NoDots(parts: seq<string>)
    requires parts == ["10", "0", "0", "2"]
    ensures forall i :: 0 <= i < |parts| ==> '.' !in parts[i]
  {
  }

  lemma NeitherReserved()
    ensures "10.0.0.2"[0] != "0.0.0.0"[0] && "10.0.0.2"[0] != "255.255.255.255"[0]
  {
  }

  lemma AddressOfParts(s: string, parts: seq<string>)
    requires Split(s, '.') == parts && |parts| == 4
    requires Octet(parts[0]) && Octet(parts[1]) && Octet(parts[2]) && Octet(parts[3]) && !Multicast(parts[0])
    requires s != "0.0.0.0" && s != "255.255.255.255"
    ensures ValidCacheIP(s)
  {
    hide Split, Octet, Multicast;
  }

  lemma SmallOctets()
    ensures Octet("10") && Octet("0") && Octet("2") && !Multicast("10")
  {
  }

  lemma JoinedParts(parts: seq<string>)
    requires parts == ["10", "0", "0", "2"]
    ensures Join(parts, '.') == "10.0.0.2"
  {
    assert parts[..3] == ["10", "0", "0"] && parts[..3][..2] == ["10", "0"] && parts[..3][..2][..1] == ["10"];
    assert Join(["10"], '.') == "10";
    assert Join(["10", "0"], '.') == "10.0";
    assert Join(["10", "0", "0"], '.') == "10.0.0";
  }

  lemma CountMixed(a: FileLine, b: FileLine, begin: FileLine, end: FileLine)
    requires a.eol == "\r\n" && begin.eol == "\r\n" && b.eol == "\n" && end.eol == "\n"
    ensures var lines := [begin, a, a, a, end, b, b, b];
      Dominant(lines, true) == "\r\n" && !Stable(lines, 0, 4, "\r\n")
  {
    var lines := [begin, a, a, a, end, b, b, b];
    var (left, right) := ([begin, a, a, a], [end, b, b, b]);
    assert lines == left + right && lines[5..] == [b, b, b] && lines[..0] == [];
    CountFour(begin, a, "\r\n");
    CountFour(end, b, "\n");
    CountEolAppend(left, right, "\r\n");
    CountEolAppend(left, right, "\n");
    CountThree(b, "\n");
  }

  lemma CountThree(b: FileLine, x: string)
    requires b.eol == x && IsEol(x)
    ensures CountEol([b, b, b], x) == 3
    ensures forall y :: IsEol(y) && y != x ==> CountEol([b, b, b], y) == 0
  {
    assert [b, b, b][..2] == [b, b] && [b, b][..1] == [b] && [b][..0] == [];
    forall y | IsEol(y) ensures CountEol([b, b, b], y) == if y == x then 3 else 0 {
      assert CountEol([b], y) == If(y == x);
      assert CountEol([b, b], y) == 2 * If(y == x);
    }
  }

  lemma CountFour(first: FileLine, b: FileLine, x: string)
    requires first.eol == x && b.eol == x && IsEol(x)
    ensures CountEol([first, b, b, b], x) == 4
    ensures forall y :: IsEol(y) && y != x ==> CountEol([first, b, b, b], y) == 0
  {
    CountThree(b, x);
    assert [first, b, b, b] == [first] + [b, b, b] && [first][..0] == [];
    forall y | IsEol(y) ensures CountEol([first, b, b, b], y) == if y == x then 4 else 0 {
      CountEolAppend([first], [b, b, b], y);
      assert CountEol([first], y) == If(y == x);
    }
  }
}
