/** One line of the cache event log: nine tab-separated fields, written by vault-core with every
    awkward byte escaped, read back by the sweeper's parser. Byte strings are strings of
    characters below 256. */
module EventLine {
  import opened Digits
  import opened Newlines
  import opened Options

  const TAB := '\t'
  const EVENT_LOG_VERSION := "v1"
  const EVENT_FIELD_COUNT := 9
  const MAX_LINE_LENGTH := 8192
  const MAX_ADDR_LENGTH := 64
  const MAX_DEPOT_ID_DIGITS := 10
  const MAX_BYTES_SENT_DIGITS := 15
  const MAX_TIME_LENGTH := 40
  const MAX_HOST_LENGTH := 255

  // ---------------------------------------------------------------- splitting and joining

  function Split(s: string, sep: char): (parts: seq<string>)
    ensures parts != []
  {
    if s == "" then [""]
    else
      var front, last := Split(s[..|s| - 1], sep), s[|s| - 1];
      if last == sep then front + [""]
      else front[..|front| - 1] + [front[|front| - 1] + [last]]
  }

  function Join(parts: seq<string>, sep: char): string
    requires parts != []
  {
    if |parts| == 1 then parts[0]
    else Join(parts[..|parts| - 1], sep) + [sep] + parts[|parts| - 1]
  }

  function CountOf(s: string, c: char): nat {
    if s == "" then 0 else CountOf(s[..|s| - 1], c) + if s[|s| - 1] == c then 1 else 0
  }

  lemma {:induction false} CountOfConcat(a: string, b: string, c: char)
    ensures CountOf(a + b, c) == CountOf(a, c) + CountOf(b, c)
  {
    if b == "" {
      assert a + b == a;
    } else {
      CountOfConcat(a, b[..|b| - 1], c);
      assert (a + b)[..|a + b| - 1] == a + b[..|b| - 1];
    }
  }

  lemma {:induction false} CountOfAbsent(s: string, c: char)
    requires c !in s
    ensures CountOf(s, c) == 0
  {
    if s != "" { CountOfAbsent(s[..|s| - 1], c); }
  }

  lemma {:induction false} SplitAppend(s: string, t: string, sep: char)
    requires sep !in t
    ensures var parts := Split(s, sep);
      Split(s + t, sep) == parts[..|parts| - 1] + [parts[|parts| - 1] + t]
  {
    var parts := Split(s, sep);
    if t == "" {
      assert s + t == s;
      assert parts[|parts| - 1] + t == parts[|parts| - 1];
    } else {
      var shorter := t[..|t| - 1];
      SplitAppend(s, shorter, sep);
      assert (s + t)[..|s + t| - 1] == s + shorter;
      assert parts[|parts| - 1] + shorter + [t[|t| - 1]] == parts[|parts| - 1] + t;
    }
  }

  lemma OnePart(s: string, sep: char)
    requires sep !in s
    ensures Split(s, sep) == [s]
  {
    SplitAppend("", s, sep);
    assert "" + s == s;
  }

  lemma AddPart(s: string, last: string, sep: char)
    requires sep !in last
    ensures Split(s + [sep] + last, sep) == Split(s, sep) + [last]
  {
    var joined := s + [sep];
    assert joined[..|joined| - 1] == s;
    SplitAppend(joined, last, sep);
    assert "" + last == last;
  }

  /** Splitting undoes joining when no part holds the separator. */
  lemma {:induction false} SplitJoin(parts: seq<string>, sep: char)
    requires parts != [] && forall i :: 0 <= i < |parts| ==> sep !in parts[i]
    ensures Split(Join(parts, sep), sep) == parts
    ensures CountOf(Join(parts, sep), sep) == |parts| - 1
  {
    hide Split;
    var front, last := parts[..|parts| - 1], parts[|parts| - 1];
    CountOfAbsent(last, sep);
    if |parts| == 1 {
      OnePart(last, sep);
      assert parts == [last];
    } else {
      SplitJoin(front, sep);
      AddPart(Join(front, sep), last, sep);
      CountOfConcat(Join(front, sep) + [sep], last, sep);
      assert (Join(front, sep) + [sep])[..|Join(front, sep)|] == Join(front, sep);
      assert parts == front + [last];
    }
  }

  lemma JoinSnoc(parts: seq<string>, last: string, sep: char)
    requires parts != []
    ensures Join(parts + [last], sep) == Join(parts, sep) + [sep] + last
  {
    assert (parts + [last])[..|parts|] == parts;
  }

  lemma JoinGrows(front: seq<string>, last: string, c: char, sep: char)
    ensures Join(front + [last + [c]], sep) == Join(front + [last], sep) + [c]
  {
    if front != [] {
      JoinSnoc(front, last, sep);
      JoinSnoc(front, last + [c], sep);
      hide Join;
      assert Join(front, sep) + [sep] + (last + [c]) == Join(front, sep) + [sep] + last + [c];
    }
  }

  lemma SplitLast(s: string, sep: char)
    requires s != ""
    ensures var (was, c) := (Split(s[..|s| - 1], sep), s[|s| - 1]);
      Split(s, sep) == if c == sep then was + [""] else was[..|was| - 1] + [was[|was| - 1] + [c]]
  {
  }

  /** Joining undoes splitting, and no part holds the separator. */
  lemma {:induction false} JoinSplit(s: string, sep: char)
    ensures Join(Split(s, sep), sep) == s
    ensures forall i :: 0 <= i < |Split(s, sep)| ==> sep !in Split(s, sep)[i]
  {
    if s != "" {
      var was, c := Split(s[..|s| - 1], sep), s[|s| - 1];
      SplitLast(s, sep);
      JoinSplit(s[..|s| - 1], sep);
      assert s == s[..|s| - 1] + [c];
      var n := |was| - 1;
      assert was == was[..n] + [was[n]];
      hide Split;
      JoinSnoc(was, "", sep);
      JoinGrows(was[..n], was[n], c, sep);
      hide Join;
      if c == sep {
        assert Join(was, sep) + [sep] + "" == s;
      } else {
        forall i | 0 <= i < |Split(s, sep)| ensures sep !in Split(s, sep)[i] {
          if i < n { assert Split(s, sep)[i] == was[i]; } else { assert Split(s, sep)[i] == was[n] + [c]; }
        }
      }
    }
  }

  // ---------------------------------------------------------------- escaping

  predicate Plain(c: char) {
    ' ' <= c <= '~' && c != '"' && c != '\\'
  }

  function HexDigit(n: nat): char
    requires n < 16
  {
    "0123456789ABCDEF"[n]
  }

  function EscapeChar(c: char): string
    requires c as int < 256
  {
    if Plain(c) then [c] else ['\\', 'x', HexDigit(c as int / 16), HexDigit(c as int % 16)]
  }

  predicate Bytes(s: string) {
    forall i :: 0 <= i < |s| ==> s[i] as int < 256
  }

  /** nginx's default log escaping, byte by byte. */
  function Escape(s: string): string
    requires Bytes(s)
  {
    if s == "" then "" else EscapeChar(s[0]) + Escape(s[1..])
  }

  function HexValue(c: char): nat {
    if '0' <= c <= '9' then c as int - '0' as int
    else if 'A' <= c <= 'F' then c as int - 'A' as int + 10
    else 0
  }

  function Unescape(s: string): string {
    if |s| >= 4 && s[0] == '\\' && s[1] == 'x' && 16 * HexValue(s[2]) + HexValue(s[3]) < 256
    then [(16 * HexValue(s[2]) + HexValue(s[3])) as char] + Unescape(s[4..])
    else if s == "" then ""
    else [s[0]] + Unescape(s[1..])
  }

  lemma HexRoundTrip(n: nat)
    requires n < 16
    ensures HexValue(HexDigit(n)) == n
    ensures '0' <= HexDigit(n) <= '9' || 'A' <= HexDigit(n) <= 'F'
  {
  }

  lemma {:induction false} UnescapeEscape(s: string)
    requires Bytes(s)
    ensures Unescape(Escape(s)) == s
  {
    if s != "" {
      UnescapeEscape(s[1..]);
      CharReadsBack(s[0], Escape(s[1..]));
      hide Unescape, EscapeChar;
      assert s == [s[0]] + s[1..];
    }
  }

  lemma CharReadsBack(c: char, tail: string)
    requires c as int < 256
    ensures Unescape(EscapeChar(c) + tail) == [c] + Unescape(tail)
  {
    hide HexDigit, HexValue;
    var e := EscapeChar(c) + tail;
    if Plain(c) {
      assert e[1..] == tail;
    } else {
      HexRoundTrip(c as int / 16);
      HexRoundTrip(c as int % 16);
      assert e[4..] == tail;
      assert (16 * (c as int / 16) + c as int % 16) as char == c;
    }
  }

  lemma {:induction false} EscapedIsPrintable(s: string)
    requires Bytes(s)
    ensures forall i :: 0 <= i < |Escape(s)| ==> ' ' <= Escape(s)[i] <= '~' && Escape(s)[i] != '"'
  {
    if s != "" {
      EscapedIsPrintable(s[1..]);
      if !Plain(s[0]) {
        HexRoundTrip(s[0] as int / 16);
        HexRoundTrip(s[0] as int % 16);
      }
    }
  }

  function EscapeAll(fields: seq<string>): (escaped: seq<string>)
    requires forall i :: 0 <= i < |fields| ==> Bytes(fields[i])
    ensures |escaped| == |fields|
  {
    seq(|fields|, i requires 0 <= i < |fields| => Escape(fields[i]))
  }

  /** The `log_format` line. */
  function Line(fields: seq<string>): string
    requires |fields| == EVENT_FIELD_COUNT && forall i :: 0 <= i < |fields| ==> Bytes(fields[i])
  {
    Join(EscapeAll(fields), TAB)
  }

  lemma {:induction false} JoinOnly(parts: seq<string>, sep: char, p: char -> bool)
    requires parts != [] && p(sep)
    requires forall i, k :: 0 <= i < |parts| && 0 <= k < |parts[i]| ==> p(parts[i][k])
    ensures forall k :: 0 <= k < |Join(parts, sep)| ==> p(Join(parts, sep)[k])
  {
    if |parts| > 1 { JoinOnly(parts[..|parts| - 1], sep, p); }
  }

  /** Whatever bytes the nine fields hold, the line has eight tabs and no newline, splitting it
      gives back the nine escaped fields, and unescaping those gives back the bytes. */
  lemma LineIsReversible(fields: seq<string>)
    requires |fields| == EVENT_FIELD_COUNT && forall i :: 0 <= i < |fields| ==> Bytes(fields[i])
    ensures CountOf(Line(fields), TAB) == EVENT_FIELD_COUNT - 1
    ensures NEWLINE !in Line(fields)
    ensures Split(Line(fields), TAB) == EscapeAll(fields)
    ensures forall i :: 0 <= i < |fields| ==> Unescape(Split(Line(fields), TAB)[i]) == fields[i]
    ensures Ascii(Line(fields))
  {
    var escaped := EscapeAll(fields);
    forall i | 0 <= i < |fields|
      ensures TAB !in escaped[i] && Unescape(escaped[i]) == fields[i]
      ensures forall k :: 0 <= k < |escaped[i]| ==> ' ' <= escaped[i][k] <= '~'
    {
      EscapedIsPrintable(fields[i]);
      UnescapeEscape(fields[i]);
    }
    SplitJoin(escaped, TAB);
    JoinOnly(escaped, TAB, c => c == TAB || ' ' <= c <= '~');
  }

  predicate Ascii(s: string) {
    forall i :: 0 <= i < |s| ==> s[i] as int < 128
  }

  // ---------------------------------------------------------------- parsing

  datatype CacheStatus = Hit | Miss | Bypass

  datatype Event = Event(addr: string, cache: CacheStatus, depot: Option<nat>, bytesSent: nat, status: nat)

  datatype Reason =
    | TooLong | Empty | FieldCount | UnknownVersion | BadAddress | BadCacheStatus
    | BadDepot | BadBytes | BadHttpStatus | FieldTooLong

  datatype ParsedLine = Accepted(event: Event) | Rejected(reason: Reason)

  predicate DigitsUpTo(s: string, most: nat) {
    s != "" && |s| <= most && forall i :: 0 <= i < |s| ==> '0' <= s[i] <= '9'
  }

  /** Printable ASCII without whitespace. */
  predicate CleanToken(s: string, most: nat) {
    s != "" && |s| <= most && forall i :: 0 <= i < |s| ==> '!' <= s[i] <= '~'
  }

  function CacheStatusOf(s: string): Option<CacheStatus> {
    if s == "HIT" then Some(Hit) else if s == "MISS" then Some(Miss) else if s == "BYPASS" then Some(Bypass) else None
  }

  function ParseFields(f: seq<string>): ParsedLine
    requires |f| == EVENT_FIELD_COUNT
  {
    if f[0] != EVENT_LOG_VERSION then Rejected(UnknownVersion)
    else if !CleanToken(f[2], MAX_ADDR_LENGTH) then Rejected(BadAddress)
    else if CacheStatusOf(f[3]).None? then Rejected(BadCacheStatus)
    else if f[4] != "-" && !DigitsUpTo(f[4], MAX_DEPOT_ID_DIGITS) then Rejected(BadDepot)
    else if !DigitsUpTo(f[6], MAX_BYTES_SENT_DIGITS) then Rejected(BadBytes)
    else if !DigitsUpTo(f[8], 3) || |f[8]| != 3 then Rejected(BadHttpStatus)
    else if |f[1]| > MAX_TIME_LENGTH || |f[7]| > MAX_HOST_LENGTH then Rejected(FieldTooLong)
    else Accepted(Event(f[2], CacheStatusOf(f[3]).value,
                        if f[4] == "-" then None else Some(DigitsValue(f[4])),
                        DigitsValue(f[6]), DigitsValue(f[8])))
  }

  function ParseLine(raw: string): ParsedLine {
    if |raw| > MAX_LINE_LENGTH then Rejected(TooLong)
    else if raw == "" then Rejected(Empty)
    else
      var f := Split(raw, TAB);
      if |f| != EVENT_FIELD_COUNT then Rejected(FieldCount) else ParseFields(f)
  }

  /** What counts: nine fields of version 1, a clean address, one of the three cache states, a depot
      number or a dash, a number of bytes, a three-digit status, and bounded times and hosts. */
  predicate Acceptable(f: seq<string>) {
    && |f| == 9 && f[0] == "v1"
    && 1 <= |f[2]| <= 64 && (forall i :: 0 <= i < |f[2]| ==> '!' <= f[2][i] <= '~')
    && (f[3] == "HIT" || f[3] == "MISS" || f[3] == "BYPASS")
    && (f[4] == "-" || (1 <= |f[4]| <= 10 && forall i :: 0 <= i < |f[4]| ==> '0' <= f[4][i] <= '9'))
    && 1 <= |f[6]| <= 15 && (forall i :: 0 <= i < |f[6]| ==> '0' <= f[6][i] <= '9')
    && |f[8]| == 3 && (forall i :: 0 <= i < |f[8]| ==> '0' <= f[8][i] <= '9')
    && |f[1]| <= 40 && |f[7]| <= 255
  }

  /** What an accepted event says of its nine fields. */
  predicate Tells(e: Event, f: seq<string>) {
    && |f| == 9 && e.addr == f[2]
    && (e.cache == Hit <==> f[3] == "HIT") && (e.cache == Miss <==> f[3] == "MISS") && (e.cache == Bypass <==> f[3] == "BYPASS")
    && (e.depot.None? <==> f[4] == "-") && (e.depot.Some? ==> Spells(f[4], e.depot.value))
    && Spells(f[6], e.bytesSent) && Spells(f[8], e.status)
  }

  lemma DigitsUpToIs(s: string, most: nat)
    requires DigitsUpTo(s, most)
    ensures Spells(s, DigitsValue(s))
  {
    forall c | c in s ensures '0' <= c <= '9' {
      var i :| 0 <= i < |s| && s[i] == c;
    }
    SpellsIsRead(s, DigitsValue(s));
  }

  lemma FieldsParse(f: seq<string>)
    requires |f| == EVENT_FIELD_COUNT
    ensures ParseFields(f).Accepted? <==> Acceptable(f)
    ensures ParseFields(f).Accepted? ==> Tells(ParseFields(f).event, f)
  {
    hide DigitsValue, Spells;
    if ParseFields(f).Accepted? {
      if f[4] != "-" { DigitsUpToIs(f[4], MAX_DEPOT_ID_DIGITS); }
      DigitsUpToIs(f[6], MAX_BYTES_SENT_DIGITS);
      DigitsUpToIs(f[8], 3);
    }
  }

  /** A line is accepted exactly when it is not too long and its fields are acceptable. */
  lemma AcceptedExactlyWhen(raw: string)
    ensures ParseLine(raw).Accepted? <==> |raw| <= 8192 && Acceptable(Split(raw, TAB))
    ensures ParseLine(raw).Accepted? ==> Tells(ParseLine(raw).event, Split(raw, TAB))
  {
    var f := Split(raw, TAB);
    if |f| == 9 { FieldsParse(f); }
    if raw == "" { assert f == [""]; }
    hide ParseFields, Split, Tells;
  }

  /** A three-digit status is a 2xx exactly when it starts with a 2. */
  lemma StatusClass(s: string, status: nat)
    requires |s| == 3 && Spells(s, status)
    ensures 200 <= status <= 299 <==> s[0] == '2'
  {
    SpellsIsRead(s, status);
    assert s[0] in s && s[1] in s && s[2] in s;
    assert s[..2][..1] == s[..1] && s[..1][..0] == "";
    hide Spells;
    assert DigitsValue(s[..1]) == DigitValue(s[0]);
    assert DigitsValue(s[..2]) == 10 * DigitValue(s[0]) + DigitValue(s[1]);
    assert status == 100 * DigitValue(s[0]) + 10 * DigitValue(s[1]) + DigitValue(s[2]);
  }

  /** The parser sees exactly the fields vault-core wrote, for any field contents: no request path
      can shift a field, add one or end the line. The line is accepted exactly when its nine escaped
      fields are acceptable, and the event then tells those fields. */
  lemma ParserSeesTheFields(fields: seq<string>)
    requires |fields| == EVENT_FIELD_COUNT && forall i :: 0 <= i < |fields| ==> Bytes(fields[i])
    ensures ParseLine(Line(fields)).Accepted? <==> |Line(fields)| <= 8192 && Acceptable(EscapeAll(fields))
    ensures ParseLine(Line(fields)).Accepted? ==> Tells(ParseLine(Line(fields)).event, EscapeAll(fields))
  {
    LineIsReversible(fields);
    AcceptedExactlyWhen(Line(fields));
    hide *;
  }

  /** The joined fields written out. */
  lemma NineJoined(f: seq<string>)
    requires |f| == 9
    ensures Join(f, TAB) == f[0] + [TAB] + f[1] + [TAB] + f[2] + [TAB] + f[3] + [TAB] + f[4] + [TAB] + f[5] + [TAB] + f[6]
                            + [TAB] + f[7] + [TAB] + f[8]
  {
    hide *;
    FourJoined(f, TAB);
    JoinFirst(f, 4, TAB);
    JoinFirst(f, 5, TAB);
    JoinFirst(f, 6, TAB);
    JoinFirst(f, 7, TAB);
    JoinFirst(f, 8, TAB);
    assert f[..9] == f;
  }

  lemma FourJoined(f: seq<string>, sep: char)
    requires |f| >= 4
    ensures Join(f[..4], sep) == f[0] + [sep] + f[1] + [sep] + f[2] + [sep] + f[3]
  {
    hide *;
    JoinFirst(f, 0, sep);
    JoinFirst(f, 1, sep);
    JoinFirst(f, 2, sep);
    JoinFirst(f, 3, sep);
  }

  lemma JoinFirst(f: seq<string>, k: nat, sep: char)
    requires k < |f|
    ensures Join(f[..k + 1], sep) == if k == 0 then f[0] else Join(f[..k], sep) + [sep] + f[k]
  {
    assert f[..k + 1][..k] == f[..k];
  }
}
