/** The text of single hosts-file lines: white space, markers, entries, addresses. Byte strings
    are strings of characters below 256; multi-byte white space is matched by its UTF-8 bytes. */
module HostsText {
  import opened EventLine

  const HOSTNAME := "lancache.steamcontent.com"
  const BEGIN_PREFIX := "# BEGIN steamhangar-agent"
  const END_PREFIX := "# END steamhangar-agent"
  const BEGIN_MARKER := BEGIN_PREFIX + " (managed block " + "- do not edit inside)"
  const END_MARKER := END_PREFIX

  // ---------------------------------------------------------------- white space

  /** The number of bytes of the white-space character the string starts with, or 0. */
  function SpaceAt(s: string): (n: nat)
    ensures n <= |s|
  {
    if s == "" then 0
    else if s[0] == ' ' || '\t' <= s[0] <= '\r' then 1
    else if |s| >= 2 && s[0] == '\U{C2}' && (s[1] == '\U{85}' || s[1] == '\U{A0}') then 2
    else if |s| >= 3 && s[0] == '\U{E1}' && s[1] == '\U{9A}' && s[2] == '\U{80}' then 3
    else if |s| >= 3 && s[0] == '\U{E2}' && s[1] == '\U{80}'
            && ('\U{80}' <= s[2] <= '\U{8A}' || s[2] == '\U{A8}' || s[2] == '\U{A9}' || s[2] == '\U{AF}') then 3
    else if |s| >= 3 && s[0] == '\U{E2}' && s[1] == '\U{81}' && s[2] == '\U{9F}' then 3
    else if |s| >= 3 && s[0] == '\U{E3}' && s[1] == '\U{80}' && s[2] == '\U{80}' then 3
    else 0
  }

  function TrimLeft(s: string): string {
    if SpaceAt(s) > 0 then TrimLeft(s[SpaceAt(s)..]) else s
  }

  /** The number of bytes of the white-space character the string ends with, or 0. */
  function SpaceBefore(s: string): (n: nat)
    ensures n <= |s|
  {
    if |s| >= 1 && SpaceAt(s[|s| - 1..]) == 1 then 1
    else if |s| >= 2 && SpaceAt(s[|s| - 2..]) == 2 then 2
    else if |s| >= 3 && SpaceAt(s[|s| - 3..]) == 3 then 3
    else 0
  }

  function TrimRight(s: string): string {
    if SpaceBefore(s) > 0 then TrimRight(s[..|s| - SpaceBefore(s)]) else s
  }

  function TrimSpace(s: string): string {
    TrimRight(TrimLeft(s))
  }

  /** Where the first white-space character starts, or the length. */
  function TokenLength(s: string): (n: nat)
    ensures n <= |s|
    ensures n > 0 <==> s != "" && SpaceAt(s) == 0
  {
    if s == "" || SpaceAt(s) > 0 then 0 else 1 + TokenLength(s[1..])
  }

  /** The maximal runs without white space. */
  function Fields(s: string): seq<string> {
    if s == "" then []
    else if SpaceAt(s) > 0 then Fields(s[SpaceAt(s)..])
    else [s[..TokenLength(s)]] + Fields(s[TokenLength(s)..])
  }

  // ---------------------------------------------------------------- markers

  predicate IsMarker(text: string, prefix: string) {
    var t := TrimSpace(text);
    t == prefix || prefix + " " <= t
  }

  predicate IsBegin(text: string) {
    || IsMarker(text, BEGIN_PREFIX)
    || IsMarker(text, "# BEGIN steamvault-agent")
    || IsMarker(text, "# BEGIN steamkeep-agent")
    || IsMarker(text, "# BEGIN steamsilo-agent")
  }

  predicate IsEnd(text: string) {
    || IsMarker(text, END_PREFIX)
    || IsMarker(text, "# END steamvault-agent")
    || IsMarker(text, "# END steamkeep-agent")
    || IsMarker(text, "# END steamsilo-agent")
  }

  // ---------------------------------------------------------------- entries

  function UpToComment(s: string): string {
    if s == "" || s[0] == '#' then "" else [s[0]] + UpToComment(s[1..])
  }

  /** Address and names, or fewer than two fields for no entry. */
  function EntryFields(text: string): seq<string> {
    Fields(UpToComment(text))
  }

  /** ASCII case folding, and the one other letter that folds into the host name: the long s. */
  function Fold(s: string): string {
    if s == "" then ""
    else if |s| >= 2 && s[0] == '\U{C5}' && s[1] == '\U{BF}' then "s" + Fold(s[2..])
    else if 'A' <= s[0] <= 'Z' then [(s[0] as int + 32) as char] + Fold(s[1..])
    else [s[0]] + Fold(s[1..])
  }

  predicate NamesCacheHost(name: string) {
    var bare := if name != "" && name[|name| - 1] == '.' then name[..|name| - 1] else name;
    Fold(bare) == HOSTNAME
  }

  predicate IsConflict(text: string) {
    var f := EntryFields(text);
    |f| >= 2 && exists i :: 1 <= i < |f| && NamesCacheHost(f[i])
  }

  function EntryLine(address: string): string {
    address + " " + HOSTNAME
  }

  // ---------------------------------------------------------------- addresses

  predicate Octet(s: string) {
    && 1 <= |s| <= 3
    && (forall i :: 0 <= i < |s| ==> '0' <= s[i] <= '9')
    && (|s| > 1 ==> s[0] != '0')
    && (|s| == 3 ==> s[0] < '2' || (s[0] == '2' && (s[1] < '5' || (s[1] == '5' && s[2] <= '5'))))
  }

  predicate Multicast(first: string) {
    |first| == 3 && first[0] == '2' && (first[1] == '3' || (first[1] == '2' && first[2] >= '4'))
  }

  /** A plain dotted IPv4 address, not unspecified, not multicast, not broadcast. */
  predicate ValidCacheIP(s: string) {
    var parts := Split(s, '.');
    && |parts| == 4
    && (forall i :: 0 <= i < 4 ==> Octet(parts[i]))
    && s != "0.0.0.0" && s != "255.255.255.255"
    && !Multicast(parts[0])
  }

  // ---------------------------------------------------------------- facts about one line

  predicate AddressChar(c: char) {
    '0' <= c <= '9' || c == '.'
  }

  lemma {:induction false} SplitChars(s: string, sep: char, p: char -> bool)
    requires forall i, k :: 0 <= i < |Split(s, sep)| && 0 <= k < |Split(s, sep)[i]| ==> p(Split(s, sep)[i][k])
    ensures forall k :: 0 <= k < |s| ==> s[k] == sep || p(s[k])
  {
    if s != "" {
      var front, c := s[..|s| - 1], s[|s| - 1];
      var was, now := Split(front, sep), Split(s, sep);
      var n := |was| - 1;
      if c == sep {
        assert forall i :: 0 <= i <= n ==> now[i] == was[i];
      } else {
        assert forall i :: 0 <= i < n ==> now[i] == was[i];
        assert now[n] == was[n] + [c];
        assert forall k :: 0 <= k < |was[n]| ==> was[n][k] == now[n][k];
        assert now[n][|was[n]|] == c;
      }
      SplitChars(front, sep, p);
    }
  }

  lemma ValidAddressChars(ip: string)
    requires ValidCacheIP(ip)
    ensures ip != "" && forall k :: 0 <= k < |ip| ==> AddressChar(ip[k])
  {
    var parts := Split(ip, '.');
    forall i, k | 0 <= i < |parts| && 0 <= k < |parts[i]| ensures AddressChar(parts[i][k]) {
      assert Octet(parts[i]);
    }
    SplitChars(ip, '.', AddressChar);
  }

  predicate Visible(c: char) {
    '!' <= c <= '~'
  }

  lemma {:induction false} TokenOfVisible(s: string, rest: string)
    requires forall k :: 0 <= k < |s| ==> Visible(s[k])
    requires rest == "" || SpaceAt(rest) > 0
    ensures TokenLength(s + rest) == |s|
  {
    if s == "" {
      assert s + rest == rest;
    } else {
      assert SpaceAt(s + rest) == 0;
      assert (s + rest)[1..] == s[1..] + rest;
      TokenOfVisible(s[1..], rest);
    }
  }

  lemma FieldsOfPair(a: string, b: string)
    requires a != "" && b != ""
    requires forall k :: 0 <= k < |a| ==> Visible(a[k])
    requires forall k :: 0 <= k < |b| ==> Visible(b[k])
    ensures Fields(a + " " + b) == [a, b]
  {
    var s := a + " " + b;
    var rest := " " + b;
    assert s == a + rest;
    TokenOfVisible(a, rest);
    assert s[..|a|] == a && s[|a|..] == rest;
    assert SpaceAt(rest) == 1 && rest[1..] == b;
    TokenOfVisible(b, "");
    assert b + "" == b && b[..|b|] == b && b[|b|..] == "";
    assert Fields(b) == [b] + Fields("");
    assert Fields(rest) == Fields(b);
    assert SpaceAt(s) == 0;
  }

  lemma {:induction false} NoComment(s: string)
    requires '#' !in s
    ensures UpToComment(s) == s
  {
    if s != "" {
      NoComment(s[1..]);
      assert s == [s[0]] + s[1..];
    }
  }

  lemma {:induction false} FoldLower(s: string)
    requires forall k :: 0 <= k < |s| ==> ' ' <= s[k] <= '~' && !('A' <= s[k] <= 'Z')
    ensures Fold(s) == s
  {
    if s != "" {
      FoldLower(s[1..]);
      assert s == [s[0]] + s[1..];
    }
  }

  predicate HostChar(c: char) {
    Visible(c) && c != '#' && !('A' <= c <= 'Z')
  }

  lemma HostnameChars()
    ensures forall k :: 0 <= k < |HOSTNAME| ==> HostChar(HOSTNAME[k])
  {
  }

  lemma HostnameNamesIt()
    ensures NamesCacheHost(HOSTNAME)
  {
    HostnameChars();
    FoldLower(HOSTNAME);
    assert HOSTNAME[|HOSTNAME| - 1] == 'm';
    hide Fold, HostChar, Visible;
  }

  lemma EntryLineChars(ip: string)
    requires ValidCacheIP(ip)
    ensures var s := EntryLine(ip);
      && s != "" && Visible(s[0]) && s[0] != '#' && Visible(s[|s| - 1]) && '#' !in s
      && (forall k :: 0 <= k < |s| ==> ' ' <= s[k] <= '~')
  {
    ValidAddressChars(ip);
    HostnameChars();
    hide ValidCacheIP;
    var s := EntryLine(ip);
    forall k | 0 <= k < |s| ensures ' ' <= s[k] <= '~' && s[k] != '#' {
      if k < |ip| { assert s[k] == ip[k] && AddressChar(ip[k]); }
      else if k > |ip| { assert s[k] == HOSTNAME[k - |ip| - 1] && HostChar(HOSTNAME[k - |ip| - 1]); }
    }
    assert s[0] == ip[0] && AddressChar(ip[0]);
    assert s[|s| - 1] == HOSTNAME[|HOSTNAME| - 1];
  }

  /** Nothing to trim when both ends are visible characters. */
  lemma TrimmedAlready(s: string)
    requires s != "" && Visible(s[0]) && Visible(s[|s| - 1])
    ensures TrimSpace(s) == s
  {
    var n := |s|;
    hide SpaceAt;
    NoSpaceAt(s);
    NoSpaceAt(s[n - 1..]);
    if n >= 2 { NoLongSpaceAt(s[n - 2..]); }
    if n >= 3 { NoLongSpaceAt(s[n - 3..]); }
  }

  lemma NoSpaceAt(s: string)
    requires s != "" && Visible(s[0])
    ensures SpaceAt(s) == 0
  {
  }

  /** The last byte of a white-space character longer than one byte is not a visible one. */
  lemma NoLongSpaceAt(s: string)
    requires s != "" && Visible(s[|s| - 1])
    ensures SpaceAt(s) < 2 || SpaceAt(s) < |s|
  {
  }

  lemma MarkerStarts(text: string, prefix: string)
    requires |prefix| > 2 && IsMarker(text, prefix)
    ensures var t := TrimSpace(text); |t| > 2 && t[0] == prefix[0] && t[2] == prefix[2]
  {
    var t := TrimSpace(text);
    hide TrimSpace;
    if t != prefix {
      assert (prefix + " ")[0] == t[0] && (prefix + " ")[2] == t[2];
    }
  }

  lemma BeginStarts(text: string)
    requires IsBegin(text)
    ensures var t := TrimSpace(text); |t| > 2 && t[0] == '#' && t[2] == 'B'
  {
    hide IsMarker, TrimSpace;
    if IsMarker(text, BEGIN_PREFIX) { MarkerStarts(text, BEGIN_PREFIX); }
    else if IsMarker(text, "# BEGIN steamvault-agent") { MarkerStarts(text, "# BEGIN steamvault-agent"); }
    else if IsMarker(text, "# BEGIN steamkeep-agent") { MarkerStarts(text, "# BEGIN steamkeep-agent"); }
    else { MarkerStarts(text, "# BEGIN steamsilo-agent"); }
  }

  lemma EndStarts(text: string)
    requires IsEnd(text)
    ensures var t := TrimSpace(text); |t| > 2 && t[0] == '#' && t[2] == 'E'
  {
    hide IsMarker, TrimSpace;
    if IsMarker(text, END_PREFIX) { MarkerStarts(text, END_PREFIX); }
    else if IsMarker(text, "# END steamvault-agent") { MarkerStarts(text, "# END steamvault-agent"); }
    else if IsMarker(text, "# END steamkeep-agent") { MarkerStarts(text, "# END steamkeep-agent"); }
    else { MarkerStarts(text, "# END steamsilo-agent"); }
  }

  /** The line inside our block is an entry for the host alone, and no marker. */
  lemma EntryLineReads(ip: string)
    requires ValidCacheIP(ip)
    ensures EntryFields(EntryLine(ip)) == [ip, HOSTNAME]
    ensures !IsBegin(EntryLine(ip)) && !IsEnd(EntryLine(ip))
  {
    ValidAddressChars(ip);
    HostnameChars();
    EntryLineChars(ip);
    NoComment(EntryLine(ip));
    FieldsOfPair(ip, HOSTNAME);
    TrimmedAlready(EntryLine(ip));
    hide IsBegin, IsEnd, TrimSpace, Fields, UpToComment, ValidCacheIP;
    if IsBegin(EntryLine(ip)) { BeginStarts(EntryLine(ip)); }
    if IsEnd(EntryLine(ip)) { EndStarts(EntryLine(ip)); }
  }

  lemma OwnMarkers()
    ensures IsBegin(BEGIN_MARKER) && !IsEnd(BEGIN_MARKER)
    ensures IsEnd(END_MARKER) && !IsBegin(END_MARKER)
  {
    var tail := "- do not edit inside)";
    assert tail[|tail| - 1] == ')';
    assert BEGIN_PREFIX + " " <= BEGIN_MARKER;
    assert BEGIN_MARKER[0] == '#' && BEGIN_MARKER[|BEGIN_MARKER| - 1] == ')' && BEGIN_MARKER[2] == 'B';
    assert END_MARKER[0] == '#' && END_MARKER[|END_MARKER| - 1] == 't' && END_MARKER[2] == 'E';
    TrimmedAlready(BEGIN_MARKER);
    TrimmedAlready(END_MARKER);
    hide TrimSpace;
    assert IsMarker(BEGIN_MARKER, BEGIN_PREFIX) && IsMarker(END_MARKER, END_PREFIX);
    hide IsMarker;
    assert IsBegin(BEGIN_MARKER) && IsEnd(END_MARKER);
    hide IsBegin, IsEnd;
    if IsEnd(BEGIN_MARKER) { EndStarts(BEGIN_MARKER); }
    if IsBegin(END_MARKER) { BeginStarts(END_MARKER); }
  }

  // ---------------------------------------------------------------- a carriage return at the end

  /** A file that ends in a lone carriage return gets a line feed behind it; the line then reads as
      before, since the carriage return is white space either way. */
  lemma SpaceAtUnaffected(s: string)
    requires s != ""
    ensures SpaceAt(s + "\r") == SpaceAt(s)
  {
  }

  lemma {:induction false} TrimLeftReturn(s: string)
    ensures TrimLeft(s + "\r") == if TrimLeft(s) == "" then "" else TrimLeft(s) + "\r"
  {
    if s == "" {
      assert s + "\r" == "\r";
      assert TrimLeft("\r") == TrimLeft("\r"[1..]);
    } else {
      SpaceAtUnaffected(s);
      if SpaceAt(s) > 0 {
        assert (s + "\r")[SpaceAt(s)..] == s[SpaceAt(s)..] + "\r";
        TrimLeftReturn(s[SpaceAt(s)..]);
      }
    }
  }

  lemma TrimSpaceReturn(s: string)
    ensures TrimSpace(s + "\r") == TrimSpace(s)
  {
    TrimLeftReturn(s);
    var t := TrimLeft(s);
    var u := t + "\r";
    assert u[|u| - 1..] == "\r" && u[..|u| - 1] == t;
  }

  lemma {:induction false} TokenLengthReturn(s: string)
    ensures TokenLength(s + "\r") == TokenLength(s)
  {
    if s != "" {
      SpaceAtUnaffected(s);
      assert (s + "\r")[1..] == s[1..] + "\r";
      TokenLengthReturn(s[1..]);
    }
  }

  lemma {:induction false} FieldsReturn(s: string)
    ensures Fields(s + "\r") == Fields(s)
    decreases |s|
  {
    if s == "" {
      assert s + "\r" == "\r" && "\r"[1..] == "";
    } else {
      SpaceAtUnaffected(s);
      TokenLengthReturn(s);
      var n := if SpaceAt(s) > 0 then SpaceAt(s) else TokenLength(s);
      assert (s + "\r")[n..] == s[n..] + "\r" && (s + "\r")[..n] == s[..n];
      FieldsReturn(s[n..]);
    }
  }

  lemma {:induction false} UpToCommentReturn(s: string)
    ensures UpToComment(s + "\r") == if '#' in s then UpToComment(s) else UpToComment(s) + "\r"
  {
    if s == "" {
      assert s + "\r" == "\r";
      assert UpToComment("\r") == ['\r'] + UpToComment("\r"[1..]);
    } else {
      assert (s + "\r")[1..] == s[1..] + "\r";
      assert s == [s[0]] + s[1..];
      UpToCommentReturn(s[1..]);
    }
  }

  lemma ReturnChangesNothing(s: string)
    ensures IsBegin(s + "\r") == IsBegin(s)
    ensures IsEnd(s + "\r") == IsEnd(s)
    ensures IsConflict(s + "\r") == IsConflict(s)
  {
    TrimSpaceReturn(s);
    UpToCommentReturn(s);
    FieldsReturn(UpToComment(s));
    hide TrimSpace, UpToComment, Fields;
  }
}
