/** Which lines of a hosts file block the managed block, written out on the text. */
module HostsConflicts {
  import opened Digits
  import opened EventLine
  import opened HostsFile
  import opened HostsText

  // ---------------------------------------------------------------- a line and its words

  predicate AllSpace(s: string) {
    s == "" || (SpaceAt(s) > 0 && AllSpace(s[SpaceAt(s)..]))
  }

  /** No white space and no comment sign anywhere in it. */
  predicate Word(s: string) {
    s != "" && '#' !in s && forall k :: 0 <= k < |s| ==> SpaceAt(s[k..]) == 0
  }

  /** Words with white space before, between and behind them. */
  function Woven(words: seq<string>, gaps: seq<string>): string
    requires |gaps| == |words| + 1
  {
    if words == [] then gaps[0] else gaps[0] + words[0] + Woven(words[1..], gaps[1..])
  }

  predicate WellLaid(words: seq<string>, gaps: seq<string>) {
    && |gaps| == |words| + 1
    && (forall i :: 0 <= i < |words| ==> Word(words[i]))
    && (forall i :: 0 <= i < |gaps| ==> AllSpace(gaps[i]))
    && (forall i :: 0 < i < |words| ==> gaps[i] != "")
  }

  predicate IsComment(s: string) {
    s == "" || s[0] == '#'
  }

  // ---------------------------------------------------------------- the host name, spelled in any case

  /** The letter itself, its capital, or the long s, which folds to an s. */
  predicate SpellsChar(p: string, c: char) {
    || p == [c]
    || ('a' <= c <= 'z' && p == [(c as int - 32) as char])
    || (c == 's' && p == "\U{C5}\U{BF}")
  }

  function Flat(parts: seq<string>): string {
    if parts == [] then "" else parts[0] + Flat(parts[1..])
  }

  predicate SpelledBy(parts: seq<string>, name: string) {
    |parts| == |name| && forall i :: 0 <= i < |name| ==> SpellsChar(parts[i], name[i])
  }

  /** The name of the cache host in any spelling, with or without the dot of a full name. */
  ghost predicate SpellsHost(s: string) {
    exists parts :: SpelledBy(parts, HOSTNAME) && (s == Flat(parts) || s == Flat(parts) + ".")
  }

  /** An address and, behind it, a name of the cache host: words with white space around them, the
      first of them the address, and perhaps a comment. */
  ghost predicate NamesHostBehindAddress(text: string) {
    exists words, gaps, comment ::
      && WellLaid(words, gaps) && IsComment(comment) && text == Woven(words, gaps) + comment
      && exists i :: 1 <= i < |words| && SpellsHost(words[i])
  }

  // ---------------------------------------------------------------- the words of a line are its fields

  lemma {:induction false} GapSkipped(gap: string, rest: string)
    requires AllSpace(gap)
    ensures Fields(gap + rest) == Fields(rest)
    decreases |gap|
  {
    if gap == "" {
      assert gap + rest == rest;
    } else {
      SpaceStays(gap, rest);
      assert (gap + rest)[SpaceAt(gap)..] == gap[SpaceAt(gap)..] + rest;
      GapSkipped(gap[SpaceAt(gap)..], rest);
    }
  }

  lemma SpaceStays(s: string, rest: string)
    requires SpaceAt(s) > 0
    ensures SpaceAt(s + rest) == SpaceAt(s)
  {
  }

  /** White space never begins with a byte that could complete what a word ends with. */
  lemma NoSpaceBegins(s: string, rest: string)
    requires s != "" && SpaceAt(s) == 0 && (|s| > 1 ==> SpaceAt(s[1..]) == 0) && (rest == "" || SpaceAt(rest) > 0)
    ensures SpaceAt(s + rest) == 0
  {
    if rest == "" { assert s + rest == s; }
  }

  lemma {:induction false} WordLength(w: string, rest: string)
    requires (forall k :: 0 <= k < |w| ==> SpaceAt(w[k..]) == 0) && (rest == "" || SpaceAt(rest) > 0)
    ensures TokenLength(w + rest) == |w|
  {
    if w == "" {
      assert w + rest == rest;
    } else {
      assert w[0..] == w;
      NoSpaceBegins(w, rest);
      assert (w + rest)[1..] == w[1..] + rest;
      forall k | 0 <= k < |w[1..]| ensures SpaceAt(w[1..][k..]) == 0 {
        assert w[1..][k..] == w[k + 1..];
      }
      WordLength(w[1..], rest);
    }
  }

  lemma WordTaken(w: string, rest: string)
    requires Word(w) && (rest == "" || SpaceAt(rest) > 0)
    ensures Fields(w + rest) == [w] + Fields(rest)
  {
    WordLength(w, rest);
    var s := w + rest;
    assert s[..|w|] == w && s[|w|..] == rest;
    assert TokenLength(s) > 0;
    hide SpaceAt;
  }

  lemma {:induction false} WovenFields(words: seq<string>, gaps: seq<string>)
    requires WellLaid(words, gaps)
    ensures Fields(Woven(words, gaps)) == words
  {
    hide Fields, SpaceAt, Word;
    if words == [] {
      GapSkipped(gaps[0], "");
      assert gaps[0] + "" == gaps[0];
      NoFields();
    } else {
      var rest := Woven(words[1..], gaps[1..]);
      GapSkipped(gaps[0], words[0] + rest);
      assert gaps[0] + words[0] + rest == gaps[0] + (words[0] + rest);
      RestBegins(words, gaps);
      WordTaken(words[0], rest);
      WovenFields(words[1..], gaps[1..]);
    }
  }

  lemma NoFields()
    ensures Fields("") == []
  {
  }

  /** Behind a word comes nothing or white space. */
  lemma RestBegins(words: seq<string>, gaps: seq<string>)
    requires WellLaid(words, gaps) && words != []
    ensures var rest := Woven(words[1..], gaps[1..]); rest == "" || SpaceAt(rest) > 0
    ensures WellLaid(words[1..], gaps[1..])
  {
    hide SpaceAt, Word;
    var rest := Woven(words[1..], gaps[1..]);
    if gaps[1] != "" {
      var behind := if |words| == 1 then "" else words[1] + Woven(words[1..][1..], gaps[1..][1..]);
      assert rest == gaps[1] + behind;
      SpaceStays(gaps[1], behind);
    }
  }

  lemma {:induction false} NoHashInSpace(s: string)
    requires AllSpace(s)
    ensures '#' !in s
    decreases |s|
  {
    if s != "" {
      NoHashInSpace(s[SpaceAt(s)..]);
      assert s == s[..SpaceAt(s)] + s[SpaceAt(s)..];
    }
  }

  lemma {:induction false} NoHashInWoven(words: seq<string>, gaps: seq<string>)
    requires WellLaid(words, gaps)
    ensures '#' !in Woven(words, gaps)
  {
    hide SpaceAt, AllSpace;
    NoHashInSpace(gaps[0]);
    if words != [] { NoHashInWoven(words[1..], gaps[1..]); }
  }

  lemma {:induction false} CommentCut(s: string, comment: string)
    requires '#' !in s && IsComment(comment)
    ensures UpToComment(s + comment) == s
  {
    if s == "" {
      assert s + comment == comment;
    } else {
      assert (s + comment)[1..] == s[1..] + comment;
      CommentCut(s[1..], comment);
    }
  }

  lemma WovenIsRead(words: seq<string>, gaps: seq<string>, comment: string)
    requires WellLaid(words, gaps) && IsComment(comment)
    ensures EntryFields(Woven(words, gaps) + comment) == words
  {
    hide Fields, UpToComment, Woven, AllSpace, Word;
    NoHashInWoven(words, gaps);
    CommentCut(Woven(words, gaps), comment);
    WovenFields(words, gaps);
  }

  // ---------------------------------------------------------------- every line is made that way

  lemma {:induction false} CommentApart(text: string) returns (comment: string)
    ensures text == UpToComment(text) + comment && IsComment(comment) && '#' !in UpToComment(text)
  {
    if text == "" || text[0] == '#' {
      comment := text;
      assert text == "" + comment;
    } else {
      comment := CommentApart(text[1..]);
      assert text == [text[0]] + text[1..];
    }
  }

  /** A word inside a longer text is a word. */
  lemma {:induction false} TokenIsWord(s: string)
    requires '#' !in s && TokenLength(s) > 0
    ensures Word(s[..TokenLength(s)])
    ensures s[TokenLength(s)..] == "" || SpaceAt(s[TokenLength(s)..]) > 0
  {
    var n := TokenLength(s);
    var w := s[..n];
    TokenEnds(s);
    forall k | 0 <= k < |w| ensures SpaceAt(w[k..]) == 0 {
      TokenInside(s, k);
      if SpaceAt(w[k..]) > 0 {
        SpaceStays(w[k..], s[n..]);
        assert s[k..] == w[k..] + s[n..];
      }
    }
  }

  lemma {:induction false} TokenEnds(s: string)
    ensures s[TokenLength(s)..] == "" || SpaceAt(s[TokenLength(s)..]) > 0
  {
    if s != "" && SpaceAt(s) == 0 {
      TokenEnds(s[1..]);
      assert s[TokenLength(s)..] == s[1..][TokenLength(s[1..])..];
    }
  }

  lemma {:induction false} TokenInside(s: string, k: nat)
    requires k < TokenLength(s)
    ensures SpaceAt(s[k..]) == 0
  {
    if k == 0 {
      assert s[0..] == s;
    } else {
      TokenInside(s[1..], k - 1);
      assert s[1..][k - 1..] == s[k..];
    }
  }

  lemma GapGrows(s: string, gap: string)
    requires SpaceAt(s) > 0 && AllSpace(gap)
    ensures AllSpace(s[..SpaceAt(s)] + gap)
  {
    var n := SpaceAt(s);
    assert SpaceAt(s[..n]) == n;
    SpaceStays(s[..n], gap);
    assert (s[..n] + gap)[n..] == gap;
  }

  lemma {:induction false} Weave(s: string) returns (words: seq<string>, gaps: seq<string>)
    requires '#' !in s
    ensures WellLaid(words, gaps) && s == Woven(words, gaps)
    ensures s != "" && SpaceAt(s) > 0 ==> gaps[0] != ""
    decreases |s|
  {
    hide Word, Fields, AllSpace, Woven;
    if s == "" {
      words, gaps := [], [""];
      NothingWoven();
    } else if SpaceAt(s) > 0 {
      var n := SpaceAt(s);
      words, gaps := Weave(s[n..]);
      gaps := WeaveGap(s, words, gaps);
    } else {
      var n := TokenLength(s);
      TokenIsWord(s);
      words, gaps := Weave(s[n..]);
      words, gaps := WeaveWord(s, n, words, gaps);
    }
  }

  lemma NothingWoven()
    ensures WellLaid([], [""]) && Woven([], [""]) == ""
  {
  }

  lemma WeaveGap(s: string, words: seq<string>, g: seq<string>) returns (gaps: seq<string>)
    requires SpaceAt(s) > 0 && WellLaid(words, g) && s[SpaceAt(s)..] == Woven(words, g)
    ensures WellLaid(words, gaps) && s == Woven(words, gaps) && gaps[0] != ""
  {
    var n := SpaceAt(s);
    GapGrows(s, g[0]);
    gaps := [s[..n] + g[0]] + g[1..];
    hide SpaceAt, Word, AllSpace;
    forall i | 0 <= i < |gaps| ensures AllSpace(gaps[i]) && (0 < i < |words| ==> gaps[i] != "") {
      if i > 0 { assert gaps[i] == g[i]; }
    }
    assert gaps[1..] == g[1..];
    assert s == s[..n] + s[n..];
    if words == [] {
      assert Woven(words, gaps) == s[..n] + g[0];
    } else {
      Regrouped(s[..n], g[0], words[0], Woven(words[1..], g[1..]));
    }
  }

  lemma Regrouped(a: string, b: string, c: string, d: string)
    ensures a + (b + c + d) == (a + b) + c + d
  {
  }

  lemma WeaveWord(s: string, n: nat, ws: seq<string>, g: seq<string>) returns (words: seq<string>, gaps: seq<string>)
    requires 0 < n <= |s| && Word(s[..n]) && WellLaid(ws, g) && s[n..] == Woven(ws, g)
    requires s[n..] == "" || g[0] != ""
    ensures WellLaid(words, gaps) && s == Woven(words, gaps)
  {
    words, gaps := [s[..n]] + ws, [""] + g;
    NothingIsSpace();
    hide SpaceAt, Word, AllSpace;
    forall i | 0 <= i < |words| ensures Word(words[i]) && (0 < i ==> gaps[i] != "") {
      if i > 0 { assert words[i] == ws[i - 1] && gaps[i] == g[i - 1]; }
      if i == 1 { NotEmpty(s[n..], ws, g); }
    }
    forall i | 0 <= i < |gaps| ensures AllSpace(gaps[i]) {
      if i > 0 { assert gaps[i] == g[i - 1]; }
    }
    assert words[1..] == ws && gaps[1..] == g;
    assert s == "" + s[..n] + s[n..];
  }

  lemma NothingIsSpace()
    ensures AllSpace("")
  {
  }

  lemma NotEmpty(s: string, words: seq<string>, gaps: seq<string>)
    requires WellLaid(words, gaps) && words != [] && s == Woven(words, gaps)
    ensures s != ""
  {
    assert Word(words[0]);
    hide WellLaid;
  }

  /** The fields the parser sees are the words, so a line conflicts exactly when it names the host. */
  lemma ConflictExactlyWhen(text: string)
    ensures IsConflict(text) <==> NamesHostBehindAddress(text)
  {
    hide NamesCacheHost, SpellsHost, AllSpace, Word, Woven, EntryFields, IsComment;
    if IsConflict(text) {
      var comment := CommentApart(text);
      var words, gaps := Weave(UpToComment(text));
      WovenIsRead(words, gaps, comment);
      var i :| 1 <= i < |words| && NamesCacheHost(words[i]);
      HostExactlyWhen(words[i]);
    }
    if NamesHostBehindAddress(text) {
      var words, gaps, comment :|
        && WellLaid(words, gaps) && IsComment(comment) && text == Woven(words, gaps) + comment
        && exists i :: 1 <= i < |words| && SpellsHost(words[i]);
      WovenIsRead(words, gaps, comment);
      var i :| 1 <= i < |words| && SpellsHost(words[i]);
      HostExactlyWhen(words[i]);
    }
  }

  // ---------------------------------------------------------------- folding

  /** What the host name is made of: characters that stand for themselves when folded. */
  predicate Lower(c: char) {
    ' ' <= c <= '~' && !('A' <= c <= 'Z')
  }

  lemma FoldChar(p: string, c: char, rest: string)
    requires SpellsChar(p, c) && Lower(c)
    ensures Fold(p + rest) == [c] + Fold(rest)
  {
    if p == "\U{C5}\U{BF}" {
      assert (p + rest)[2..] == rest;
    } else {
      assert (p + rest)[1..] == rest;
    }
  }

  lemma {:induction false} FoldOfSpelling(parts: seq<string>, name: string)
    requires SpelledBy(parts, name) && forall i :: 0 <= i < |name| ==> Lower(name[i])
    ensures Fold(Flat(parts)) == name
  {
    hide Fold;
    if name == "" {
      FoldNothing();
    } else {
      FoldChar(parts[0], name[0], Flat(parts[1..]));
      FoldOfSpelling(parts[1..], name[1..]);
      assert name == [name[0]] + name[1..];
    }
  }

  lemma FoldNothing()
    ensures Fold("") == ""
  {
  }

  lemma {:induction false} SpellingOfFold(s: string) returns (parts: seq<string>)
    ensures SpelledBy(parts, Fold(s)) && Flat(parts) == s
    decreases |s|
  {
    if s == "" {
      parts := [];
    } else {
      var n := LetterLength(s);
      var rest := SpellingOfFold(s[n..]);
      parts := [s[..n]] + rest;
      assert s == s[..n] + s[n..] && parts[1..] == rest;
      FirstSpelled(s, n);
      hide Fold, SpellsChar;
      forall i | 0 <= i < |Fold(s)| ensures SpellsChar(parts[i], Fold(s)[i]) {
        if i > 0 { assert parts[i] == rest[i - 1] && Fold(s)[i] == Fold(s[n..])[i - 1]; }
      }
    }
  }

  /** How long the first letter is, and what it folds to. */
  function LetterLength(s: string): nat {
    if |s| >= 2 && s[0] == '\U{C5}' && s[1] == '\U{BF}' then 2 else 1
  }

  function Folded(s: string): char
    requires s != ""
  {
    if LetterLength(s) == 2 then 's' else if 'A' <= s[0] <= 'Z' then (s[0] as int + 32) as char else s[0]
  }

  lemma FoldHead(s: string)
    requires s != ""
    ensures LetterLength(s) <= |s| && Fold(s) == [Folded(s)] + Fold(s[LetterLength(s)..])
  {
  }

  lemma TwoBytes(s: string)
    requires |s| >= 2
    ensures s[..1] == [s[0]] && s[..2] == [s[0], s[1]]
  {
  }

  lemma HeadSpelled(s: string)
    requires s != ""
    ensures LetterLength(s) <= |s| && SpellsChar(s[..LetterLength(s)], Folded(s))
  {
    if |s| >= 2 { TwoBytes(s); } else { assert s[..1] == [s[0]]; }
  }

  lemma HeadAndTail(c: char, rest: string)
    ensures ([c] + rest)[0] == c && ([c] + rest)[1..] == rest
  {
  }

  lemma FirstSpelled(s: string, n: nat)
    requires s != "" && n == LetterLength(s)
    ensures n <= |s| && Fold(s) != "" && Fold(s)[1..] == Fold(s[n..]) && SpellsChar(s[..n], Fold(s)[0])
  {
    hide *;
    FoldHead(s);
    HeadSpelled(s);
    HeadAndTail(Folded(s), Fold(s[n..]));
  }

  lemma {:induction false} FoldEndsInDot(s: string)
    ensures Fold(s + ".") == Fold(s) + "."
    decreases |s|
  {
    if s == "" {
      assert s + "." == ".";
      assert Fold(".") == "." + Fold("."[1..]);
    } else {
      var n := LetterLength(s);
      assert (s + ".")[n..] == s[n..] + ".";
      FoldEndsInDot(s[n..]);
    }
  }

  lemma HostIsLower()
    ensures (forall i :: 0 <= i < |HOSTNAME| ==> Lower(HOSTNAME[i])) && HOSTNAME[|HOSTNAME| - 1] == 'm'
  {
    HostnameChars();
  }

  /** The names that count are the spellings of the host name, with or without a dot behind. */
  lemma HostExactlyWhen(name: string)
    ensures NamesCacheHost(name) <==> SpellsHost(name)
  {
    HostIsLower();
    hide Fold, Lower, SpelledBy, Flat;
    var bare := if name != "" && name[|name| - 1] == '.' then name[..|name| - 1] else name;
    if NamesCacheHost(name) {
      var parts := SpellingOfFold(bare);
      assert name == bare || name == bare + ".";
    }
    if SpellsHost(name) {
      var parts :| SpelledBy(parts, HOSTNAME) && (name == Flat(parts) || name == Flat(parts) + ".");
      FoldOfSpelling(parts, HOSTNAME);
      if name == Flat(parts) { NoDotBehind(name); }
      assert bare == Flat(parts);
    }
  }

  lemma DotSurvives(name: string)
    requires name != "" && name[|name| - 1] == '.'
    ensures Fold(name) != "" && Fold(name)[|Fold(name)| - 1] == '.'
  {
    var front := name[..|name| - 1];
    assert name == front + ".";
    hide Fold;
    FoldEndsInDot(front);
  }

  lemma NoDotBehind(name: string)
    requires Fold(name) == HOSTNAME
    ensures name == "" || name[|name| - 1] != '.'
  {
    hide Fold;
    HostIsLower();
    if name != "" && name[|name| - 1] == '.' { DotSurvives(name); }
  }

  // ---------------------------------------------------------------- addresses

  lemma SmallDecimal(n: nat)
    requires n <= 255
    ensures Decimal(n) == if n < 10 then [Digit(n)] else if n < 100 then [Digit(n / 10), Digit(n % 10)]
                          else [Digit(n / 100), Digit(n / 10 % 10), Digit(n % 10)]
  {
    assert n / 10 / 10 == n / 100;
  }

  function Digit(n: nat): char
    requires n < 10
  {
    (n + '0' as int) as char
  }

  lemma OctetOf(n: nat)
    requires n <= 255
    ensures Octet(Decimal(n)) && '.' !in Decimal(n) && (Multicast(Decimal(n)) <==> 224 <= n <= 239)
  {
    SmallDecimal(n);
    hide Decimal;
  }

  lemma NumberOf(s: string) returns (n: nat)
    requires Octet(s)
    ensures n <= 255 && s == Decimal(n)
  {
    var a := s[0] as int - '0' as int;
    if |s| == 1 {
      n := a;
    } else {
      var b := s[1] as int - '0' as int;
      n := 10 * a + b;
      if |s| == 3 {
        var c := s[2] as int - '0' as int;
        assert 10 * n + c <= 255 && (10 * n + c) / 10 == n && n / 10 == a && n % 10 == b;
        n := 10 * n + c;
        assert n / 100 == a;
      }
    }
    SmallDecimal(n);
    hide Decimal;
  }

  function Dotted(a: nat, b: nat, c: nat, d: nat): string {
    Decimal(a) + "." + Decimal(b) + "." + Decimal(c) + "." + Decimal(d)
  }

  /** Four numbers up to 255, neither all zero, nor all 255, nor multicast. */
  predicate UsableAddress(a: nat, b: nat, c: nat, d: nat) {
    && a <= 255 && b <= 255 && c <= 255 && d <= 255
    && !(a == b == c == d == 0) && !(a == b == c == d == 255) && !(224 <= a <= 239)
  }

  lemma DottedSplits(a: nat, b: nat, c: nat, d: nat)
    requires a <= 255 && b <= 255 && c <= 255 && d <= 255
    ensures Split(Dotted(a, b, c, d), '.') == [Decimal(a), Decimal(b), Decimal(c), Decimal(d)]
  {
    OctetOf(a);
    OctetOf(b);
    OctetOf(c);
    OctetOf(d);
    var parts := [Decimal(a), Decimal(b), Decimal(c), Decimal(d)];
    hide *;
    DottedIsJoined(a, b, c, d, parts);
    SplitJoin(parts, '.');
  }

  lemma DottedIsJoined(a: nat, b: nat, c: nat, d: nat, parts: seq<string>)
    requires parts == [Decimal(a), Decimal(b), Decimal(c), Decimal(d)]
    ensures Join(parts, '.') == Dotted(a, b, c, d)
  {
    hide Decimal, Join;
    FourJoined(parts, '.');
    assert parts[..4] == parts;
  }

  lemma OneNumeral(m: nat, n: nat)
    requires Decimal(m) == Decimal(n)
    ensures m == n
  {
    DecimalIsRead(m);
    DecimalIsRead(n);
  }

  lemma SameNumbers(a: nat, b: nat, c: nat, d: nat, k: nat)
    requires a <= 255 && b <= 255 && c <= 255 && d <= 255 && k <= 255
    ensures Dotted(a, b, c, d) == Dotted(k, k, k, k) <==> a == b == c == d == k
  {
    if Dotted(a, b, c, d) == Dotted(k, k, k, k) {
      DottedSplits(a, b, c, d);
      DottedSplits(k, k, k, k);
      hide Dotted, Decimal, Split;
      assert [Decimal(a), Decimal(b), Decimal(c), Decimal(d)][0] == Decimal(k);
      OneNumeral(a, k);
      OneNumeral(b, k);
      OneNumeral(c, k);
      OneNumeral(d, k);
    }
  }

  lemma ReservedSpelled()
    ensures Dotted(0, 0, 0, 0) == "0.0.0.0" && Dotted(255, 255, 255, 255) == "255.255.255.255"
  {
    assert Decimal(0) == "0";
    assert Decimal(2) == "2" && Decimal(25) == "25" && Decimal(255) == "255";
  }

  /** The addresses apply takes are exactly the dotted numerals of usable ones. */
  lemma AddressExactlyWhen(s: string)
    ensures ValidCacheIP(s) <==> exists a, b, c, d :: UsableAddress(a, b, c, d) && s == Dotted(a, b, c, d)
  {
    if ValidCacheIP(s) {
      var parts := Split(s, '.');
      ValidParts(s);
      hide ValidCacheIP, Octet, Split;
      var a := NumberOf(parts[0]);
      var b := NumberOf(parts[1]);
      var c := NumberOf(parts[2]);
      var d := NumberOf(parts[3]);
      assert parts == [Decimal(a), Decimal(b), Decimal(c), Decimal(d)];
      JoinSplit(s, '.');
      DottedIsJoined(a, b, c, d, parts);
      UsableIfValid(s, a, b, c, d);
    }
    if a, b, c, d :| UsableAddress(a, b, c, d) && s == Dotted(a, b, c, d) {
      ValidIfUsable(s, a, b, c, d);
    }
  }

  lemma ValidParts(s: string)
    requires ValidCacheIP(s)
    ensures var parts := Split(s, '.'); |parts| == 4 && Octet(parts[0]) && Octet(parts[1]) && Octet(parts[2]) && Octet(parts[3])
  {
    hide Octet, Split;
  }

  lemma UsableIfValid(s: string, a: nat, b: nat, c: nat, d: nat)
    requires ValidCacheIP(s) && s == Dotted(a, b, c, d) && a <= 255 && b <= 255 && c <= 255 && d <= 255
    ensures UsableAddress(a, b, c, d)
  {
    DottedSplits(a, b, c, d);
    OctetOf(a);
    SameNumbers(a, b, c, d, 0);
    SameNumbers(a, b, c, d, 255);
    ReservedSpelled();
    hide Dotted, Decimal, Octet, Multicast, Split;
  }

  lemma ValidIfUsable(s: string, a: nat, b: nat, c: nat, d: nat)
    requires UsableAddress(a, b, c, d) && s == Dotted(a, b, c, d)
    ensures ValidCacheIP(s)
  {
    DottedSplits(a, b, c, d);
    OctetOf(a);
    OctetOf(b);
    OctetOf(c);
    OctetOf(d);
    SameNumbers(a, b, c, d, 0);
    SameNumbers(a, b, c, d, 255);
    ReservedSpelled();
    hide Dotted, Decimal, Octet, Multicast, Split;
  }

  // ---------------------------------------------------------------- which answer a file gets

  /** Lines b and e are the only markers, a begin before an end. */
  predicate MarkedBy(lines: seq<FileLine>, b: nat, e: nat) {
    && b < e < |lines|
    && (forall i :: 0 <= i < |lines| ==> (IsBegin(lines[i].text) <==> i == b))
    && (forall i :: 0 <= i < |lines| ==> (!IsBegin(lines[i].text) && IsEnd(lines[i].text) <==> i == e))
  }

  lemma FoundExactlyWhen(lines: seq<FileLine>, b: nat, e: nat)
    ensures Find(lines).NoBlock? <==> Unmarked(lines)
    ensures Find(lines) == Block(b, e) <==> MarkedBy(lines, b, e)
  {
    UnmarkedHasNone(lines);
    hide IsBegin, IsEnd, MarkedBy, Unmarked;
    if Find(lines) == Block(b, e) { FoundIsMarked(lines, b, e); }
    if MarkedBy(lines, b, e) { MarkedFound(lines, b, e); }
  }

  lemma FoundIsMarked(lines: seq<FileLine>, b: nat, e: nat)
    requires Find(lines) == Block(b, e)
    ensures MarkedBy(lines, b, e)
  {
    hide IsBegin, IsEnd, Begins, Ends, Find;
    OneOfEach(lines, b, e);
    forall i: nat | i < |lines|
      ensures (IsBegin(lines[i].text) <==> i == b) && (!IsBegin(lines[i].text) && IsEnd(lines[i].text) <==> i == e)
    {
      MarkersExactly(lines, i);
    }
  }

  lemma OneOfEach(lines: seq<FileLine>, b: nat, e: nat)
    requires Find(lines) == Block(b, e)
    ensures b < e < |lines| && Begins(lines) == [b] && Ends(lines) == [e]
  {
    hide IsBegin, IsEnd, Begins, Ends;
    FoundInRange(lines);
  }

  lemma MarkedFound(lines: seq<FileLine>, b: nat, e: nat)
    requires MarkedBy(lines, b, e)
    ensures Find(lines) == Block(b, e)
  {
    hide IsBegin, IsEnd, Find;
    var (pre, inner, post) := (lines[..b], lines[b + 1..e], lines[e + 1..]);
    assert lines == pre + [lines[b]] + inner + [lines[e]] + post;
    FindsBlock(pre, lines[b], inner, lines[e], post);
  }

  /** Inside the block, its markers included. */
  ghost predicate InBlock(lines: seq<FileLine>, i: nat) {
    exists b: nat, e: nat :: MarkedBy(lines, b, e) && b <= i <= e
  }

  ghost predicate Contradicted(lines: seq<FileLine>) {
    exists i: nat :: i < |lines| && !InBlock(lines, i) && NamesHostBehindAddress(lines[i].text)
  }

  /** Some marker, but not one begin and one end behind it. */
  ghost predicate Damaged(lines: seq<FileLine>) {
    !Unmarked(lines) && !exists b: nat, e: nat :: MarkedBy(lines, b, e)
  }

  lemma BlockLinesAre(lines: seq<FileLine>, i: nat)
    requires !Find(lines).Corrupt?
    ensures InBlock(lines, i) <==> Find(lines).Block? && Find(lines).begin <= i <= Find(lines).end
  {
    hide Find, MarkedBy;
    if Find(lines).Block? { FoundExactlyWhen(lines, Find(lines).begin, Find(lines).end); }
    if InBlock(lines, i) {
      var b: nat, e: nat :| MarkedBy(lines, b, e) && b <= i <= e;
      FoundExactlyWhen(lines, b, e);
    }
  }

  lemma ContradictedExactlyWhen(lines: seq<FileLine>)
    requires !Find(lines).Corrupt?
    ensures HasConflict(lines, Find(lines)) <==> Contradicted(lines)
  {
    hide Find, IsConflict, NamesHostBehindAddress, InBlock;
    forall i: nat | i < |lines|
      ensures InBlock(lines, i) <==> Find(lines).Block? && Find(lines).begin <= i <= Find(lines).end
      ensures IsConflict(lines[i].text) <==> NamesHostBehindAddress(lines[i].text)
    {
      BlockLinesAre(lines, i);
      ConflictExactlyWhen(lines[i].text);
    }
  }

  lemma DamagedExactlyWhen(lines: seq<FileLine>)
    ensures Find(lines).Corrupt? <==> Damaged(lines)
  {
    hide Find, MarkedBy, Unmarked;
    FoundExactlyWhen(lines, 0, 0);
    if Find(lines).Block? { FoundExactlyWhen(lines, Find(lines).begin, Find(lines).end); }
    if b: nat, e: nat :| MarkedBy(lines, b, e) { FoundExactlyWhen(lines, b, e); }
  }

  /** UTF-16 marks or a NUL byte. */
  predicate NotByteText(raw: string) {
    '\0' in raw || "\U{FF}\U{FE}" <= raw || "\U{FE}\U{FF}" <= raw
  }

  lemma PlainExactlyWhen(raw: string)
    ensures PlainText(raw) <==> !NotByteText(raw)
  {
    if |raw| >= 2 {
      assert raw[..2] == [raw[0], raw[1]];
      assert "\U{FF}\U{FE}" <= raw <==> raw[..2] == "\U{FF}\U{FE}";
      assert "\U{FE}\U{FF}" <= raw <==> raw[..2] == "\U{FE}\U{FF}";
    }
  }

  /** What `apply` answers, and when: a bad address, a file that is not plain text, damaged markers,
      a line outside the block that names the host behind an address - in this order - or the block. */
  lemma AnswerExactlyWhen(raw: string, ip: string, windows: bool)
    ensures var (answer, lines) := (Applied(raw, ip, windows), Lines(raw));
      var usable := exists a, b, c, d :: UsableAddress(a, b, c, d) && ip == Dotted(a, b, c, d);
      && (answer.BadAddress? <==> !usable)
      && (answer.NotPlainText? <==> usable && NotByteText(raw))
      && (answer.MarkersCorrupt? <==> usable && !NotByteText(raw) && Damaged(lines))
      && (answer.Conflicting? <==> usable && !NotByteText(raw) && !Damaged(lines) && Contradicted(lines))
      && (answer.Bytes? <==> usable && !NotByteText(raw) && !Damaged(lines) && !Contradicted(lines))
  {
    hide ValidCacheIP, PlainText, NotByteText, Find, Lines, HasConflict, Contradicted, Damaged, RenderApplied, Dominant, UsableAddress,
      Dotted;
    AddressExactlyWhen(ip);
    PlainExactlyWhen(raw);
    DamagedExactlyWhen(Lines(raw));
    if !Find(Lines(raw)).Corrupt? { ContradictedExactlyWhen(Lines(raw)); }
  }

  /** ... and `remove`: only the text and the markers matter. */
  lemma RemovalExactlyWhen(raw: string)
    ensures var (answer, lines) := (Removed(raw), Lines(raw));
      && !answer.BadAddress? && !answer.Conflicting?
      && (answer.NotPlainText? <==> NotByteText(raw))
      && (answer.MarkersCorrupt? <==> !NotByteText(raw) && Damaged(lines))
      && (answer.Bytes? && Unmarked(lines) ==> answer.raw == raw)
  {
    hide PlainText, NotByteText, Lines, Damaged, Unmarked;
    PlainExactlyWhen(raw);
    DamagedExactlyWhen(Lines(raw));
    FoundExactlyWhen(Lines(raw), 0, 0);
    hide Find;
  }

  // ---------------------------------------------------------------- what marks a block

  /** One of these markers, alone or with a remark behind it. */
  predicate Marks(t: string, markers: set<string>) {
    exists m :: m in markers && (t == m || m + " " <= t)
  }

  /** A line marks a block in any of the names the agent has had, white space around it or not. */
  lemma MarkerExactlyWhen(text: string)
    ensures IsBegin(text) <==> Marks(TrimSpace(text), {"# BEGIN steamhangar-agent", "# BEGIN steamvault-agent",
                                                       "# BEGIN steamkeep-agent", "# BEGIN steamsilo-agent"})
    ensures IsEnd(text) <==> Marks(TrimSpace(text), {"# END steamhangar-agent", "# END steamvault-agent",
                                                     "# END steamkeep-agent", "# END steamsilo-agent"})
  {
    OneMarker(text, BEGIN_PREFIX);
    OneMarker(text, "# BEGIN steamvault-agent");
    OneMarker(text, "# BEGIN steamkeep-agent");
    OneMarker(text, "# BEGIN steamsilo-agent");
    OneMarker(text, END_PREFIX);
    OneMarker(text, "# END steamvault-agent");
    OneMarker(text, "# END steamkeep-agent");
    OneMarker(text, "# END steamsilo-agent");
    hide TrimSpace, IsMarker;
  }

  lemma OneMarker(text: string, m: string)
    ensures IsMarker(text, m) <==> TrimSpace(text) == m || m + " " <= TrimSpace(text)
  {
    hide TrimSpace;
  }
}
