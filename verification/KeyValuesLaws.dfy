/** Printing and parsing: on which trees parsing gives back what was printed. */
module KeyValuesLaws {
  import opened KeyValues
  import opened Newlines
  import opened Options

  // ---------------------------------------------------------------- the printer

  function EscapeChar(c: char): string {
    if c == '\n' then "\\n"
    else if c == '\t' then "\\t"
    else if c == '\r' then "\\r"
    else if c == '"' || c == '\\' then ['\\', c]
    else [c]
  }

  function Escape(s: string): string {
    if s == "" then "" else EscapeChar(s[0]) + Escape(s[1..])
  }

  function Quote(s: string): string {
    "\"" + Escape(s) + "\""
  }

  function PrintValue(v: Value): string {
    match v
    case Text(s) => Quote(s)
    case Block(f) => "{" + Print(f) + "}"
  }

  /** Every key and text quoted and escaped, one pair a line. */
  function Print(f: Fields): string {
    match f
    case Empty => ""
    case Field(k, v, rest) => Quote(k) + " " + PrintValue(v) + "\n" + Print(rest)
  }

  function ValueTokens(v: Value): seq<Token> {
    match v
    case Text(s) => [Word(s)]
    case Block(f) => [Open] + TokensOf(f) + [Close]
  }

  function TokensOf(f: Fields): seq<Token> {
    match f
    case Empty => []
    case Field(k, v, rest) => [Word(k)] + ValueTokens(v) + TokensOf(rest)
  }

  // ---------------------------------------------------------------- tokenizing what was printed

  lemma EscapeReadsBack(c: char, tail: string)
    ensures ReadQuoted(EscapeChar(c) + tail) == Prepend([c], ReadQuoted(tail))
  {
    var whole := EscapeChar(c) + tail;
    if |EscapeChar(c)| == 2 {
      assert whole[2..] == tail && whole[0] == '\\' && Escaped(whole[1]) == [c];
    } else {
      assert whole[1..] == tail && whole[0] == c;
    }
  }

  lemma Associate(a: string, b: string, c: string)
    ensures a + b + c == a + (b + c)
  {
  }

  lemma ClosingQuote(rest: string)
    ensures ReadQuoted("\"" + rest) == Quoted("", rest)
  {
    assert ("\"" + rest)[1..] == rest;
  }

  lemma {:induction false} ReadsBack(s: string, rest: string)
    ensures ReadQuoted(Escape(s) + ("\"" + rest)) == Quoted(s, rest)
  {
    hide ReadQuoted, EscapeChar;
    if s == "" {
      assert Escape(s) + ("\"" + rest) == "\"" + rest;
      ClosingQuote(rest);
    } else {
      var close := "\"" + rest;
      ReadsBack(s[1..], rest);
      EscapeReadsBack(s[0], Escape(s[1..]) + close);
      Associate(EscapeChar(s[0]), Escape(s[1..]), close);
      assert s == [s[0]] + s[1..];
    }
  }

  lemma QuoteIsOneToken(s: string, rest: string)
    ensures Tokenize(Quote(s) + rest) == Cons(Word(s), Tokenize(rest))
  {
    hide Escape, ReadQuoted, Tokenize;
    ReadsBack(s, rest);
    QuoteParts(Escape(s), rest);
    StartsWithQuote(Quote(s) + rest);
  }

  lemma QuoteParts(escaped: string, rest: string)
    ensures var whole := "\"" + escaped + "\"" + rest;
      whole != "" && whole[0] == '"' && whole[1..] == escaped + ("\"" + rest)
  {
  }

  lemma StartsWithQuote(s: string)
    requires s != "" && s[0] == '"' && ReadQuoted(s[1..]).Quoted?
    ensures Tokenize(s) == Cons(Word(ReadQuoted(s[1..]).text), Tokenize(ReadQuoted(s[1..]).rest))
  {
    hide ReadQuoted;
  }

  lemma SpaceIsSkipped(c: char, rest: string)
    requires IsSpace(c)
    ensures Tokenize([c] + rest) == Tokenize(rest)
  {
    assert ([c] + rest)[1..] == rest;
  }

  lemma BraceIsOneToken(rest: string)
    ensures Tokenize("{" + rest) == Cons(Open, Tokenize(rest))
    ensures Tokenize("}" + rest) == Cons(Close, Tokenize(rest))
  {
    assert ("{" + rest)[1..] == rest && ("}" + rest)[1..] == rest;
  }

  lemma AfterTwice(a: seq<Token>, b: seq<Token>, more: Option<seq<Token>>)
    ensures After(a, After(b, more)) == After(a + b, more)
    ensures a != [] ==> Cons(a[0], After(a[1..], more)) == After(a, more)
  {
    if more.Some? {
      assert a + (b + more.value) == a + b + more.value;
      if a != [] { assert a == [a[0]] + a[1..] && [a[0]] + (a[1..] + more.value) == a + more.value; }
    }
  }

  lemma ConsAfter(t: Token, a: seq<Token>, more: Option<seq<Token>>)
    ensures Cons(t, After(a, more)) == After([t] + a, more)
  {
    if more.Some? { assert [t] + (a + more.value) == [t] + a + more.value; }
  }

  lemma {:induction false} ValueTokenizes(v: Value, rest: string)
    ensures Tokenize(PrintValue(v) + rest) == After(ValueTokens(v), Tokenize(rest))
    decreases v, 0
  {
    match v {
      case Text(s) =>
        QuoteIsOneToken(s, rest);
        AfterNothing(Tokenize(rest));
        ConsAfter(Word(s), [], Tokenize(rest));
        assert [Word(s)] + [] == [Word(s)];
      case Block(f) =>
        var inner := Print(f) + ("}" + rest);
        assert PrintValue(v) + rest == "{" + inner;
        BraceIsOneToken(inner);
        BraceIsOneToken(rest);
        FieldsTokenize(f, "}" + rest);
        AfterNothing(Tokenize(rest));
        ConsAfter(Close, [], Tokenize(rest));
        assert [Close] + [] == [Close];
        AfterTwice(TokensOf(f), [Close], Tokenize(rest));
        ConsAfter(Open, TokensOf(f) + [Close], Tokenize(rest));
        assert [Open] + (TokensOf(f) + [Close]) == ValueTokens(v);
    }
  }

  /** The tokens of a printed tree are the tree's own, whatever its keys and texts hold. */
  lemma {:induction false} FieldsTokenize(f: Fields, rest: string)
    ensures Tokenize(Print(f) + rest) == After(TokensOf(f), Tokenize(rest))
    decreases f, 1
  {
    match f {
      case Empty =>
        assert Print(f) + rest == rest;
        AfterNothing(Tokenize(rest));
      case Field(k, v, more) =>
        var tail := ['\n'] + (Print(more) + rest);
        FieldsTokenize(more, rest);
        ValueTokenizes(v, tail);
        FieldTokenizes(k, v, more, rest, tail);
    }
  }

  lemma FiveParts(q: string, p: string, m: string, rest: string)
    ensures q + " " + p + "\n" + m + rest == q + ([' '] + (p + (['\n'] + (m + rest))))
  {
  }

  lemma PrintedField(k: string, v: Value, more: Fields, rest: string)
    ensures Print(Field(k, v, more)) + rest
         == Quote(k) + ([' '] + (PrintValue(v) + (['\n'] + (Print(more) + rest))))
  {
    FiveParts(Quote(k), PrintValue(v), Print(more), rest);
    hide Quote, PrintValue;
  }

  lemma FieldTokenizes(k: string, v: Value, more: Fields, rest: string, tail: string)
    requires tail == ['\n'] + (Print(more) + rest)
    requires Tokenize(Print(more) + rest) == After(TokensOf(more), Tokenize(rest))
    requires Tokenize(PrintValue(v) + tail) == After(ValueTokens(v), Tokenize(tail))
    ensures Tokenize(Print(Field(k, v, more)) + rest) == After(TokensOf(Field(k, v, more)), Tokenize(rest))
  {
    PrintedField(k, v, more, rest);
    var tokens := [Word(k)] + (ValueTokens(v) + TokensOf(more));
    assert tokens == TokensOf(Field(k, v, more));
    hide Tokenize, Quote, Print, PrintValue, TokensOf, ValueTokens, After, Cons;
    SpaceIsSkipped('\n', Print(more) + rest);
    SpaceIsSkipped(' ', PrintValue(v) + tail);
    QuoteIsOneToken(k, [' '] + (PrintValue(v) + tail));
    AfterTwice(ValueTokens(v), TokensOf(more), Tokenize(rest));
    ConsAfter(Word(k), ValueTokens(v) + TokensOf(more), Tokenize(rest));
  }

  lemma PrintedTokens(f: Fields)
    ensures Tokenize(TrimBom(Print(f))) == Some(TokensOf(f))
  {
    FieldsTokenize(f, "");
    assert Print(f) + "" == Print(f);
    assert TokensOf(f) + [] == TokensOf(f);
    if f.Field? { assert Print(f)[0] == '"'; }
  }

  /** A text whose backslashes start no known escape - a Windows path written with single ones -
      is read as it stands. */
  ghost predicate UnknownEscapesOnly(s: string) {
    forall i :: 0 <= i < |s| ==> StandsForItself(s, i)
  }

  predicate StandsForItself(s: string, i: nat)
    requires i < |s|
  {
    && s[i] != '"'
    && (s[i] == '\\' ==> i + 1 < |s| && s[i + 1] !in {'n', 't', 'r', '\\'})
  }

  lemma {:induction false} BackslashesAreKept(s: string, rest: string)
    requires UnknownEscapesOnly(s)
    ensures ReadQuoted(s + "\"" + rest) == Quoted(s, rest)
    decreases |s|
  {
    hide ReadQuoted;
    if s == "" {
      ClosingQuote(rest);
      assert s + "\"" + rest == "\"" + rest;
    } else {
      assert StandsForItself(s, 0);
      var n := if s[0] == '\\' then 2 else 1;
      if n == 2 { assert StandsForItself(s, 1); }
      BackslashesInTail(s, n);
      BackslashesAreKept(s[n..], rest);
      hide UnknownEscapesOnly;
      if n == 2 {
        KeptPair(s[0], s[1], s[2..], rest);
        assert s == [s[0], s[1]] + s[2..];
      } else {
        KeptOne(s[0], s[1..], rest);
        assert s == [s[0]] + s[1..];
      }
    }
  }

  lemma BackslashesInTail(s: string, n: nat)
    requires UnknownEscapesOnly(s) && n <= |s|
    ensures UnknownEscapesOnly(s[n..])
  {
    var t := s[n..];
    forall i | 0 <= i < |t| ensures StandsForItself(t, i) {
      assert StandsForItself(s, n + i) && t[i] == s[n + i];
      if t[i] == '\\' { assert t[i + 1] == s[n + i + 1]; }
    }
  }

  lemma KeptPair(a: char, b: char, t: string, rest: string)
    requires a == '\\' && b !in {'n', 't', 'r', '\\', '"'}
    requires ReadQuoted(t + "\"" + rest) == Quoted(t, rest)
    ensures ReadQuoted([a, b] + t + "\"" + rest) == Quoted([a, b] + t, rest)
  {
    assert ([a, b] + t + "\"" + rest)[2..] == t + "\"" + rest;
  }

  lemma KeptOne(a: char, t: string, rest: string)
    requires a != '\\' && a != '"'
    requires ReadQuoted(t + "\"" + rest) == Quoted(t, rest)
    ensures ReadQuoted([a] + t + "\"" + rest) == Quoted([a] + t, rest)
  {
    assert ([a] + t + "\"" + rest)[1..] == t + "\"" + rest;
  }

  // ---------------------------------------------------------------- which trees come back

  predicate HasKey(f: Fields, key: string) {
    f.Field? && (f.key == key || HasKey(f.rest, key))
  }

  /** No key twice in one block. */
  predicate Distinct(f: Fields) {
    f.Field? ==> !HasKey(f.rest, f.key) && DistinctValue(f.value) && Distinct(f.rest)
  }

  predicate DistinctValue(v: Value) {
    v.Block? ==> Distinct(v.fields)
  }

  /** No key but a block's first looks like a conditional tag. */
  predicate NoTagKeys(f: Fields) {
    f.Field? ==> TaglessValue(f.value) && NoTagKeys(f.rest) && (f.rest.Field? ==> !IsConditionalTag(f.rest.key))
  }

  predicate TaglessValue(v: Value) {
    v.Block? ==> NoTagKeys(v.fields)
  }

  /** How many blocks deep the tree goes below the block it is in. */
  function Depth(f: Fields): nat {
    match f
    case Empty => 0
    case Field(_, v, rest) => Max(DepthOf(v), Depth(rest))
  }

  function DepthOf(v: Value): nat {
    match v
    case Text(_) => 0
    case Block(f) => 1 + Depth(f)
  }

  function Max(a: nat, b: nat): nat {
    if a >= b then a else b
  }

  /** All fields put in order into what is there: the meaning of a block with repeated keys. */
  function SetAll(acc: Fields, f: Fields): Fields
    decreases f
  {
    match f
    case Empty => acc
    case Field(k, v, rest) => SetAll(Set(acc, k, Meaning(v)), rest)
  }

  function Meaning(v: Value): Value
    decreases v
  {
    match v
    case Text(s) => Text(s)
    case Block(f) => Block(SetAll(Empty, f))
  }

  // ---------------------------------------------------------------- in step with the printer

  lemma TokensStart(f: Fields, tail: seq<Token>)
    ensures f.Field? ==> TokensOf(f) + tail != [] && (TokensOf(f) + tail)[0] == Word(f.key)
    ensures TagNext(TokensOf(f) + tail) <==> if f.Field? then IsConditionalTag(f.key) else TagNext(tail)
  {
    if f.Empty? { assert TokensOf(f) + tail == tail; }
  }

  lemma FieldTokens(k: string, v: Value, rest: Fields, tail: seq<Token>)
    ensures v.Text? ==> TokensOf(Field(k, v, rest)) + tail == [Word(k), Word(v.s)] + (TokensOf(rest) + tail)
    ensures v.Block? ==>
      TokensOf(Field(k, v, rest)) + tail == [Word(k), Open] + (TokensOf(v.fields) + ([Close] + (TokensOf(rest) + tail)))
  {
    match v {
      case Text(t) => JoinedText(Word(k), Word(t), TokensOf(rest), tail);
      case Block(f) => JoinedBlock(Word(k), TokensOf(f), TokensOf(rest), tail);
    }
  }

  lemma JoinedText(k: Token, t: Token, rest: seq<Token>, tail: seq<Token>)
    ensures [k] + [t] + rest + tail == [k, t] + (rest + tail)
  {
  }

  lemma JoinedBlock(k: Token, inner: seq<Token>, rest: seq<Token>, tail: seq<Token>)
    ensures [k] + ([Open] + inner + [Close]) + rest + tail == [k, Open] + (inner + ([Close] + (rest + tail)))
  {
  }

  /** One step of the parser over a printed text field. */
  lemma TextStep(k: string, t: string, rest: Fields, tail: seq<Token>, acc: Fields, top: bool, depth: nat)
    requires top || depth <= MAX_NESTING_DEPTH
    ensures var more := TokensOf(rest) + tail;
      ParseObject(TokensOf(Field(k, Text(t), rest)) + tail, acc, top, depth)
        == MoreStripped(ParseObject(SkipTag(more), Set(acc, k, Text(t)), top, depth), Stripped(more))
  {
    FieldTokens(k, Text(t), rest, tail);
    hide TokensOf, SkipTag, Stripped, MoreStripped, Set;
    var tokens := TokensOf(Field(k, Text(t), rest)) + tail;
    assert tokens[2..] == TokensOf(rest) + tail;
  }

  /** One step over a printed block, given how its inside parses. */
  lemma BlockStep(k: string, f: Fields, rest: Fields, tail: seq<Token>, acc: Fields, top: bool, depth: nat, inner: Parsed)
    requires top || depth <= MAX_NESTING_DEPTH
    requires inner == ParseObject(TokensOf(f) + ([Close] + (TokensOf(rest) + tail)), Empty, false, depth + 1)
    ensures ParseObject(TokensOf(Field(k, Block(f), rest)) + tail, acc, top, depth)
        == if inner.Failed? then inner
           else MoreStripped(ParseObject(SkipTag(inner.rest), Set(acc, k, Block(inner.fields)), top, depth),
                             inner.stripped + Stripped(inner.rest))
  {
    FieldTokens(k, Block(f), rest, tail);
    hide TokensOf, SkipTag, Stripped, MoreStripped, Set;
    var tokens := TokensOf(Field(k, Block(f), rest)) + tail;
    assert tokens[2..] == TokensOf(f) + ([Close] + (TokensOf(rest) + tail));
  }

  /** What follows the fields of a block that is being parsed: its brace, or nothing at the top. */
  predicate EndsBlock(tail: seq<Token>, top: bool) {
    if top then tail == [] else tail != [] && tail[0] == Close
  }

  function Rest(tail: seq<Token>, top: bool): seq<Token>
    requires EndsBlock(tail, top)
  {
    if top then [] else tail[1..]
  }

  /** Without tag-like keys the parser keeps step and gives every block its meaning. */
  lemma {:induction false} KeepsStep(f: Fields, tail: seq<Token>, acc: Fields, top: bool, depth: nat)
    requires EndsBlock(tail, top) && (top || depth <= MAX_NESTING_DEPTH) && NoTagKeys(f)
    requires depth + Depth(f) <= MAX_NESTING_DEPTH
    ensures ParseObject(TokensOf(f) + tail, acc, top, depth) == Parsed(SetAll(acc, f), Rest(tail, top), 0)
    decreases f
  {
    match f {
      case Empty => assert TokensOf(f) + tail == tail;
      case Field(k, v, rest) =>
        hide ParseObject, TokensOf, IsConditionalTag;
        var more := TokensOf(rest) + tail;
        TokensStart(rest, tail);
        KeepsStep(rest, tail, Set(acc, k, Meaning(v)), top, depth);
        match v {
          case Text(t) => TextStep(k, t, rest, tail, acc, top, depth);
          case Block(inner) =>
            KeepsStep(inner, [Close] + more, Empty, false, depth + 1);
            assert ([Close] + more)[1..] == more;
            BlockStep(k, inner, rest, tail, acc, top, depth, Parsed(SetAll(Empty, inner), more, 0));
        }
    }
  }

  /** A block nested too deeply is refused, wherever it stands, unless the parser has already lost
      step or failed before it. */
  lemma {:induction false} TooDeepIsRefused(f: Fields, tail: seq<Token>, acc: Fields, top: bool, depth: nat)
    requires EndsBlock(tail, top) && (top || depth <= MAX_NESTING_DEPTH) && NoTagKeys(f)
    requires depth + Depth(f) > MAX_NESTING_DEPTH >= depth
    ensures ParseObject(TokensOf(f) + tail, acc, top, depth) == Parsed.Failed(TooDeep)
    decreases f
  {
    match f {
      case Field(k, v, rest) =>
        hide ParseObject, TokensOf, IsConditionalTag;
        var more := TokensOf(rest) + tail;
        TokensStart(rest, tail);
        match v {
          case Text(t) =>
            TooDeepIsRefused(rest, tail, Set(acc, k, v), top, depth);
            TextStep(k, t, rest, tail, acc, top, depth);
          case Block(inner) =>
            assert ([Close] + more)[1..] == more;
            if depth + DepthOf(v) > MAX_NESTING_DEPTH {
              if depth < MAX_NESTING_DEPTH { TooDeepIsRefused(inner, [Close] + more, Empty, false, depth + 1); }
              BlockStep(k, inner, rest, tail, acc, top, depth, Parsed.Failed(TooDeep));
            } else {
              KeepsStep(inner, [Close] + more, Empty, false, depth + 1);
              BlockStep(k, inner, rest, tail, acc, top, depth, Parsed(SetAll(Empty, inner), more, 0));
              TooDeepIsRefused(rest, tail, Set(acc, k, Meaning(v)), top, depth);
            }
        }
    }
  }

  /** A tag-like key behind a value is stripped, or the parse fails. */
  lemma {:induction false} TagKeysAreStripped(f: Fields, tail: seq<Token>, acc: Fields, top: bool, depth: nat)
    requires EndsBlock(tail, top) && !NoTagKeys(f)
    ensures var p := ParseObject(TokensOf(f) + tail, acc, top, depth);
      p.Failed? || p.stripped > 0
    decreases f
  {
    if top || depth <= MAX_NESTING_DEPTH {
      var Field(k, v, rest) := f;
      var more := TokensOf(rest) + tail;
      TokensStart(rest, tail);
      match v {
        case Text(t) =>
          TextStep(k, t, rest, tail, acc, top, depth);
          if !IsTagged(rest) { TagKeysAreStripped(rest, tail, Set(acc, k, v), top, depth); }
        case Block(inner) =>
          EndsBlockHere(more);
          if !NoTagKeys(inner) {
            TagKeysAreStripped(inner, [Close] + more, Empty, false, depth + 1);
          } else if !IsTagged(rest) {
            TagKeysAreStripped(rest, tail, Set(acc, k, Meaning(v)), top, depth);
          }
          TagBehindBlock(k, inner, rest, tail, acc, top, depth);
      }
    }
  }

  lemma EndsBlockHere(more: seq<Token>)
    ensures EndsBlock([Close] + more, false) && Rest([Close] + more, false) == more
  {
  }

  lemma TagBehindBlock(k: string, inner: Fields, rest: Fields, tail: seq<Token>, acc: Fields, top: bool, depth: nat)
    requires top || depth <= MAX_NESTING_DEPTH
    requires var p := ParseObject(TokensOf(inner) + ([Close] + (TokensOf(rest) + tail)), Empty, false, depth + 1);
      !NoTagKeys(inner) ==> p.Failed? || p.stripped > 0
    requires NoTagKeys(inner) && !IsTagged(rest) ==>
      var p := ParseObject(TokensOf(rest) + tail, Set(acc, k, Meaning(Block(inner))), top, depth);
      p.Failed? || p.stripped > 0
    ensures var p := ParseObject(TokensOf(Field(k, Block(inner), rest)) + tail, acc, top, depth);
      p.Failed? || p.stripped > 0
  {
    hide ParseObject, TokensOf, NoTagKeys, KeyValues.Set, SetAll, Depth, EndsBlock, Rest;
    var more := TokensOf(rest) + tail;
    var p := ParseObject(TokensOf(inner) + ([Close] + more), Empty, false, depth + 1);
    BlockStep(k, inner, rest, tail, acc, top, depth, p);
    TokensStart(rest, tail);
    EndsBlockHere(more);
    if NoTagKeys(inner) {
      if depth >= MAX_NESTING_DEPTH {
        BeyondTheCap(TokensOf(inner) + ([Close] + more), depth + 1);
      } else if depth + 1 + Depth(inner) > MAX_NESTING_DEPTH {
        TooDeepIsRefused(inner, [Close] + more, Empty, false, depth + 1);
      } else {
        KeepsStep(inner, [Close] + more, Empty, false, depth + 1);
      }
    }
  }

  lemma BeyondTheCap(tokens: seq<Token>, depth: nat)
    requires depth > MAX_NESTING_DEPTH
    ensures ParseObject(tokens, Empty, false, depth) == Parsed.Failed(TooDeep)
  {
  }

  predicate IsTagged(f: Fields) {
    f.Field? && IsConditionalTag(f.key)
  }

  // ---------------------------------------------------------------- nothing stripped comes back

  function Cost(f: Fields): nat {
    match f
    case Empty => 0
    case Field(_, v, rest) => 1 + CostOf(v) + Cost(rest)
  }

  function CostOf(v: Value): nat {
    match v
    case Text(_) => 1
    case Block(f) => 2 + Cost(f)
  }

  lemma {:induction false} SetCosts(f: Fields, key: string, v: Value)
    ensures Cost(Set(f, key, v)) <= Cost(f) + 1 + CostOf(v)
  {
    if f.Field? && f.key != key { SetCosts(f.rest, key, v); }
  }

  lemma {:induction false} TokensCost(f: Fields)
    ensures |TokensOf(f)| == Cost(f)
    decreases f
  {
    if f.Field? {
      if f.value.Block? { TokensCost(f.value.fields); }
      TokensCost(f.rest);
    }
  }

  /** The tree never holds more than was read: what is stripped or left over is missing from it. */
  lemma {:induction false} NothingAppears(tokens: seq<Token>, acc: Fields, top: bool, depth: nat)
    ensures var p := ParseObject(tokens, acc, top, depth);
      p.Parsed? ==> Cost(p.fields) + p.stripped + |p.rest| + (if top then 0 else 1) <= Cost(acc) + |tokens|
    decreases |tokens|
  {
    if (top || depth <= MAX_NESTING_DEPTH) && |tokens| >= 2 && tokens[0].Word? {
      var key := tokens[0].s;
      match tokens[1] {
        case Close =>
        case Word(s) =>
          SetCosts(acc, key, Text(s));
          NothingAppears(SkipTag(tokens[2..]), Set(acc, key, Text(s)), top, depth);
        case Open =>
          NothingAppears(tokens[2..], Empty, false, depth + 1);
          var inner := ParseObject(tokens[2..], Empty, false, depth + 1);
          if inner.Parsed? {
            SetCosts(acc, key, Block(inner.fields));
            NothingAppears(SkipTag(inner.rest), Set(acc, key, Block(inner.fields)), top, depth);
          }
      }
    }
  }

  // ---------------------------------------------------------------- what any text parses to

  /** `kept` is `tokens` with `n` conditional tags left out. */
  ghost predicate ThinsTo(tokens: seq<Token>, kept: seq<Token>, n: nat) {
    if tokens == [] then kept == [] && n == 0
    else
      || (kept != [] && kept[0] == tokens[0] && ThinsTo(tokens[1..], kept[1..], n))
      || (n > 0 && TagNext(tokens) && ThinsTo(tokens[1..], kept, n - 1))
  }

  lemma {:induction false} ThinsJoin(a: seq<Token>, b: seq<Token>, ka: seq<Token>, kb: seq<Token>, n: nat, m: nat)
    requires ThinsTo(a, ka, n) && ThinsTo(b, kb, m)
    ensures ThinsTo(a + b, ka + kb, n + m)
  {
    if a == [] {
      assert a + b == b && ka + kb == kb;
    } else {
      assert (a + b)[1..] == a[1..] + b;
      if ka != [] && ka[0] == a[0] && ThinsTo(a[1..], ka[1..], n) {
        ThinsJoin(a[1..], b, ka[1..], kb, n, m);
        assert (ka + kb)[1..] == ka[1..] + kb;
      } else {
        ThinsJoin(a[1..], b, ka, kb, n - 1, m);
      }
    }
  }

  lemma ThinsSame(a: seq<Token>)
    requires |a| <= 2
    ensures ThinsTo(a, a, 0)
  {
    if a != [] { assert a[1..] == [] || a[1..][1..] == []; }
  }

  lemma TagThins(tokens: seq<Token>)
    ensures ThinsTo(tokens[..|tokens| - |SkipTag(tokens)|], [], Stripped(tokens))
  {
    if TagNext(tokens) { assert tokens[..1][1..] == []; }
  }

  /** The tokens a parse used: all but those it left over. */
  function Used(tokens: seq<Token>, rest: seq<Token>): seq<Token>
    requires |rest| <= |tokens|
  {
    tokens[..|tokens| - |rest|]
  }

  function EndOf(top: bool): seq<Token> {
    if top then [] else [Close]
  }

  /** `read` is what a parse that succeeds has met, in order and with repeated keys: all the tokens
      used are the tokens of `read`, with the stripped tags between them, and the result is what
      setting the fields of `read` one by one makes of it. */
  ghost predicate Reads(tokens: seq<Token>, acc: Fields, top: bool, p: Parsed, read: Fields) {
    && p.Parsed? && |p.rest| <= |tokens| && tokens[|tokens| - |p.rest|..] == p.rest
    && ThinsTo(Used(tokens, p.rest), TokensOf(read) + EndOf(top), p.stripped)
    && p.fields == SetAll(acc, read)
  }

  lemma ReadsNothing(tokens: seq<Token>, acc: Fields, top: bool, p: Parsed)
    requires if top then tokens == [] && p == Parsed(acc, [], 0)
             else tokens != [] && tokens[0] == Close && p == Parsed(acc, tokens[1..], 0)
    ensures Reads(tokens, acc, top, p, Empty)
  {
    assert TokensOf(Empty) + EndOf(top) == EndOf(top);
    assert Used(tokens, p.rest) == EndOf(top);
    ThinsSame(EndOf(top));
  }

  lemma CutRest(tokens: seq<Token>, behind: seq<Token>, rest: seq<Token>, k: nat)
    requires k <= |tokens| && behind == tokens[k..] && |rest| <= |behind| && behind[|behind| - |rest|..] == rest
    ensures Used(tokens, rest) == tokens[..k] + Used(behind, rest)
    ensures tokens[|tokens| - |rest|..] == rest
  {
  }

  lemma ReadsMeans(tokens: seq<Token>, acc: Fields, top: bool, p: Parsed, read: Fields)
    requires Reads(tokens, acc, top, p, read)
    ensures p.Parsed? && |p.rest| <= |tokens| && tokens[|tokens| - |p.rest|..] == p.rest
    ensures ThinsTo(Used(tokens, p.rest), TokensOf(read) + EndOf(top), p.stripped)
    ensures p.fields == SetAll(acc, read)
  {
  }

  lemma ReadsHolds(tokens: seq<Token>, acc: Fields, top: bool, p: Parsed, n: nat, read: Fields)
    requires p.Parsed? && |p.rest| <= |tokens| && tokens[|tokens| - |p.rest|..] == p.rest
    requires ThinsTo(Used(tokens, p.rest), TokensOf(read) + EndOf(top), n + p.stripped)
    requires p.fields == SetAll(acc, read)
    ensures Reads(tokens, acc, top, MoreStripped(p, n), read)
  {
    hide ThinsTo, TokensOf, EndOf, SetAll, Used;
  }

  /** A stretch thinned out, the optional tag behind it, and what the rest of the block reads. */
  lemma ReadsOn(tokens: seq<Token>, k: nat, kept: seq<Token>, n: nat, acc: Fields, next: Fields, top: bool,
                p: Parsed, more: Fields, read: Fields)
    requires k <= |tokens| && ThinsTo(tokens[..k], kept, n)
    requires Reads(SkipTag(tokens[k..]), next, top, p, more)
    requires TokensOf(read) == kept + TokensOf(more) && SetAll(acc, read) == SetAll(next, more)
    ensures Reads(tokens, acc, top, MoreStripped(p, n + Stripped(tokens[k..])), read)
  {
    hide *;
    var behind := tokens[k..];
    var after := SkipTag(behind);
    var t := |behind| - |after|;
    ReadsMeans(after, next, top, p, more);
    TagThins(behind);
    TagIsCut(behind);
    CutRest(behind, after, p.rest, t);
    CutRest(tokens, behind, p.rest, k);
    ThinsJoin(behind[..t], Used(after, p.rest), [], TokensOf(more) + EndOf(top), Stripped(behind), p.stripped);
    ThinsJoin(tokens[..k], Used(behind, p.rest), kept, [] + (TokensOf(more) + EndOf(top)), n, Stripped(behind) + p.stripped);
    KeptTogether(kept, TokensOf(more), EndOf(top));
    ReadsHolds(tokens, acc, top, p, n + Stripped(behind), read);
  }

  lemma TagIsCut(tokens: seq<Token>)
    ensures SkipTag(tokens) == tokens[|tokens| - |SkipTag(tokens)|..]
  {
  }

  lemma KeptTogether(a: seq<Token>, b: seq<Token>, c: seq<Token>)
    ensures a + ([] + (b + c)) == a + b + c
  {
  }

  lemma TextTokens(k: string, t: string, acc: Fields, more: Fields)
    ensures TokensOf(Field(k, Text(t), more)) == [Word(k), Word(t)] + TokensOf(more)
    ensures SetAll(acc, Field(k, Text(t), more)) == SetAll(Set(acc, k, Text(t)), more)
  {
    hide Set;
    var rest := TokensOf(more);
    assert [Word(k)] + [Word(t)] + rest == [Word(k), Word(t)] + rest;
  }

  lemma ReadsText(tokens: seq<Token>, acc: Fields, top: bool, p: Parsed, more: Fields)
    requires |tokens| >= 2 && tokens[0].Word? && tokens[1].Word?
    requires Reads(SkipTag(tokens[2..]), Set(acc, tokens[0].s, Text(tokens[1].s)), top, p, more)
    ensures Reads(tokens, acc, top, MoreStripped(p, Stripped(tokens[2..])), Field(tokens[0].s, Text(tokens[1].s), more))
  {
    hide *;
    var (k, t) := (tokens[0].s, tokens[1].s);
    assert tokens[..2] == [Word(k), Word(t)];
    ThinsSame(tokens[..2]);
    TextTokens(k, t, acc, more);
    ReadsOn(tokens, 2, tokens[..2], 0, acc, Set(acc, k, Text(t)), top, p, more, Field(k, Text(t), more));
  }

  lemma BlockSets(k: string, within: Fields, acc: Fields, more: Fields, f: Fields)
    requires f == SetAll(Empty, within)
    ensures SetAll(acc, Field(k, Block(within), more)) == SetAll(Set(acc, k, Block(f)), more)
  {
    hide Set;
  }

  lemma ReadsBlock(tokens: seq<Token>, acc: Fields, top: bool, inner: Parsed, within: Fields, p: Parsed, more: Fields)
    requires |tokens| >= 2 && tokens[0].Word? && tokens[1] == Open
    requires Reads(tokens[2..], Empty, false, inner, within)
    requires Reads(SkipTag(inner.rest), Set(acc, tokens[0].s, Block(inner.fields)), top, p, more)
    ensures Reads(tokens, acc, top, MoreStripped(p, inner.stripped + Stripped(inner.rest)),
                  Field(tokens[0].s, Block(within), more))
  {
    hide *;
    WithinIs(tokens[2..], inner, within);
    var (key, k) := (tokens[0].s, |tokens| - |inner.rest|);
    var kept := [Word(key), Open] + (TokensOf(within) + [Close]);
    BlockTokens(key, within, more);
    BlockThins(tokens, inner, within);
    UsedIs(tokens, inner.rest);
    BlockSets(key, within, acc, more, inner.fields);
    ReadsOn(tokens, k, kept, inner.stripped, acc, Set(acc, key, Block(inner.fields)), top, p, more, Field(key, Block(within), more));
  }

  lemma UsedIs(tokens: seq<Token>, rest: seq<Token>)
    requires |rest| <= |tokens|
    ensures Used(tokens, rest) == tokens[..|tokens| - |rest|]
  {
  }

  lemma WithinIs(tokens: seq<Token>, inner: Parsed, within: Fields)
    requires Reads(tokens, Empty, false, inner, within)
    ensures inner.Parsed? && inner.fields == SetAll(Empty, within) && |inner.rest| <= |tokens|
  {
  }

  /** A block's own tokens, its braces included, and where they end. */
  lemma BlockThins(tokens: seq<Token>, inner: Parsed, within: Fields)
    requires |tokens| >= 2 && tokens[0].Word? && tokens[1] == Open && Reads(tokens[2..], Empty, false, inner, within)
    ensures |inner.rest| <= |tokens| && tokens[|tokens| - |inner.rest|..] == inner.rest
    ensures ThinsTo(Used(tokens, inner.rest), [Word(tokens[0].s), Open] + (TokensOf(within) + [Close]), inner.stripped)
  {
    hide TokensOf, SetAll;
    var head := tokens[..2];
    ThinsSame(head);
    hide ThinsTo;
    assert head == [Word(tokens[0].s), Open];
    CutRest(tokens, tokens[2..], inner.rest, 2);
    ThinsJoin(head, Used(tokens[2..], inner.rest), head, TokensOf(within) + [Close], 0, inner.stripped);
  }

  lemma BlockTokens(k: string, within: Fields, more: Fields)
    ensures TokensOf(Field(k, Block(within), more)) == [Word(k), Open] + (TokensOf(within) + [Close]) + TokensOf(more)
  {
    var (inner, rest) := (TokensOf(within), TokensOf(more));
    assert [Word(k)] + ([Open] + inner + [Close]) + rest == [Word(k), Open] + (inner + [Close]) + rest;
  }

  /** Every token of a text that parses is accounted for. */
  lemma {:induction false} TokensAreAccountedFor(tokens: seq<Token>, acc: Fields, top: bool, depth: nat) returns (read: Fields)
    requires ParseObject(tokens, acc, top, depth).Parsed?
    ensures Reads(tokens, acc, top, ParseObject(tokens, acc, top, depth), read)
    decreases |tokens|
  {
    hide Reads, TokensOf, SetAll, Set, Stripped;
    var p := ParseObject(tokens, acc, top, depth);
    if tokens == [] || tokens[0] == Close {
      ReadsNothing(tokens, acc, top, p);
      read := Empty;
    } else {
      var (key, behind) := (tokens[0].s, tokens[2..]);
      match tokens[1] {
        case Word(s) =>
          var next := Set(acc, key, Text(s));
          var more := TokensAreAccountedFor(SkipTag(behind), next, top, depth);
          ReadsText(tokens, acc, top, ParseObject(SkipTag(behind), next, top, depth), more);
          read := Field(key, Text(s), more);
        case Open =>
          var inner := ParseObject(behind, Empty, false, depth + 1);
          var within := TokensAreAccountedFor(behind, Empty, false, depth + 1);
          var next := Set(acc, key, Block(inner.fields));
          var more := TokensAreAccountedFor(SkipTag(inner.rest), next, top, depth);
          ReadsBlock(tokens, acc, top, inner, within, ParseObject(SkipTag(inner.rest), next, top, depth), more);
          read := Field(key, Block(within), more);
      }
    }
  }

  // ---------------------------------------------------------------- the cap holds for any text

  lemma {:induction false} SetDepth(f: Fields, key: string, v: Value)
    ensures Depth(Set(f, key, v)) <= Max(Depth(f), DepthOf(v))
  {
    if f.Field? && f.key != key { SetDepth(f.rest, key, v); }
  }

  lemma {:induction false} ParsedIsShallow(tokens: seq<Token>, acc: Fields, top: bool, depth: nat)
    requires depth + Depth(acc) <= MAX_NESTING_DEPTH || !top
    ensures var p := ParseObject(tokens, acc, top, depth);
      p.Parsed? && depth + Depth(acc) <= MAX_NESTING_DEPTH ==> depth + Depth(p.fields) <= MAX_NESTING_DEPTH
    decreases |tokens|
  {
    hide Depth;
    var p := ParseObject(tokens, acc, top, depth);
    if p.Parsed? && depth + Depth(acc) <= MAX_NESTING_DEPTH && tokens != [] && tokens[0].Word? {
      var (key, behind) := (tokens[0].s, tokens[2..]);
      match tokens[1] {
        case Word(s) =>
          SetDepth(acc, key, Text(s));
          ParsedIsShallow(SkipTag(behind), Set(acc, key, Text(s)), top, depth);
        case Open =>
          NothingIsShallow();
          ParsedIsShallow(behind, Empty, false, depth + 1);
          var inner := ParseObject(behind, Empty, false, depth + 1);
          SetDepth(acc, key, Block(inner.fields));
          ParsedIsShallow(SkipTag(inner.rest), Set(acc, key, Block(inner.fields)), top, depth);
      }
    }
  }

  lemma NothingIsShallow()
    ensures Depth(Empty) == 0
  {
  }

  /** How deep the braces go from `level` on. */
  function Peak(tokens: seq<Token>, level: int): int {
    if tokens == [] then level
    else
      var next := match tokens[0] case Open => level + 1 case Close => level - 1 case Word(_) => level;
      var later := Peak(tokens[1..], next);
      if level >= later then level else later
  }

  lemma PeakBehindTag(tokens: seq<Token>, level: int)
    ensures Peak(SkipTag(tokens), level) >= Peak(tokens, level)
  {
  }

  /** A block that parses keeps below the cap: only what stands behind it can go deeper. */
  lemma {:induction false} ParsedKeepsBelow(tokens: seq<Token>, acc: Fields, top: bool, depth: nat)
    requires depth <= MAX_NESTING_DEPTH
    ensures var p := ParseObject(tokens, acc, top, depth);
      p.Parsed? ==> Peak(tokens, depth) <= MAX_NESTING_DEPTH || (!top && Peak(tokens, depth) <= Peak(p.rest, depth - 1))
    decreases |tokens|
  {
    hide Set, Stripped, SkipTag;
    var p := ParseObject(tokens, acc, top, depth);
    if p.Parsed? && tokens != [] && tokens[0].Word? {
      var (key, behind) := (tokens[0].s, tokens[2..]);
      assert tokens[1..][1..] == behind && tokens[1..][0] == tokens[1];
      match tokens[1] {
        case Word(s) =>
          PeakBehindTag(behind, depth);
          ParsedKeepsBelow(SkipTag(behind), Set(acc, key, Text(s)), top, depth);
        case Open =>
          var inner := ParseObject(behind, Empty, false, depth + 1);
          ParsedKeepsBelow(behind, Empty, false, depth + 1);
          PeakBehindTag(inner.rest, depth);
          ParsedKeepsBelow(SkipTag(inner.rest), Set(acc, key, Block(inner.fields)), top, depth);
      }
    }
  }

  /** The braces of a printed tree go as deep as the tree. */
  lemma {:induction false} TreePeaks(f: Fields, tail: seq<Token>, level: int)
    ensures Peak(TokensOf(f) + tail, level) >= level + Depth(f)
    ensures Peak(TokensOf(f) + tail, level) >= Peak(tail, level)
    decreases f
  {
    match f {
      case Empty => assert TokensOf(f) + tail == tail;
      case Field(k, v, rest) =>
        var more := TokensOf(rest) + tail;
        TreePeaks(rest, tail, level);
        FieldTokens(k, v, rest, tail);
        match v {
          case Text(t) => OverTwo(Word(k), Word(t), more, level);
          case Block(inner) =>
            var body := TokensOf(inner) + ([Close] + more);
            TreePeaks(inner, [Close] + more, level + 1);
            assert ([Close] + more)[1..] == more;
            hide TokensOf;
            OverTwo(Word(k), Open, body, level);
        }
    }
  }

  lemma OverTwo(a: Token, b: Token, behind: seq<Token>, level: int)
    requires a.Word? && !b.Close?
    ensures Peak([a, b] + behind, level) >= Peak(behind, if b.Open? then level + 1 else level)
  {
    var all := [a, b] + behind;
    assert all[1..] == [b] + behind && all[1..][1..] == behind;
  }

  // ---------------------------------------------------------------- meaning of distinct keys

  function Append(f: Fields, g: Fields): Fields {
    match f
    case Empty => g
    case Field(k, v, rest) => Field(k, v, Append(rest, g))
  }

  lemma {:induction false} SetNew(f: Fields, key: string, v: Value)
    requires !HasKey(f, key)
    ensures Set(f, key, v) == Append(f, Field(key, v, Empty))
  {
    if f.Field? { SetNew(f.rest, key, v); }
  }

  lemma {:induction false} AppendFacts(f: Fields, g: Fields, h: Fields, key: string)
    ensures Append(Append(f, g), h) == Append(f, Append(g, h))
    ensures HasKey(Append(f, g), key) <==> HasKey(f, key) || HasKey(g, key)
  {
    if f.Field? { AppendFacts(f.rest, g, h, key); }
  }

  predicate Apart(f: Fields, g: Fields) {
    g.Field? ==> !HasKey(f, g.key) && Apart(f, g.rest)
  }

  lemma {:induction false} ApartFrom(f: Fields, key: string, v: Value, g: Fields)
    requires Apart(f, g) && !HasKey(g, key)
    ensures Apart(Append(f, Field(key, v, Empty)), g)
  {
    if g.Field? {
      AppendFacts(f, Field(key, v, Empty), Empty, g.key);
      ApartFrom(f, key, v, g.rest);
    }
  }

  /** With distinct keys a block means itself. */
  lemma {:induction false} DistinctMeansItself(acc: Fields, f: Fields)
    requires Distinct(f) && Apart(acc, f)
    ensures SetAll(acc, f) == Append(acc, f)
    decreases f
  {
    match f {
      case Empty => AppendNothing(acc);
      case Field(k, v, rest) =>
        if v.Block? {
          ApartFromEmpty(v.fields);
          DistinctMeansItself(Empty, v.fields);
        }
        assert Meaning(v) == v;
        SetNew(acc, k, v);
        ApartFrom(acc, k, v, rest);
        DistinctMeansItself(Append(acc, Field(k, v, Empty)), rest);
        AppendFacts(acc, Field(k, v, Empty), rest, k);
    }
  }

  lemma {:induction false} AppendNothing(f: Fields)
    ensures Append(f, Empty) == f
  {
    if f.Field? { AppendNothing(f.rest); }
  }

  lemma {:induction false} ApartFromEmpty(f: Fields)
    ensures Apart(Empty, f)
  {
    if f.Field? { ApartFromEmpty(f.rest); }
  }

  // ---------------------------------------------------------------- the laws

  /** Every printed tree without tag-like keys and within the depth parses to its meaning: each key
      once, in the place of its first mention, with its last value. */
  lemma ParsesToMeaning(f: Fields)
    requires NoTagKeys(f) && Depth(f) <= MAX_NESTING_DEPTH
    ensures ParseVDF(Print(f)) == Parsed(SetAll(Empty, f), [], 0)
  {
    PrintedTokens(f);
    KeepsStep(f, [], Empty, true, 0);
    assert TokensOf(f) + [] == TokensOf(f);
  }

  /** Parsing gives back a printed tree with distinct keys exactly when it is at most 100 blocks
      deep and no key but a block's first looks like a conditional tag. */
  lemma RoundTripExactlyWhen(f: Fields)
    requires Distinct(f)
    ensures (ParseVDF(Print(f)).Parsed? && ParseVDF(Print(f)).fields == f)
       <==> Depth(f) <= MAX_NESTING_DEPTH && NoTagKeys(f)
  {
    PrintedTokens(f);
    assert TokensOf(f) + [] == TokensOf(f);
    if !NoTagKeys(f) {
      TagKeysAreStripped(f, [], Empty, true, 0);
      NothingAppears(TokensOf(f), Empty, true, 0);
      TokensCost(f);
    } else if Depth(f) > MAX_NESTING_DEPTH {
      TooDeepIsRefused(f, [], Empty, true, 0);
    } else {
      ParsesToMeaning(f);
      ApartFromEmpty(f);
      DistinctMeansItself(Empty, f);
    }
  }

  /** Whatever the text: a result is at most 100 blocks deep, and all of the text went into it. */
  lemma AnyTextParsesWithin(text: string) returns (read: Fields)
    requires ParseVDF(text).Parsed?
    ensures Depth(ParseVDF(text).fields) <= MAX_NESTING_DEPTH
    ensures Tokenize(TrimBom(text)).Some? && ThinsTo(Tokenize(TrimBom(text)).value, TokensOf(read), ParseVDF(text).stripped)
    ensures ParseVDF(text).fields == SetAll(Empty, read)
  {
    var tokens := Tokenize(TrimBom(text)).value;
    read := TokensAreAccountedFor(tokens, Empty, true, 0);
    ParsedIsShallow(tokens, Empty, true, 0);
    assert Used(tokens, []) == tokens && TokensOf(read) + [] == TokensOf(read);
  }

  /** Whatever the text: braces that nest deeper than 100 are refused. */
  lemma DeepTextIsRefused(text: string)
    requires Tokenize(TrimBom(text)).Some? && Peak(Tokenize(TrimBom(text)).value, 0) > MAX_NESTING_DEPTH
    ensures ParseVDF(text).Failed?
  {
    ParsedKeepsBelow(Tokenize(TrimBom(text)).value, Empty, true, 0);
  }

  /** A printed tree that is too deep is refused, and with the depth error unless a stripped key has
      put the parser out of step before. */
  lemma DeeperIsRefused(f: Fields)
    requires Depth(f) > MAX_NESTING_DEPTH
    ensures ParseVDF(Print(f)).Failed?
    ensures NoTagKeys(f) ==> ParseVDF(Print(f)) == Parsed.Failed(TooDeep)
  {
    PrintedTokens(f);
    assert TokensOf(f) + [] == TokensOf(f);
    TreePeaks(f, [], 0);
    DeepTextIsRefused(Print(f));
    if NoTagKeys(f) { TooDeepIsRefused(f, [], Empty, true, 0); }
  }

  /** For one: the second pair of this block does not come back. */
  lemma TagLikeKeyIsLost()
    ensures var f := Field("a", Text("1"), Field("[b]", Text("2"), Empty));
      Distinct(f) && Depth(f) <= MAX_NESTING_DEPTH
      && !(ParseVDF(Print(f)).Parsed? && ParseVDF(Print(f)).fields == f)
  {
    var f := Field("a", Text("1"), Field("[b]", Text("2"), Empty));
    assert "a"[0] == 'a' && "[b]"[0] == '[';
    RoundTripExactlyWhen(f);
  }
}
