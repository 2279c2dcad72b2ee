/** Valve's KeyValues text format: the tokenizer and the recursive-descent parser. */
module KeyValues {
  import opened Newlines
  import opened Options

  const MAX_NESTING_DEPTH := 100
  const BOM := '\U{FEFF}'

  // ---------------------------------------------------------------- trees

  /** An ordered map from keys to texts or nested blocks. */
  datatype Value = Text(s: string) | Block(fields: Fields)

  datatype Fields = Empty | Field(key: string, value: Value, rest: Fields)

  /** The last value of a key wins, in the place of the first. */
  function Set(f: Fields, key: string, value: Value): Fields {
    match f
    case Empty => Field(key, value, Empty)
    case Field(k, v, rest) => if k == key then Field(k, value, rest) else Field(k, v, Set(rest, key, value))
  }

  // ---------------------------------------------------------------- tokens

  datatype Token = Word(s: string) | Open | Close

  predicate IsSpace(c: char) {
    c == ' ' || c == '\t' || c == '\r' || c == '\n'
  }

  predicate StartsComment(s: string) {
    |s| >= 2 && s[0] == '/' && s[1] == '/'
  }

  /** What an escape stands for; an unknown one keeps its backslash. */
  function Escaped(c: char): string {
    if c == 'n' then "\n"
    else if c == 't' then "\t"
    else if c == 'r' then "\r"
    else if c == '"' || c == '\\' then [c]
    else ['\\', c]
  }

  datatype Quoted = Unterminated | Quoted(text: string, rest: string)

  /** What follows an opening quote. */
  function ReadQuoted(s: string): (q: Quoted)
    ensures q.Quoted? ==> |q.rest| < |s|
  {
    if s == "" then Unterminated
    else if s[0] == '\\' && |s| >= 2 then Prepend(Escaped(s[1]), ReadQuoted(s[2..]))
    else if s[0] == '"' then Quoted("", s[1..])
    else Prepend([s[0]], ReadQuoted(s[1..]))
  }

  function Prepend(text: string, q: Quoted): Quoted {
    if q.Quoted? then Quoted(text + q.text, q.rest) else Unterminated
  }

  predicate EndsBareword(s: string) {
    s == "" || IsSpace(s[0]) || s[0] == '{' || s[0] == '}' || StartsComment(s)
  }

  function BareLength(s: string): (n: nat)
    ensures n <= |s|
    ensures n > 0 <==> !EndsBareword(s)
  {
    if EndsBareword(s) then 0 else 1 + BareLength(s[1..])
  }

  /** The position behind a line comment. */
  function CommentLength(s: string): (n: nat)
    ensures n <= |s|
    ensures s != "" ==> n > 0
  {
    if FirstNewline(s) < |s| then FirstNewline(s) + 1 else |s|
  }

  function Cons(t: Token, tokens: Option<seq<Token>>): Option<seq<Token>> {
    if tokens.Some? then Some([t] + tokens.value) else None
  }

  /** The tokens of a text, or nothing for an unterminated quote. */
  function Tokenize(s: string): Option<seq<Token>>
    decreases |s|
  {
    if s == "" then Some([])
    else if IsSpace(s[0]) then Tokenize(s[1..])
    else if StartsComment(s) then Tokenize(s[CommentLength(s)..])
    else if s[0] == '{' then Cons(Open, Tokenize(s[1..]))
    else if s[0] == '}' then Cons(Close, Tokenize(s[1..]))
    else if s[0] == '"' then
      match ReadQuoted(s[1..])
      case Unterminated => None
      case Quoted(text, rest) => Cons(Word(text), Tokenize(rest))
    else Cons(Word(s[..BareLength(s)]), Tokenize(s[BareLength(s)..]))
  }

  function After(done: seq<Token>, more: Option<seq<Token>>): Option<seq<Token>> {
    if more.Some? then Some(done + more.value) else None
  }

  lemma AfterCons(done: seq<Token>, t: Token, more: Option<seq<Token>>)
    ensures After(done, Cons(t, more)) == After(done + [t], more)
  {
    if more.Some? { assert done + ([t] + more.value) == done + [t] + more.value; }
  }

  /** The quoted-string loop. */
  method ScanQuoted(text: string, start: nat) returns (closed: bool, out: string, next: nat)
    requires start <= |text|
    ensures closed <==> ReadQuoted(text[start..]).Quoted?
    ensures closed ==> start <= next <= |text| && ReadQuoted(text[start..]) == Quoted(out, text[next..])
  {
    closed, out, next := false, "", start;
    while next < |text|
      invariant start <= next <= |text|
      invariant ReadQuoted(text[start..]) == Prepend(out, ReadQuoted(text[next..]))
      decreases |text| - next
    {
      var s := text[next..];
      if s[0] == '\\' && |s| >= 2 {
        PrependTwice(out, Escaped(s[1]), ReadQuoted(s[2..]));
        assert s[2..] == text[next + 2..];
        out := out + Escaped(s[1]);
        next := next + 2;
      } else {
        assert s[1..] == text[next + 1..];
        if s[0] == '"' {
          assert out + "" == out;
          return true, out, next + 1;
        }
        PrependTwice(out, [s[0]], ReadQuoted(s[1..]));
        out := out + [s[0]];
        next := next + 1;
      }
    }
    assert text[next..] == "";
  }

  lemma PrependTwice(a: string, b: string, q: Quoted)
    ensures Prepend(a, Prepend(b, q)) == Prepend(a + b, q)
  {
    if q.Quoted? { assert a + (b + q.text) == a + b + q.text; }
  }

  method ScanBareword(text: string, start: nat) returns (next: nat)
    requires start <= |text|
    ensures next == start + BareLength(text[start..])
  {
    next := start;
    while next < |text| && !EndsBareword(text[next..])
      invariant start <= next <= |text|
      invariant start + BareLength(text[start..]) == next + BareLength(text[next..])
      decreases |text| - next
    {
      assert text[next..][1..] == text[next + 1..];
      next := next + 1;
    }
  }

  /** The tokenizer's loop over one index. */
  method TokenizeText(text: string) returns (tokens: Option<seq<Token>>)
    ensures tokens == Tokenize(text)
  {
    hide *;
    var out: seq<Token> := [];
    var i := 0;
    assert text[0..] == text;
    AfterNothing(Tokenize(text));
    while i < |text|
      invariant i <= |text|
      invariant Tokenize(text) == After(out, Tokenize(text[i..]))
      decreases |text| - i
    {
      var s := text[i..];
      TokenStep(text, i);
      if IsSpace(s[0]) {
        i := i + 1;
      } else if StartsComment(s) {
        i := i + CommentLength(s);
      } else if s[0] == '{' {
        AfterCons(out, Open, Tokenize(text[i + 1..]));
        out, i := out + [Open], i + 1;
      } else if s[0] == '}' {
        AfterCons(out, Close, Tokenize(text[i + 1..]));
        out, i := out + [Close], i + 1;
      } else if s[0] == '"' {
        var closed, word, next := ScanQuoted(text, i + 1);
        if !closed {
          AfterFailure(out);
          return None;
        }
        AfterCons(out, Word(word), Tokenize(text[next..]));
        out, i := out + [Word(word)], next;
      } else {
        var next := ScanBareword(text, i);
        AfterCons(out, Word(text[i..next]), Tokenize(text[next..]));
        out, i := out + [Word(text[i..next])], next;
      }
    }
    NoneLeft(text, out);
    tokens := Some(out);
  }

  /** What the tokenizer does at one position. */
  lemma TokenStep(text: string, i: nat)
    requires i < |text|
    ensures var s := text[i..];
      && s[0] == text[i] && s[1..] == text[i + 1..]
      && s[CommentLength(s)..] == text[i + CommentLength(s)..]
      && s[..BareLength(s)] == text[i..i + BareLength(s)]
      && (!IsSpace(s[0]) && !StartsComment(s) && s[0] != '{' && s[0] != '}' ==> BareLength(s) > 0)
      && Tokenize(s) ==
        if IsSpace(s[0]) then Tokenize(text[i + 1..])
        else if StartsComment(s) then Tokenize(text[i + CommentLength(s)..])
        else if s[0] == '{' then Cons(Open, Tokenize(text[i + 1..]))
        else if s[0] == '}' then Cons(Close, Tokenize(text[i + 1..]))
        else if s[0] != '"' then Cons(Word(text[i..i + BareLength(s)]), Tokenize(text[i + BareLength(s)..]))
        else match ReadQuoted(text[i + 1..])
          case Unterminated => None
          case Quoted(word, rest) => Cons(Word(word), Tokenize(rest))
  {
    hide IsSpace, StartsComment, CommentLength, ReadQuoted;
    var s := text[i..];
    assert s[1..] == text[i + 1..];
    assert s[CommentLength(s)..] == text[i + CommentLength(s)..];
    assert s[BareLength(s)..] == text[i + BareLength(s)..];
    assert s[..BareLength(s)] == text[i..i + BareLength(s)];
  }

  lemma AfterFailure(done: seq<Token>)
    ensures After(done, None) == None
  {
  }

  lemma NoneLeft(text: string, done: seq<Token>)
    ensures After(done, Tokenize(text[|text|..])) == Some(done)
  {
    assert text[|text|..] == "" && Tokenize("") == Some([]);
    assert done + [] == done;
  }

  lemma AfterNothing(more: Option<seq<Token>>)
    ensures After([], more) == more
  {
    if more.Some? { assert [] + more.value == more.value; }
  }

  // ---------------------------------------------------------------- parsing

  datatype Error = TooDeep | StrayClose | KeyExpected | ValueMissing | CloseAfterKey | Unclosed | UnterminatedQuote

  /** `stripped` counts the conditional tags left out on the way. */
  datatype Parsed = Parsed(fields: Fields, rest: seq<Token>, stripped: nat) | Failed(error: Error)

  predicate IsConditionalTag(s: string) {
    |s| >= 2 && s[0] == '[' && s[|s| - 1] == ']'
  }

  predicate TagNext(tokens: seq<Token>) {
    tokens != [] && tokens[0].Word? && IsConditionalTag(tokens[0].s)
  }

  /** The tokens behind a value: one conditional tag is stripped, its condition not looked at. */
  function SkipTag(tokens: seq<Token>): (rest: seq<Token>)
    ensures |rest| <= |tokens|
  {
    if TagNext(tokens) then tokens[1..] else tokens
  }

  function Stripped(tokens: seq<Token>): nat {
    if TagNext(tokens) then 1 else 0
  }

  function MoreStripped(p: Parsed, n: nat): Parsed {
    if p.Parsed? then p.(stripped := p.stripped + n) else p
  }

  function ParseObject(tokens: seq<Token>, acc: Fields, topLevel: bool, depth: nat): (p: Parsed)
    ensures p.Parsed? ==> |p.rest| <= |tokens| && (topLevel ==> p.rest == []) && (!topLevel ==> |p.rest| < |tokens|)
    decreases |tokens|
  {
    if !topLevel && depth > MAX_NESTING_DEPTH then Failed(TooDeep)
    else if tokens == [] then if topLevel then Parsed(acc, [], 0) else Failed(Unclosed)
    else match tokens[0]
      case Close => if topLevel then Failed(StrayClose) else Parsed(acc, tokens[1..], 0)
      case Open => Failed(KeyExpected)
      case Word(key) =>
        if |tokens| == 1 then Failed(ValueMissing)
        else match tokens[1]
          case Close => Failed(CloseAfterKey)
          case Word(s) =>
            var rest := tokens[2..];
            MoreStripped(ParseObject(SkipTag(rest), Set(acc, key, Text(s)), topLevel, depth), Stripped(rest))
          case Open =>
            var inner := ParseObject(tokens[2..], Empty, false, depth + 1);
            if inner.Failed? then inner
            else MoreStripped(ParseObject(SkipTag(inner.rest), Set(acc, key, Block(inner.fields)), topLevel, depth),
                              inner.stripped + Stripped(inner.rest))
  }

  function TrimBom(text: string): string {
    if text != "" && text[0] == BOM then TrimBom(text[1..]) else text
  }

  /** `ParseVDF`. */
  function ParseVDF(text: string): Parsed {
    match Tokenize(TrimBom(text))
    case None => Failed(UnterminatedQuote)
    case Some(tokens) => ParseObject(tokens, Empty, true, 0)
  }
}
