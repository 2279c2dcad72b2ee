/** Texts nobody printed: any spacing, comments, barewords and tags, and what makes a text fail. */
module KeyValuesTexts {
  import opened KeyValues
  import opened KeyValuesLaws
  import opened Newlines
  import opened Options

  /** The pieces a text is put together from. */
  datatype Piece =
    | Blank(c: char)
    | Comment(body: string)
    | Brace(opens: bool)
    | InQuotes(s: string)
    | Bare(s: string)

  function TextOf(p: Piece): string {
    match p
    case Blank(c) => [c]
    case Comment(body) => "//" + body + "\n"
    case Brace(opens) => if opens then "{" else "}"
    case InQuotes(s) => Quote(s)
    case Bare(s) => s
  }

  function Whole(pieces: seq<Piece>, tail: string): string {
    if pieces == [] then tail else TextOf(pieces[0]) + Whole(pieces[1..], tail)
  }

  function TokenOf(p: Piece): Token
    requires !p.Blank? && !p.Comment?
  {
    match p
    case Brace(opens) => if opens then Open else Close
    case InQuotes(s) => Word(s)
    case Bare(w) => Word(w)
  }

  /** What the pieces say: blanks and comments nothing, the others one token each. */
  function Says(pieces: seq<Piece>): seq<Token> {
    if pieces == [] then []
    else if pieces[0].Blank? || pieces[0].Comment? then Says(pieces[1..])
    else [TokenOf(pieces[0])] + Says(pieces[1..])
  }

  /** A bareword: no blank, no brace and no comment in it, and not starting with a quote. */
  predicate IsBareword(w: string) {
    && w != "" && w[0] != '"'
    && (forall i :: 0 <= i < |w| ==> w[i] != ' ' && w[i] != '\t' && w[i] != '\r' && w[i] != '\n' && w[i] != '{' && w[i] != '}')
    && (forall i :: 0 <= i < |w| - 1 ==> !(w[i] == '/' && w[i + 1] == '/'))
  }

  predicate IsPiece(p: Piece) {
    match p
    case Blank(c) => c == ' ' || c == '\t' || c == '\r' || c == '\n'
    case Comment(body) => '\n' !in body
    case Brace(_) => true
    case InQuotes(_) => true
    case Bare(w) => IsBareword(w)
  }

  /** Behind a bareword comes a blank, a brace, a comment or nothing, and no comment behind a slash. */
  predicate MayFollow(w: string, next: string) {
    next == "" || next[0] == ' ' || next[0] == '\t' || next[0] == '\r' || next[0] == '\n' || next[0] == '{' || next[0] == '}'
    || ("//" <= next && (w != "" ==> w[|w| - 1] != '/'))
  }

  predicate WellPut(pieces: seq<Piece>, tail: string) {
    pieces != [] ==>
      && IsPiece(pieces[0]) && WellPut(pieces[1..], tail)
      && (pieces[0].Bare? ==> MayFollow(pieces[0].s, Whole(pieces[1..], tail)))
  }

  /** Nothing, or a comment the text ends in. */
  predicate IsTail(tail: string) {
    tail == "" || ("//" <= tail && '\n' !in tail)
  }

  // ---------------------------------------------------------------- one piece

  lemma {:induction false} NewlineBehind(body: string, rest: string)
    requires '\n' !in body
    ensures FirstNewline(body + "\n" + rest) == |body|
  {
    var s := body + "\n" + rest;
    if body == "" {
      assert s[0] == '\n';
    } else {
      NewlineBehind(body[1..], rest);
      assert s[1..] == body[1..] + "\n" + rest;
    }
  }

  lemma CommentIsSkipped(body: string, rest: string)
    requires '\n' !in body
    ensures Tokenize("//" + body + "\n" + rest) == Tokenize(rest)
  {
    var s := "//" + body + "\n" + rest;
    var c := "//" + body;
    NewlineBehind(c, rest);
    assert s[0] == '/' && s[1] == '/' && StartsComment(s);
    assert CommentLength(s) == |c| + 1;
    assert s[|c| + 1..] == rest;
  }

  lemma {:induction false} NoNewlineAtAll(s: string)
    requires '\n' !in s
    ensures FirstNewline(s) == |s|
  {
    if s != "" { NoNewlineAtAll(s[1..]); }
  }

  lemma TailIsSkipped(tail: string)
    requires IsTail(tail)
    ensures Tokenize(tail) == Some([])
  {
    if tail != "" {
      NoNewlineAtAll(tail);
      assert tail[..2] == "//" && tail[0] == '/' && tail[1] == '/';
      assert CommentLength(tail) == |tail| && tail[|tail|..] == "";
    }
  }

  lemma {:induction false} BareLengthIs(w: string, rest: string)
    requires (forall i :: 0 <= i < |w| ==> !IsSpace(w[i]) && w[i] != '{' && w[i] != '}')
    requires (forall i :: 0 <= i < |w| - 1 ==> !(w[i] == '/' && w[i + 1] == '/')) && MayFollow(w, rest)
    ensures BareLength(w + rest) == |w|
  {
    if w == "" {
      assert w + rest == rest;
      if rest != "" && "//" <= rest { assert rest[..2] == "//" && rest[0] == '/' && rest[1] == '/'; }
    } else {
      var s := w + rest;
      assert s[1..] == w[1..] + rest;
      if |w| == 1 && rest != "" { assert s[1] == rest[0]; }
      BareLengthIs(w[1..], rest);
    }
  }

  lemma BarewordIsOneToken(w: string, rest: string)
    requires IsBareword(w) && MayFollow(w, rest)
    ensures Tokenize(w + rest) == Cons(Word(w), Tokenize(rest))
  {
    var s := w + rest;
    BareLengthIs(w, rest);
    assert !EndsBareword(s);
    assert s[..|w|] == w && s[|w|..] == rest;
    hide BareLength, IsBareword, MayFollow;
  }

  // ---------------------------------------------------------------- all of them

  lemma PieceTokenizes(p: Piece, rest: string)
    requires IsPiece(p) && (p.Bare? ==> MayFollow(p.s, rest))
    ensures Tokenize(TextOf(p) + rest)
         == if p.Blank? || p.Comment? then Tokenize(rest) else Cons(TokenOf(p), Tokenize(rest))
  {
    hide Tokenize, Quote, MayFollow, IsBareword;
    match p {
      case Blank(c) => SpaceIsSkipped(c, rest);
      case Comment(body) => CommentIsSkipped(body, rest);
      case Brace(opens) => BraceIsOneToken(rest);
      case InQuotes(s) => QuoteIsOneToken(s, rest);
      case Bare(s) => BarewordIsOneToken(s, rest);
    }
  }

  /** Whatever pieces a text is put together from, it tokenizes to what they say. */
  lemma {:induction false} PiecesTokenize(pieces: seq<Piece>, tail: string)
    requires WellPut(pieces, tail) && IsTail(tail)
    ensures Tokenize(Whole(pieces, tail)) == Some(Says(pieces))
  {
    hide Tokenize, TextOf, MayFollow, IsPiece;
    if pieces == [] {
      TailIsSkipped(tail);
    } else {
      PiecesTokenize(pieces[1..], tail);
      PieceTokenizes(pieces[0], Whole(pieces[1..], tail));
    }
  }

  // ---------------------------------------------------------------- tags

  lemma TagExactlyWhen(s: string)
    ensures IsConditionalTag(s) <==> exists inner :: s == "[" + inner + "]"
  {
    if IsConditionalTag(s) { assert s == "[" + s[1..|s| - 1] + "]"; }
  }

  /** A tag behind a text value is left out, whatever it says. */
  lemma TagIsLeftOut(k: string, t: string, inner: string, rest: seq<Token>, acc: Fields, top: bool, depth: nat)
    requires top || depth <= MAX_NESTING_DEPTH
    ensures ParseObject([Word(k), Word(t), Word("[" + inner + "]")] + rest, acc, top, depth)
         == MoreStripped(ParseObject(rest, Set(acc, k, Text(t)), top, depth), 1)
  {
    var tokens := [Word(k), Word(t), Word("[" + inner + "]")] + rest;
    TagExactlyWhen("[" + inner + "]");
    assert tokens[2..][0] == Word("[" + inner + "]") && tokens[2..][1..] == rest;
    hide IsConditionalTag, Set;
  }

  // ---------------------------------------------------------------- what makes a text fail

  /** Fields without tag-like keys parse in step; what happens then happens at the tail. */
  lemma {:induction false} ReachesTail(f: Fields, tail: seq<Token>, acc: Fields, top: bool, depth: nat)
    requires (top || depth <= MAX_NESTING_DEPTH) && NoTagKeys(f) && depth + Depth(f) <= MAX_NESTING_DEPTH
    requires !TagNext(tail)
    ensures ParseObject(TokensOf(f) + tail, acc, top, depth) == ParseObject(tail, SetAll(acc, f), top, depth)
    decreases f
  {
    match f {
      case Empty => assert TokensOf(f) + tail == tail;
      case Field(k, v, rest) =>
        hide ParseObject, TokensOf, IsConditionalTag;
        var more := TokensOf(rest) + tail;
        TokensStart(rest, tail);
        ReachesTail(rest, tail, Set(acc, k, Meaning(v)), top, depth);
        match v {
          case Text(t) => TextStep(k, t, rest, tail, acc, top, depth);
          case Block(inner) =>
            KeepsStep(inner, [Close] + more, Empty, false, depth + 1);
            assert ([Close] + more)[1..] == more;
            BlockStep(k, inner, rest, tail, acc, top, depth, Parsed(SetAll(Empty, inner), more, 0));
        }
    }
  }

  /** What is wrong with a block behind its complete fields. */
  predicate Wrong(tail: seq<Token>, top: bool, error: Error) {
    match error
    case Unclosed => !top && tail == []
    case StrayClose => top && tail != [] && tail[0] == Close
    case KeyExpected => tail != [] && tail[0] == Open
    case ValueMissing => |tail| == 1 && tail[0].Word? && !TagNext(tail)
    case CloseAfterKey => |tail| >= 2 && tail[0].Word? && !TagNext(tail) && tail[1] == Close
    case TooDeep => false
    case UnterminatedQuote => false
  }

  /** Each way a block can go wrong behind any fields has its own error. */
  lemma EachErrorIsNamed(f: Fields, tail: seq<Token>, acc: Fields, top: bool, depth: nat, error: Error)
    requires (top || depth <= MAX_NESTING_DEPTH) && NoTagKeys(f) && depth + Depth(f) <= MAX_NESTING_DEPTH
    requires Wrong(tail, top, error)
    ensures ParseObject(TokensOf(f) + tail, acc, top, depth) == Failed(error)
  {
    ReachesTail(f, tail, acc, top, depth);
    hide TokensOf, NoTagKeys, SetAll;
  }

  /** A quote that is never closed, wherever it opens. */
  lemma {:induction false} OpenQuoteFails(pieces: seq<Piece>, s: string)
    requires WellPut(pieces, "\"" + Escape(s))
    ensures ParseVDF(Whole([Blank(' ')] + pieces, "\"" + Escape(s))) == Failed(UnterminatedQuote)
  {
    var text := Whole([Blank(' ')] + pieces, "\"" + Escape(s));
    assert ([Blank(' ')] + pieces)[1..] == pieces;
    assert text == " " + Whole(pieces, "\"" + Escape(s));
    NeverClosed(pieces, s);
    SpaceIsSkipped(' ', Whole(pieces, "\"" + Escape(s)));
  }

  lemma {:induction false} NeverCloses(s: string)
    ensures ReadQuoted(Escape(s)).Unterminated?
  {
    hide ReadQuoted, EscapeChar;
    if s == "" {
      NothingUnterminated();
    } else {
      EscapeReadsBack(s[0], Escape(s[1..]));
      NeverCloses(s[1..]);
    }
  }

  lemma NothingUnterminated()
    ensures ReadQuoted("").Unterminated?
  {
  }

  lemma OpensAndFails(s: string)
    ensures Tokenize("\"" + Escape(s)) == None
  {
    NeverCloses(s);
    assert ("\"" + Escape(s))[1..] == Escape(s);
    hide Escape, ReadQuoted;
  }

  lemma {:induction false} NeverClosed(pieces: seq<Piece>, s: string)
    requires WellPut(pieces, "\"" + Escape(s))
    ensures Tokenize(Whole(pieces, "\"" + Escape(s))) == None
  {
    hide Tokenize, TextOf, MayFollow, IsPiece, Escape;
    if pieces == [] {
      OpensAndFails(s);
    } else {
      NeverClosed(pieces[1..], s);
      PieceTokenizes(pieces[0], Whole(pieces[1..], "\"" + Escape(s)));
    }
  }
}
