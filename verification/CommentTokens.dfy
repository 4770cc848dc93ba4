/** What stripping promises, over the tokens of a C text: literals and comments written out. */
module CommentTokens {
  import opened Seqs
  import opened StripComments

  /** A character of a literal: itself, or a backslash and the character that it escapes. */
  datatype Part = Char(c: char) | Escape(c: char)

  /** Literals and comments; one that is not closed ends with its line, or with the text. */
  datatype Token =
    | Plain(c: char)
    | Literal(quote: char, parts: seq<Part>, closed: bool)
    | ToLineEnd(text: string)
    | Delimited(text: string, closed: bool)

  function PartSource(p: Part): string {
    match p case Char(c) => [c] case Escape(c) => ['\\', c]
  }

  function PartText(parts: seq<Part>): string {
    if parts == [] then "" else PartSource(parts[0]) + PartText(parts[1..])
  }

  function Source(t: Token): string {
    match t
    case Plain(c) => [c]
    case Literal(quote, parts, closed) => [quote] + (PartText(parts) + if closed then [quote] else "")
    case ToLineEnd(text) => ['/', '/'] + text
    case Delimited(text, closed) => ['/', '*'] + (text + if closed then ['*', '/'] else "")
  }

  /** A comment leaves one blank for each of its characters, and its newlines. */
  function Blanked(comment: string): string {
    seq(|comment|, i requires 0 <= i < |comment| => if comment[i] == '\n' then '\n' else ' ')
  }

  function Shown(t: Token): string {
    if t.ToLineEnd? || t.Delimited? then Blanked(Source(t)) else Source(t)
  }

  function Sources(ts: seq<Token>): string {
    if ts == [] then "" else Source(ts[0]) + Sources(ts[1..])
  }

  function AllShown(ts: seq<Token>): string {
    if ts == [] then "" else Shown(ts[0]) + AllShown(ts[1..])
  }

  // --- which tokens a text has ---------------------------------------------------------

  predicate EndsLine(rest: string) {
    rest == "" || rest[0] == '\n'
  }

  /** A backslash escapes whatever follows it on its line. */
  predicate PartsFit(quote: char, parts: seq<Part>, rest: string) {
    parts == [] ||
    (&& PartsFit(quote, parts[1..], rest) && parts[0].c != '\n'
     && (parts[0].Char? ==>
           parts[0].c != quote && (parts[0].c == '\\' ==> EndsLine(PartText(parts[1..]) + rest))))
  }

  predicate NoCloser(text: string) {
    forall i | 0 < i < |text| :: !(text[i - 1] == '*' && text[i] == '/')
  }

  /** The token in front of `rest` is the one that the text has there. */
  predicate Fits(t: Token, rest: string) {
    match t
    case Plain(c) => c != '"' && c != '\'' && (c == '/' && rest != "" ==> rest[0] != '/' && rest[0] != '*')
    case Literal(quote, parts, closed) =>
      && (quote == '"' || quote == '\'') && (closed || EndsLine(rest))
      && PartsFit(quote, parts, (if closed then [quote] else "") + rest)
    case ToLineEnd(text) => '\n' !in text && EndsLine(rest)
    case Delimited(text, closed) => NoCloser(text) && (closed || rest == "")
  }

  predicate AllFit(ts: seq<Token>) {
    ts == [] || (Fits(ts[0], Sources(ts[1..])) && AllFit(ts[1..]))
  }

  // --- the lexer on each token -------------------------------------------------------------

  function Peek(rest: string): char {
    if rest == "" then '\n' else rest[0]
  }

  lemma BlankCons(m: Mode, c: char, rest: string)
    ensures Blank(m, [c] + rest)
         == [if InComment(m, c, Peek(rest)) then ' ' else c] + Blank(StripComments.Next(m, c, Peek(rest)), rest)
  {
    var s := [c] + rest;
    assert s[0] == c && s[1..] == rest && PeekAt(s, 0) == Peek(rest);
  }

  lemma BlankedCons(c: char, text: string)
    ensures Blanked([c] + text) == [if c == '\n' then '\n' else ' '] + Blanked(text)
  {
  }

  lemma {:induction false} LineRuns(text: string, rest: string)
    requires '\n' !in text && EndsLine(rest)
    ensures Blank(Mode.LineComment, text + rest) == Blanked(text) + Blank(Code, rest)
  {
    if text == "" {
      assert text + rest == rest && Blanked(text) == "";
      LineEnds(Mode.LineComment, rest);
    } else {
      var c, more := text[0], text[1..];
      LineRuns(more, rest);
      assert text == [c] + more && text + rest == [c] + (more + rest);
      BlankCons(Mode.LineComment, c, more + rest);
      BlankedCons(c, more);
      Associates([' '], Blanked(more), Blank(Code, rest));
    }
  }

  lemma LineEnds(m: Mode, rest: string)
    requires EndsLine(rest) && (m == Mode.LineComment || m == Str || m == Chr)
    ensures Blank(m, rest) == Blank(Code, rest)
  {
  }

  lemma {:induction false} BlockRuns(text: string, rest: string)
    requires NoCloser(text) && (text != "" && text[|text| - 1] == '*' ==> Peek(rest) != '/')
    ensures Blank(Block, text + rest) == Blanked(text) + Blank(Block, rest)
  {
    if text == "" {
      assert text + rest == rest && Blanked(text) == "";
    } else {
      var c, more := text[0], text[1..];
      assert NoCloser(more) by {
        assert forall i | 0 < i < |more| :: more[i - 1] == text[i] && more[i] == text[i + 1];
      }
      BlockRuns(more, rest);
      assert text == [c] + more && text + rest == [c] + (more + rest);
      assert more != "" ==> Peek(more + rest) == text[1];
      BlankCons(Block, c, more + rest);
      BlankedCons(c, more);
      Associates([Blanked(text)[0]], Blanked(more), Blank(Block, rest));
    }
  }

  lemma BlockCloses(rest: string)
    ensures Blank(Block, ['*', '/'] + rest) == [' ', ' '] + Blank(Code, rest)
  {
    assert ['*', '/'] + rest == ['*'] + (['/'] + rest);
    BlankCons(Block, '*', ['/'] + rest);
    BlankCons(Closing, '/', rest);
    Associates([' '], [' '], Blank(Code, rest));
  }

  function Inside(quote: char): Mode {
    if quote == '"' then Str else Chr
  }

  function Escaping(quote: char): Mode {
    if quote == '"' then StrEscape else ChrEscape
  }

  lemma PartRuns(quote: char, p: Part, rest: string)
    requires (quote == '"' || quote == '\'') && p.c != '\n'
    requires p.Char? ==> p.c != quote && (p.c == '\\' ==> EndsLine(rest))
    ensures Blank(Inside(quote), PartSource(p) + rest) == PartSource(p) + Blank(Inside(quote), rest)
  {
    match p
    case Char(c) =>
      BlankCons(Inside(quote), c, rest);
    case Escape(c) =>
      assert ['\\', c] + rest == ['\\'] + ([c] + rest);
      BlankCons(Inside(quote), '\\', [c] + rest);
      BlankCons(Escaping(quote), c, rest);
      Associates(['\\'], [c], Blank(Inside(quote), rest));
  }

  lemma {:induction false} LiteralRuns(quote: char, parts: seq<Part>, rest: string)
    requires (quote == '"' || quote == '\'') && PartsFit(quote, parts, rest)
    ensures Blank(Inside(quote), PartText(parts) + rest) == PartText(parts) + Blank(Inside(quote), rest)
  {
    if parts == [] {
      assert PartText(parts) + rest == rest;
    } else {
      var first, more := PartSource(parts[0]), PartText(parts[1..]);
      LiteralRuns(quote, parts[1..], rest);
      Associates(first, more, rest);
      PartRuns(quote, parts[0], more + rest);
      Associates(first, more, Blank(Inside(quote), rest));
    }
  }

  lemma LiteralIsKept(quote: char, parts: seq<Part>, closed: bool, rest: string)
    requires Fits(Literal(quote, parts, closed), rest)
    ensures Blank(Code, Source(Literal(quote, parts, closed)) + rest)
         == Source(Literal(quote, parts, closed)) + Blank(Code, rest)
  {
    hide Blank, PartText;
    var text, end := PartText(parts), if closed then [quote] else "";
    Associates([quote], text + end, rest);
    Associates(text, end, rest);
    BlankCons(Code, quote, text + (end + rest));
    LiteralRuns(quote, parts, end + rest);
    assert Blank(Inside(quote), end + rest) == end + Blank(Code, rest) by {
      if closed {
        BlankCons(Inside(quote), quote, rest);
      } else {
        assert end + rest == rest;
        LineEnds(Inside(quote), rest);
      }
    }
    Associates(text, end, Blank(Code, rest));
    Associates([quote], text + end, Blank(Code, rest));
  }

  lemma LineCommentIsBlanked(text: string, rest: string)
    requires Fits(ToLineEnd(text), rest)
    ensures Blank(Code, Source(ToLineEnd(text)) + rest) == Blanked(Source(ToLineEnd(text))) + Blank(Code, rest)
  {
    hide Blank;
    TwoFirst('/', '/', text, rest);
    BlankCons(Code, '/', ['/'] + (text + rest));
    BlankCons(Mode.LineComment, '/', text + rest);
    LineRuns(text, rest);
    TwoBlanked('/', '/', text);
    TwoFirst(' ', ' ', Blanked(text), Blank(Code, rest));
  }

  lemma TwoFirst(a: char, b: char, text: string, rest: string)
    ensures ([a, b] + text) + rest == [a] + ([b] + (text + rest))
  {
  }

  lemma Regrouped(a: string, b: string, c: string, d: string)
    ensures ((a + b) + c) + d == a + (b + (c + d))
  {
  }

  lemma TwoBlanked(a: char, b: char, text: string)
    requires a != '\n' && b != '\n'
    ensures Blanked([a, b] + text) == [' ', ' '] + Blanked(text)
  {
  }

  lemma BlankedAppend(a: string, b: string)
    ensures Blanked(a + b) == Blanked(a) + Blanked(b)
  {
  }

  lemma BlockIsBlanked(text: string, closed: bool, rest: string)
    requires Fits(Delimited(text, closed), rest)
    ensures Blank(Code, Source(Delimited(text, closed)) + rest)
         == Blanked(Source(Delimited(text, closed))) + Blank(Code, rest)
  {
    hide Blank;
    var end := if closed then ['*', '/'] else "";
    TwoFirst('/', '*', text + end, rest);
    Associates(text, end, rest);
    BlankCons(Code, '/', ['*'] + (text + (end + rest)));
    BlankCons(Opening, '*', text + (end + rest));
    BlockRuns(text, end + rest);
    assert Blank(Block, end + rest) == Blanked(end) + Blank(Code, rest) by {
      if closed {
        BlockCloses(rest);
        assert Blanked(end) == [' ', ' '];
      } else {
        assert end + rest == "" && Blanked(end) == "";
        NothingBlank();
      }
    }
    TwoBlanked('/', '*', text + end);
    BlankedAppend(text, end);
    TwoFirst(' ', ' ', Blanked(text + end), Blank(Code, rest));
    Associates(Blanked(text), Blanked(end), Blank(Code, rest));
  }

  lemma NothingBlank()
    ensures Blank(Block, "") == Blank(Code, "") == ""
  {
  }

  lemma PlainIsKept(c: char, rest: string)
    requires Fits(Plain(c), rest)
    ensures Blank(Code, Source(Plain(c)) + rest) == Source(Plain(c)) + Blank(Code, rest)
  {
    BlankCons(Code, c, rest);
  }

  lemma TokenIsShown(t: Token, rest: string)
    requires Fits(t, rest)
    ensures Blank(Code, Source(t) + rest) == Shown(t) + Blank(Code, rest)
  {
    hide Blank, Blanked;
    match t
    case Plain(c) => PlainIsKept(c, rest);
    case Literal(quote, parts, closed) => LiteralIsKept(quote, parts, closed, rest);
    case ToLineEnd(text) => LineCommentIsBlanked(text, rest);
    case Delimited(text, closed) => BlockIsBlanked(text, closed, rest);
  }

  /** Stripping keeps every literal, escapes included, and blanks every comment. */
  lemma {:induction false} TokensAreShown(ts: seq<Token>)
    requires AllFit(ts)
    ensures Blank(Code, Sources(ts)) == AllShown(ts)
  {
    if ts == [] {
    } else {
      TokensAreShown(ts[1..]);
      TokenIsShown(ts[0], Sources(ts[1..]));
    }
  }

  // --- every text has tokens -----------------------------------------------------------------

  lemma {:induction false} FirstLine(s: string) returns (text: string, rest: string)
    ensures s == text + rest && '\n' !in text && EndsLine(rest)
  {
    if EndsLine(s) {
      text, rest := "", s;
    } else {
      text, rest := FirstLine(s[1..]);
      text := [s[0]] + text;
    }
  }

  lemma {:induction false} FirstCloser(s: string) returns (text: string, closed: bool, rest: string)
    ensures s == (text + if closed then ['*', '/'] else "") + rest && NoCloser(text) && (closed || rest == "")
  {
    if |s| < 2 {
      text, closed, rest := s, false, "";
    } else if s[0] == '*' && s[1] == '/' {
      text, closed, rest := "", true, s[2..];
    } else {
      text, closed, rest := FirstCloser(s[1..]);
      var t := [s[0]] + text;
      assert forall i | 0 < i < |t| :: t[i] == text[i - 1];
      assert s == [s[0]] + s[1..];
      Regrouped([s[0]], text, if closed then ['*', '/'] else "", rest);
      Associates(text, if closed then ['*', '/'] else "", rest);
      assert |text| > 0 ==> text[0] == s[1];
      text := t;
    }
  }

  lemma {:induction false} FirstParts(quote: char, s: string) returns (parts: seq<Part>, closed: bool, rest: string)
    requires quote != '\\' && quote != '\n'
    ensures s == (PartText(parts) + if closed then [quote] else "") + rest
    ensures PartsFit(quote, parts, (if closed then [quote] else "") + rest) && (closed || EndsLine(rest))
  {
    if EndsLine(s) {
      parts, closed, rest := [], false, s;
    } else if s[0] == quote {
      parts, closed, rest := [], true, s[1..];
      assert s == [quote] + s[1..];
    } else {
      var p := if s[0] == '\\' && !EndsLine(s[1..]) then Escape(s[1]) else Char(s[0]);
      var n := if p.Escape? then 2 else 1;
      var more;
      more, closed, rest := FirstParts(quote, s[n..]);
      parts := [p] + more;
      var end := if closed then [quote] else "";
      assert parts[0] == p && parts[1..] == more;
      assert s == s[..n] + s[n..];
      Associates(PartText(more), end, rest);
      assert s[1..] == PartText(more) + (end + rest) || p.Escape?;
      assert PartSource(p) == s[..n];
      Associates(s[..n], PartText(more), end + rest);
      Associates(PartText(parts), end, rest);
    }
  }

  lemma FirstToken(s: string) returns (t: Token, rest: string)
    requires s != ""
    ensures s == Source(t) + rest && Fits(t, rest) && |rest| < |s|
  {
    var tail := s[1..];
    assert s == [s[0]] + tail;
    if s[0] == '"' || s[0] == '\'' {
      var parts, closed, r := FirstParts(s[0], tail);
      t, rest := Literal(s[0], parts, closed), r;
      Associates([s[0]], PartText(parts) + if closed then [s[0]] else "", rest);
    } else if s[0] == '/' && Peek(tail) == '/' {
      var text, r := FirstLine(s[2..]);
      t, rest := ToLineEnd(text), r;
      assert s == ['/', '/'] + s[2..];
      Associates(['/', '/'], text, rest);
    } else if s[0] == '/' && Peek(tail) == '*' {
      var text, closed, r := FirstCloser(s[2..]);
      t, rest := Delimited(text, closed), r;
      assert s == ['/', '*'] + s[2..];
      Associates(['/', '*'], text + if closed then ['*', '/'] else "", rest);
    } else {
      t, rest := Plain(s[0]), tail;
    }
  }

  /** Every text is a list of tokens, and is stripped as its tokens say. */
  lemma {:induction false} EveryTextHasTokens(s: string) returns (ts: seq<Token>)
    ensures AllFit(ts) && Sources(ts) == s && Blank(Code, s) == AllShown(ts)
    decreases |s|
  {
    hide Fits, Blank, Shown;
    if s == "" {
      ts := [];
    } else {
      var t, rest := FirstToken(s);
      var more := EveryTextHasTokens(rest);
      ts := [t] + more;
      assert ts[0] == t && ts[1..] == more;
    }
    TokensAreShown(ts);
  }
}
