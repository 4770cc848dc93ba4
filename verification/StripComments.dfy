/** `apps/vscode/src/session/stripComments.ts`, against a character-level lexer of C. */
module StripComments {
  import opened Seqs
  import opened Text

  // --- the reference lexer -----------------------------------------------------

  /** What the lexer is inside of; `Opening` and `Closing` are halfway through `/*` and `*/`. */
  datatype Mode = Code | Str | StrEscape | Chr | ChrEscape | LineComment | Opening | Block | Closing

  /** Literals end with their line, block comments do not. */
  function NewLine(m: Mode): Mode {
    if m == Opening || m == Block then Block else Code
  }

  /** The mode after `c`; `next` is the following character, or a newline at the end of the text. */
  function Next(m: Mode, c: char, next: char): Mode {
    if c == '\n' then NewLine(m)
    else
      match m
      case Code =>
        if c == '/' && next == '*' then Opening
        else if c == '/' && next == '/' then LineComment
        else if c == '"' then Str
        else if c == '\'' then Chr
        else Code
      case Str => if c == '\\' && next != '\n' then StrEscape else if c == '"' then Code else Str
      case StrEscape => Str
      case Chr => if c == '\\' && next != '\n' then ChrEscape else if c == '\'' then Code else Chr
      case ChrEscape => Chr
      case LineComment => LineComment
      case Opening => Block
      case Block => if c == '*' && next == '/' then Closing else Block
      case Closing => Code
  }

  /** `c` belongs to a comment, delimiters included; newlines never do. */
  predicate InComment(m: Mode, c: char, next: char) {
    c != '\n' && (m.LineComment? || m.Opening? || m.Block? || m.Closing?
                  || Next(m, c, next) == Opening || Next(m, c, next) == LineComment)
  }

  function PeekAt(s: string, i: nat): char {
    if i + 1 < |s| then s[i + 1] else '\n'
  }

  /** The mode in which position `i` of `s` is read. */
  function ModeAt(m: Mode, s: string, i: nat): Mode
    requires i <= |s|
    decreases i
  {
    if i == 0 then m else ModeAt(Next(m, s[0], PeekAt(s, 0)), s[1..], i - 1)
  }

  predicate CommentAt(m: Mode, s: string, i: nat)
    requires i < |s|
  {
    InComment(ModeAt(m, s, i), s[i], PeekAt(s, i))
  }

  /** `s` with every comment character blanked. */
  function Blank(m: Mode, s: string): (t: string)
    ensures |t| == |s|
    decreases |s|
  {
    if s == "" then ""
    else [if InComment(m, s[0], PeekAt(s, 0)) then ' ' else s[0]] + Blank(Next(m, s[0], PeekAt(s, 0)), s[1..])
  }

  // --- the stripper --------------------------------------------------------------

  datatype State = NormalState | StringState | CharState

  function AsMode(inBlockComment: bool, state: State): Mode {
    if inBlockComment then Block
    else match state { case NormalState => Code case StringState => Str case CharState => Chr }
  }

  function BlankLines(m: Mode, lines: seq<string>): seq<string>
    decreases |lines|
  {
    if lines == [] then []
    else [Blank(m, lines[0])] + BlankLines(NewLine(ModeAt(m, lines[0], |lines[0]|)), lines[1..])
  }

  function Spaces(n: nat): string {
    seq(n, _ => ' ')
  }

  method StripLine(line: string, inBlock: bool, state0: State)
    returns (processed: string, inBlockComment: bool, state: State)
    requires '\n' !in line && (inBlock ==> state0 == NormalState)
    ensures processed == Blank(AsMode(inBlock, state0), line)
    ensures NewLine(AsMode(inBlockComment, state)) == NewLine(ModeAt(AsMode(inBlock, state0), line, |line|))
    ensures inBlockComment ==> state == NormalState
  {
    hide Blank;
    ghost var m0 := AsMode(inBlock, state0);
    ghost var blanked := Blank(m0, line);
    processed, inBlockComment, state := "", inBlock, state0;
    var i := 0;
    while i < |line|
      invariant 0 <= i <= |line| && (inBlockComment ==> state == NormalState)
      invariant processed == blanked[..i]
      invariant ModeAt(m0, line, i) == AsMode(inBlockComment, state)
    {
      StepAt(m0, line, i);
      TakeMore(blanked, i);
      if i + 1 < |line| {
        StepAt(m0, line, i + 1);
        TwoChars(line, i);
      }
      if inBlockComment {
        if i < |line| - 1 && line[i..i + 2] == "*/" {
          processed := processed + "  ";
          i := i + 2;
          inBlockComment, state := false, NormalState;
        } else {
          processed := processed + " ";
          i := i + 1;
        }
      } else if state == StringState {
        processed := processed + [line[i]];
        if line[i] == '\\' && i + 1 < |line| {
          processed := processed + [line[i + 1]];
          i := i + 2;
          continue;
        }
        if line[i] == '"' {
          state := NormalState;
        }
        i := i + 1;
      } else if state == CharState {
        processed := processed + [line[i]];
        if line[i] == '\\' && i + 1 < |line| {
          processed := processed + [line[i + 1]];
          i := i + 2;
          continue;
        }
        if line[i] == '\'' {
          state := NormalState;
        }
        i := i + 1;
      } else if i < |line| - 1 && line[i..i + 2] == "/*" {
        processed := processed + "  ";
        i := i + 2;
        inBlockComment := true;
      } else if i < |line| - 1 && line[i..i + 2] == "//" {
        RestIsComment(m0, line, i);
        assert blanked == blanked[..i] + blanked[i..];
        processed := processed + Spaces(|line| - i);
        return;
      } else {
        processed := processed + [line[i]];
        if line[i] == '"' {
          state := StringState;
        } else if line[i] == '\'' {
          state := CharState;
        }
        i := i + 1;
      }
    }
  }

  lemma TakeMore(s: string, i: nat)
    requires i < |s|
    ensures s[..i + 1] == s[..i] + [s[i]]
    ensures i + 1 < |s| ==> s[..i + 2] == s[..i] + [s[i], s[i + 1]] == (s[..i] + [s[i]]) + [s[i + 1]]
  {
  }

  lemma TwoChars(s: string, i: nat)
    requires i + 1 < |s|
    ensures s[i..i + 2] == [s[i], s[i + 1]]
  {
  }

  /** One position of the lexer. */
  lemma {:induction false} StepAt(m: Mode, s: string, i: nat)
    requires i < |s|
    ensures ModeAt(m, s, i + 1) == Next(ModeAt(m, s, i), s[i], PeekAt(s, i))
    ensures Blank(m, s)[i] == if CommentAt(m, s, i) then ' ' else s[i]
    decreases i
  {
    if i == 0 {
    } else {
      StepAt(Next(m, s[0], PeekAt(s, 0)), s[1..], i - 1);
    }
  }

  lemma RestIsComment(m: Mode, s: string, i: nat)
    requires '\n' !in s && i + 1 < |s| && ModeAt(m, s, i) == Code && s[i] == '/' && s[i + 1] == '/'
    ensures Blank(m, s)[i..] == Spaces(|s| - i) && ModeAt(m, s, |s|) == LineComment
  {
    StepAt(m, s, i);
    var j := i + 1;
    while j < |s|
      invariant i < j <= |s| && ModeAt(m, s, j) == LineComment
      invariant forall k | i <= k < j :: Blank(m, s)[k] == ' '
    {
      StepAt(m, s, j);
      j := j + 1;
    }
  }

  method StripCommentsPreserveLines(code: string) returns (out: string)
    ensures out == Blank(Code, code)
  {
    var lines := Split(code);
    SplitIsOneLiners(code);
    var result: seq<string> := [];
    var inBlockComment, state := false, NormalState;
    for k := 0 to |lines|
      invariant !inBlockComment || state == NormalState
      invariant state == NormalState
      invariant result + BlankLines(AsMode(inBlockComment, state), lines[k..]) == BlankLines(Code, lines)
    {
      var processed;
      assert lines[k..][1..] == lines[k + 1..];
      processed, inBlockComment, state := StripLine(lines[k], inBlockComment, state);
      Associates(result, [processed], BlankLines(NewLine(AsMode(inBlockComment, state)), lines[k + 1..]));
      result := result + [processed];
      if state == StringState || state == CharState {
        state := NormalState;
      }
    }
    NothingLast(result, BlankLines(Code, lines[|lines|..]));
    JoinSplit(code);
    BlankJoin(Code, lines);
    out := Join(result);
  }

  lemma {:induction false} BlankJoin(m: Mode, lines: seq<string>)
    requires OneLiners(lines)
    ensures Blank(m, Join(lines)) == Join(BlankLines(m, lines))
    ensures |BlankLines(m, lines)| == |lines|
    decreases |lines|
  {
    if |lines| == 0 {
    } else {
      var after := NewLine(ModeAt(m, lines[0], |lines[0]|));
      BlankJoin(after, lines[1..]);
      if |lines| > 1 {
        BlankAcrossLine(m, lines[0], Join(lines[1..]));
        assert BlankLines(m, lines)[1..] == BlankLines(after, lines[1..]);
      }
    }
  }

  lemma {:induction false} BlankAcrossLine(m: Mode, line: string, rest: string)
    requires '\n' !in line
    ensures Blank(m, line + "\n" + rest)
         == Blank(m, line) + "\n" + Blank(NewLine(ModeAt(m, line, |line|)), rest)
    decreases |line|
  {
    var s := line + "\n" + rest;
    if line == "" {
      assert s[1..] == rest;
    } else {
      assert s[1..] == line[1..] + "\n" + rest;
      assert PeekAt(s, 0) == PeekAt(line, 0);
      BlankAcrossLine(Next(m, line[0], PeekAt(line, 0)), line[1..], rest);
      Associates([Blank(m, line)[0]], Blank(Next(m, line[0], PeekAt(line, 0)), line[1..]), "\n");
    }
  }

  // --- what the reference promises ---------------------------------------------------

  /** Comment characters become blanks, everything else, newlines included, stays in place. */
  lemma OnlyCommentsChange(m: Mode, s: string, i: nat)
    requires i < |s|
    ensures Blank(m, s)[i] == if CommentAt(m, s, i) then ' ' else s[i]
    ensures CommentAt(m, s, i) ==> s[i] != '\n'
    ensures Blank(m, s)[i] == '\n' <==> s[i] == '\n'
  {
    StepAt(m, s, i);
  }

  /** The mode in which the stripped text is read where the original was read in `m`. */
  function Stripped(m: Mode): Mode {
    if m.LineComment? || m.Opening? || m.Block? || m.Closing? then Code else m
  }

  lemma StrippedStep(m: Mode, s: string)
    requires s != ""
    ensures var t := Blank(m, s);
            && !InComment(Stripped(m), t[0], PeekAt(t, 0))
            && Next(Stripped(m), t[0], PeekAt(t, 0)) == Stripped(Next(m, s[0], PeekAt(s, 0)))
  {
    var t := Blank(m, s);
    if |s| > 1 {
      OnlyCommentsChange(m, s, 1);
      OnlyCommentsChange(m, s, 0);
      assert PeekAt(t, 0) == t[1];
      assert ModeAt(m, s, 1) == Next(m, s[0], PeekAt(s, 0));
    }
  }

  /** Read again, the stripped text has no comment at all. */
  lemma {:induction false} NoCommentLeft(m: Mode, s: string, i: nat)
    requires i < |s|
    ensures !CommentAt(Stripped(m), Blank(m, s), i)
    decreases i
  {
    var t := Blank(m, s);
    StrippedStep(m, s);
    if i == 0 {
    } else {
      NoCommentLeft(Next(m, s[0], PeekAt(s, 0)), s[1..], i - 1);
      assert t[1..] == Blank(Next(m, s[0], PeekAt(s, 0)), s[1..]);
    }
  }

  /** Outside a literal the stripped text has no comment opener. */
  lemma NoOpenerLeft(s: string, i: nat)
    requires i + 1 < |s| && ModeAt(Code, Blank(Code, s), i) == Code
    ensures var t := Blank(Code, s); !(t[i] == '/' && (t[i + 1] == '*' || t[i + 1] == '/'))
  {
    NoCommentLeft(Code, s, i);
  }

  lemma StrippingIsIdempotent(s: string)
    ensures Blank(Code, Blank(Code, s)) == Blank(Code, s)
  {
    var t := Blank(Code, s);
    forall i | 0 <= i < |t| ensures Blank(Code, t)[i] == t[i] {
      NoCommentLeft(Code, s, i);
      OnlyCommentsChange(Code, t, i);
    }
  }

  /** Line structure is preserved one to one. */
  lemma SameLineLengths(s: string)
    ensures |Split(Blank(Code, s))| == |Split(s)|
    ensures forall k | 0 <= k < |Split(s)| :: |Split(Blank(Code, s))[k]| == |Split(s)[k]|
  {
    SplitIsOneLiners(s);
    JoinSplit(s);
    BlankJoin(Code, Split(s));
    BlankLinesShape(Code, Split(s));
    SplitJoin(BlankLines(Code, Split(s)));
  }

  lemma {:induction false} BlankLinesShape(m: Mode, lines: seq<string>)
    requires OneLiners(lines)
    ensures |BlankLines(m, lines)| == |lines| && OneLiners(BlankLines(m, lines))
    ensures forall k | 0 <= k < |lines| :: |BlankLines(m, lines)[k]| == |lines[k]|
    decreases |lines|
  {
    if lines == [] {
    } else {
      BlankLinesShape(NewLine(ModeAt(m, lines[0], |lines[0]|)), lines[1..]);
      forall i | 0 <= i < |lines[0]| ensures Blank(m, lines[0])[i] != '\n' {
        OnlyCommentsChange(m, lines[0], i);
      }
    }
  }
}
