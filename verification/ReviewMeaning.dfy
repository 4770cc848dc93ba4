/** What the review parser promises, without its own functions: delimiters, sections and refusals. */
module ReviewMeaning {
  import opened DedupeIncludes
  import opened Options
  import opened ReviewDoc
  import opened ReviewRoundTrip
  import opened Seqs
  import opened Text

  // --- the delimiter line, as a regular expression -----------------------------------------

  const WORD := "abcdefghijklmnopqrstuvwxyz" + ("ABCDEFGHIJKLMNOPQRSTUVWXYZ" + "0123456789_")

  const TERMINATORS := "\n\r\U{2028}\U{2029}"

  lemma WordsAreListed(c: char)
    ensures IsWord(c) <==> c in WORD
  {
    hide WORD;
    SmallLetters(c);
    LargeLetters(c);
    WordParts(c);
  }

  lemma SmallLetters(c: char)
    ensures c in "abcdefghijklmnopqrstuvwxyz" <==> 'a' <= c <= 'z'
  {
    var s := "abcdefghijklmnopqrstuvwxyz";
    if 'a' <= c <= 'z' {
      assert s[c as int - 97] == c;
    }
  }

  lemma LargeLetters(c: char)
    ensures c in "ABCDEFGHIJKLMNOPQRSTUVWXYZ" <==> 'A' <= c <= 'Z'
  {
    var s := "ABCDEFGHIJKLMNOPQRSTUVWXYZ";
    if 'A' <= c <= 'Z' {
      assert s[c as int - 65] == c;
    }
  }

  lemma WordParts(c: char)
    ensures c in WORD
       <==> c in "abcdefghijklmnopqrstuvwxyz" || c in "ABCDEFGHIJKLMNOPQRSTUVWXYZ" || '0' <= c <= '9' || c == '_'
  {
    assert c in "0123456789_" <==> '0' <= c <= '9' || c == '_';
  }

  ghost predicate Opens(line: string, a: string, b: string, c: string, rest: string) {
    AllSpaces(a) && AllSpaces(b) && AllSpaces(c) && c != ""
    && line == "/*" + (a + ("---" + (b + ("item" + (c + rest)))))
  }

  ghost predicate Closes(rest: string, middle: string, d: string, e: string) {
    AllSpaces(d) && AllSpaces(e) && (forall i | 0 <= i < |middle| :: middle[i] !in TERMINATORS)
    && rest == middle + ("---" + (d + ("*/" + e)))
  }

  /** `id` can be group 1: no white space in it, and a word boundary behind it. */
  ghost predicate CanCapture(id: string, rest: string) {
    && id != "" && (forall i | 0 <= i < |id| :: id[i] !in SPACES)
    && (id[|id| - 1] in WORD) != (rest != "" && rest[0] in WORD)
    && exists middle, d, e :: Closes(rest, middle, d, e)
  }

  /** The line matches `^\/\*\s*---\s*item\s+(\S+)\b.*---\s*\*\/\s*$` with `id` as its group 1. */
  ghost predicate Matches(line: string, id: string) {
    exists a, b, c, rest :: Opens(line, a, b, c, id + rest) && CanCapture(id, rest)
  }

  lemma {:induction false} SkipsSpaces(a: string, rest: string)
    requires AllSpaces(a) && (rest != "" ==> rest[0] !in SPACES)
    ensures TrimStart(a + rest) == rest
  {
    if a == "" {
      assert a + rest == rest;
      if rest != "" {
        SpacesAreListed(rest[0]);
      }
    } else {
      SpacesAreListed(a[0]);
      assert (a + rest)[1..] == a[1..] + rest;
      SkipsSpaces(a[1..], rest);
    }
  }

  lemma {:induction false} DropsSpaces(text: string, a: string)
    requires AllSpaces(a) && (text != "" ==> text[|text| - 1] !in SPACES)
    ensures TrimEnd(text + a) == text
  {
    if a == "" {
      assert text + a == text;
      if text != "" {
        SpacesAreListed(text[|text| - 1]);
      }
    } else {
      var n := |a| - 1;
      SpacesAreListed(a[n]);
      assert (text + a)[..|text + a| - 1] == text + a[..n];
      DropsSpaces(text, a[..n]);
    }
  }

  lemma Solid(rest: string)
    ensures ("---" + rest)[0] !in SPACES && ("item" + rest)[0] !in SPACES
    ensures ("---" + rest)[3..] == rest && ("item" + rest)[4..] == rest && ("/*" + rest)[2..] == rest
  {
    SpacesAreListed('-');
    SpacesAreListed('i');
  }

  lemma OpensIsAfterItem(line: string, a: string, b: string, c: string, rest: string)
    requires Opens(line, a, b, c, rest) && rest != "" && rest[0] !in SPACES
    ensures AfterItem(line) == Some(rest)
  {
    hide IsSpace, TrimStart;
    var spaced := c + rest;
    var word := "item" + spaced;
    var dashes := "---" + (b + word);
    Solid(spaced);
    Solid(b + word);
    Solid(a + dashes);
    SkipsSpaces(a, dashes);
    SkipsSpaces(b, word);
    SkipsSpaces(c, rest);
    SpacesAreListed(spaced[0]);
    assert spaced[0] == c[0] && word[4] == spaced[0];
    assert "/*" <= line && "---" <= dashes && "item" <= word;
  }

  /** The white space that `text` starts with. */
  lemma Lead(text: string) returns (a: string)
    ensures AllSpaces(a) && text == a + TrimStart(text)
    ensures var rest := TrimStart(text); rest != "" ==> rest[0] !in SPACES
  {
    hide IsSpace, SPACES;
    var i := TrimStartIs(text);
    a := text[..i];
  }

  lemma AfterItemIsOpens(line: string) returns (a: string, b: string, c: string)
    requires AfterItem(line).Some?
    ensures Opens(line, a, b, c, AfterItem(line).value)
    ensures var rest := AfterItem(line).value; rest != "" ==> rest[0] !in SPACES
  {
    hide IsSpace, TrimStart, AllSpaces, SPACES;
    var text := line[2..];
    a := Lead(text);
    var dashes := TrimStart(text);
    var more := dashes[3..];
    b := Lead(more);
    var word := TrimStart(more);
    var spaced := word[4..];
    c := Lead(spaced);
    StartsWithSpace(spaced, c, TrimStart(spaced));
    assert word == "item" + spaced && dashes == "---" + more && line == "/*" + text;
  }

  lemma StartsWithSpace(text: string, a: string, rest: string)
    requires text == a + rest && text != "" && IsSpace(text[0]) && (rest != "" ==> rest[0] !in SPACES)
    ensures a != ""
  {
    SpacesAreListed(text[0]);
    assert a == "" ==> text == rest;
  }

  lemma ClosesMeaning(rest: string, middle: string, d: string, e: string)
    requires Closes(rest, middle, d, e)
    ensures ClosesDelimiter(rest)
  {
    hide IsSpace, TrimEnd;
    var dashes := middle + "---";
    var comment := dashes + (d + "*/");
    SpacesAreListed('/');
    SpacesAreListed('-');
    assert rest == comment + e && comment[|comment| - 1] == '/';
    DropsSpaces(comment, e);
    assert comment[|comment| - 2..] == "*/" && comment[..|comment| - 2] == dashes + d && dashes[|dashes| - 1] == '-';
    DropsSpaces(dashes, d);
    assert dashes[|dashes| - 3..] == "---";
    forall i | 0 <= i < |middle| ensures !IsTerminator(dashes[i]) {
      assert dashes[i] == middle[i];
      TerminatorsAreListed(middle[i]);
    }
  }

  lemma TerminatorsAreListed(c: char)
    ensures IsTerminator(c) <==> c in TERMINATORS
  {
  }

  lemma ClosesParts(rest: string) returns (middle: string, d: string, e: string)
    requires ClosesDelimiter(rest)
    ensures Closes(rest, middle, d, e)
  {
    hide IsSpace, TrimEnd;
    var i := TrimEndIs(rest);
    var comment := rest[..i];
    var inner := comment[..i - 2];
    var j := TrimEndIs(inner);
    var dashes := inner[..j];
    middle, d, e := dashes[..j - 3], inner[j..], rest[i..];
    forall k | 0 <= k < |middle| ensures middle[k] !in TERMINATORS {
      assert middle[k] == dashes[k];
      TerminatorsAreListed(middle[k]);
    }
    assert dashes == middle + "---" && inner == dashes + d && comment == inner + "*/" && rest == comment + e;
    FiveParts(middle, "---", d, "*/", e);
  }

  lemma FiveParts(a: string, b: string, c: string, d: string, e: string)
    ensures (((a + b) + c) + d) + e == a + (b + (c + (d + e)))
  {
  }

  lemma {:induction false} RunMeaning(s: string)
    ensures forall i | 0 <= i < Run(s) :: s[i] !in SPACES
    ensures Run(s) < |s| ==> s[Run(s)] in SPACES
  {
    if s == "" {
    } else {
      SpacesAreListed(s[0]);
      RunMeaning(s[1..]);
      assert forall i | 1 <= i < |s| :: s[i] == s[1..][i - 1];
    }
  }

  ghost predicate Good(s: string, k: nat)
    requires k <= |s|
  {
    k > 0 && WordBoundary(s, k) && ClosesDelimiter(s[k..])
  }

  lemma {:induction false} CaptureMeaning(s: string, k: nat) returns (n: nat)
    requires k <= |s|
    ensures n <= k && forall i | n < i <= k :: !Good(s, i)
    ensures n == 0 <==> Capture(s, k) == None
    ensures n > 0 ==> Good(s, n) && Capture(s, k) == Some(s[..n])
  {
    if k == 0 {
      n := 0;
    } else if WordBoundary(s, k) && ClosesDelimiter(s[k..]) {
      n := k;
    } else {
      n := CaptureMeaning(s, k - 1);
    }
  }

  lemma {:induction false} RunCovers(id: string, rest: string)
    requires forall i | 0 <= i < |id| :: id[i] !in SPACES
    ensures |id| <= Run(id + rest)
  {
    if id == "" {
    } else {
      SpacesAreListed(id[0]);
      assert (id + rest)[1..] == id[1..] + rest;
      RunCovers(id[1..], rest);
    }
  }

  /** A word boundary between two strings. */
  lemma BoundaryMeaning(id: string, rest: string)
    requires id != ""
    ensures WordBoundary(id + rest, |id|) <==> (id[|id| - 1] in WORD) != (rest != "" && rest[0] in WORD)
  {
    hide IsWord, WORD;
    WordsAreListed(id[|id| - 1]);
    if rest != "" {
      WordsAreListed(rest[0]);
      assert (id + rest)[|id|] == rest[0];
    }
  }

  lemma CanCloseMeaning(rest: string)
    ensures ClosesDelimiter(rest) <==> exists middle, d, e :: Closes(rest, middle, d, e)
  {
    hide ClosesDelimiter, Closes;
    if ClosesDelimiter(rest) {
      var middle, d, e := ClosesParts(rest);
    }
    if middle, d, e :| Closes(rest, middle, d, e) {
      ClosesMeaning(rest, middle, d, e);
    }
  }

  lemma GoodMeaning(id: string, rest: string)
    ensures CanCapture(id, rest) <==>
              Good(id + rest, |id|) && forall i | 0 <= i < |id| :: id[i] !in SPACES
  {
    hide WordBoundary, ClosesDelimiter, Closes, SPACES, WORD;
    assert (id + rest)[|id|..] == rest;
    CanCloseMeaning(rest);
    if id != "" {
      BoundaryMeaning(id, rest);
    }
  }

  lemma Behind(line: string, a: string, b: string, c: string, id: string, rest: string)
    requires Opens(line, a, b, c, id + rest) && CanCapture(id, rest)
    ensures AfterItem(line) == Some(id + rest)
  {
    hide AfterItem, Opens, SPACES, WORD, Closes;
    assert (id + rest)[0] == id[0] && id[0] !in SPACES;
    OpensIsAfterItem(line, a, b, c, id + rest);
  }

  lemma MatchIsGood(line: string, id: string)
    requires Matches(line, id)
    ensures AfterItem(line).Some?
    ensures var s := AfterItem(line).value; |id| <= Run(s) && Good(s, |id|) && id == s[..|id|]
  {
    var a, b, c, rest :| Opens(line, a, b, c, id + rest) && CanCapture(id, rest);
    hide *;
    hide Good;
    Behind(line, a, b, c, id, rest);
    GoodMeaning(id, rest);
    RunCovers(id, rest);
    assert (id + rest)[..|id|] == id;
  }

  lemma GoodIsMatch(line: string, k: nat)
    requires AfterItem(line).Some? && k <= Run(AfterItem(line).value) && Good(AfterItem(line).value, k)
    ensures Matches(line, AfterItem(line).value[..k])
  {
    hide AfterItem, Good, Run, Opens, CanCapture, SPACES;
    var s := AfterItem(line).value;
    var a, b, c := AfterItemIsOpens(line);
    RunMeaning(s);
    assert s == s[..k] + s[k..];
    GoodMeaning(s[..k], s[k..]);
  }

  /** The id of a line is the longest that the expression captures; without a match there is none. */
  lemma DelimiterMeaning(line: string, id: string)
    ensures DelimiterId(line) == Some(id) <==>
              Matches(line, id) && forall other | Matches(line, other) :: |other| <= |id|
    ensures DelimiterId(line) == None <==> forall other :: !Matches(line, other)
  {
    hide AfterItem, Run, Matches, Capture, WordBoundary, ClosesDelimiter;
    if AfterItem(line).Some? {
      var s := AfterItem(line).value;
      var n := CaptureMeaning(s, Run(s));
      forall other | Matches(line, other) ensures n > 0 && |other| <= n && other == s[..|other|] {
        MatchIsGood(line, other);
      }
      if n > 0 {
        GoodIsMatch(line, n);
      }
    } else {
      forall other ensures !Matches(line, other) {
        if Matches(line, other) {
          MatchIsGood(line, other);
        }
      }
    }
  }

  // --- sections -----------------------------------------------------------------------------

  /** A line is blank when it holds white space only. */
  lemma BlankMeaning(line: string)
    ensures Trim(line) == "" <==> AllSpaces(line)
  {
    hide Trim, SPACES, IsSpace;
    TrimMeaning(line);
    var t := Trim(line);
    var i, j :| 0 <= i <= j <= |line| && t == line[i..j] && AllSpaces(line[..i]) && AllSpaces(line[j..])
      && (i < j ==> line[i] !in SPACES && line[j - 1] !in SPACES);
    if t == "" {
      assert line == line[..i] + line[i..];
    }
  }

  /** What is left between the blank lines at both ends. */
  ghost predicate Core(lines: seq<string>, core: seq<string>) {
    exists i, j | 0 <= i <= j <= |lines| ::
      && core == lines[i..j] && (forall k | 0 <= k < i || j <= k < |lines| :: AllSpaces(lines[k]))
      && (i < j ==> !AllSpaces(lines[i]) && !AllSpaces(lines[j - 1]))
  }

  lemma {:induction false} StartMeaning(lines: seq<string>) returns (i: nat)
    ensures i <= |lines| && DropBlankStart(lines) == lines[i..]
    ensures forall k | 0 <= k < i :: AllSpaces(lines[k])
    ensures i < |lines| ==> !AllSpaces(lines[i])
  {
    hide AllSpaces, Trim;
    if lines == [] {
      i := 0;
    } else {
      BlankMeaning(lines[0]);
      if AllSpaces(lines[0]) {
        var n := StartMeaning(lines[1..]);
        i := n + 1;
        assert forall k | 1 <= k < |lines| :: lines[k] == lines[1..][k - 1];
      } else {
        i := 0;
      }
    }
  }

  lemma {:induction false} EndMeaning(lines: seq<string>) returns (j: nat)
    ensures j <= |lines| && DropBlankEnd(lines) == lines[..j]
    ensures forall k | j <= k < |lines| :: AllSpaces(lines[k])
    ensures j > 0 ==> !AllSpaces(lines[j - 1])
  {
    hide AllSpaces, Trim;
    if lines == [] {
      j := 0;
    } else {
      var n := |lines| - 1;
      BlankMeaning(lines[n]);
      if AllSpaces(lines[n]) {
        j := EndMeaning(lines[..n]);
        assert forall k | 0 <= k < n :: lines[k] == lines[..n][k];
      } else {
        j := |lines|;
      }
    }
  }

  lemma TrimmedMeaning(lines: seq<string>) returns (core: seq<string>)
    ensures Core(lines, core) && Trimmed(lines) == Join(core)
  {
    hide AllSpaces, DropBlankStart, DropBlankEnd, Join;
    var i := StartMeaning(lines);
    var rest := lines[i..];
    var n := EndMeaning(rest);
    var j := i + n;
    core := lines[i..j];
    assert rest[..n] == core;
    assert forall k | i <= k < |lines| :: lines[k] == rest[k - i];
  }

  /** A delimiter line and the lines below it, up to the next one. */
  datatype Cut = Cut(delimiter: string, body: seq<string>)

  function Uncut(cuts: seq<Cut>): seq<string> {
    if cuts == [] then [] else [cuts[0].delimiter] + cuts[0].body + Uncut(cuts[1..])
  }

  ghost predicate Undelimited(lines: seq<string>) {
    forall i | 0 <= i < |lines| :: DelimiterId(lines[i]) == None
  }

  ghost predicate CutAtDelimiters(lines: seq<string>, preface: seq<string>, cuts: seq<Cut>) {
    && lines == preface + Uncut(cuts) && Undelimited(preface)
    && forall i | 0 <= i < |cuts| :: DelimiterId(cuts[i].delimiter).Some? && Undelimited(cuts[i].body)
  }

  ghost function SectionsOfCuts(cuts: seq<Cut>): seq<Section>
    requires forall i | 0 <= i < |cuts| :: DelimiterId(cuts[i].delimiter).Some?
  {
    seq(|cuts|, i requires 0 <= i < |cuts| =>
      Section(DelimiterId(cuts[i].delimiter).value, Trimmed(cuts[i].body)))
  }

  lemma {:induction false} CutsAreSections(cuts: seq<Cut>, current: Option<string>, body: seq<string>)
    requires forall i | 0 <= i < |cuts| :: DelimiterId(cuts[i].delimiter).Some? && Undelimited(cuts[i].body)
    ensures SectionsFrom(Uncut(cuts), current, body) == Flushed(current, body) + SectionsOfCuts(cuts)
    decreases |cuts|
  {
    hide DelimiterId, Trimmed;
    if cuts == [] {
      NothingLast(Flushed(current, body), SectionsOfCuts(cuts));
    } else {
      var first, rest := cuts[0], Uncut(cuts[1..]);
      var id := DelimiterId(first.delimiter).value;
      Associates([first.delimiter], first.body, rest);
      assert Uncut(cuts) == [first.delimiter] + (first.body + rest) && Uncut(cuts)[1..] == first.body + rest;
      BodyLines(first.body, rest, id, []);
      NothingFirst([], first.body);
      CutsAreSections(cuts[1..], Some(id), first.body);
      FirstSection(cuts);
    }
  }

  lemma FirstSection(cuts: seq<Cut>)
    requires cuts != [] && forall i | 0 <= i < |cuts| :: DelimiterId(cuts[i].delimiter).Some?
    ensures SectionsOfCuts(cuts)
         == Flushed(DelimiterId(cuts[0].delimiter), cuts[0].body) + SectionsOfCuts(cuts[1..])
  {
    hide DelimiterId, Trimmed;
  }

  /** One section for each delimiter line, with the trimmed lines up to the next one. */
  lemma SectionsMeaning(lines: seq<string>, preface: seq<string>, cuts: seq<Cut>)
    requires CutAtDelimiters(lines, preface, cuts)
    ensures SectionsFrom(lines, None, []) == SectionsOfCuts(cuts)
  {
    BannerLines(preface, Uncut(cuts));
    CutsAreSections(cuts, None, []);
    NothingFirst(Flushed(None, []), SectionsOfCuts(cuts));
  }

  /** Every text can be cut at its delimiter lines. */
  lemma {:induction false} LinesAreCuts(lines: seq<string>) returns (preface: seq<string>, cuts: seq<Cut>)
    ensures CutAtDelimiters(lines, preface, cuts)
  {
    hide DelimiterId;
    if lines == [] {
      preface, cuts := [], [];
    } else {
      var above, more := LinesAreCuts(lines[1..]);
      assert lines == [lines[0]] + lines[1..];
      if DelimiterId(lines[0]) == None {
        preface, cuts := [lines[0]] + above, more;
        Associates([lines[0]], above, Uncut(more));
      } else {
        var first := Cut(lines[0], above);
        preface, cuts := [], [first] + more;
        assert cuts[0] == first && cuts[1..] == more;
        Associates([lines[0]], above, Uncut(more));
        NothingFirst(preface, Uncut(cuts));
      }
    }
  }
}
