/** `apps/vscode/src/apply/dedupeIncludes.ts`: duplicate `#include` lines of insertions. */
module DedupeIncludes {
  import opened Options
  import opened Patches
  import opened Seqs
  import opened Text

  /** White space and line terminators, as `String.prototype.trim` removes them. */
  predicate IsSpace(c: char) {
    var n := c as int;
    || 0x9 <= n <= 0xD || n == 0x20 || n == 0xA0 || n == 0x1680 || 0x2000 <= n <= 0x200A
    || n == 0x2028 || n == 0x2029 || n == 0x202F || n == 0x205F || n == 0x3000 || n == 0xFEFF
  }

  function TrimStart(s: string): string {
    if s != "" && IsSpace(s[0]) then TrimStart(s[1..]) else s
  }

  function TrimEnd(s: string): string {
    if s != "" && IsSpace(s[|s| - 1]) then TrimEnd(s[..|s| - 1]) else s
  }

  function Trim(s: string): string {
    TrimEnd(TrimStart(s))
  }

  predicate IsIncludeLine(line: string) {
    "#include" <= Trim(line)
  }

  function IncludesOf(text: string): set<string> {
    set i | 0 <= i < |Split(text)| && IsIncludeLine(Split(text)[i]) :: Trim(Split(text)[i])
  }

  method ExistingIncludeLines(text: string) returns (found: set<string>)
    ensures found == IncludesOf(text)
  {
    found := {};
    var lines := Split(text);
    for k := 0 to |lines|
      invariant found == set i | 0 <= i < k && IsIncludeLine(lines[i]) :: Trim(lines[i])
    {
      if IsIncludeLine(lines[k]) {
        found := found + {Trim(lines[k])};
      }
    }
  }

  predicate Duplicate(line: string, existing: set<string>) {
    IsIncludeLine(line) && Trim(line) in existing
  }

  function KeptLines(lines: seq<string>, existing: set<string>): seq<string> {
    if lines == [] then []
    else
      var last := lines[|lines| - 1];
      KeptLines(lines[..|lines| - 1], existing) + if Duplicate(last, existing) then [] else [last]
  }

  predicate AllBlank(lines: seq<string>) {
    forall i | 0 <= i < |lines| :: Trim(lines[i]) == ""
  }

  /** What is left of one hunk; nothing when only blank lines remain after a removal. */
  function DedupeHunk(h: Hunk, existing: set<string>): Option<Hunk> {
    if h.lineCount != 0 then Some(h)
    else
      var kept := KeptLines(Split(h.text), existing);
      if |kept| == |Split(h.text)| then Some(h)
      else if AllBlank(kept) then None
      else Some(h.(text := Join(kept)))
  }

  function DuplicatesIn(h: Hunk, existing: set<string>): int {
    if h.lineCount != 0 then 0 else |Split(h.text)| - |KeptLines(Split(h.text), existing)|
  }

  function Deduped(hs: seq<Hunk>, existing: set<string>): seq<Hunk> {
    if hs == [] then []
    else
      Deduped(hs[..|hs| - 1], existing)
      + match DedupeHunk(hs[|hs| - 1], existing) { case None => [] case Some(h) => [h] }
  }

  function RemovedCount(hs: seq<Hunk>, existing: set<string>): int {
    if hs == [] then 0
    else RemovedCount(hs[..|hs| - 1], existing) + DuplicatesIn(hs[|hs| - 1], existing)
  }

  method Dedupe(hs: seq<Hunk>, text: string) returns (out: seq<Hunk>, removed: int)
    ensures out == Deduped(hs, IncludesOf(text))
    ensures removed == RemovedCount(hs, IncludesOf(text))
  {
    var existing := ExistingIncludeLines(text);
    out, removed := [], 0;
    for k := 0 to |hs|
      invariant out == Deduped(hs[..k], existing)
      invariant removed == RemovedCount(hs[..k], existing)
    {
      var h := hs[k];
      assert hs[..k + 1][..k] == hs[..k];
      if h.lineCount != 0 {
        out := out + [h];
      } else {
        var lines, kept := Split(h.text), [];
        for i := 0 to |lines|
          invariant kept == KeptLines(lines[..i], existing)
          invariant removed == RemovedCount(hs[..k], existing) + i - |kept|
        {
          assert lines[..i + 1][..i] == lines[..i];
          if IsIncludeLine(lines[i]) && Trim(lines[i]) in existing {
            removed := removed + 1;
          } else {
            kept := kept + [lines[i]];
          }
        }
        assert lines[..|lines|] == lines;
        if |kept| == |lines| {
          out := out + [h];
        } else if !AllBlank(kept) {
          out := out + [h.(text := Join(kept))];
        }
      }
    }
    assert hs[..|hs|] == hs;
  }

  // --- what the filter keeps ---------------------------------------------------

  lemma {:induction false} KeptAreFresh(lines: seq<string>, existing: set<string>)
    ensures forall l | l in KeptLines(lines, existing) :: l in lines && !Duplicate(l, existing)
    ensures |KeptLines(lines, existing)| <= |lines|
    ensures |KeptLines(lines, existing)| == |lines| ==> KeptLines(lines, existing) == lines
  {
    hide Duplicate;
    if lines == [] {
    } else {
      KeptAreFresh(lines[..|lines| - 1], existing);
      assert lines == lines[..|lines| - 1] + [lines[|lines| - 1]];
    }
  }

  /** A trimmed hunk keeps its place; only insertions lose lines. */
  lemma DedupeKeepsPlace(h: Hunk, existing: set<string>)
    ensures var d := DedupeHunk(h, existing);
            && (h.lineCount > 0 ==> d == Some(h))
            && (d.Some? ==> d.value.startLine == h.startLine && d.value.lineCount == h.lineCount)
  {
  }

  lemma KeptSplits(h: Hunk, existing: set<string>)
    requires h.lineCount == 0 && KeptLines(Split(h.text), existing) != []
    ensures Split(Join(KeptLines(Split(h.text), existing))) == KeptLines(Split(h.text), existing)
  {
    var kept := KeptLines(Split(h.text), existing);
    SplitIsOneLiners(h.text);
    KeptAreFresh(Split(h.text), existing);
    forall i | 0 <= i < |kept| ensures '\n' !in kept[i] {
      assert kept[i] in kept;
    }
    SplitJoin(kept);
  }

  /** No line that an accept inserts repeats an include the document already has. */
  lemma {:induction false} NoDuplicateInserted(hs: seq<Hunk>, text: string, h: Hunk, line: string)
    requires h in Deduped(hs, IncludesOf(text)) && h.lineCount == 0
    requires line in Split(h.text) && IsIncludeLine(line)
    ensures forall i | 0 <= i < |Split(text)| :: IsIncludeLine(Split(text)[i]) ==> Trim(Split(text)[i]) != Trim(line)
  {
    var existing := IncludesOf(text);
    var last := hs[|hs| - 1];
    if h in Deduped(hs[..|hs| - 1], existing) {
      NoDuplicateInserted(hs[..|hs| - 1], text, h, line);
    } else {
      assert DedupeHunk(last, existing) == Some(h);
      KeptAreFresh(Split(last.text), existing);
      if |KeptLines(Split(last.text), existing)| != |Split(last.text)| {
        KeptSplits(last, existing);
      }
      assert !Duplicate(line, existing);
    }
  }

  /** Nothing was removed exactly when every hunk comes back as it was. */
  lemma {:induction false} NothingRemoved(hs: seq<Hunk>, existing: set<string>)
    ensures RemovedCount(hs, existing) >= 0
    ensures RemovedCount(hs, existing) == 0 <==> Deduped(hs, existing) == hs
  {
    if hs == [] {
    } else {
      var init, last := hs[..|hs| - 1], hs[|hs| - 1];
      NothingRemoved(init, existing);
      KeptAreFresh(Split(last.text), existing);
      DedupedShrinks(init, existing);
      assert hs == init + [last];
      if RemovedCount(hs, existing) != 0 && Deduped(hs, existing) == hs {
        assert DedupeHunk(last, existing).Some?;
        assert Deduped(init, existing) == init;
        assert DedupeHunk(last, existing).value == last;
        KeptSplits(last, existing);
      }
    }
  }

  lemma {:induction false} DedupedShrinks(hs: seq<Hunk>, existing: set<string>)
    ensures |Deduped(hs, existing)| <= |hs|
  {
    if hs == [] {
    } else {
      DedupedShrinks(hs[..|hs| - 1], existing);
    }
  }

  // --- what the filter drops ----------------------------------------------------

  /** ECMA-262, `WhiteSpace` and `LineTerminator`, listed one by one. */
  const SPACES :=
    "\t\n\U{0B}\U{0C}\r \U{A0}\U{1680}\U{2000}\U{2001}\U{2002}\U{2003}\U{2004}\U{2005}\U{2006}\U{2007}"
    + "\U{2008}\U{2009}\U{200A}\U{2028}\U{2029}\U{202F}\U{205F}\U{3000}\U{FEFF}"

  ghost predicate AllSpaces(s: string) {
    forall i | 0 <= i < |s| :: s[i] in SPACES
  }

  lemma SpacesAreListed(c: char)
    ensures IsSpace(c) <==> c in SPACES
  {
    var first, second :=
      "\t\n\U{0B}\U{0C}\r \U{A0}\U{1680}\U{2000}\U{2001}\U{2002}\U{2003}\U{2004}\U{2005}\U{2006}\U{2007}",
      "\U{2008}\U{2009}\U{200A}\U{2028}\U{2029}\U{202F}\U{205F}\U{3000}\U{FEFF}";
    assert c in SPACES <==> c in first || c in second;
  }

  /** What is left of `s` without the white space at both ends. */
  ghost predicate TrimOf(t: string, s: string) {
    exists i, j | 0 <= i <= j <= |s| ::
      t == s[i..j] && AllSpaces(s[..i]) && AllSpaces(s[j..]) && (i < j ==> s[i] !in SPACES && s[j - 1] !in SPACES)
  }

  lemma {:induction false} TrimStartIs(s: string) returns (i: nat)
    ensures i <= |s| && TrimStart(s) == s[i..] && AllSpaces(s[..i]) && (i < |s| ==> s[i] !in SPACES)
  {
    if s == "" {
      i := 0;
    } else {
      SpacesAreListed(s[0]);
      if IsSpace(s[0]) {
        var k := TrimStartIs(s[1..]);
        i := k + 1;
        assert s[..i] == [s[0]] + s[1..][..k];
      } else {
        i := 0;
      }
    }
  }

  lemma SpaceBehind(s: string, j: nat)
    requires s != "" && j <= |s| - 1 && AllSpaces(s[..|s| - 1][j..]) && s[|s| - 1] in SPACES
    ensures AllSpaces(s[j..])
  {
    forall k | 0 <= k < |s[j..]| ensures s[j..][k] in SPACES {
      assert k < |s| - 1 - j ==> s[j..][k] == s[..|s| - 1][j..][k];
    }
  }

  lemma {:induction false} TrimEndIs(s: string) returns (j: nat)
    ensures j <= |s| && TrimEnd(s) == s[..j] && AllSpaces(s[j..]) && (j > 0 ==> s[j - 1] !in SPACES)
  {
    hide IsSpace;
    var n := |s| - 1;
    if s == "" {
      j := 0;
    } else {
      SpacesAreListed(s[n]);
      if IsSpace(s[n]) {
        j := TrimEndIs(s[..n]);
        SpaceBehind(s, j);
      } else {
        j := |s|;
      }
    }
  }

  lemma TrimMeaning(s: string)
    ensures TrimOf(Trim(s), s)
  {
    var i := TrimStartIs(s);
    var rest := s[i..];
    var k := TrimEndIs(rest);
    var j := i + k;
    assert rest[..k] == s[i..j] && rest[k..] == s[j..];
    assert i < j ==> rest[k - 1] == s[j - 1];
  }

  /** The document has the include that the line asks for. */
  ghost predicate AlreadyThere(line: string, text: string) {
    "#include" <= Trim(line) && exists i | 0 <= i < |Split(text)| :: Trim(Split(text)[i]) == Trim(line)
  }

  /** The lines that ask for nothing that is there. */
  ghost function NotThere(lines: seq<string>, text: string): seq<string> {
    Filter(lines, line => !AlreadyThere(line, text))
  }

  lemma DuplicateMeaning(line: string, text: string)
    ensures Duplicate(line, IncludesOf(text)) <==> AlreadyThere(line, text)
  {
    if AlreadyThere(line, text) {
      var i :| 0 <= i < |Split(text)| && Trim(Split(text)[i]) == Trim(line);
      assert IsIncludeLine(Split(text)[i]);
    }
  }

  lemma {:induction false} KeptMeaning(lines: seq<string>, text: string)
    ensures KeptLines(lines, IncludesOf(text)) == NotThere(lines, text)
  {
    if lines == [] {
    } else {
      var n := |lines| - 1;
      KeptMeaning(lines[..n], text);
      DuplicateMeaning(lines[n], text);
      FilterLast(lines, line => !AlreadyThere(line, text));
    }
  }

  /**
   Of an insertion exactly the includes that the document has are dropped, the other lines stay
   in order; when only blank ones are left after that, nothing is.
   */
  lemma DedupeMeaning(h: Hunk, text: string)
    ensures var d, kept := DedupeHunk(h, IncludesOf(text)), NotThere(Split(h.text), text);
            if h.lineCount > 0 || kept == Split(h.text) then d == Some(h)
            else if forall i | 0 <= i < |kept| :: Trim(kept[i]) == "" then d == None
            else d.Some? && Split(d.value.text) == kept && d.value == h.(text := d.value.text)
  {
    KeptMeaning(Split(h.text), text);
    FilterAll(Split(h.text), line => !AlreadyThere(line, text));
    if h.lineCount == 0 && NotThere(Split(h.text), text) != [] {
      KeptSplits(h, IncludesOf(text));
    }
  }

  /** All lines that the insertions among the hunks have. */
  function InsertedLines(hs: seq<Hunk>): seq<string> {
    if hs == [] then []
    else
      var h := hs[|hs| - 1];
      InsertedLines(hs[..|hs| - 1]) + if h.lineCount == 0 then Split(h.text) else []
  }

  /** The count is the number of inserted lines that are already there; without one the hunks stay as they are. */
  lemma {:induction false} RemovedMeaning(hs: seq<Hunk>, text: string)
    ensures RemovedCount(hs, IncludesOf(text)) == |InsertedLines(hs)| - |NotThere(InsertedLines(hs), text)|
    ensures (forall i | 0 <= i < |InsertedLines(hs)| :: !AlreadyThere(InsertedLines(hs)[i], text)) ==>
              Deduped(hs, IncludesOf(text)) == hs
  {
    if hs == [] {
    } else {
      var h := hs[|hs| - 1];
      var lines := if h.lineCount == 0 then Split(h.text) else [];
      RemovedMeaning(hs[..|hs| - 1], text);
      KeptMeaning(Split(h.text), text);
      FilterAppend(InsertedLines(hs[..|hs| - 1]), lines, line => !AlreadyThere(line, text));
      FilterAll(InsertedLines(hs), line => !AlreadyThere(line, text));
      NothingRemoved(hs, IncludesOf(text));
    }
  }
}
