/** Drift of both kinds happens: an include that was already there, and a deletion, each with a repair below it. */
module ReachedDrift {
  import opened AcceptChain
  import opened ChainInvariants
  import opened ChainTheorems
  import opened CharEdits
  import opened Contract
  import opened DedupeIncludes
  import opened DriftedAccepts
  import opened EditRanges
  import opened Options
  import opened Patches
  import opened Patching
  import opened ReachedWorlds
  import opened Text

  /** Two candidates of one hunk each, the second a replacement below the first. */
  ghost predicate Below(c1: Candidate, h1: Hunk, c2: Candidate, h2: Hunk, snapshot: string) {
    && Offered(c1, snapshot) && Offered(c2, snapshot) && c1.id != c2.id
    && c1.hunks == [h1] && c2.hunks == [h2] && h2.lineCount > 0 && Above(h1, h2.startLine)
  }

  lemma OneDeduped(h: Hunk, existing: set<string>)
    ensures Deduped([h], existing) == match DedupeHunk(h, existing) { case None => [] case Some(d) => [d] }
    ensures EntriesFor([h], existing) == [Entry(h, DedupeHunk(h, existing))]
  {
    assert [h][..0] == [];
  }

  lemma OneEntry(e: Entry, startLine: int)
    ensures Drift([e], startLine) == if Above(e.listed, startLine) then Lost(e) else 0
    ensures Written([e]) == match e.written { case None => [] case Some(h) => [h] }
  {
    assert [e][..0] == [];
  }

  lemma BelowParts(c1: Candidate, h1: Hunk, c2: Candidate, h2: Hunk, snapshot: string)
    requires Below(c1, h1, c2, h2, snapshot)
    ensures Above(h1, h2.startLine) && BothOffered(c1, c2, snapshot) && c1.hunks == [h1] && c2.hunks == [h2]
    ensures forall existing: set<string> :: DedupeHunk(h2, existing) == Some(h2)
  {
  }

  lemma IsSingle(w: World, c: Candidate, h: Hunk)
    requires Inv(w) && Faithful(w) && Stored(w.session, c) && CurrentGuard(w.session, w.doc, c).Ok()
    requires c.hunks == [h] && DedupeHunk(h, IncludesOf(w.doc)) == Some(h)
    ensures Single(w, c, h)
  {
    OneDeduped(h, IncludesOf(w.doc));
  }

  /** After the first is accepted the guard of the second is open, and its row is off by what the first one lost. */
  lemma DriftIsReached(snapshot: string, c1: Candidate, h1: Hunk, c2: Candidate, h2: Hunk)
    requires Below(c1, h1, c2, h2, snapshot)
    ensures SoundRun(NewWorld(snapshot), SecondRun(c1, c2))
    ensures var w, e := Run(NewWorld(snapshot), SecondRun(c1, c2)), Entry(h1, DedupeHunk(h1, IncludesOf(snapshot)));
            && Single(w, c2, h2) && w.session.snapshot == snapshot && w.doc == Patched(snapshot, Written([e]))
            && w.ledger == [e] && Drift(w.ledger, h2.startLine) == Lost(e)
  {
    hide *;
    var w, e := Run(NewWorld(snapshot), SecondRun(c1, c2)), Entry(h1, DedupeHunk(h1, IncludesOf(snapshot)));
    BelowParts(c1, h1, c2, h2, snapshot);
    SecondIsReached(snapshot, c1, c2);
    IsSingle(w, c2, h2);
    OneDeduped(h1, IncludesOf(snapshot));
    OneEntry(e, h2.startLine);
    EntriesWritten(c1.hunks, IncludesOf(snapshot));
  }

  lemma DroppedEntry(h: Hunk, existing: set<string>)
    requires DedupeHunk(h, existing) == None
    ensures Lost(Entry(h, None)) == |Split(h.text)| >= 1 && Written([Entry(h, None)]) == []
    ensures forall startLine: LineNo :: TrueRow([], startLine) == startLine - 1
  {
    OneEntry(Entry(h, None), 1);
    LostLines(h, existing);
    assert WrittenEdits([]) == [];
  }

  /** An include that is dropped puts the next repair as many lines too far down as it has. */
  lemma IncludeDrifts(snapshot: string, c1: Candidate, h1: Hunk, c2: Candidate, h2: Hunk)
    requires Below(c1, h1, c2, h2, snapshot) && DedupeHunk(h1, IncludesOf(snapshot)) == None
    ensures SoundRun(NewWorld(snapshot), SecondRun(c1, c2))
    ensures var w := Run(NewWorld(snapshot), SecondRun(c1, c2));
            && Single(w, c2, h2) && w.doc == snapshot && TrueRow(Written(w.ledger), h2.startLine) == h2.startLine - 1
            && Drift(w.ledger, h2.startLine) == |Split(h1.text)| >= 1
  {
    hide *;
    DriftIsReached(snapshot, c1, h1, c2, h2);
    DroppedEntry(h1, IncludesOf(snapshot));
    NothingPatched(snapshot);
  }

  lemma DeletionEntry(h: Hunk, existing: set<string>, startLine: LineNo)
    requires PureDeletion(h) && Above(h, startLine)
    ensures DedupeHunk(h, existing) == Some(h) && Lost(Entry(h, Some(h))) == -1
    ensures Written([Entry(h, Some(h))]) == [h] && TrueRow([h], startLine) == startLine - h.lineCount
  {
    OneEntry(Entry(h, Some(h)), startLine);
    LostLines(h, existing);
    var es := WrittenEdits([h]);
    assert es == [WrittenEdit(h)] && es[..0] == [] && Split("") == [""];
    assert Shift(es, startLine - 1) == Growth(WrittenEdit(h), startLine - 1) == 1 - h.lineCount;
  }

  /** A pure deletion, whatever it deletes, puts every repair below it one line too far up. */
  lemma DeletionDrifts(snapshot: string, c1: Candidate, h1: Hunk, c2: Candidate, h2: Hunk)
    requires Below(c1, h1, c2, h2, snapshot) && PureDeletion(h1)
    ensures SoundRun(NewWorld(snapshot), SecondRun(c1, c2))
    ensures var w := Run(NewWorld(snapshot), SecondRun(c1, c2));
            && Single(w, c2, h2) && w.doc == Patched(snapshot, [h1])
            && TrueRow(Written(w.ledger), h2.startLine) == h2.startLine - h1.lineCount
            && Drift(w.ledger, h2.startLine) == -1
  {
    hide *;
    BelowParts(c1, h1, c2, h2, snapshot);
    DeletionEntry(h1, IncludesOf(snapshot), h2.startLine);
    DriftIsReached(snapshot, c1, h1, c2, h2);
  }

  // --- one file each -------------------------------------------------------------------------------

  lemma OneKept(line: string, existing: set<string>)
    requires Duplicate(line, existing)
    ensures KeptLines([line], existing) == []
  {
    assert [line][..0] == [];
  }

  lemma RedundantInclude(text: string, line: string)
    requires line in Split(text) && IsIncludeLine(line)
    ensures DedupeHunk(Hunk("1", 1, 0, line), IncludesOf(text)) == None
  {
    var i :| 0 <= i < |Split(text)| && Split(text)[i] == line;
    SplitIsOneLiners(text);
    assert Split(line) == [line] by {
      SplitJoin([line]);
    }
    assert Trim(line) in IncludesOf(text);
    OneKept(line, IncludesOf(text));
  }

  ghost function Including(line: string): Candidate {
    Candidate("a", "f", RepairReady, [Hunk("1", 1, 0, line)], [])
  }

  ghost function Deleting(): Candidate {
    Candidate("a", "f", RepairReady, [Hunk("1", 2, 1, "")], [])
  }

  ghost function Renaming(startLine: LineNo): Candidate {
    Candidate("b", "g", RepairReady, [Hunk("2", startLine, 1, "z")], [])
  }

  lemma BodyOf(text: string, lines: seq<string>)
    requires Split(text) == lines + [""]
    ensures Body(text) == lines && LastLine(text) == ""
  {
  }

  lemma OneRow(body: seq<string>, h: Hunk, row: nat, lines: seq<string>)
    requires row + h.lineCount <= |body| && Splice(body, row, h.lineCount, Split(h.text)) == lines
    ensures Patch(body, [RowEdit(h, row)]) == lines && Flatten(lines) + "" == Join(lines + [""])
  {
    OneEdit(body, RowEdit(h, row));
    RewrittenIsSplice(body, row, h.lineCount, Split(h.text), Patch(body, [RowEdit(h, row)]));
    JoinAppend(lines, [""]);
  }

  lemma OneWritten(text: string, h: Hunk, lines: seq<string>)
    requires h.startLine - 1 + h.lineCount <= |Body(text)| && LastLine(text) == ""
    requires Splice(Body(text), h.startLine - 1, h.lineCount, Split(h.text)) == lines
    ensures Patched(text, [h]) == Join(lines + [""])
    ensures Body(Patched(text, [h])) == lines && LastLine(Patched(text, [h])) == ""
  {
    hide Split, Flatten, Join, Body, LastLine, Patch;
    assert WrittenEdits([h]) == [RowEdit(h, h.startLine - 1)];
    OneRow(Body(text), h, h.startLine - 1, lines);
    PatchedSplits(text, [h]);
  }

  /** What an accept leaves that drifts within the document. */
  lemma LandsOn(w: World, c: Candidate, h: Hunk, row: int, lines: seq<string>)
    requires Single(w, c, h) && row == TrueRow(Written(w.ledger), h.startLine) + Drift(w.ledger, h.startLine)
    requires 0 <= row && row + h.lineCount <= |Body(w.doc)| && LastLine(w.doc) == ""
    requires Splice(Body(w.doc), row, h.lineCount, Split(h.text)) == lines
    ensures Step(w, Taking(c)).doc == Join(lines + [""])
  {
    hide *;
    DriftMisplaces(w, c, h);
    OneRow(Body(w.doc), h, row, lines);
  }

  lemma IncludeLines(first: string, text: string)
    requires Split(text) == [first, "x", "y"] + [""]
    ensures first in Split(text) && |Split(first)| == 1 && Split("z") == ["z"]
    ensures Body(text) == [first, "x", "y"] && LastLine(text) == ""
  {
    SplitIsOneLiners(text);
    assert Split(text)[0] == first;
    SplitJoin([first]);
    SplitJoin(["z"]);
  }

  lemma IncludeIsBelow(first: string, text: string)
    requires IsIncludeLine(first) && Split(text) == [first, "x", "y"] + [""]
    ensures Below(Including(first), Hunk("1", 1, 0, first), Renaming(2), Hunk("2", 2, 1, "z"), text)
    ensures DedupeHunk(Hunk("1", 1, 0, first), IncludesOf(text)) == None
  {
    hide Split, DedupeHunk, IncludesOf, Body;
    IncludeLines(first, text);
    RedundantInclude(text, first);
  }

  /** Below an include line that is there already, `x` should become `z`, but `y` does. */
  lemma IncludeExample(first: string, text: string)
    requires IsIncludeLine(first) && Split(text) == [first, "x", "y"] + [""]
    ensures Patched(text, Renaming(2).hunks) == Join([first, "z", "y"] + [""])
    ensures var run := SecondRun(Including(first), Renaming(2));
            && SoundRun(NewWorld(text), run)
            && Step(Run(NewWorld(text), run), Taking(Renaming(2))).doc == Join([first, "x", "z"] + [""])
  {
    hide Split, Join, IsIncludeLine, Body, LastLine, Patched, NewWorld, Run, Step, Single, Below, SoundRun, IncludesOf,
         DedupeHunk;
    var h1, h2 := Hunk("1", 1, 0, first), Hunk("2", 2, 1, "z");
    IncludeLines(first, text);
    IncludeIsBelow(first, text);
    IncludeDrifts(text, Including(first), h1, Renaming(2), h2);
    OneWritten(text, h2, [first, "z", "y"]);
    LandsOn(Run(NewWorld(text), SecondRun(Including(first), Renaming(2))), Renaming(2), h2, 2, [first, "x", "z"]);
  }

  lemma DeletionIsBelow(a: string, b: string, c: string, d: string, text: string)
    requires Split(text) == [a, b, c, d] + [""]
    ensures Below(Deleting(), Hunk("1", 2, 1, ""), Renaming(3), Hunk("2", 3, 1, "z"), text)
    ensures PureDeletion(Hunk("1", 2, 1, "")) && Split("") == [""]
    ensures Split("z") == ["z"] && Body(text) == [a, b, c, d] && LastLine(text) == ""
  {
    SplitJoin(["z"]);
  }

  /** With line 2 deleted, line 3 should become `z`, but the blank line that the deletion left does. */
  lemma DeletionExample(a: string, b: string, c: string, d: string, text: string)
    requires Split(text) == [a, b, c, d] + [""]
    ensures Patched(text, Deleting().hunks + Renaming(3).hunks) == Join([a, "", "z", d] + [""])
    ensures var run := SecondRun(Deleting(), Renaming(3));
            && SoundRun(NewWorld(text), run)
            && Run(NewWorld(text), run).doc == Join([a, "", c, d] + [""])
            && Step(Run(NewWorld(text), run), Taking(Renaming(3))).doc == Join([a, "z", c, d] + [""])
  {
    hide Split, Join, Body, LastLine, Patched, NewWorld, Run, Step, Single, Below, SoundRun, PureDeletion;
    var h1, h2 := Hunk("1", 2, 1, ""), Hunk("2", 3, 1, "z");
    DeletionIsBelow(a, b, c, d, text);
    DeletionDrifts(text, Deleting(), h1, Renaming(3), h2);
    OneWritten(text, h1, [a, "", c, d]);
    LandsOn(Run(NewWorld(text), SecondRun(Deleting(), Renaming(3))), Renaming(3), h2, 1, [a, "z", c, d]);
    BothAtOnce(text, h1, h2, [a, "", c, d], [a, "", "z", d]);
  }

  lemma BothAtOnce(text: string, h1: Hunk, h2: Hunk, lines: seq<string>, both: seq<string>)
    requires h1 == Hunk("1", 2, 1, "") && h2 == Hunk("2", 3, 1, "z") && Disjoint([h1] + [h2])
    requires Body(Patched(text, [h1])) == lines && LastLine(Patched(text, [h1])) == ""
    requires |Body(text)| >= 3 && |lines| >= 3 && Splice(lines, 2, 1, Split("z")) == both
    ensures Patched(text, [h1] + [h2]) == Join(both + [""])
  {
    hide Split, Join, Body, LastLine, Patched, Patch, Flatten, EditAtRow, Disjoint;
    var doc := Patched(text, [h1]);
    TrueIsPatched(text, [h1], [h2], doc);
    DeletionEntry(h1, {}, 3) by {
      assert PureDeletion(h1);
    }
    assert EditsBelow(doc, [h1], [h2]) == [EditAtRow(doc, h2, 2)];
    RowPatched(doc, h2, 2);
    OneRow(lines, h2, 2, both);
  }
}
