/**
 Where an accept lands when lines above it were counted but not written (a trimmed include)
 or written but not counted (the newline of a pure deletion), and when it shows.
 */
module DriftedAccepts {
  import opened AcceptChain
  import opened ChainInvariants
  import opened ChainTheorems
  import opened CharEdits
  import opened Contract
  import opened DedupeIncludes
  import opened EditRanges
  import opened Options
  import opened Patches
  import opened Patching
  import opened ReachedWorlds
  import opened Sessions
  import opened Text

  // --- rows and ranges -------------------------------------------------------------------------

  /** The hunk written at a row, as the editor takes it. */
  function EditAtRow(doc: string, h: Hunk, row: int): Edit<char> {
    ToTextEdit(doc, HunkToEditRange(h, row - (h.startLine - 1)))
  }

  lemma ClampedOrder(text: string, row: int, lower: int)
    requires row <= lower
    ensures ClampedOffset(text, row, 0) <= ClampedOffset(text, lower, 0) <= |text|
  {
    BodyAndLast(text);
    assert Body(text)[..|Body(text)|] == Body(text);
    if 0 <= row <= |Body(text)| {
      RowStart(text, row);
      OffsetMonotone(Body(text), row, |Body(text)|);
    }
    if 0 <= lower <= |Body(text)| {
      RowStart(text, lower);
      OffsetMonotone(Body(text), lower, |Body(text)|);
    }
    if 0 <= row && lower <= |Body(text)| {
      OffsetMonotone(Body(text), row, lower);
    }
  }

  /** The clamped range: from the start of the row to the start of the row behind it, within the text. */
  lemma EditAtRowIs(doc: string, h: Hunk, row: int)
    ensures var e := EditAtRow(doc, h, row);
            && e.start == ClampedOffset(doc, row, 0)
            && e.start + e.count == ClampedOffset(doc, row + h.lineCount, 0) <= |doc|
            && e.text == h.text + "\n"
  {
    ClampedOrder(doc, row, row + h.lineCount);
  }

  lemma RowsApart(doc: string, x: Hunk, row: int, y: Hunk, lower: int)
    requires row + x.lineCount <= lower
    ensures !Overlap(EditAtRow(doc, x, row), EditAtRow(doc, y, lower))
    ensures !Overlap(EditAtRow(doc, y, lower), EditAtRow(doc, x, row))
  {
    EditAtRowIs(doc, x, row);
    EditAtRowIs(doc, y, lower);
    ClampedOrder(doc, row + x.lineCount, lower);
  }

  /** The row that an accept computes for a hunk. */
  ghost function ComputedRow(w: World, h: Hunk): int {
    h.startLine - 1 + LineOffset(h.startLine, AcceptedHunks(w.session))
  }

  /** What is about to be written is as clear of the listed hunks as what is listed. */
  lemma ListedWithNew(w: World, c: Candidate)
    requires Inv(w) && Stored(w.session, c) && CurrentGuard(w.session, w.doc, c).Ok()
    ensures Disjoint(Listed(w.ledger) + Deduped(c.hunks, IncludesOf(w.doc)))
  {
    var above, more := AsWritten(Listed(w.ledger)), EntriesFor(c.hunks, IncludesOf(w.doc));
    GuardClears(w, c);
    assert Listed(above) == Listed(w.ledger);
    ListedIsWritten(above);
    EntriesWritten(c.hunks, IncludesOf(w.doc));
    WrittenAppend(above, more);
    WrittenDisjoint(above + more);
  }

  lemma MixedClear(listed: seq<Hunk>, hs: seq<Hunk>, es: seq<Edit<string>>, i: nat)
    requires Disjoint(listed + hs) && es == LineEdits(listed) && i < |hs|
    ensures AllClear(es) && ClearOf(es, WrittenEdit(hs[i]))
  {
    var all := listed + hs;
    forall j | 0 <= j < |listed| ensures !Intersects(es[j], WrittenEdit(hs[i])) {
      assert !RangesIntersect(HunkRange(all[j]), HunkRange(all[|listed| + i]));
    }
    forall j, k | 0 <= j < k < |listed| ensures !Intersects(es[j], es[k]) {
      assert !RangesIntersect(HunkRange(all[j]), HunkRange(all[k]));
    }
  }

  lemma ComputedIsShift(w: World, h: Hunk, es: seq<Edit<string>>)
    requires LedgerInv(w) && es == LineEdits(Listed(w.ledger))
    ensures ComputedRow(w, h) == h.startLine - 1 + Shift(es, h.startLine - 1)
  {
    OffsetIsShift(h.startLine, AcceptedHunks(w.session), Listed(w.ledger), es);
  }

  lemma OffsetIsShift(startLine: LineNo, accepted: seq<Hunk>, listed: seq<Hunk>, es: seq<Edit<string>>)
    requires multiset(accepted) == multiset(listed) && es == LineEdits(listed)
    ensures LineOffset(startLine, accepted) == Shift(es, startLine - 1)
  {
    LineOffsetOfBag(startLine, accepted, listed);
    LineOffsetIsShift(startLine, listed);
  }

  lemma ShiftedApart(body: seq<string>, listed: seq<Hunk>, hs: seq<Hunk>, i: nat, j: nat, es: seq<Edit<string>>)
    requires Disjoint(listed + hs) && InRange(hs, |body|) && es == LineEdits(listed)
    requires i < |hs| && j < |hs| && hs[i].startLine + hs[i].lineCount <= hs[j].startLine
    ensures 0 <= hs[i].startLine - 1 + Shift(es, hs[i].startLine - 1)
    ensures hs[i].startLine + Shift(es, hs[i].startLine - 1) + hs[i].lineCount
         <= hs[j].startLine + Shift(es, hs[j].startLine - 1)
  {
    MixedClear(listed, hs, es, i);
    MixedClear(listed, hs, es, j);
    LandingApart(body, es, WrittenEdit(hs[i]), WrittenEdit(hs[j]));
  }

  /** One hunk above another: their computed rows exist and keep that order. */
  lemma RowsInOrder(w: World, hs: seq<Hunk>, i: nat, j: nat)
    requires LedgerInv(w) && Disjoint(Listed(w.ledger) + hs) && InRange(hs, |Body(w.session.snapshot)|)
    requires i < |hs| && j < |hs| && hs[i].startLine + hs[i].lineCount <= hs[j].startLine
    ensures 0 <= ComputedRow(w, hs[i]) && ComputedRow(w, hs[i]) + hs[i].lineCount <= ComputedRow(w, hs[j])
  {
    hide *;
    ComputedIsShift(w, hs[i], LineEdits(Listed(w.ledger)));
    ComputedIsShift(w, hs[j], LineEdits(Listed(w.ledger)));
    ShiftedApart(Body(w.session.snapshot), Listed(w.ledger), hs, i, j, LineEdits(Listed(w.ledger)));
  }

  lemma RowExists(w: World, hs: seq<Hunk>, i: nat)
    requires LedgerInv(w) && Disjoint(Listed(w.ledger) + hs) && Settled(hs, w.session.snapshot) && i < |hs|
    ensures 0 <= ComputedRow(w, hs[i])
  {
    var es := LineEdits(Listed(w.ledger));
    MixedClear(Listed(w.ledger), hs, es, i);
    ComputedIsShift(w, hs[i], es);
    LandingSpot(Body(w.session.snapshot), es, WrittenEdit(hs[i]));
  }

  // --- where an accept lands -----------------------------------------------------------------------

  /** The hunks at the rows where their lines really are, below the hunks `written`. */
  ghost function EditsBelow(doc: string, written: seq<Hunk>, hs: seq<Hunk>): seq<Edit<char>> {
    seq(|hs|, i requires 0 <= i < |hs| => EditAtRow(doc, hs[i], TrueRow(written, hs[i].startLine)))
  }

  ghost function TrueEdits(w: World, hs: seq<Hunk>): seq<Edit<char>> {
    EditsBelow(w.doc, Written(w.ledger), hs)
  }

  /** The hunks at the rows that drift makes of them. */
  ghost function DriftedEdits(w: World, hs: seq<Hunk>): seq<Edit<char>> {
    seq(|hs|, i requires 0 <= i < |hs| =>
      EditAtRow(w.doc, hs[i], TrueRow(Written(w.ledger), hs[i].startLine) + Drift(w.ledger, hs[i].startLine)))
  }

  lemma ComputedDrifts(w: World, hs: seq<Hunk>, i: nat)
    requires LedgerInv(w) && Disjoint(Written(w.ledger) + hs) && Settled(hs, w.session.snapshot) && i < |hs|
    ensures ComputedRow(w, hs[i])
         == TrueRow(Written(w.ledger), hs[i].startLine) + Drift(w.ledger, hs[i].startLine)
  {
    RowIsTrue(w.session.snapshot, w.ledger, AcceptedHunks(w.session), hs, i);
  }

  /** The hunks at the rows that the accept computes. */
  ghost function ComputedEdits(w: World, hs: seq<Hunk>): seq<Edit<char>> {
    seq(|hs|, i requires 0 <= i < |hs| => EditAtRow(w.doc, hs[i], ComputedRow(w, hs[i])))
  }

  lemma EditsComputed(w: World, hs: seq<Hunk>)
    ensures ToTextEdits(w.doc, CandidateToEditRanges(hs, AcceptedHunks(w.session))) == ComputedEdits(w, hs)
  {
    var ranges := CandidateToEditRanges(hs, AcceptedHunks(w.session));
    forall i | 0 <= i < |hs| ensures ToTextEdit(w.doc, ranges[i]) == ComputedEdits(w, hs)[i] {
      assert ranges[i] == HunkToEditRange(hs[i], ComputedRow(w, hs[i]) - (hs[i].startLine - 1));
    }
  }

  lemma EditsDrift(w: World, hs: seq<Hunk>)
    requires LedgerInv(w) && Disjoint(Written(w.ledger) + hs) && Settled(hs, w.session.snapshot)
    ensures ComputedEdits(w, hs) == DriftedEdits(w, hs)
  {
    var rows := seq(|hs|, i requires 0 <= i < |hs| => ComputedRow(w, hs[i]));
    forall i | 0 <= i < |hs|
      ensures rows[i] == TrueRow(Written(w.ledger), hs[i].startLine) + Drift(w.ledger, hs[i].startLine)
    {
      ComputedDrifts(w, hs, i);
    }
    EditsAt(w, hs, rows);
  }

  lemma EditsAt(w: World, hs: seq<Hunk>, rows: seq<int>)
    requires |rows| == |hs| && forall i | 0 <= i < |hs| :: rows[i] == ComputedRow(w, hs[i])
    requires forall i | 0 <= i < |hs| ::
               rows[i] == TrueRow(Written(w.ledger), hs[i].startLine) + Drift(w.ledger, hs[i].startLine)
    ensures ComputedEdits(w, hs) == DriftedEdits(w, hs)
  {
  }

  lemma PairDisjoint(above: seq<Hunk>, hs: seq<Hunk>, i: nat, j: nat)
    requires Disjoint(above + hs) && i < j < |hs|
    ensures !RangesIntersect(HunkRange(hs[i]), HunkRange(hs[j]))
  {
    assert (above + hs)[|above| + i] == hs[i] && (above + hs)[|above| + j] == hs[j];
  }

  /** No two ranges of an accept overlap, so the editor has no reason to refuse it. */
  lemma NeverOverlap(w: World, hs: seq<Hunk>, i: nat, j: nat)
    requires LedgerInv(w) && Disjoint(Listed(w.ledger) + hs) && Settled(hs, w.session.snapshot) && i < j < |hs|
    ensures !Overlap(ComputedEdits(w, hs)[i], ComputedEdits(w, hs)[j])
  {
    PairDisjoint(Listed(w.ledger), hs, i, j);
    if hs[i].startLine + hs[i].lineCount <= hs[j].startLine {
      RowsInOrder(w, hs, i, j);
      RowsApart(w.doc, hs[i], ComputedRow(w, hs[i]), hs[j], ComputedRow(w, hs[j]));
    } else {
      RowsInOrder(w, hs, j, i);
      RowsApart(w.doc, hs[j], ComputedRow(w, hs[j]), hs[i], ComputedRow(w, hs[i]));
    }
  }

  lemma ComputedApplies(w: World, hs: seq<Hunk>)
    requires LedgerInv(w) && Disjoint(Listed(w.ledger) + hs) && Settled(hs, w.session.snapshot)
    ensures ApplyRanges(w.doc, CandidateToEditRanges(hs, AcceptedHunks(w.session)))
         == Some(Patch(w.doc, ComputedEdits(w, hs)))
  {
    EditsComputed(w, hs);
    forall i, j | 0 <= i < j < |hs| ensures !Overlap(ComputedEdits(w, hs)[i], ComputedEdits(w, hs)[j]) {
      NeverOverlap(w, hs, i, j);
    }
  }

  /** The conditions that an open guard gives on what is about to be written. */
  ghost predicate Writable(w: World, hs: seq<Hunk>) {
    && LedgerInv(w) && Settled(hs, w.session.snapshot)
    && Disjoint(Listed(w.ledger) + hs) && Disjoint(Written(w.ledger) + hs)
  }

  lemma NewIsWritable(w: World, c: Candidate)
    requires Inv(w) && Stored(w.session, c) && CurrentGuard(w.session, w.doc, c).Ok()
    ensures Writable(w, Deduped(c.hunks, IncludesOf(w.doc))) && w.doc == w.left
  {
    LedgerGrows(w, c);
    ListedWithNew(w, c);
  }

  lemma ComputedTaken(w: World, c: Candidate, hs: seq<Hunk>)
    requires CurrentGuard(w.session, w.doc, c).Ok() && hs == Deduped(c.hunks, IncludesOf(w.doc))
    requires ApplyRanges(w.doc, CandidateToEditRanges(hs, AcceptedHunks(w.session)))
          == Some(Patch(w.doc, ComputedEdits(w, hs)))
    ensures Took(w, Taking(c)) && Step(w, Taking(c)).doc == Patch(w.doc, ComputedEdits(w, hs))
  {
    if hs == [] {
      assert ComputedEdits(w, hs) == [];
      NoEdits(w.doc);
    }
  }

  /**
   An open guard is enough: whatever was trimmed or deleted before, no computed row is
   negative and no two ranges overlap.
   */
  lemma AcceptApplies(w: World, c: Candidate)
    requires Inv(w) && Stored(w.session, c) && CurrentGuard(w.session, w.doc, c).Ok()
    ensures var hs := Deduped(c.hunks, IncludesOf(w.doc));
            && Took(w, Taking(c)) && Step(w, Taking(c)).doc == Patch(w.doc, DriftedEdits(w, hs))
            && forall i | 0 <= i < |hs| :: 0 <= ComputedRow(w, hs[i])
  {
    var hs := Deduped(c.hunks, IncludesOf(w.doc));
    NewIsWritable(w, c);
    ComputedApplies(w, hs);
    ComputedTaken(w, c, hs);
    EditsDrift(w, hs);
    forall i | 0 <= i < |hs| ensures 0 <= ComputedRow(w, hs[i]) {
      RowExists(w, hs, i);
    }
  }

  /** Written at their true rows the hunks would complete the declarative patch. */
  lemma TrueIsPatched(original: string, written: seq<Hunk>, hs: seq<Hunk>, doc: string)
    requires doc == Patched(original, written) && Disjoint(written + hs) && Settled(hs, original)
    ensures Patched(original, written + hs) == Patch(doc, EditsBelow(doc, written, hs))
  {
    var ranges := TrueRanges(written, hs);
    ApplyAtTrueRows(original, written, hs, ranges);
    assert ToTextEdits(doc, ranges) == EditsBelow(doc, written, hs);
  }

  ghost function TrueRanges(written: seq<Hunk>, hs: seq<Hunk>): seq<EditRange> {
    seq(|hs|, i requires 0 <= i < |hs| =>
      HunkToEditRange(hs[i], TrueRow(written, hs[i].startLine) - (hs[i].startLine - 1)))
  }

  /** An accept, and what it should have been: the same hunks at two lists of rows of the same document. */
  lemma AcceptDrifts(w: World, c: Candidate)
    requires Inv(w) && Faithful(w) && Stored(w.session, c) && CurrentGuard(w.session, w.doc, c).Ok()
    ensures var v, hs := Step(w, Taking(c)), Deduped(c.hunks, IncludesOf(w.doc));
            && Took(w, Taking(c)) && Written(v.ledger) == Written(w.ledger) + hs
            && v.doc == v.left == Patch(w.doc, DriftedEdits(w, hs))
            && (Faithful(v) <==> Patch(w.doc, DriftedEdits(w, hs)) == Patch(w.doc, TrueEdits(w, hs)))
  {
    AcceptApplies(w, c);
    NewIsWritable(w, c);
    LedgerGrows(w, c);
    AcceptLeaves(w, c, true, true, AcceptedHunks(w.session));
    TrueIsPatched(w.session.snapshot, Written(w.ledger), Deduped(c.hunks, IncludesOf(w.doc)), w.doc);
  }

  // --- exactly when drift shows ----------------------------------------------------------------------

  lemma EditsFit(doc: string, w: World, hs: seq<Hunk>)
    requires doc == w.doc
    ensures Fit(TrueEdits(w, hs) + DriftedEdits(w, hs), |doc|)
  {
    forall i | 0 <= i < |hs|
      ensures TrueEdits(w, hs)[i].start + TrueEdits(w, hs)[i].count <= |doc|
      ensures DriftedEdits(w, hs)[i].start + DriftedEdits(w, hs)[i].count <= |doc|
    {
      EditAtRowIs(doc, hs[i], TrueRow(Written(w.ledger), hs[i].startLine));
      EditAtRowIs(doc, hs[i], TrueRow(Written(w.ledger), hs[i].startLine) + Drift(w.ledger, hs[i].startLine));
    }
  }

  /** Any number of hunks: exactly when the text from the first to the last of the two lists of ranges is the same. */
  lemma DriftIsLocal(w: World, c: Candidate)
    requires Inv(w) && Faithful(w) && Stored(w.session, c) && CurrentGuard(w.session, w.doc, c).Ok()
    requires Deduped(c.hunks, IncludesOf(w.doc)) != []
    ensures var hs := Deduped(c.hunks, IncludesOf(w.doc));
            var meant, written := TrueEdits(w, hs), DriftedEdits(w, hs);
            var lo, hi := FirstStart(written + meant), LastEnd(written + meant);
            Faithful(Step(w, Taking(c))) <==> Window(w.doc, written, lo, hi) == Window(w.doc, meant, lo, hi)
  {
    var hs := Deduped(c.hunks, IncludesOf(w.doc));
    AcceptDrifts(w, c);
    EditsFit(w.doc, w, hs);
    BothFit(TrueEdits(w, hs), DriftedEdits(w, hs), |w.doc|);
    WindowOfBoth(w.doc, DriftedEdits(w, hs), TrueEdits(w, hs));
  }

  lemma BothFit<T>(es: seq<Edit<T>>, fs: seq<Edit<T>>, size: nat)
    requires Fit(es + fs, size)
    ensures Fit(fs + es, size)
  {
    forall i | 0 <= i < |fs + es| ensures (fs + es)[i].start + (fs + es)[i].count <= size {
      assert (fs + es)[i] == (es + fs)[if i < |fs| then |es| + i else i - |fs|];
    }
  }

  /** An open guard for a candidate of which one hunk is about to be written. */
  ghost predicate Single(w: World, c: Candidate, h: Hunk) {
    && Inv(w) && Faithful(w) && Stored(w.session, c) && CurrentGuard(w.session, w.doc, c).Ok()
    && Deduped(c.hunks, IncludesOf(w.doc)) == [h]
  }

  lemma SingleParts(w: World, c: Candidate, h: Hunk)
    requires Single(w, c, h)
    ensures Inv(w) && Faithful(w) && Stored(w.session, c) && CurrentGuard(w.session, w.doc, c).Ok()
    ensures Deduped(c.hunks, IncludesOf(w.doc)) == [h]
  {
  }

  /** Where the hunk belongs. */
  ghost function Meant(w: World, h: Hunk): (e: Edit<char>)
    ensures e.start + e.count <= |w.doc|
  {
    EditAtRowIs(w.doc, h, TrueRow(Written(w.ledger), h.startLine));
    EditAtRow(w.doc, h, TrueRow(Written(w.ledger), h.startLine))
  }

  /** Where drift puts it. */
  ghost function Drifted(w: World, h: Hunk): (e: Edit<char>)
    ensures e.start + e.count <= |w.doc|
  {
    EditAtRowIs(w.doc, h, TrueRow(Written(w.ledger), h.startLine) + Drift(w.ledger, h.startLine));
    EditAtRow(w.doc, h, TrueRow(Written(w.ledger), h.startLine) + Drift(w.ledger, h.startLine))
  }

  lemma OneEach(w: World, h: Hunk)
    ensures TrueEdits(w, [h]) == [Meant(w, h)] && DriftedEdits(w, [h]) == [Drifted(w, h)]
    ensures Meant(w, h).text == Drifted(w, h).text
    ensures Meant(w, h) == EditAtRow(w.doc, h, TrueRow(Written(w.ledger), h.startLine))
    ensures Drifted(w, h)
         == EditAtRow(w.doc, h, TrueRow(Written(w.ledger), h.startLine) + Drift(w.ledger, h.startLine))
  {
    hide Drift, TrueRow, Written;
    EditAtRowIs(w.doc, h, TrueRow(Written(w.ledger), h.startLine));
    EditAtRowIs(w.doc, h, TrueRow(Written(w.ledger), h.startLine) + Drift(w.ledger, h.startLine));
  }

  /**
   One hunk, drifted up or down by any number of lines: exactly when the range written and
   the range meant are interchangeable, that is, equally long, with a text between them
   that reads the same with the repair in front of it and behind it.
   */
  lemma DriftDecides(w: World, c: Candidate, h: Hunk)
    requires Single(w, c, h)
    ensures var v := Step(w, Taking(c));
            && Took(w, Taking(c)) && Written(v.ledger) == Written(w.ledger) + [h]
            && v.doc == v.left == Patch(w.doc, [Drifted(w, h)])
            && (Faithful(v) <==> Interchangeable(w.doc, Meant(w, h), Drifted(w, h)))
  {
    hide *;
    SingleParts(w, c, h);
    AcceptDrifts(w, c);
    OneEach(w, h);
    TwoPlaces(w.doc, Meant(w, h), Drifted(w, h));
  }

  // --- line by line -----------------------------------------------------------------------------

  function RowEdit(h: Hunk, row: nat): Edit<string> {
    Edit(row, h.lineCount, Split(h.text))
  }

  lemma RowIsLines(doc: string, h: Hunk, row: nat, body: seq<string>)
    requires row + h.lineCount <= |body| && body == Body(doc)
    ensures [EditAtRow(doc, h, row)] == AsCharEdits(body, [RowEdit(h, row)])
  {
    RangeIsLines(doc, h, row - (h.startLine - 1));
  }

  /** A row whose range ends in the body edits whole lines. */
  lemma RowPatched(doc: string, h: Hunk, row: nat)
    requires row + h.lineCount <= |Body(doc)|
    ensures Patch(doc, [EditAtRow(doc, h, row)]) == Flatten(Patch(Body(doc), [RowEdit(h, row)])) + LastLine(doc)
    ensures OneLiners(Patch(Body(doc), [RowEdit(h, row)]))
  {
    hide Split, Flatten, Patch, EditAtRow, Body, LastLine;
    BodyAndLast(doc);
    RowIsLines(doc, h, row, Body(doc));
    LinesAreChars(Body(doc), [RowEdit(h, row)], LastLine(doc));
    RowOneLiners(Body(doc), h, row);
  }

  lemma RowOneLiners(body: seq<string>, h: Hunk, row: nat)
    requires OneLiners(body)
    ensures OneLiners(Patch(body, [RowEdit(h, row)]))
  {
    var moved := h.(startLine := row + 1);
    PatchOneLiners(body, [moved]);
    assert WrittenEdits([moved]) == [RowEdit(h, row)];
  }

  lemma SameText(a: seq<string>, b: seq<string>, last: string)
    requires OneLiners(a) && OneLiners(b) && '\n' !in last
    ensures Flatten(a) + last == Flatten(b) + last <==> a == b
  {
    SplitBack(a, last);
    SplitBack(b, last);
  }

  lemma TwoRows(doc: string, h: Hunk, row: nat, other: nat)
    requires row + h.lineCount <= |Body(doc)| && other + h.lineCount <= |Body(doc)|
    ensures Patch(doc, [EditAtRow(doc, h, other)]) == Patch(doc, [EditAtRow(doc, h, row)])
       <==> Interchangeable(Body(doc), RowEdit(h, row), RowEdit(h, other))
  {
    BodyAndLast(doc);
    RowPatched(doc, h, row);
    RowPatched(doc, h, other);
    SameText(Patch(Body(doc), [RowEdit(h, other)]), Patch(Body(doc), [RowEdit(h, row)]), LastLine(doc));
    TwoPlaces(Body(doc), RowEdit(h, row), RowEdit(h, other));
  }

  lemma LandsWithin(body: seq<string>, es: seq<Edit<string>>, e: Edit<string>)
    requires AllClear(es) && ClearOf(es, e) && e.start + e.count <= |body|
    ensures Land(es, e.start) + e.count <= |Patch(body, es)|
  {
    Rebase(body, es, e);
    RewrittenIsSplice(Patch(body, es), e.start + Shift(es, e.start), e.count, e.text, Patch(body, es + [e]));
  }

  lemma NextIsClear(written: seq<Hunk>, h: Hunk, es: seq<Edit<string>>)
    requires Disjoint(written + [h]) && es == WrittenEdits(written)
    ensures AllClear(es) && ClearOf(es, WrittenEdit(h))
  {
    WrittenClear(written + [h]);
    assert WrittenEdits(written + [h]) == es + [WrittenEdit(h)];
    ClearSplit(es, [WrittenEdit(h)]);
    assert [WrittenEdit(h)][0] == WrittenEdit(h);
  }

  lemma TrueRowFits(original: string, written: seq<Hunk>, h: Hunk, doc: string)
    requires doc == Patched(original, written) && Disjoint(written + [h]) && Settled([h], original)
    ensures TrueRow(written, h.startLine) + h.lineCount <= |Body(doc)|
  {
    assert [h][0] == h;
    NextIsClear(written, h, WrittenEdits(written));
    PatchedSplits(original, written);
    LandsWithin(Body(original), WrittenEdits(written), WrittenEdit(h));
  }

  /** The accept of one hunk, its row and its drift taken by name. */
  lemma SingleDrifts(w: World, c: Candidate, h: Hunk, row: nat, drift: int)
    requires Single(w, c, h) && row == TrueRow(Written(w.ledger), h.startLine) && drift == Drift(w.ledger, h.startLine)
    ensures Took(w, Taking(c)) && Step(w, Taking(c)).doc == Patch(w.doc, [EditAtRow(w.doc, h, row + drift)])
    ensures Faithful(Step(w, Taking(c)))
       <==> Patch(w.doc, [EditAtRow(w.doc, h, row + drift)]) == Patch(w.doc, [EditAtRow(w.doc, h, row)])
  {
    hide *;
    SingleParts(w, c, h);
    AcceptDrifts(w, c);
    OneEach(w, h);
  }

  lemma SingleFits(w: World, c: Candidate, h: Hunk)
    requires Single(w, c, h)
    ensures 0 <= TrueRow(Written(w.ledger), h.startLine) + Drift(w.ledger, h.startLine)
    ensures TrueRow(Written(w.ledger), h.startLine) + h.lineCount <= |Body(w.doc)|
  {
    NewIsWritable(w, c);
    assert [h][0] == h;
    RowExists(w, [h], 0);
    ComputedDrifts(w, [h], 0);
    TrueRowFits(w.session.snapshot, Written(w.ledger), h, w.doc);
  }

  lemma RowsDecide(doc: string, h: Hunk, row: nat, other: nat, left: string, right: bool)
    requires row + h.lineCount <= |Body(doc)| && other + h.lineCount <= |Body(doc)|
    requires left == Patch(doc, [EditAtRow(doc, h, other)])
    requires right <==> Patch(doc, [EditAtRow(doc, h, other)]) == Patch(doc, [EditAtRow(doc, h, row)])
    ensures left == Flatten(Patch(Body(doc), [RowEdit(h, other)])) + LastLine(doc)
    ensures right <==> Interchangeable(Body(doc), RowEdit(h, row), RowEdit(h, other))
  {
    RowPatched(doc, h, other);
    TwoRows(doc, h, row, other);
  }

  /**
   When the moved lines lie within the document the accept replaces them whole, and is
   right exactly when the lines between the two places read the same with the repair in
   front of them and behind them.
   */
  lemma DriftMisplaces(w: World, c: Candidate, h: Hunk)
    requires Single(w, c, h)
    requires TrueRow(Written(w.ledger), h.startLine) + Drift(w.ledger, h.startLine) + h.lineCount <= |Body(w.doc)|
    ensures var v, row := Step(w, Taking(c)), TrueRow(Written(w.ledger), h.startLine);
            var drift := Drift(w.ledger, h.startLine);
            && 0 <= row + drift && row + h.lineCount <= |Body(w.doc)|
            && v.doc == Flatten(Patch(Body(w.doc), [RowEdit(h, row + drift)])) + LastLine(w.doc)
            && (Faithful(v) <==> Interchangeable(Body(w.doc), RowEdit(h, row), RowEdit(h, row + drift)))
  {
    hide *;
    var row, drift := TrueRow(Written(w.ledger), h.startLine), Drift(w.ledger, h.startLine);
    SingleDrifts(w, c, h, row, drift);
    SingleFits(w, c, h);
    RowsDecide(w.doc, h, row, row + drift, Step(w, Taking(c)).doc, Faithful(Step(w, Taking(c))));
  }

  // --- a sign that it shows -------------------------------------------------------------------------

  lemma LongerLine(x: string, y: string, s: string)
    requires x + "\n" <= s && y <= s
    ensures |x| < |y| ==> '\n' in y
  {
    if |x| < |y| {
      assert y[|x|] == s[|x|] == (x + "\n")[|x|];
    }
  }

  lemma FirstLines(x: string, y: string, s: string)
    requires x + "\n" <= s && y + "\n" <= s && '\n' !in x && '\n' !in y
    ensures x == y
  {
    assert x == s[..|x|] && y == s[..|y|];
    LongerLine(x, y, s);
    LongerLine(y, x, s);
  }

  lemma RotationStarts(doc: string, e: Edit<char>, k: nat, x: string, y: string)
    requires e.start + e.count + k <= |doc| && Rotation(doc, e, k)
    requires x + "\n" <= e.text && y + "\n" <= doc[e.start..e.start + k] && '\n' !in x && '\n' !in y
    ensures x == y
  {
    BothStart(doc[e.start..e.start + k], e.text, doc[e.start + e.count..e.start + e.count + k], x, y);
  }

  lemma BothStart(above: string, text: string, below: string, x: string, y: string)
    requires above + text == text + below
    requires x + "\n" <= text && y + "\n" <= above && '\n' !in x && '\n' !in y
    ensures x == y
  {
    PrefixOfSum(x + "\n", text, below);
    PrefixOfSum(y + "\n", above, text);
    FirstLines(x, y, above + text);
  }

  lemma PrefixOfSum<T>(p: seq<T>, a: seq<T>, b: seq<T>)
    requires p <= a
    ensures p <= a + b
  {
  }

  /** The line of the upper row stands between the starts of the two ranges, and the repair starts with its own. */
  lemma RangeStarts(doc: string, h: Hunk, row: nat, lower: int, a: Edit<char>, b: Edit<char>)
    requires row < lower && row < |Body(doc)| && a == EditAtRow(doc, h, row) && b == EditAtRow(doc, h, lower)
    ensures a.start <= b.start <= |doc| && Body(doc)[row] + "\n" <= doc[a.start..b.start]
    ensures Split(h.text)[0] + "\n" <= a.text
  {
    EditAtRowIs(doc, h, row);
    EditAtRowIs(doc, h, lower);
    ClampedOrder(doc, row + 1, lower);
    UpperStart(doc, row, a.start, b.start);
    TerminatedLines(h.text);
  }

  lemma UpperStart(doc: string, row: nat, from: nat, to: nat)
    requires row < |Body(doc)| && from == ClampedOffset(doc, row, 0)
    requires ClampedOffset(doc, row + 1, 0) <= to <= |doc|
    ensures from <= to && Body(doc)[row] + "\n" <= doc[from..to]
  {
    BodyAndLast(doc);
    RowStart(doc, row);
    RowStart(doc, row + 1);
    LineOfText(Body(doc), LastLine(doc), row, doc);
    StartsWithLine(doc, from, to, Body(doc)[row] + "\n");
  }

  lemma StartsWithLine(doc: string, from: nat, to: nat, line: string)
    requires from + |line| <= to <= |doc| && doc[from..from + |line|] == line
    ensures line <= doc[from..to]
  {
    assert doc[from..to][..|line|] == doc[from..from + |line|];
  }

  lemma OtherStart(doc: string, a: Edit<char>, b: Edit<char>, x: string, y: string)
    requires a.start + a.count <= |doc| && b.start + b.count <= |doc| && a.start <= b.start
    requires x + "\n" <= a.text && y + "\n" <= doc[a.start..b.start] && '\n' !in x && '\n' !in y && x != y
    ensures !Interchangeable(doc, a, b)
  {
    if a.count == b.count && Rotation(doc, a, b.start - a.start) {
      RotationStarts(doc, a, b.start - a.start, x, y);
    }
  }

  lemma HoldNoNewline(text: string, doc: string, row: nat)
    requires row < |Body(doc)|
    ensures '\n' !in Split(text)[0] && '\n' !in Body(doc)[row]
  {
    SplitIsOneLiners(text);
    BodyAndLast(doc);
  }

  /** A repair that starts with another line than the upper of two rows reads differently at each of them. */
  lemma UpperLine(doc: string, h: Hunk, row: nat, lower: int)
    requires row < lower && row < |Body(doc)| && Split(h.text)[0] != Body(doc)[row]
    ensures Patch(doc, [EditAtRow(doc, h, lower)]) != Patch(doc, [EditAtRow(doc, h, row)])
  {
    hide *;
    var a, b := EditAtRow(doc, h, row), EditAtRow(doc, h, lower);
    EditAtRowIs(doc, h, row);
    EditAtRowIs(doc, h, lower);
    RangeStarts(doc, h, row, lower, a, b);
    HoldNoNewline(h.text, doc, row);
    TwoPlaces(doc, a, b);
    OtherStart(doc, a, b, Split(h.text)[0], Body(doc)[row]);
  }

  /** A repair that drifts, and starts with another line than the upper of the two places, ends up wrong. */
  lemma DriftBreaks(w: World, c: Candidate, h: Hunk)
    requires Single(w, c, h) && Drift(w.ledger, h.startLine) != 0
    requires var row, drift := TrueRow(Written(w.ledger), h.startLine), Drift(w.ledger, h.startLine);
             var upper := if drift > 0 then row else row + drift;
             0 <= upper < |Body(w.doc)| && Split(h.text)[0] != Body(w.doc)[upper]
    ensures HashPasses(Step(w, Taking(c))) && !Faithful(Step(w, Taking(c)))
  {
    hide *;
    var row, drift := TrueRow(Written(w.ledger), h.startLine), Drift(w.ledger, h.startLine);
    SingleDrifts(w, c, h, row, drift);
    SingleFits(w, c, h);
    PassesAfter(w, c);
    if drift > 0 {
      UpperLine(w.doc, h, row, row + drift);
    } else {
      UpperLine(w.doc, h, row + drift, row);
    }
  }

  lemma PassesAfter(w: World, c: Candidate)
    requires Took(w, Taking(c))
    ensures HashPasses(Step(w, Taking(c)))
  {
  }

  /** One line too far up: right only for a repair that repeats the line above, and the last line it replaces. */
  lemma DriftByOne(w: World, c: Candidate, h: Hunk)
    requires Single(w, c, h) && Drift(w.ledger, h.startLine) == -1
    ensures var row, rows := TrueRow(Written(w.ledger), h.startLine), Body(w.doc);
            && 1 <= row && row + h.lineCount <= |rows|
            && (Faithful(Step(w, Taking(c)))
                <==> rows[row - 1 + h.lineCount] == rows[row - 1]
                     && Repeats(Split(h.text), rows[row - 1]))
  {
    hide *;
    var row := TrueRow(Written(w.ledger), h.startLine);
    SingleDrifts(w, c, h, row, -1);
    SingleFits(w, c, h);
    UpByOne(w.doc, h, row, Faithful(Step(w, Taking(c))));
  }

  lemma UpByOne(doc: string, h: Hunk, row: nat, right: bool)
    requires 1 <= row && row + h.lineCount <= |Body(doc)|
    requires right <==> Patch(doc, [EditAtRow(doc, h, row - 1)]) == Patch(doc, [EditAtRow(doc, h, row)])
    ensures var rows := Body(doc);
            right <==> rows[row - 1 + h.lineCount] == rows[row - 1] && Repeats(Split(h.text), rows[row - 1])
  {
    hide *;
    TwoRows(doc, h, row, row - 1);
    RowAbove(Body(doc), h, row);
  }

  lemma RowAbove(rows: seq<string>, h: Hunk, row: nat)
    requires 1 <= row && row + h.lineCount <= |rows|
    ensures Interchangeable(rows, RowEdit(h, row), RowEdit(h, row - 1))
       <==> rows[row - 1 + h.lineCount] == rows[row - 1] && Repeats(Split(h.text), rows[row - 1])
  {
    RotationByOne(rows, RowEdit(h, row - 1));
  }
}
