/** Accepting an accepted candidate again: the guard lets it through, and what its hunks do a second time. */
module SecondAccept {
  import opened AcceptChain
  import opened AcceptGuard
  import opened ChainInvariants
  import opened ChainTheorems
  import opened CharEdits
  import opened Contract
  import opened DedupeIncludes
  import opened DriftedAccepts
  import opened EditRanges
  import opened JsMaps
  import opened Options
  import opened Patches
  import opened Patching
  import opened ReachedWorlds
  import opened Sessions
  import opened StepRule
  import opened Text

  // --- the guard and the session ----------------------------------------------------------------

  /** On the text of the last accept the guard is open for every accepted candidate. */
  lemma GuardStaysOpen(w: World, c: Candidate)
    requires Inv(w) && w.doc == w.left && IsAccepted(w.session, c)
    ensures CurrentGuard(w.session, w.doc, c).Ok()
  {
    var accepted := AcceptedCandidates(w.session);
    assert RightlyAccepted(w.session, c);
    forall i | 0 <= i < |accepted| ensures accepted[i].id == c.id || !HunksConflict(c.hunks, accepted[i].hunks) {
      AcceptedMember(w.session.decisions, w.session.candidates, accepted[i]);
      assert IsAccepted(w.session, accepted[i]);
    }
    GuardMeaning(c, ContentHash(w.doc), w.session.expected, accepted);
  }

  lemma {:induction false} SetSame<K, V>(m: JsMap<K, V>, k: K, v: V)
    requires Get(m, k) == Options.Some(v)
    ensures Set(m, k, v) == m
  {
    if m[0].key == k {
    } else {
      SetSame(m[1..], k, v);
    }
  }

  lemma AcceptedAgain(s: Session, c: Candidate, overWarning: bool)
    requires IsAccepted(s, c)
    ensures RecordedSession(s, c, overWarning).decisions == s.decisions
  {
    SetSame(s.decisions, c.id, Accepted);
  }

  lemma SameAcceptedHunks(w: World, c: Candidate)
    requires IsAccepted(w.session, c) && Took(w, Taking(c))
    ensures AcceptedHunks(Step(w, Taking(c)).session) == AcceptedHunks(w.session)
    ensures Step(w, Taking(c)).session.snapshot == w.session.snapshot
    ensures HashPasses(Step(w, Taking(c)))
  {
    AcceptedAgain(w.session, c, CurrentGuard(w.session, w.doc, c).Warn?);
  }

  /** The session accepts what it accepted before, so it declares the text that was there. */
  lemma SameDeclared(w: World, c: Candidate)
    requires Sane(w) && IsAccepted(w.session, c) && Took(w, Taking(c))
    ensures var v := Step(w, Taking(c)); HashPasses(v) && Declared(v.session) == w.doc
  {
    hide Step, Took, AcceptedHunks, IsAccepted, HashPasses, Patched;
    SameAcceptedHunks(w, c);
    LeftIsDeclared(w);
  }

  // --- text that an edit would write over itself ---------------------------------------------------

  lemma WritesItself(text: string, e: Edit<char>)
    requires e.start + e.count <= |text|
    ensures Patch(text, [e]) == text <==> Target(text, e) == e.text
  {
    OneEdit(text, e);
    SameSplice(text, e.start, e.count, e.text, Patch(text, [e]), Target(text, e));
  }

  /** Whole lines in the body, as a stretch of the text. */
  lemma LinesHeld(body: seq<string>, last: string, row: nat, lines: seq<string>, text: string)
    requires Holds(body, row, lines) && text == Flatten(body) + last
    ensures Offset(body, row) + |Flatten(lines)| == Offset(body, row + |lines|) <= |text|
    ensures text[Offset(body, row)..Offset(body, row) + |Flatten(lines)|] == Flatten(lines)
  {
    var before, after := body[..row], body[row + |lines|..];
    assert body[..row + |lines|] == before + lines && body == body[..row + |lines|] + after;
    FlattenAppend(before, lines);
    FlattenAppend(body[..row + |lines|], after);
    Stretch(Flatten(before), Flatten(lines), Flatten(after), last, text);
  }

  lemma Stretch(above: string, part: string, below: string, last: string, text: string)
    requires text == ((above + part) + below) + last
    ensures |above| + |part| <= |text| && text[|above|..|above| + |part|] == part
  {
    assert text == above + (part + (below + last));
  }

  /** The end of a clamped range is the start of row `m` exactly for that row, or both are the end of the text. */
  lemma EndsAt(text: string, end: nat, m: nat)
    requires m <= |Body(text)|
    ensures ClampedOffset(text, end, 0) == Offset(Body(text), m)
       <==> end == m || (end > |Body(text)| && m == |Body(text)| && LastLine(text) == "")
  {
    var body := Body(text);
    BodyAndLast(text);
    assert body[..|body|] == body;
    OffsetMonotone(body, m, |body|);
    if end <= |body| {
      RowStart(text, end);
      if end <= m {
        OffsetMonotone(body, end, m);
      } else {
        OffsetMonotone(body, m, end);
      }
    }
  }

  /** The lines the hunk wrote are followed by more lines that it would replace, or by nothing at all. */
  ghost predicate WritesOver(doc: string, h: Hunk, row: nat) {
    || |Split(h.text)| == h.lineCount
    || (|Split(h.text)| < h.lineCount && row + |Split(h.text)| == |Body(doc)| && LastLine(doc) == "")
  }

  lemma EndsOver(doc: string, h: Hunk, row: nat, n: nat)
    requires n == |Split(h.text)| && row + n <= |Body(doc)|
    ensures WritesOver(doc, h, row)
       <==> row + h.lineCount == row + n
            || (row + h.lineCount > |Body(doc)| && row + n == |Body(doc)| && LastLine(doc) == "")
  {
  }

  lemma SameStretch(text: string, from: nat, to: nat, part: string)
    requires from <= to <= |text| && from + |part| <= |text| && text[from..from + |part|] == part
    ensures text[from..to] == part <==> to == from + |part|
  {
  }

  /** A replacement over its own text changes nothing exactly when it ends where that text ends. */
  lemma OverItself(doc: string, h: Hunk, row: nat)
    requires Holds(Body(doc), row, Split(h.text))
    ensures var e := EditAtRow(doc, h, row);
            e.start + e.count <= |doc| && (Target(doc, e) == e.text <==> WritesOver(doc, h, row))
  {
    hide Split, Flatten, WritesOver, LastLine;
    var e, n := EditAtRow(doc, h, row), |Split(h.text)|;
    EditAtRowIs(doc, h, row);
    BodyAndLast(doc);
    RowStart(doc, row);
    TerminatedLines(h.text);
    LinesHeld(Body(doc), LastLine(doc), row, Split(h.text), doc);
    EndsAt(doc, row + h.lineCount, row + n);
    EndsOver(doc, h, row, n);
    SameStretch(doc, e.start, e.start + e.count, e.text);
  }

  // --- where an accepted hunk is found ----------------------------------------------------------------

  /** An accepted replacement that no accepted deletion is above is found at the row computed for it. */
  lemma OwnTextHeld(w: World, h: Hunk)
    requires Sane(w) && h in AcceptedHunks(w.session) && h.lineCount > 0
    requires BelowNoDeletion(AcceptedHunks(w.session), [h])
    ensures 0 <= ComputedRow(w, h) && Holds(Body(w.doc), ComputedRow(w, h), Split(h.text))
  {
    var listed := Listed(w.ledger);
    SameMembers(AcceptedHunks(w.session), listed);
    OwnRow(w, h);
    LineOffsetOfBag(h.startLine, AcceptedHunks(w.session), listed);
    PatchedSplits(w.session.snapshot, listed);
    ListedIsWritten(w.ledger);
    WrittenHeld(Body(w.session.snapshot), listed, h);
  }

  lemma OwnRow(w: World, h: Hunk)
    requires LedgerInv(w) && AsListed(w.ledger) && BelowNoDeletion(Listed(w.ledger), [h])
    ensures LineOffset(h.startLine, Listed(w.ledger)) == Shift(WrittenEdits(Listed(w.ledger)), h.startLine - 1)
  {
    hide LineOffset, Shift, Drift, Written, WrittenEdits;
    assert h in [h];
    ListedNeverDrifts(w.ledger, h.startLine);
    ListedIsWritten(w.ledger);
    RowError(w.ledger, h.startLine);
  }

  lemma WrittenHeld(body: seq<string>, hs: seq<Hunk>, h: Hunk)
    requires Disjoint(hs) && InRange(hs, |body|) && h in hs && h.lineCount > 0
    ensures Holds(Patch(body, WrittenEdits(hs)), h.startLine - 1 + Shift(WrittenEdits(hs), h.startLine - 1),
                  Split(h.text))
  {
    var es := WrittenEdits(hs);
    WrittenClear(hs);
    var i :| 0 <= i < |hs| && hs[i] == h;
    assert es[i] == WrittenEdit(h);
    TextWritten(body, es, WrittenEdit(h));
  }

  // --- the second accept ---------------------------------------------------------------------------------

  lemma OneTaken(w: World, c: Candidate, h: Hunk)
    requires CurrentGuard(w.session, w.doc, c).Ok() && Deduped(c.hunks, IncludesOf(w.doc)) == [h]
    ensures Took(w, Taking(c)) && Step(w, Taking(c)).doc == Patch(w.doc, [EditAtRow(w.doc, h, ComputedRow(w, h))])
  {
    EditsComputed(w, [h]);
    assert ComputedEdits(w, [h]) == [EditAtRow(w.doc, h, ComputedRow(w, h))];
  }

  /** The second accept of one hunk leaves the document as it is. */
  ghost predicate Harmless(w: World, h: Hunk) {
    if h.lineCount == 0 then DedupeHunk(h, IncludesOf(w.doc)) == None
    else 0 <= ComputedRow(w, h) && WritesOver(w.doc, h, ComputedRow(w, h))
  }

  lemma ReplacedAgain(w: World, c: Candidate, h: Hunk)
    requires Sane(w) && CurrentGuard(w.session, w.doc, c).Ok()
    requires c.hunks == [h] && h in AcceptedHunks(w.session) && h.lineCount > 0
    requires BelowNoDeletion(AcceptedHunks(w.session), [h])
    ensures Took(w, Taking(c)) && (Step(w, Taking(c)).doc == w.doc <==> Harmless(w, h))
  {
    hide Sane, CurrentGuard, BelowNoDeletion, WritesOver, ComputedRow, EditAtRow, Step, Took;
    OneReplaced(h, IncludesOf(w.doc));
    OneTaken(w, c, h);
    OwnTextHeld(w, h);
    OverItself(w.doc, h, ComputedRow(w, h));
    WritesItself(w.doc, EditAtRow(w.doc, h, ComputedRow(w, h)));
  }

  lemma OneReplaced(h: Hunk, existing: set<string>)
    ensures h.lineCount > 0 ==> Deduped([h], existing) == [h]
    ensures DedupeHunk(h, existing).Some? ==> Deduped([h], existing) == [DedupeHunk(h, existing).value]
    ensures DedupeHunk(h, existing) == None ==> Deduped([h], existing) == []
  {
    assert [h][..0] == [];
  }

  lemma InsertedAgain(w: World, c: Candidate, h: Hunk)
    requires CurrentGuard(w.session, w.doc, c).Ok() && c.hunks == [h] && h.lineCount == 0
    ensures Took(w, Taking(c)) && (Step(w, Taking(c)).doc == w.doc <==> Harmless(w, h))
  {
    OneReplaced(h, IncludesOf(w.doc));
    if DedupeHunk(h, IncludesOf(w.doc)).Some? {
      var d := DedupeHunk(h, IncludesOf(w.doc)).value;
      DedupeKeepsPlace(h, IncludesOf(w.doc));
      OneTaken(w, c, d);
      NeverNothing(w.doc, d, ComputedRow(w, d));
    }
  }

  lemma NeverNothing(doc: string, h: Hunk, row: int)
    requires h.lineCount == 0
    ensures Patch(doc, [EditAtRow(doc, h, row)]) != doc
  {
    EditAtRowIs(doc, h, row);
    WritesItself(doc, EditAtRow(doc, h, row));
    assert |Target(doc, EditAtRow(doc, h, row))| == 0 != |EditAtRow(doc, h, row).text|;
  }

  lemma AcceptedOf(s: Session, c: Candidate, h: Hunk)
    requires IsAccepted(s, c) && Shape(s) && h in c.hunks
    ensures h in AcceptedHunks(s)
  {
    AcceptedMember(s.decisions, s.candidates, c);
    HunksMember(AcceptedCandidates(s), h);
  }

  /**
   Accepting a candidate of one hunk again: the guard is open, the accept goes through, the
   hash test passes after it, and the document is still the Original with the accepted
   patches exactly when an insertion is dropped as a whole, or a replacement ends where its
   own text ends.
   */
  lemma SecondAcceptDecides(w: World, c: Candidate, h: Hunk)
    requires Sane(w) && IsAccepted(w.session, c) && c.hunks == [h]
    requires h.lineCount > 0 ==> BelowNoDeletion(AcceptedHunks(w.session), [h])
    ensures var v := Step(w, Taking(c));
            && CurrentGuard(w.session, w.doc, c).Ok() && Took(w, Taking(c)) && HashPasses(v)
            && (v.doc == Declared(v.session) <==> Harmless(w, h))
  {
    hide Harmless, Step, Took;
    GuardStaysOpen(w, c);
    AcceptedOf(w.session, c, h) by {
      assert [h][0] == h;
    }
    if h.lineCount == 0 {
      InsertedAgain(w, c, h);
    } else {
      ReplacedAgain(w, c, h);
    }
    SameDeclared(w, c);
  }

  // --- several hunks that keep the number of lines ------------------------------------------------------

  lemma AllWriteThemselves(text: string, es: seq<Edit<char>>)
    requires AllClear(es) && forall i | 0 <= i < |es| :: Restates(text, es[i])
    ensures Patch(text, es) == text
  {
    assert [] + es == es;
    RestatingChangesNothing(text, [], es);
    NoEdits(text);
  }

  lemma OverlapIsClear(es: seq<Edit<char>>)
    requires forall i | 0 <= i < |es| :: es[i].count > 0
    requires forall i, j | 0 <= i < j < |es| :: !Overlap(es[i], es[j])
    ensures AllClear(es)
  {
  }

  lemma KeepsItself(w: World, h: Hunk)
    requires Sane(w) && h in AcceptedHunks(w.session) && h.lineCount > 0 && |Split(h.text)| == h.lineCount
    requires BelowNoDeletion(AcceptedHunks(w.session), [h])
    ensures var e := EditAtRow(w.doc, h, ComputedRow(w, h)); Restates(w.doc, e) && e.count > 0
  {
    OwnTextHeld(w, h);
    OverItself(w.doc, h, ComputedRow(w, h));
    EditAtRowIs(w.doc, h, ComputedRow(w, h));
  }

  /** Line-neutral replacements, however many, do no harm the second time. */
  lemma SecondAcceptNeutral(w: World, c: Candidate)
    requires Sane(w) && IsAccepted(w.session, c) && KeepLineCount(c.hunks)
    requires BelowNoDeletion(AcceptedHunks(w.session), c.hunks)
    ensures var v := Step(w, Taking(c)); HashPasses(v) && v.doc == Declared(v.session)
  {
    if Took(w, Taking(c)) {
      AllKept(c.hunks, IncludesOf(w.doc));
      EditsComputed(w, c.hunks);
      NeutralEdits(w, c);
      if c.hunks == [] {
        NoEdits(w.doc);
      }
      SameDeclared(w, c);
    } else {
      LeftIsDeclared(w);
    }
  }

  lemma {:induction false} AllKept(hs: seq<Hunk>, existing: set<string>)
    requires KeepLineCount(hs)
    ensures Deduped(hs, existing) == hs
  {
    if hs == [] {
    } else {
      AllKept(hs[..|hs| - 1], existing);
      assert hs == hs[..|hs| - 1] + [hs[|hs| - 1]];
    }
  }

  lemma NeutralEdits(w: World, c: Candidate)
    requires Sane(w) && IsAccepted(w.session, c) && KeepLineCount(c.hunks)
    requires BelowNoDeletion(AcceptedHunks(w.session), c.hunks)
    ensures ApplyTextEdits(w.doc, ComputedEdits(w, c.hunks)).Some? ==>
              ApplyTextEdits(w.doc, ComputedEdits(w, c.hunks)).value == w.doc
  {
    var es := ComputedEdits(w, c.hunks);
    forall i | 0 <= i < |es| ensures Restates(w.doc, es[i]) && es[i].count > 0 {
      var h := c.hunks[i];
      AcceptedOf(w.session, c, h);
      assert BelowNoDeletion(AcceptedHunks(w.session), [h]);
      KeepsItself(w, h);
    }
    if ApplyTextEdits(w.doc, es).Some? {
      OverlapIsClear(es);
      AllWriteThemselves(w.doc, es);
    }
  }
}
