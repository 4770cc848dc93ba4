/**
 The ledger of the accept chain: what was listed, what was written, and why the computed
 rows complete the declarative patch of the Original.
 */
module ChainInvariants {
  import opened AcceptChain
  import opened AcceptGuard
  import opened CharEdits
  import opened Contract
  import opened DedupeIncludes
  import opened EditRanges
  import opened JsMaps
  import opened Options
  import opened Patches
  import opened Patching
  import opened Sessions
  import opened Sorting

  // --- rows -----------------------------------------------------------------------------------

  lemma EntryError(e: Entry, startLine: LineNo)
    requires InPlace(e)
    ensures OffsetPart(e.listed, startLine)
         == (match e.written { case None => 0 case Some(h) => Growth(WrittenEdit(h), startLine - 1) })
          + (if Above(e.listed, startLine) then Lost(e) else 0)
  {
  }

  /** The offset the code computes is off by exactly the lines lost at or above the hunk. */
  lemma {:induction false} RowError(ledger: seq<Entry>, startLine: LineNo)
    requires AllInPlace(ledger)
    ensures LineOffset(startLine, Listed(ledger))
         == Shift(WrittenEdits(Written(ledger)), startLine - 1) + Drift(ledger, startLine)
  {
    if ledger == [] {
    } else {
      var n := |ledger| - 1;
      RowError(ledger[..n], startLine);
      EntryError(ledger[n], startLine);
      assert Listed(ledger)[..n] == Listed(ledger[..n]);
      WrittenShiftLast(ledger, startLine - 1);
    }
  }

  lemma WrittenShiftLast(ledger: seq<Entry>, p: nat)
    requires ledger != []
    ensures Shift(WrittenEdits(Written(ledger)), p) == Shift(WrittenEdits(Written(ledger[..|ledger| - 1])), p)
         + match ledger[|ledger| - 1].written { case None => 0 case Some(h) => Growth(WrittenEdit(h), p) }
  {
    var init, e := Written(ledger[..|ledger| - 1]), ledger[|ledger| - 1];
    if e.written.Some? {
      var es := WrittenEdits(init + [e.written.value]);
      assert es[..|es| - 1] == WrittenEdits(init);
    } else {
      assert Written(ledger) == init;
    }
  }

  lemma {:induction false} WrittenAppend(a: seq<Entry>, b: seq<Entry>)
    ensures Written(a + b) == Written(a) + Written(b)
    ensures Listed(a + b) == Listed(a) + Listed(b)
  {
    assert Listed(a + b) == Listed(a) + Listed(b);
    if b == [] {
      assert a + b == a;
    } else {
      var init, e := b[..|b| - 1], b[|b| - 1];
      WrittenAppend(a, init);
      assert a + b == (a + init) + [e] && b == init + [e];
      WrittenLast(a + init, e);
      WrittenLast(init, e);
    }
  }

  function OneIfWritten(e: Entry): seq<Hunk> {
    match e.written { case None => [] case Some(h) => [h] }
  }

  lemma WrittenLast(ledger: seq<Entry>, e: Entry)
    ensures Written(ledger + [e]) == Written(ledger) + OneIfWritten(e)
  {
    assert (ledger + [e])[..|ledger|] == ledger;
  }

  lemma {:induction false} EntriesWritten(hs: seq<Hunk>, existing: set<string>)
    ensures Written(EntriesFor(hs, existing)) == Deduped(hs, existing)
    ensures Listed(EntriesFor(hs, existing)) == hs && AllInPlace(EntriesFor(hs, existing))
  {
    if hs == [] {
    } else {
      var n := |hs| - 1;
      EntriesWritten(hs[..n], existing);
      assert EntriesFor(hs, existing)[..n] == EntriesFor(hs[..n], existing);
      forall i | 0 <= i < |hs| ensures InPlace(EntriesFor(hs, existing)[i]) {
        DedupeKeepsPlace(hs[i], existing);
      }
    }
  }

  // --- the conditions on candidates and accepts -----------------------------------------------

  ghost predicate Sound(c: Candidate, snapshot: string) {
    Disjoint(c.hunks) && Settled(c.hunks, snapshot)
  }

  ghost predicate AllSound(cs: JsMap<string, Candidate>, snapshot: string) {
    forall i | 0 <= i < |cs| :: Sound(cs[i].value, snapshot)
  }

  /** Only sound candidates come in. */
  ghost predicate BringsSound(w: World, a: Action) {
    a.Generate? || a.Regenerate? ==> Sound(a.candidate, w.session.snapshot)
  }

  /** The step rule, with sound candidates coming in. */
  ghost predicate RuledSound(w: World, a: Action) {
    Ruled(w, a) && BringsSound(w, a)
  }

  ghost predicate SoundRun(w: World, actions: seq<Action>) {
    actions == [] ||
    (var n := |actions| - 1;
     SoundRun(w, actions[..n]) && RuledSound(Run(w, actions[..n]), actions[n]))
  }

  lemma SoundRunLast(w: World, actions: seq<Action>, a: Action)
    ensures SoundRun(w, actions + [a]) <==> SoundRun(w, actions) && RuledSound(Run(w, actions), a)
  {
    assert (actions + [a])[..|actions|] == actions;
  }

  /** No hunk that is about to be written lies below a lost line. */
  ghost predicate Aligned(w: World, c: Candidate) {
    forall h | h in Deduped(c.hunks, IncludesOf(w.doc)) :: Drift(w.ledger, h.startLine) == 0
  }

  ghost predicate Allowed(w: World, a: Action) {
    RuledSound(w, a) && (Took(w, a) ==> Aligned(w, a.candidate))
  }

  /** Every action is allowed in the world that the ones before it leave. */
  ghost predicate AllowedRun(w: World, actions: seq<Action>) {
    actions == [] ||
    (var n := |actions| - 1;
     AllowedRun(w, actions[..n]) && Allowed(Run(w, actions[..n]), actions[n]))
  }

  lemma {:induction false} AllowedIsSound(w: World, actions: seq<Action>)
    requires AllowedRun(w, actions)
    ensures SoundRun(w, actions)
  {
    if actions == [] {
    } else {
      AllowedIsSound(w, actions[..|actions| - 1]);
    }
  }

  // --- the invariant ---------------------------------------------------------------------------

  /** What the last accept left is the one declarative patch of the Original. */
  ghost predicate Faithful(w: World) {
    w.left == Patched(w.session.snapshot, Written(w.ledger))
  }

  /** The ledger records the accepted hunks, which are clear of each other. */
  ghost predicate LedgerInv(w: World) {
    && AllInPlace(w.ledger)
    && Disjoint(Listed(w.ledger)) && Settled(Listed(w.ledger), w.session.snapshot)
    && multiset(AcceptedHunks(w.session)) == multiset(Listed(w.ledger))
  }

  ghost predicate Inv(w: World) {
    && SessionInv(w.session) && HashInv(w)
    && AllSound(w.session.candidates, w.session.snapshot) && LedgerInv(w)
  }

  lemma NewWorldInv(snapshot: string)
    ensures Inv(NewWorld(snapshot))
  {
  }

  lemma NewWorldFaithful(snapshot: string)
    ensures Faithful(NewWorld(snapshot))
  {
    NothingPatched(snapshot);
  }

  lemma {:induction false} SetSound(cs: JsMap<string, Candidate>, c: Candidate, snapshot: string)
    requires AllSound(cs, snapshot) && Sound(c, snapshot)
    ensures AllSound(Set(cs, c.id, c), snapshot)
  {
    if cs == [] || cs[0].key == c.id {
    } else {
      assert AllSound(cs[1..], snapshot);
      SetSound(cs[1..], c, snapshot);
    }
  }

  lemma {:induction false} DeleteSound(cs: JsMap<string, Candidate>, id: string, snapshot: string)
    requires AllSound(cs, snapshot)
    ensures AllSound(Delete(cs, id), snapshot)
  {
    if cs == [] || cs[0].key == id {
    } else {
      assert AllSound(cs[1..], snapshot);
      DeleteSound(cs[1..], id, snapshot);
    }
  }

  lemma {:induction false} DropSound(s: Session, entries: JsMap<string, Candidate>, f: string, snapshot: string)
    requires AllSound(s.candidates, snapshot)
    ensures AllSound(DropFinding(s, entries, f).candidates, snapshot)
  {
    if entries == [] {
    } else {
      var n := |entries| - 1;
      DropSound(s, entries[..n], f, snapshot);
      DeleteSound(DropFinding(s, entries[..n], f).candidates, entries[n].key, snapshot);
    }
  }

  lemma StepKeepsSound(w: World, a: Action)
    requires AllSound(w.session.candidates, w.session.snapshot) && BringsSound(w, a)
    ensures AllSound(Step(w, a).session.candidates, w.session.snapshot)
  {
    var s := w.session;
    if a.Generate? {
      SetSound(s.candidates, a.candidate, s.snapshot);
    } else if a.Regenerate? {
      DropSound(s, s.candidates, a.findingId, s.snapshot);
      SetSound(DropFinding(s, s.candidates, a.findingId).candidates, a.candidate, s.snapshot);
    }
  }

  // --- an accept -----------------------------------------------------------------------------

  lemma {:induction false} LineOffsetOfBag(startLine: int, hs: seq<Hunk>, gs: seq<Hunk>)
    requires multiset(hs) == multiset(gs)
    ensures LineOffset(startLine, hs) == LineOffset(startLine, gs)
    decreases |hs|
  {
    if hs == [] {
      assert |multiset(gs)| == 0;
    } else {
      var n := |hs| - 1;
      var i := PlaceOf(hs[n], gs) by {
        assert hs[n] in multiset(gs);
      }
      assert multiset(hs[..n]) == multiset(gs[..i] + gs[i + 1..]) by {
        TakeOut(gs, i);
        TakeOut(hs, n);
        assert hs[..n] + hs[n + 1..] == hs[..n];
      }
      LineOffsetOfBag(startLine, hs[..n], gs[..i] + gs[i + 1..]);
      LineOffsetWithout(startLine, gs, i);
    }
  }

  lemma PlaceOf(h: Hunk, gs: seq<Hunk>) returns (i: nat)
    requires h in multiset(gs)
    ensures i < |gs| && gs[i] == h
  {
    i :| 0 <= i < |gs| && gs[i] == h;
  }

  lemma TakeOut(hs: seq<Hunk>, i: nat)
    requires i < |hs|
    ensures multiset(hs[..i] + hs[i + 1..]) == multiset(hs) - multiset{hs[i]}
  {
    assert hs == hs[..i] + ([hs[i]] + hs[i + 1..]);
  }

  lemma LineOffsetWithout(startLine: int, gs: seq<Hunk>, i: nat)
    requires i < |gs|
    ensures LineOffset(startLine, gs) == LineOffset(startLine, gs[..i] + gs[i + 1..]) + OffsetPart(gs[i], startLine)
  {
    assert gs == gs[..i] + ([gs[i]] + gs[i + 1..]);
    LineOffsetAppend(startLine, gs[..i], [gs[i]] + gs[i + 1..]);
    LineOffsetAppend(startLine, [gs[i]], gs[i + 1..]);
    LineOffsetAppend(startLine, gs[..i], gs[i + 1..]);
    assert [gs[i]][..0] == [];
  }

  lemma {:induction false} LineOffsetAppend(startLine: int, a: seq<Hunk>, b: seq<Hunk>)
    ensures LineOffset(startLine, a + b) == LineOffset(startLine, a) + LineOffset(startLine, b)
  {
    if b == [] {
      assert a + b == a;
    } else {
      LineOffsetAppend(startLine, a, b[..|b| - 1]);
      assert (a + b)[..|a + b| - 1] == a + b[..|b| - 1];
    }
  }

  lemma DisjointLast(hs: seq<Hunk>, h: Hunk)
    ensures Disjoint(hs + [h])
       <==> Disjoint(hs) && forall x | x in hs :: !RangesIntersect(HunkRange(x), HunkRange(h))
  {
    var bad := (a: Hunk, b: Hunk) => RangesIntersect(HunkRange(a), HunkRange(b));
    NoPairLast(hs, h, bad);
    assert NoPair(hs, bad) <==> Disjoint(hs);
    assert NoPair(hs + [h], bad) <==> Disjoint(hs + [h]);
  }

  lemma {:induction false} DisjointJoin(hs: seq<Hunk>, gs: seq<Hunk>)
    requires Disjoint(hs) && Disjoint(gs)
    requires forall x, y | x in hs && y in gs :: !RangesIntersect(HunkRange(x), HunkRange(y))
    ensures Disjoint(hs + gs)
  {
    forall i, j | 0 <= i < j < |hs + gs|
      ensures !RangesIntersect(HunkRange((hs + gs)[i]), HunkRange((hs + gs)[j]))
    {
      if i < |hs| && j >= |hs| {
        assert hs[i] in hs && gs[j - |hs|] in gs;
      }
    }
  }

  lemma {:induction false} WrittenMember(ledger: seq<Entry>, h: Hunk)
    requires h in Written(ledger) && AllInPlace(ledger)
    ensures exists x | x in Listed(ledger) :: HunkRange(x) == HunkRange(h) && x.startLine == h.startLine
  {
    var n := |ledger| - 1;
    if ledger[n].written == Some(h) {
      assert InPlace(ledger[n]);
      assert Listed(ledger)[n] == ledger[n].listed;
      assert ledger[n].listed in Listed(ledger);
    } else {
      WrittenMember(ledger[..n], h);
      var x :| x in Listed(ledger[..n]) && HunkRange(x) == HunkRange(h) && x.startLine == h.startLine;
      var i :| 0 <= i < n && Listed(ledger[..n])[i] == x;
      assert Listed(ledger)[i] == x;
      assert x in Listed(ledger);
    }
  }

  /** What was written is as disjoint and as settled as what was listed. */
  lemma {:induction false} WrittenDisjoint(ledger: seq<Entry>)
    requires AllInPlace(ledger) && Disjoint(Listed(ledger))
    ensures Disjoint(Written(ledger))
  {
    if ledger == [] {
    } else {
      var n := |ledger| - 1;
      var init, e := ledger[..n], ledger[n];
      assert Listed(ledger) == Listed(init) + [e.listed];
      DisjointLast(Listed(init), e.listed);
      WrittenDisjoint(init);
      assert InPlace(e);
      if e.written.Some? {
        forall x | x in Written(init) ensures !RangesIntersect(HunkRange(x), HunkRange(e.written.value)) {
          WrittenMember(init, x);
        }
        DisjointLast(Written(init), e.written.value);
      }
    }
  }

  lemma {:induction false} DedupedSettled(hs: seq<Hunk>, existing: set<string>, n: nat)
    requires InRange(hs, n)
    ensures InRange(Deduped(hs, existing), n)
  {
    if hs == [] {
    } else {
      DedupedSettled(hs[..|hs| - 1], existing, n);
      DedupeKeepsPlace(hs[|hs| - 1], existing);
    }
  }

  /** An open guard means that the new hunks are clear of everything accepted so far. */
  lemma GuardClears(w: World, c: Candidate)
    requires Inv(w) && Stored(w.session, c) && CurrentGuard(w.session, w.doc, c).Ok()
    ensures Sound(c, w.session.snapshot) && w.doc == w.left
    ensures Disjoint(Listed(w.ledger) + c.hunks)
  {
    GuardMeaning(c, ContentHash(w.doc), w.session.expected, AcceptedCandidates(w.session));
    StoredIsSound(w.session, c);
    forall x, y | x in Listed(w.ledger) && y in c.hunks
      ensures !RangesIntersect(HunkRange(x), HunkRange(y))
    {
      assert x in multiset(AcceptedHunks(w.session));
      ClearOfAcceptedHunk(w.session, c, x, y);
    }
    DisjointJoin(Listed(w.ledger), c.hunks);
  }

  lemma StoredIsSound(s: Session, c: Candidate)
    requires Distinct(s.candidates) && AllSound(s.candidates, s.snapshot) && Get(s.candidates, c.id) == Some(c)
    ensures Sound(c, s.snapshot)
  {
    GetKey(s.candidates, c.id);
    var k :| 0 <= k < |s.candidates| && s.candidates[k].key == c.id;
    GetAt(s.candidates, k);
  }

  lemma ClearOfAcceptedHunk(s: Session, c: Candidate, x: Hunk, y: Hunk)
    requires Shape(s) && Stored(s, c) && x in AcceptedHunks(s) && y in c.hunks
    requires forall i | 0 <= i < |AcceptedCandidates(s)| ::
               AcceptedCandidates(s)[i].id == c.id || !HunksConflict(c.hunks, AcceptedCandidates(s)[i].hunks)
    ensures !RangesIntersect(HunkRange(x), HunkRange(y))
  {
    var accepted := AcceptedCandidates(s);
    HunksMember(accepted, x);
    var i :| 0 <= i < |accepted| && x in accepted[i].hunks;
    AcceptedMember(s.decisions, s.candidates, accepted[i]);
    var p :| 0 <= p < |c.hunks| && c.hunks[p] == y;
    var q :| 0 <= q < |accepted[i].hunks| && accepted[i].hunks[q] == x;
    assert !RangesIntersect(HunkRange(c.hunks[p]), HunkRange(accepted[i].hunks[q]));
  }

  /** The row the code computes is the true row, when nothing above was lost. */
  lemma RowIsTrue(original: string, ledger: seq<Entry>, accepted: seq<Hunk>, hs: seq<Hunk>, i: nat)
    requires AllInPlace(ledger) && multiset(accepted) == multiset(Listed(ledger))
    requires Disjoint(Written(ledger) + hs) && Settled(hs, original) && i < |hs|
    ensures LineOffset(hs[i].startLine, accepted)
         == TrueRow(Written(ledger), hs[i].startLine) - (hs[i].startLine - 1) + Drift(ledger, hs[i].startLine)
  {
    var startLine := hs[i].startLine;
    assert LineOffset(startLine, accepted) == LineOffset(startLine, Listed(ledger)) by {
      LineOffsetOfBag(startLine, accepted, Listed(ledger));
    }
    assert TrueRow(Written(ledger), startLine)
        == startLine - 1 + Shift(WrittenEdits(Written(ledger)), startLine - 1) by {
      RowIsShift(original, Written(ledger), hs, i);
    }
    RowError(ledger, startLine);
  }

  /** So the ranges the code computes complete the declarative patch. */
  lemma ApplyAligned(original: string, ledger: seq<Entry>, accepted: seq<Hunk>, hs: seq<Hunk>)
    requires AllInPlace(ledger) && multiset(accepted) == multiset(Listed(ledger))
    requires Disjoint(Written(ledger) + hs) && Settled(hs, original)
    requires forall i | 0 <= i < |hs| :: Drift(ledger, hs[i].startLine) == 0
    ensures ApplyRanges(Patched(original, Written(ledger)), CandidateToEditRanges(hs, accepted))
         == Some(Patched(original, Written(ledger) + hs))
  {
    forall i | 0 <= i < |hs|
      ensures LineOffset(hs[i].startLine, accepted)
           == TrueRow(Written(ledger), hs[i].startLine) - (hs[i].startLine - 1)
    {
      RowIsTrue(original, ledger, accepted, hs, i);
    }
    ApplyAtTrueRows(original, Written(ledger), hs, CandidateToEditRanges(hs, accepted));
  }

  lemma RowIsShift(original: string, written: seq<Hunk>, hs: seq<Hunk>, i: nat)
    requires Disjoint(written + hs) && Settled(hs, original) && i < |hs|
    ensures TrueRow(written, hs[i].startLine)
         == hs[i].startLine - 1 + Shift(WrittenEdits(written), hs[i].startLine - 1)
  {
    var es := WrittenEdits(written);
    WrittenClear(written + hs);
    assert WrittenEdits(written + hs) == es + WrittenEdits(hs);
    ClearSplit(es, WrittenEdits(hs));
    assert ClearOf(es, WrittenEdits(hs)[i]);
    Rebase(Body(original), es, WrittenEdits(hs)[i]);
  }

  /** What an accept adds to the ledger stays in place and disjoint. */
  lemma LedgerGrows(w: World, c: Candidate)
    requires Inv(w) && Stored(w.session, c) && CurrentGuard(w.session, w.doc, c).Ok()
    ensures var hs := Deduped(c.hunks, IncludesOf(w.doc));
            var after := w.ledger + EntriesFor(c.hunks, IncludesOf(w.doc));
            && AllInPlace(after) && Listed(after) == Listed(w.ledger) + c.hunks && Disjoint(Listed(after))
            && Written(after) == Written(w.ledger) + hs && Disjoint(Written(after))
            && Settled(hs, w.session.snapshot) && Settled(Listed(after), w.session.snapshot)
            && w.doc == w.left
  {
    var existing := IncludesOf(w.doc);
    GuardClears(w, c);
    EntriesWritten(c.hunks, existing);
    WrittenAppend(w.ledger, EntriesFor(c.hunks, existing));
    WrittenDisjoint(w.ledger + EntriesFor(c.hunks, existing));
    DedupedSettled(c.hunks, existing, |Body(w.session.snapshot)|);
  }

  /** The document an accept leaves is the one declarative patch of the Original. */
  lemma AcceptLands(w: World, c: Candidate, editorAccepts: bool)
    requires Inv(w) && Faithful(w)
    requires Stored(w.session, c) && Aligned(w, c) && CurrentGuard(w.session, w.doc, c).Ok()
    ensures var after := w.ledger + EntriesFor(c.hunks, IncludesOf(w.doc));
            var applied := ApplyCandidate(w.doc, c, AcceptedHunks(w.session), editorAccepts);
            applied.Some? ==> applied.value == Patched(w.session.snapshot, Written(after))
  {
    var hs := Deduped(c.hunks, IncludesOf(w.doc));
    LedgerGrows(w, c);
    if hs == [] {
      assert Written(w.ledger) + hs == Written(w.ledger);
    } else {
      ApplyAligned(w.session.snapshot, w.ledger, AcceptedHunks(w.session), hs);
    }
  }

  lemma BagGrows(bag: multiset<Hunk>, listed: seq<Hunk>, more: seq<Hunk>)
    requires bag == multiset(listed)
    ensures bag + multiset(more) == multiset(listed + more)
  {
  }

  lemma AcceptKeepsLedger(w: World, c: Candidate, confirmed: bool, editorAccepts: bool, applied: seq<Hunk>)
    requires Inv(w) && (GoesThrough(w, c, confirmed, editorAccepts, applied) ==> Stored(w.session, c))
    ensures LedgerInv(AcceptWith(w, c, confirmed, editorAccepts, applied))
  {
    if GoesThrough(w, c, confirmed, editorAccepts, applied) {
      var g := CurrentGuard(w.session, w.doc, c);
      LedgerGrows(w, c);
      RecordedShape(w.session, c, g.Warn?);
      BagGrows(multiset(AcceptedHunks(w.session)), Listed(w.ledger), c.hunks);
    }
  }

  lemma NeutralKeepsLedger(w: World, v: World)
    requires LedgerInv(w) && v.ledger == w.ledger && v.session.snapshot == w.session.snapshot
    requires AcceptedCandidates(v.session) == AcceptedCandidates(w.session)
    ensures LedgerInv(v)
  {
  }

  /** Every ruled step with sound candidates keeps the invariant, trimmed includes and drift included. */
  lemma StepKeeps(w: World, a: Action)
    requires Inv(w) && RuledSound(w, a)
    ensures Inv(Step(w, a))
  {
    StepKeepsSession(w, a);
    StepKeepsHash(w, a);
    StepKeepsSound(w, a);
    if a.Accept? {
      AcceptKeepsLedger(w, a.candidate, a.confirmed, a.editorAccepts, AcceptedHunks(w.session));
    } else {
      if !a.Settle? {
        OtherStepIsNeutral(w, a);
      }
      NeutralKeepsLedger(w, Step(w, a));
    }
  }

  lemma {:induction false} RunKeeps(w: World, actions: seq<Action>)
    requires Inv(w) && SoundRun(w, actions)
    ensures Inv(Run(w, actions))
  {
    if actions == [] {
    } else {
      var n := |actions| - 1;
      RunKeeps(w, actions[..n]);
      StepKeeps(Run(w, actions[..n]), actions[n]);
    }
  }

  lemma AcceptStaysFaithful(w: World, c: Candidate, confirmed: bool, editorAccepts: bool)
    requires Inv(w) && Faithful(w) && Allowed(w, Accept(c, confirmed, editorAccepts))
    ensures Faithful(AcceptStep(w, c, confirmed, editorAccepts))
  {
    hide Inv, Patched, Written, EntriesFor, ApplyCandidate, AcceptedHunks, Deduped, IncludesOf, Drift;
    if Took(w, Accept(c, confirmed, editorAccepts)) {
      AcceptLands(w, c, editorAccepts);
    }
  }

  lemma SameChain(w: World, v: World)
    requires Faithful(w) && v.left == w.left && v.ledger == w.ledger && v.session.snapshot == w.session.snapshot
    ensures Faithful(v)
  {
  }

  /** Every allowed step leaves the chain at the declarative patch. */
  lemma StepStaysFaithful(w: World, a: Action)
    requires Inv(w) && Faithful(w) && Allowed(w, a)
    ensures Faithful(Step(w, a))
  {
    hide SessionInv, LedgerInv, AllSound, Patched, Written, AcceptStep;
    if a.Accept? {
      AcceptStaysFaithful(w, a.candidate, a.confirmed, a.editorAccepts);
    } else {
      StepKeepsHash(w, a);
      SameChain(w, Step(w, a));
    }
  }

  lemma {:induction false} RunStaysFaithful(w: World, actions: seq<Action>)
    requires Inv(w) && Faithful(w) && AllowedRun(w, actions)
    ensures Inv(Run(w, actions)) && Faithful(Run(w, actions))
  {
    if actions == [] {
    } else {
      var n := |actions| - 1;
      RunStaysFaithful(w, actions[..n]);
      StepKeeps(Run(w, actions[..n]), actions[n]);
      StepStaysFaithful(Run(w, actions[..n]), actions[n]);
    }
  }
}
