/** What the accept chain promises over whole runs. */
module ChainTheorems {
  import opened AcceptChain
  import opened AcceptGuard
  import opened ChainInvariants
  import opened CharEdits
  import opened Contract
  import opened DedupeIncludes
  import opened EditRanges
  import opened JsMaps
  import opened Options
  import opened Patches
  import opened Patching
  import opened Sessions
  import opened Text

  // --- the patch does not depend on the order of its hunks ---------------------------

  lemma {:induction false} DisjointOnce(hs: seq<Hunk>, x: Hunk)
    requires Disjoint(hs)
    ensures multiset(hs)[x] <= 1
  {
    if hs == [] {
    } else {
      var n := |hs| - 1;
      assert hs == hs[..n] + [hs[n]];
      DisjointOnce(hs[..n], x);
      DisjointLast(hs[..n], hs[n]);
      assert RangesIntersect(HunkRange(x), HunkRange(x));
      assert hs[n] == x ==> x !in hs[..n];
    }
  }

  lemma CountTwo(gs: seq<Hunk>, i: nat, j: nat)
    requires i < j < |gs| && gs[i] == gs[j]
    ensures multiset(gs)[gs[i]] >= 2
  {
    assert gs == gs[..j] + ([gs[j]] + gs[j + 1..]);
    assert gs[i] == gs[..j][i];
    assert gs[i] in multiset(gs[..j]);
  }

  lemma DisjointBag(hs: seq<Hunk>, gs: seq<Hunk>)
    requires Disjoint(hs) && multiset(gs) == multiset(hs)
    ensures Disjoint(gs)
  {
    forall i, j | 0 <= i < j < |gs| ensures !RangesIntersect(HunkRange(gs[i]), HunkRange(gs[j])) {
      assert gs[i] in multiset(gs) && gs[j] in multiset(gs);
      assert gs[i] in multiset(hs) && gs[j] in multiset(hs);
      var p :| 0 <= p < |hs| && hs[p] == gs[i];
      var q :| 0 <= q < |hs| && hs[q] == gs[j];
      if p == q {
        CountTwo(gs, i, j);
        DisjointOnce(hs, gs[i]);
      } else if p < q {
        assert !RangesIntersect(HunkRange(hs[p]), HunkRange(hs[q]));
      } else {
        assert !RangesIntersect(HunkRange(hs[q]), HunkRange(hs[p]));
      }
    }
  }

  lemma PatchedOrderFree(original: string, hs: seq<Hunk>, gs: seq<Hunk>)
    requires Disjoint(hs) && Disjoint(gs) && forall x :: x in hs <==> x in gs
    ensures Patched(original, hs) == Patched(original, gs)
  {
    WrittenClear(hs);
    WrittenClear(gs);
    SameWritten(hs, gs);
    SameWritten(gs, hs);
    PatchOrderFree(Body(original), WrittenEdits(hs), WrittenEdits(gs));
  }

  lemma SameWritten(hs: seq<Hunk>, gs: seq<Hunk>)
    requires forall x :: x in hs <==> x in gs
    ensures forall e :: e in WrittenEdits(hs) ==> e in WrittenEdits(gs)
  {
    forall e | e in WrittenEdits(hs) ensures e in WrittenEdits(gs) {
      var i :| 0 <= i < |hs| && WrittenEdits(hs)[i] == e;
      assert hs[i] in gs;
      var j :| 0 <= j < |gs| && gs[j] == hs[i];
      assert WrittenEdits(gs)[j] == e;
    }
  }

  // --- runs in which nothing is trimmed ------------------------------------------------

  /** Everything was written as it was listed. */
  ghost predicate AsListed(ledger: seq<Entry>) {
    forall i | 0 <= i < |ledger| :: ledger[i].written == Some(ledger[i].listed)
  }

  /** No hunk of `hs` lies below a pure deletion of `accepted`. */
  ghost predicate BelowNoDeletion(accepted: seq<Hunk>, hs: seq<Hunk>) {
    forall x, h | x in accepted && PureDeletion(x) && h in hs :: !Above(x, h.startLine)
  }

  /** No include of the candidate is already there. */
  ghost predicate Untrimmed(w: World, c: Candidate) {
    RemovedCount(c.hunks, IncludesOf(w.doc)) == 0
  }

  /** The step rule, sound candidates; an accept that goes through trims nothing and is below no accepted deletion. */
  ghost predicate Clean(w: World, a: Action) {
    && RuledSound(w, a)
    && (Took(w, a) ==> Untrimmed(w, a.candidate) && BelowNoDeletion(AcceptedHunks(w.session), a.candidate.hunks))
  }

  ghost predicate CleanRun(w: World, actions: seq<Action>) {
    actions == [] ||
    (var n := |actions| - 1;
     CleanRun(w, actions[..n]) && Clean(Run(w, actions[..n]), actions[n]))
  }

  lemma CleanRunLast(w: World, actions: seq<Action>, a: Action)
    ensures CleanRun(w, actions + [a]) <==> CleanRun(w, actions) && Clean(Run(w, actions), a)
  {
    assert (actions + [a])[..|actions|] == actions;
  }

  /** Of what was written as listed, only the pure deletions above a line misplace it. */
  lemma {:induction false} ListedNeverDrifts(ledger: seq<Entry>, startLine: int)
    requires AsListed(ledger)
    requires forall x | x in Listed(ledger) && PureDeletion(x) :: !Above(x, startLine)
    ensures Drift(ledger, startLine) == 0
  {
    if ledger == [] {
    } else {
      var n := |ledger| - 1;
      assert Listed(ledger) == Listed(ledger[..n]) + [ledger[n].listed];
      assert ledger[n].listed in Listed(ledger);
      ListedNeverDrifts(ledger[..n], startLine);
    }
  }

  lemma {:induction false} ListedIsWritten(ledger: seq<Entry>)
    requires AsListed(ledger)
    ensures Written(ledger) == Listed(ledger)
  {
    if ledger == [] {
    } else {
      var n := |ledger| - 1;
      ListedIsWritten(ledger[..n]);
      assert Listed(ledger) == Listed(ledger[..n]) + [ledger[n].listed];
    }
  }

  lemma SameMembers(hs: seq<Hunk>, gs: seq<Hunk>)
    requires multiset(hs) == multiset(gs)
    ensures forall x :: x in hs <==> x in gs
  {
    forall x ensures x in hs <==> x in gs {
      assert x in hs <==> x in multiset(hs);
    }
  }

  lemma CleanIsAllowed(w: World, a: Action)
    requires LedgerInv(w) && AsListed(w.ledger) && Clean(w, a)
    ensures Allowed(w, a)
  {
    if Took(w, a) {
      SameMembers(AcceptedHunks(w.session), Listed(w.ledger));
      NothingRemoved(a.candidate.hunks, IncludesOf(w.doc));
      forall h | h in Deduped(a.candidate.hunks, IncludesOf(w.doc)) ensures Drift(w.ledger, h.startLine) == 0 {
        ListedNeverDrifts(w.ledger, h.startLine);
      }
    }
  }

  lemma {:induction false} ListedEntries(hs: seq<Hunk>, existing: set<string>)
    requires RemovedCount(hs, existing) == 0
    ensures AsListed(EntriesFor(hs, existing))
  {
    if hs == [] {
    } else {
      var n := |hs| - 1;
      RemovedParts(hs, existing);
      ListedEntries(hs[..n], existing);
      assert EntriesFor(hs, existing)
          == EntriesFor(hs[..n], existing) + [Entry(hs[n], DedupeHunk(hs[n], existing))];
    }
  }

  lemma RemovedParts(hs: seq<Hunk>, existing: set<string>)
    requires hs != [] && RemovedCount(hs, existing) == 0
    ensures RemovedCount(hs[..|hs| - 1], existing) == 0
    ensures DedupeHunk(hs[|hs| - 1], existing) == Some(hs[|hs| - 1])
  {
    NothingRemoved(hs[..|hs| - 1], existing);
    KeptAreFresh(Split(hs[|hs| - 1].text), existing);
  }

  lemma ListedAfter(w: World, a: Action)
    requires AsListed(w.ledger) && (Took(w, a) ==> Untrimmed(w, a.candidate))
    ensures AsListed(Step(w, a).ledger)
  {
    if Took(w, a) {
      ListedEntries(a.candidate.hunks, IncludesOf(w.doc));
      ListedJoin(w.ledger, EntriesFor(a.candidate.hunks, IncludesOf(w.doc)));
    }
  }

  lemma ListedJoin(ledger: seq<Entry>, more: seq<Entry>)
    requires AsListed(ledger) && AsListed(more)
    ensures AsListed(ledger + more)
  {
  }

  lemma {:induction false} CleanRunIsAllowed(w: World, actions: seq<Action>)
    requires Inv(w) && AsListed(w.ledger) && CleanRun(w, actions)
    ensures AllowedRun(w, actions) && AsListed(Run(w, actions).ledger)
  {
    if actions == [] {
    } else {
      var n := |actions| - 1;
      CleanRunIsAllowed(w, actions[..n]);
      AllowedIsSound(w, actions[..n]);
      RunKeeps(w, actions[..n]);
      CleanIsAllowed(Run(w, actions[..n]), actions[n]);
      ListedAfter(Run(w, actions[..n]), actions[n]);
    }
  }

  // --- the output is Original C plus the accepted patches -------------------------------------

  /** `Original C + accepted patches`, read off the session. */
  ghost function Declared(s: Session): string {
    Patched(s.snapshot, AcceptedHunks(s))
  }

  lemma LeftIsDeclared(w: World)
    requires LedgerInv(w) && Faithful(w) && AsListed(w.ledger)
    ensures w.left == Declared(w.session) && Disjoint(AcceptedHunks(w.session))
  {
    ListedIsWritten(w.ledger);
    DisjointBag(Listed(w.ledger), AcceptedHunks(w.session));
    SameMembers(Listed(w.ledger), AcceptedHunks(w.session));
    PatchedOrderFree(w.session.snapshot, Listed(w.ledger), AcceptedHunks(w.session));
  }

  /** The hash test of the guard would pass. */
  ghost predicate HashPasses(w: World) {
    ContentHash(w.doc) == w.session.expected
  }

  /**
   Whatever the order of accepts, and whatever else happens in between, the text the
   session expects is the single declarative patch of the Original by all accepted
   hunks, and the hash test passes exactly on that text.
   */
  lemma ChainRefinement(snapshot: string, actions: seq<Action>)
    requires CleanRun(NewWorld(snapshot), actions)
    ensures var w := Run(NewWorld(snapshot), actions);
            && w.session.snapshot == snapshot
            && w.session.expected == ContentHash(Declared(w.session))
            && (HashPasses(w) <==> w.doc == Declared(w.session))
  {
    CleanRunIsFaithful(snapshot, actions);
    RunKeepsHash(NewWorld(snapshot), actions);
    LeftIsDeclared(Run(NewWorld(snapshot), actions));
  }

  lemma CleanRunIsFaithful(snapshot: string, actions: seq<Action>)
    requires CleanRun(NewWorld(snapshot), actions)
    ensures var w := Run(NewWorld(snapshot), actions); Inv(w) && Faithful(w) && AsListed(w.ledger)
  {
    NewWorldInv(snapshot);
    NewWorldFaithful(snapshot);
    CleanRunIsAllowed(NewWorld(snapshot), actions);
    RunStaysFaithful(NewWorld(snapshot), actions);
  }

  /** Two runs that end with the same candidates accepted expect, and leave, the same text. */
  lemma OrderIndependence(snapshot: string, actions: seq<Action>, others: seq<Action>)
    requires CleanRun(NewWorld(snapshot), actions) && CleanRun(NewWorld(snapshot), others)
    requires forall c :: IsAccepted(Run(NewWorld(snapshot), actions).session, c)
                    <==> IsAccepted(Run(NewWorld(snapshot), others).session, c)
    ensures var w, v := Run(NewWorld(snapshot), actions), Run(NewWorld(snapshot), others);
            && w.session.expected == v.session.expected
            && (HashPasses(w) && HashPasses(v) ==> w.doc == v.doc)
  {
    var w, v := Run(NewWorld(snapshot), actions), Run(NewWorld(snapshot), others);
    ChainRefinement(snapshot, actions);
    ChainRefinement(snapshot, others);
    CleanRunIsFaithful(snapshot, actions);
    CleanRunIsFaithful(snapshot, others);
    LeftIsDeclared(w);
    LeftIsDeclared(v);
    SameAccepted(w.session, v.session);
    SameAccepted(v.session, w.session);
    PatchedOrderFree(snapshot, AcceptedHunks(w.session), AcceptedHunks(v.session));
  }

  lemma SameAccepted(s: Session, t: Session)
    requires Shape(s) && Shape(t) && forall c :: IsAccepted(s, c) ==> IsAccepted(t, c)
    ensures forall x :: x in AcceptedHunks(s) ==> x in AcceptedHunks(t)
  {
    forall x | x in AcceptedHunks(s) ensures x in AcceptedHunks(t) {
      HunksMember(AcceptedCandidates(s), x);
      var i :| 0 <= i < |AcceptedCandidates(s)| && x in AcceptedCandidates(s)[i].hunks;
      var c := AcceptedCandidates(s)[i];
      AcceptedMember(s.decisions, s.candidates, c);
      assert IsAccepted(s, c);
      AcceptedMember(t.decisions, t.candidates, c);
      var j :| 0 <= j < |AcceptedCandidates(t)| && AcceptedCandidates(t)[j] == c;
      HunksMember(AcceptedCandidates(t), x);
    }
  }

  // --- what an accept builds on -------------------------------------------------------------

  /** The text that the last accept of the run left, or the snapshot. */
  ghost function LastLeft(w: World, actions: seq<Action>): string {
    if actions == [] then w.session.snapshot
    else
      var n := |actions| - 1;
      var before := Run(w, actions[..n]);
      if Took(before, actions[n]) then Step(before, actions[n]).doc else LastLeft(w, actions[..n])
  }

  lemma StepLeft(w: World, a: Action)
    requires HashInv(w)
    ensures Step(w, a).left == if Took(w, a) then Step(w, a).doc else w.left
    ensures Took(w, a) ==> w.doc == w.left
  {
    if Took(w, a) {
      GuardMeaning(a.candidate, ContentHash(w.doc), w.session.expected, AcceptedCandidates(w.session));
    }
  }

  lemma {:induction false} LeftIsLast(snapshot: string, actions: seq<Action>)
    ensures Run(NewWorld(snapshot), actions).left == LastLeft(NewWorld(snapshot), actions)
    ensures HashInv(Run(NewWorld(snapshot), actions))
  {
    RunKeepsHash(NewWorld(snapshot), actions);
    if actions == [] {
    } else {
      var n := |actions| - 1;
      LeftIsLast(snapshot, actions[..n]);
      StepLeft(Run(NewWorld(snapshot), actions[..n]), actions[n]);
    }
  }

  /**
   In every run whatsoever, outside edits, undos and reverts included, the hash test
   refuses exactly when the document is not the text of the last accept (or the
   snapshot).
   */
  lemma HashChainSafety(snapshot: string, actions: seq<Action>, c: Candidate)
    ensures var w := Run(NewWorld(snapshot), actions);
            CurrentGuard(w.session, w.doc, c).Stale? <==> w.doc != LastLeft(NewWorld(snapshot), actions)
  {
    var w := Run(NewWorld(snapshot), actions);
    LeftIsLast(snapshot, actions);
    GuardMeaning(c, ContentHash(w.doc), w.session.expected, AcceptedCandidates(w.session));
  }

  // --- the stale flag, which lags behind the document ------------------------------------------

  /** The step recomputes the stale flag. */
  ghost predicate Looks(w: World, a: Action) {
    Took(w, a) || a.Settle?
  }

  /** The text that the session saw when the flag was last recomputed. */
  ghost function LastSeen(w: World, actions: seq<Action>): string {
    if actions == [] then w.doc
    else
      var n := |actions| - 1;
      var before := Run(w, actions[..n]);
      if Looks(before, actions[n]) then Step(before, actions[n]).doc else LastSeen(w, actions[..n])
  }

  /** The document was edited since. */
  ghost predicate Unseen(w: World, actions: seq<Action>) {
    actions != [] &&
    (var n := |actions| - 1;
     !Looks(Run(w, actions[..n]), actions[n]) && (actions[n].Change? || Unseen(w, actions[..n])))
  }

  lemma StepFlag(w: World, a: Action)
    ensures Step(w, a).session.stale
        == if Looks(w, a) then ContentHash(Step(w, a).doc) != Step(w, a).session.expected else w.session.stale
  {
    if a.Regenerate? {
      DropKeepsRest(w.session, w.session.candidates, a.findingId);
    }
  }

  /** In every run the flag says whether the text last seen, not the present one, is foreign. */
  lemma {:induction false} FlagMeaning(snapshot: string, actions: seq<Action>)
    ensures var start := NewWorld(snapshot);
            Run(start, actions).session.stale <==> LastSeen(start, actions) != LastLeft(start, actions)
  {
    if actions == [] {
    } else {
      var n := |actions| - 1;
      FlagMeaning(snapshot, actions[..n]);
      LeftIsLast(snapshot, actions);
      StepFlag(Run(NewWorld(snapshot), actions[..n]), actions[n]);
    }
  }

  lemma {:induction false} SeenIsPresent(w: World, actions: seq<Action>)
    requires !Unseen(w, actions)
    ensures LastSeen(w, actions) == Run(w, actions).doc
  {
    hide ContentHash, Refreshed, IncludesOf, EntriesFor;
    if actions == [] {
    } else {
      var n := |actions| - 1;
      if !Looks(Run(w, actions[..n]), actions[n]) {
        SeenIsPresent(w, actions[..n]);
      }
    }
  }

  /** With no edit since a taken accept, a settling or the start, the flag is the hash test. */
  lemma FlagOnceSettled(snapshot: string, actions: seq<Action>)
    requires !Unseen(NewWorld(snapshot), actions)
    ensures var w := Run(NewWorld(snapshot), actions); w.session.stale <==> !HashPasses(w)
  {
    FlagMeaning(snapshot, actions);
    SeenIsPresent(NewWorld(snapshot), actions);
    LeftIsLast(snapshot, actions);
  }

  /** Before the timer fires the flag is wrong about every first edit, and the hash test right. */
  lemma FlagLags(snapshot: string, text: string)
    requires text != snapshot
    ensures var w := Run(NewWorld(snapshot), [Change(text)]); !w.session.stale && !HashPasses(w)
    ensures var w := Run(NewWorld(snapshot), [Change(text), Settle]); w.session.stale && !HashPasses(w)
  {
    var start := NewWorld(snapshot);
    assert [Change(text)][..0] == [] && [Change(text), Settle][..1] == [Change(text)];
    assert Run(start, [Change(text)]) == Step(start, Change(text));
    assert Run(start, [Change(text), Settle]) == Step(Step(start, Change(text)), Settle);
  }

  /** No accept builds on foreign text: it starts from what the last accept left, which is the declarative patch. */
  lemma NoForeignText(snapshot: string, actions: seq<Action>, a: Action)
    requires AllowedRun(NewWorld(snapshot), actions) && Took(Run(NewWorld(snapshot), actions), a)
    ensures var w := Run(NewWorld(snapshot), actions);
            w.doc == LastLeft(NewWorld(snapshot), actions) == Patched(snapshot, Written(w.ledger))
  {
    NewWorldInv(snapshot);
    NewWorldFaithful(snapshot);
    RunStaysFaithful(NewWorld(snapshot), actions);
    RunKeepsHash(NewWorld(snapshot), actions);
    LeftIsLast(snapshot, actions);
    StepLeft(Run(NewWorld(snapshot), actions), a);
  }

  // --- the accepted set ------------------------------------------------------------------------

  /** In every session that the step rule reaches the accepted candidates are pairwise conflict-free. */
  lemma AcceptedNeverConflict(snapshot: string, actions: seq<Action>, c: Candidate, d: Candidate)
    requires RuledRun(NewWorld(snapshot), actions)
    requires IsAccepted(Run(NewWorld(snapshot), actions).session, c)
    requires IsAccepted(Run(NewWorld(snapshot), actions).session, d) && c.id != d.id
    ensures !HunksConflict(c.hunks, d.hunks)
  {
    RunKeepsSession(NewWorld(snapshot), actions);
  }

  /** The record about every accepted candidate is right, however the run went. */
  lemma DecisionsAreRight(snapshot: string, actions: seq<Action>, id: string)
    requires RuledRun(NewWorld(snapshot), actions)
    ensures var s := Run(NewWorld(snapshot), actions).session;
            && (DecisionFor(s, id) == Accepted ==>
                  && Get(s.candidates, id).Some?
                  && var c := Get(s.candidates, id).value;
                     c.hunks != [] && !GateFails(c, false) && (id in s.overrides <==> GateFails(c, true)))
            && (id in s.overrides ==> DecisionFor(s, id) == Accepted)
  {
    var s := Run(NewWorld(snapshot), actions).session;
    RunKeepsSession(NewWorld(snapshot), actions);
    if DecisionFor(s, id) == Accepted {
      KeyedById(s.candidates, id);
      assert IsAccepted(s, Get(s.candidates, id).value);
    }
  }

  // --- include trimming ----------------------------------------------------------------------------

  /** The lines lost on one hunk: its trimmed includes, all of it when dropped, and one too few for a deletion. */
  lemma LostLines(h: Hunk, existing: set<string>)
    ensures var e := Entry(h, DedupeHunk(h, existing));
            Lost(e) == if PureDeletion(h) then -1
                       else if e.written == None then |Split(h.text)|
                       else DuplicatesIn(h, existing)
  {
    KeptAreFresh(Split(h.text), existing);
    if h.lineCount == 0 && KeptLines(Split(h.text), existing) != [] {
      KeptSplits(h, existing);
    }
  }

  /**
   In every run, drifted ones included, the row of each hunk about to be written is off
   by exactly the lines lost from accepted hunks at or above it.
   */
  lemma DriftIsExact(snapshot: string, actions: seq<Action>, c: Candidate, i: nat)
    requires SoundRun(NewWorld(snapshot), actions)
    requires Stored(Run(NewWorld(snapshot), actions).session, c)
    requires var w := Run(NewWorld(snapshot), actions);
             CurrentGuard(w.session, w.doc, c).Ok() && i < |Deduped(c.hunks, IncludesOf(w.doc))|
    ensures var w := Run(NewWorld(snapshot), actions);
            var hs := Deduped(c.hunks, IncludesOf(w.doc));
            (CandidateToEditRanges(hs, AcceptedHunks(w.session))[i].startLine
             == TrueRow(Written(w.ledger), hs[i].startLine) + Drift(w.ledger, hs[i].startLine))
  {
    var w := Run(NewWorld(snapshot), actions);
    NewWorldInv(snapshot);
    RunKeeps(NewWorld(snapshot), actions);
    LedgerGrows(w, c);
    RowIsTrue(w.session.snapshot, w.ledger, AcceptedHunks(w.session), Deduped(c.hunks, IncludesOf(w.doc)), i);
  }

  // --- offsets from the hunks that were written -------------------------------------------------

  /** The step, with line offsets taken from what was written instead of what was listed. */
  ghost function CorrectedStep(w: World, a: Action): World {
    if a.Accept? then AcceptWith(w, a.candidate, a.confirmed, a.editorAccepts, Written(w.ledger)) else Step(w, a)
  }

  ghost predicate CorrectedTook(w: World, a: Action) {
    a.Accept? && GoesThrough(w, a.candidate, a.confirmed, a.editorAccepts, Written(w.ledger))
  }

  ghost function CorrectedRun(w: World, actions: seq<Action>): World {
    if actions == [] then w else CorrectedStep(CorrectedRun(w, actions[..|actions| - 1]), actions[|actions| - 1])
  }

  /** The step rule with sound candidates; no accept below an accepted deletion.  Includes may be trimmed. */
  ghost predicate Whole(w: World, a: Action) {
    && RuledAs(w, a, CorrectedTook(w, a)) && BringsSound(w, a)
    && (CorrectedTook(w, a) ==> BelowNoDeletion(AcceptedHunks(w.session), a.candidate.hunks))
  }

  ghost predicate WholeRun(w: World, actions: seq<Action>) {
    actions == [] ||
    (var n := |actions| - 1;
     WholeRun(w, actions[..n]) && Whole(CorrectedRun(w, actions[..n]), actions[n]))
  }

  /** The written hunks as a ledger in which nothing is trimmed. */
  ghost function AsWritten(written: seq<Hunk>): (ledger: seq<Entry>)
    ensures AsListed(ledger) && AllInPlace(ledger)
  {
    seq(|written|, i requires 0 <= i < |written| => Entry(written[i], Some(written[i])))
  }

  /** Offsets from the written hunks put every further hunk that is below no deletion at its true row. */
  lemma WrittenOffsetsLand(original: string, written: seq<Hunk>, hs: seq<Hunk>)
    requires Disjoint(written + hs) && Settled(hs, original) && BelowNoDeletion(written, hs)
    ensures ApplyRanges(Patched(original, written), CandidateToEditRanges(hs, written))
         == Some(Patched(original, written + hs))
  {
    var ledger := AsWritten(written);
    assert Listed(ledger) == written;
    ListedIsWritten(ledger);
    forall i | 0 <= i < |hs| ensures Drift(ledger, hs[i].startLine) == 0 {
      ListedNeverDrifts(ledger, hs[i].startLine);
    }
    ApplyAligned(original, ledger, written, hs);
  }

  lemma {:induction false} DedupedMember(hs: seq<Hunk>, existing: set<string>, h: Hunk)
    requires h in Deduped(hs, existing)
    ensures exists x | x in hs :: x.startLine == h.startLine && x.lineCount == h.lineCount
  {
    var n := |hs| - 1;
    if h in Deduped(hs[..n], existing) {
      DedupedMember(hs[..n], existing, h);
      var x :| x in hs[..n] && x.startLine == h.startLine && x.lineCount == h.lineCount;
      assert x in hs;
    } else {
      DedupeKeepsPlace(hs[n], existing);
      assert hs[n] in hs;
    }
  }

  lemma {:induction false} WrittenDeletion(ledger: seq<Entry>, h: Hunk)
    requires AllInPlace(ledger) && h in Written(ledger) && PureDeletion(h)
    ensures h in Listed(ledger)
  {
    var n := |ledger| - 1;
    assert Listed(ledger) == Listed(ledger[..n]) + [ledger[n].listed];
    assert InPlace(ledger[n]);
    if h in Written(ledger[..n]) {
      WrittenDeletion(ledger[..n], h);
    }
  }

  lemma WrittenBelow(w: World, c: Candidate)
    requires LedgerInv(w) && BelowNoDeletion(AcceptedHunks(w.session), c.hunks)
    ensures BelowNoDeletion(Written(w.ledger), Deduped(c.hunks, IncludesOf(w.doc)))
  {
    SameMembers(AcceptedHunks(w.session), Listed(w.ledger));
    forall x, h | x in Written(w.ledger) && PureDeletion(x) && h in Deduped(c.hunks, IncludesOf(w.doc))
      ensures !Above(x, h.startLine)
    {
      WrittenDeletion(w.ledger, x);
      DedupedMember(c.hunks, IncludesOf(w.doc), h);
    }
  }

  /** One accept, trimmed or not, lands at the true rows. */
  lemma CorrectedAcceptLands(w: World, c: Candidate, editorAccepts: bool)
    requires Inv(w) && Faithful(w) && BelowNoDeletion(AcceptedHunks(w.session), c.hunks)
    requires Stored(w.session, c) && CurrentGuard(w.session, w.doc, c).Ok()
    ensures var after := w.ledger + EntriesFor(c.hunks, IncludesOf(w.doc));
            var applied := ApplyCandidate(w.doc, c, Written(w.ledger), editorAccepts);
            (applied.Some? ==> applied.value == Patched(w.session.snapshot, Written(after)))
  {
    var hs := Deduped(c.hunks, IncludesOf(w.doc));
    LedgerGrows(w, c);
    if hs == [] {
      assert Written(w.ledger) + hs == Written(w.ledger);
    } else {
      WrittenBelow(w, c);
      WrittenOffsetsLand(w.session.snapshot, Written(w.ledger), hs);
    }
  }

  lemma AcceptLeaves(w: World, c: Candidate, confirmed: bool, editorAccepts: bool, applied: seq<Hunk>)
    requires GoesThrough(w, c, confirmed, editorAccepts, applied)
    ensures var v := AcceptWith(w, c, confirmed, editorAccepts, applied);
            && Some(v.left) == ApplyCandidate(w.doc, c, applied, editorAccepts)
            && v.ledger == w.ledger + EntriesFor(c.hunks, IncludesOf(w.doc))
            && v.session.snapshot == w.session.snapshot
  {
  }

  lemma CorrectedAcceptFaithful(w: World, a: Action)
    requires Inv(w) && Faithful(w) && CorrectedTook(w, a) && Stored(w.session, a.candidate)
    requires BelowNoDeletion(AcceptedHunks(w.session), a.candidate.hunks)
    ensures Faithful(CorrectedStep(w, a))
  {
    var v := CorrectedStep(w, a);
    AcceptLeaves(w, a.candidate, a.confirmed, a.editorAccepts, Written(w.ledger));
    assert v.left == Patched(v.session.snapshot, Written(v.ledger)) by {
      CorrectedAcceptLands(w, a.candidate, a.editorAccepts);
    }
  }

  lemma CorrectedAcceptInv(w: World, a: Action)
    requires Inv(w) && CorrectedTook(w, a) && Stored(w.session, a.candidate)
    ensures Inv(CorrectedStep(w, a))
  {
    AcceptKeepsSession(w, a.candidate, a.confirmed, a.editorAccepts, Written(w.ledger));
    AcceptKeepsLedger(w, a.candidate, a.confirmed, a.editorAccepts, Written(w.ledger));
  }

  lemma WholeTaken(w: World, a: Action)
    requires Whole(w, a) && CorrectedTook(w, a)
    ensures Stored(w.session, a.candidate) && BelowNoDeletion(AcceptedHunks(w.session), a.candidate.hunks)
  {
  }

  lemma NotCorrected(w: World, a: Action)
    requires Inv(w) && Faithful(w) && Whole(w, a) && !CorrectedTook(w, a)
    ensures Inv(CorrectedStep(w, a)) && Faithful(CorrectedStep(w, a))
  {
    hide Inv, Faithful, Allowed, RuledSound, Step, AcceptWith, GoesThrough;
    NotCorrectedStep(w, a);
    if !a.Accept? {
      StepKeeps(w, a);
      StepStaysFaithful(w, a);
    }
  }

  lemma NotCorrectedStep(w: World, a: Action)
    requires Whole(w, a) && !CorrectedTook(w, a)
    ensures CorrectedStep(w, a) == if a.Accept? then w else Step(w, a)
    ensures !a.Accept? ==> RuledSound(w, a) && Allowed(w, a)
  {
  }

  lemma CorrectedStepKeeps(w: World, a: Action)
    requires Inv(w) && Faithful(w) && Whole(w, a)
    ensures Inv(CorrectedStep(w, a)) && Faithful(CorrectedStep(w, a))
  {
    hide Inv, Faithful, AcceptedHunks, BelowNoDeletion, RuledAs, Step, AcceptWith, GoesThrough;
    if CorrectedTook(w, a) {
      WholeTaken(w, a);
      CorrectedAcceptInv(w, a);
      CorrectedAcceptFaithful(w, a);
    } else {
      NotCorrected(w, a);
    }
  }

  /**
   With offsets taken from the hunks actually written, the chain refinement extends to
   every run that trims includes: what the last accept left is the declarative patch of
   the Original by everything written, and the hash test passes exactly on it.
   */
  lemma {:induction false} WrittenOffsetsSuffice(snapshot: string, actions: seq<Action>)
    requires WholeRun(NewWorld(snapshot), actions)
    ensures var w := CorrectedRun(NewWorld(snapshot), actions);
            && Inv(w) && Faithful(w)
            && (HashPasses(w) <==> w.doc == Patched(w.session.snapshot, Written(w.ledger)))
  {
    if actions == [] {
      NewWorldInv(snapshot);
      NewWorldFaithful(snapshot);
    } else {
      var n := |actions| - 1;
      WrittenOffsetsSuffice(snapshot, actions[..n]);
      CorrectedStepKeeps(CorrectedRun(NewWorld(snapshot), actions[..n]), actions[n]);
    }
  }
}
