/** Short runs from a fresh scan that reach the worlds in which the accept chain goes wrong. */
module ReachedWorlds {
  import opened AcceptChain
  import opened AcceptGuard
  import opened ChainInvariants
  import opened ChainTheorems
  import opened CharEdits
  import opened Contract
  import opened DedupeIncludes
  import opened EditRanges
  import opened JsMaps
  import opened Options
  import opened Patches
  import opened Preview
  import opened Seqs
  import opened Sessions
  import opened StepRule

  /** A sound candidate that the accept button is offered for. */
  ghost predicate Offered(c: Candidate, snapshot: string) {
    Sound(c, snapshot) && c.hunks != [] && c.status != RepairFailed && !GateFails(c, false)
  }

  function Taking(c: Candidate): Action {
    Accept(c, true, true)
  }

  lemma DedupedDisjoint(hs: seq<Hunk>, existing: set<string>)
    requires Disjoint(hs)
    ensures Disjoint(Deduped(hs, existing))
  {
    EntriesWritten(hs, existing);
    WrittenDisjoint(EntriesFor(hs, existing));
  }

  /** The first accept writes the declarative patch of what is left after trimming. */
  lemma FirstApplied(snapshot: string, c: Candidate)
    requires Sound(c, snapshot)
    ensures ApplyCandidate(snapshot, c, [], true) == Some(Patched(snapshot, Deduped(c.hunks, IncludesOf(snapshot))))
  {
    var hs := Deduped(c.hunks, IncludesOf(snapshot));
    DedupedDisjoint(c.hunks, IncludesOf(snapshot));
    DedupedSettled(c.hunks, IncludesOf(snapshot), |Body(snapshot)|);
    if hs == [] {
      NothingPatched(snapshot);
    } else {
      FirstAcceptIsPatched(snapshot, hs);
    }
  }

  ghost function Offering(snapshot: string, c: Candidate): World {
    Step(NewWorld(snapshot), Generate(c))
  }

  lemma FirstTaken(snapshot: string, c: Candidate)
    requires Offered(c, snapshot)
    ensures var w := Offering(snapshot, c);
            && Took(w, Taking(c)) && Stored(w.session, c) && w.ledger == [] && w.doc == snapshot
            && Step(w, Taking(c)).doc == Patched(snapshot, Deduped(c.hunks, IncludesOf(snapshot)))
  {
    var w := Offering(snapshot, c);
    assert w.session.candidates == [Pair(c.id, c)] && AcceptedCandidates(w.session) == [];
    GuardMeaning(c, ContentHash(snapshot), w.session.expected, []);
    FirstApplied(snapshot, c);
  }

  ghost function FirstRun(c: Candidate): seq<Action> {
    [Generate(c), Taking(c)]
  }

  lemma FirstRunSteps(snapshot: string, c: Candidate)
    ensures Run(NewWorld(snapshot), FirstRun(c)) == Step(Offering(snapshot, c), Taking(c))
    ensures SoundRun(NewWorld(snapshot), FirstRun(c))
       <==> RuledSound(NewWorld(snapshot), Generate(c)) && RuledSound(Offering(snapshot, c), Taking(c))
    ensures CleanRun(NewWorld(snapshot), FirstRun(c))
       <==> Clean(NewWorld(snapshot), Generate(c)) && Clean(Offering(snapshot, c), Taking(c))
  {
    var start, one := NewWorld(snapshot), [Generate(c)];
    RunOne(start, Generate(c));
    assert [] + one == one && one + [Taking(c)] == FirstRun(c);
    RunLast(start, one, Taking(c));
    SoundRunLast(start, [], Generate(c));
    SoundRunLast(start, one, Taking(c));
    CleanRunLast(start, [], Generate(c));
    CleanRunLast(start, one, Taking(c));
  }

  lemma FirstIsSound(snapshot: string, c: Candidate)
    requires Offered(c, snapshot)
    ensures RuledSound(NewWorld(snapshot), Generate(c)) && RuledSound(Offering(snapshot, c), Taking(c))
    ensures AcceptedHunks(Offering(snapshot, c).session) == [] && Offering(snapshot, c).doc == NewWorld(snapshot).doc
  {
    FirstTaken(snapshot, c);
    assert AcceptedCandidates(Offering(snapshot, c).session) == [];
  }

  lemma FirstIsClean(snapshot: string, c: Candidate)
    requires Offered(c, snapshot) && Untrimmed(NewWorld(snapshot), c)
    ensures Clean(NewWorld(snapshot), Generate(c)) && Clean(Offering(snapshot, c), Taking(c))
  {
    hide RuledSound, Offered, Offering, NewWorld, AcceptedHunks, RemovedCount, IncludesOf;
    FirstIsSound(snapshot, c);
  }

  lemma CleanIsSane(snapshot: string, actions: seq<Action>)
    requires CleanRun(NewWorld(snapshot), actions)
    requires Run(NewWorld(snapshot), actions).doc == Run(NewWorld(snapshot), actions).left
    ensures Sane(Run(NewWorld(snapshot), actions))
  {
    CleanRunIsFaithful(snapshot, actions);
  }

  /** Every untrimmed candidate of every scan reaches a world in which it could be rejected again. */
  lemma RejectIsReached(snapshot: string, c: Candidate)
    requires Offered(c, snapshot) && Untrimmed(NewWorld(snapshot), c)
    ensures CleanRun(NewWorld(snapshot), FirstRun(c))
    ensures var w := Run(NewWorld(snapshot), FirstRun(c)); Sane(w) && IsAccepted(w.session, c)
  {
    hide *;
    FirstIsClean(snapshot, c);
    FirstRunSteps(snapshot, c);
    FirstIsTaken(snapshot, c);
    CleanIsSane(snapshot, FirstRun(c));
  }

  lemma FirstIsTaken(snapshot: string, c: Candidate)
    requires Offered(c, snapshot)
    ensures var v := Step(Offering(snapshot, c), Taking(c)); IsAccepted(v.session, c) && v.doc == v.left
  {
    FirstTaken(snapshot, c);
    TakenIsAccepted(Offering(snapshot, c), c);
  }

  lemma TakenIsAccepted(w: World, c: Candidate)
    requires Took(w, Taking(c)) && Get(w.session.candidates, c.id) == Some(c) && Distinct(w.session.decisions)
    ensures var v := Step(w, Taking(c)); IsAccepted(v.session, c) && v.doc == v.left
  {
    RecordedAccepts(w.session, c, CurrentGuard(w.session, w.doc, c).Warn?, c);
  }

  // --- a second candidate ---------------------------------------------------------------------

  /** Only the first candidate is accepted then. */
  ghost predicate OnlyAccepted(s: Session, c: Candidate) {
    Shape(s) && IsAccepted(s, c) && forall x | DecisionFor(s, x) == Accepted :: x == c.id
  }

  lemma FirstIsAccepted(snapshot: string, c: Candidate)
    requires Offered(c, snapshot)
    ensures SoundRun(NewWorld(snapshot), FirstRun(c))
    ensures OnlyAccepted(Run(NewWorld(snapshot), FirstRun(c)).session, c)
  {
    var w := Offering(snapshot, c);
    FirstTaken(snapshot, c);
    FirstIsSound(snapshot, c);
    FirstRunSteps(snapshot, c);
    FirstIsTaken(snapshot, c);
    SoundInv(snapshot, FirstRun(c));
    NothingElseTaken(w, c);
  }

  lemma NothingElseTaken(w: World, c: Candidate)
    requires Took(w, Taking(c)) && w.session.decisions == []
    ensures forall x | DecisionFor(Step(w, Taking(c)).session, x) == Accepted :: x == c.id
  {
    var t := RecordedSession(w.session, c, CurrentGuard(w.session, w.doc, c).Warn?);
    OnlyOneRecorded(w.session, c, CurrentGuard(w.session, w.doc, c).Warn?);
    forall x | DecisionFor(Step(w, Taking(c)).session, x) == Accepted ensures x == c.id {
      assert DecisionFor(t, x) == Accepted;
    }
  }

  lemma OnlyOneRecorded(s: Session, c: Candidate, overWarning: bool)
    requires s.decisions == []
    ensures forall x | DecisionFor(RecordedSession(s, c, overWarning), x) == Accepted :: x == c.id
  {
    SetLaw(s.decisions, c.id, Accepted);
  }

  /** The first accept leaves the declarative patch and its own entries. */
  lemma FirstLeaves(snapshot: string, c: Candidate)
    requires Offered(c, snapshot)
    ensures var v, existing := Run(NewWorld(snapshot), FirstRun(c)), IncludesOf(snapshot);
            && v.doc == v.left == Patched(snapshot, Deduped(c.hunks, existing))
            && v.ledger == EntriesFor(c.hunks, existing) && v.session.snapshot == snapshot
  {
    var w := Offering(snapshot, c);
    FirstTaken(snapshot, c);
    FirstRunSteps(snapshot, c);
    AcceptLeaves(w, c, true, true, AcceptedHunks(w.session));
    NothingFirst(w.ledger, EntriesFor(c.hunks, IncludesOf(snapshot)));
  }

  ghost function SecondRun(c1: Candidate, c2: Candidate): seq<Action> {
    FirstRun(c1) + [Generate(c2)]
  }

  /** Two candidates that can be accepted one after the other. */
  ghost predicate BothOffered(c1: Candidate, c2: Candidate, snapshot: string) {
    Offered(c1, snapshot) && Offered(c2, snapshot) && c1.id != c2.id && !HunksConflict(c2.hunks, c1.hunks)
  }

  lemma SecondIsClear(s: Session, doc: string, c1: Candidate, c2: Candidate, snapshot: string)
    requires BothOffered(c1, c2, snapshot) && OnlyAccepted(s, c1) && s.expected == ContentHash(doc)
    ensures CurrentGuard(s, doc, c2).Ok()
  {
    var accepted := AcceptedCandidates(s);
    forall i | 0 <= i < |accepted| ensures !HunksConflict(c2.hunks, accepted[i].hunks) {
      AcceptedMember(s.decisions, s.candidates, accepted[i]);
      assert IsAccepted(s, accepted[i]);
    }
    GuardMeaning(c2, ContentHash(doc), s.expected, accepted);
  }

  lemma SecondArrives(s: Session, c1: Candidate, c2: Candidate)
    requires OnlyAccepted(s, c1) && c1.id != c2.id
    ensures OnlyAccepted(WithCandidate(s, c2), c1) && Stored(WithCandidate(s, c2), c2)
  {
    assert DecisionFor(s, c2.id) != Accepted;
    SetLaw(s.candidates, c2.id, c2);
    SetFiled(s.candidates, c2);
    forall x | DecisionFor(WithCandidate(s, c2), x) == Accepted ensures x == c1.id {
      assert DecisionFor(s, x) == Accepted;
    }
  }

  /** After any first accept any second candidate that does not conflict with it can be accepted. */
  lemma SecondIsReached(snapshot: string, c1: Candidate, c2: Candidate)
    requires BothOffered(c1, c2, snapshot)
    ensures SoundRun(NewWorld(snapshot), SecondRun(c1, c2))
    ensures var w, existing := Run(NewWorld(snapshot), SecondRun(c1, c2)), IncludesOf(snapshot);
            && Inv(w) && Faithful(w) && Stored(w.session, c2) && CurrentGuard(w.session, w.doc, c2).Ok()
            && w.ledger == EntriesFor(c1.hunks, existing) && w.session.snapshot == snapshot
            && w.doc == w.left == Patched(snapshot, Deduped(c1.hunks, existing))
  {
    var start := NewWorld(snapshot);
    var v := Run(start, FirstRun(c1));
    FirstLeaves(snapshot, c1);
    FirstIsAccepted(snapshot, c1);
    RunLast(start, FirstRun(c1), Generate(c2));
    SoundRunLast(start, FirstRun(c1), Generate(c2));
    SecondArrives(v.session, c1, c2);
    SoundInv(snapshot, SecondRun(c1, c2));
    SecondIsClear(WithCandidate(v.session, c2), v.doc, c1, c2, snapshot);
    EntriesWritten(c1.hunks, IncludesOf(snapshot));
  }

  lemma SoundInv(snapshot: string, actions: seq<Action>)
    requires SoundRun(NewWorld(snapshot), actions)
    ensures Inv(Run(NewWorld(snapshot), actions))
  {
    NewWorldInv(snapshot);
    RunKeeps(NewWorld(snapshot), actions);
  }
}
