/** When an accept goes through in a session as it can be reached, and what it records. */
module AcceptMeaning {
  import opened AcceptChain
  import opened AcceptGuard
  import opened ChainInvariants
  import opened Contract
  import opened DedupeIncludes
  import opened DriftedAccepts
  import opened JsMaps
  import opened Patches
  import opened Sessions

  /** The document is as last accepted, and the candidate is fit and conflicts with no other accepted one. */
  ghost predicate Acceptable(w: World, c: Candidate) {
    && ContentHash(w.doc) == w.session.expected
    && c.status != RepairFailed && c.hunks != [] && FailedGates(c.validations, false) == []
    && forall d | IsAccepted(w.session, d) && d.id != c.id :: !HunksConflict(c.hunks, d.hunks)
  }

  lemma GuardIsAcceptable(w: World, c: Candidate)
    requires Shape(w.session)
    ensures CurrentGuard(w.session, w.doc, c).Ok() <==> Acceptable(w, c)
  {
    var accepted := AcceptedCandidates(w.session);
    GuardMeaning(c, ContentHash(w.doc), w.session.expected, accepted);
    SomeFailed(c, false);
    forall d ensures d in accepted <==> IsAccepted(w.session, d) {
      AcceptedMember(w.session.decisions, w.session.candidates, d);
    }
    assert (forall i | 0 <= i < |accepted| :: accepted[i].id == c.id || !HunksConflict(c.hunks, accepted[i].hunks))
      <==> forall d | d in accepted && d.id != c.id :: !HunksConflict(c.hunks, d.hunks);
  }

  ghost predicate Judged(c: Candidate) {
    FailedGates(c.validations, true) != []
  }

  /** Nothing is left to write, or the editor takes the edit. */
  ghost predicate CanWrite(w: World, c: Candidate, editorAccepts: bool) {
    Deduped(c.hunks, IncludesOf(w.doc)) == [] || editorAccepts
  }

  lemma WriteMeaning(w: World, c: Candidate, editorAccepts: bool)
    requires Inv(w) && Stored(w.session, c) && CurrentGuard(w.session, w.doc, c).Ok()
    ensures ApplyCandidate(w.doc, c, AcceptedHunks(w.session), editorAccepts).Some? <==> CanWrite(w, c, editorAccepts)
  {
    AcceptApplies(w, c);
  }

  /**
   An accept goes through exactly for an acceptable candidate, confirmed if a judgment gate
   failed, that can be written; then it is on record, as an override exactly if one failed.
   Otherwise nothing changes.
   */
  lemma AcceptMeaning(w: World, c: Candidate, confirmed: bool, editorAccepts: bool)
    requires Inv(w) && Stored(w.session, c)
    ensures var a := Accept(c, confirmed, editorAccepts);
            var t := Step(w, a).session;
            && (Took(w, a) <==>
                  Acceptable(w, c) && (Judged(c) ==> confirmed) && CanWrite(w, c, editorAccepts))
            && (Took(w, a) ==>
                  && DecisionFor(t, c.id) == Accepted && (c.id in t.overrides <==> Judged(c))
                  && forall id | id != c.id ::
                       && DecisionFor(t, id) == DecisionFor(w.session, id)
                       && (id in t.overrides <==> id in w.session.overrides))
            && (!Took(w, a) ==> Step(w, a) == w)
  {
    hide Inv, ApplyCandidate, Acceptable, EntriesFor, Deduped, IncludesOf, CurrentGuard;
    NotOverridden(w, c);
    GuardIsAcceptable(w, c);
    if CurrentGuard(w.session, w.doc, c).Ok() {
      WarnIsJudged(w, c);
      WriteMeaning(w, c, editorAccepts);
    }
    SetLaw(w.session.decisions, c.id, Accepted);
  }

  lemma WarnIsJudged(w: World, c: Candidate)
    requires CurrentGuard(w.session, w.doc, c).Ok()
    ensures CurrentGuard(w.session, w.doc, c).Warn? <==> Judged(c)
  {
    GuardMeaning(c, ContentHash(w.doc), w.session.expected, AcceptedCandidates(w.session));
    SomeFailed(c, true);
  }

  lemma NotOverridden(w: World, c: Candidate)
    requires Inv(w) && Stored(w.session, c)
    ensures Shape(w.session) && c.id !in w.session.overrides
  {
  }
}
