/** The reject reasons on record, and the one path on which an old one comes back. */
module RejectReasons {
  import opened AcceptChain
  import opened AcceptGuard
  import opened Contract
  import opened JsMaps
  import opened Options
  import opened ReachedWorlds
  import opened Sessions

  /** A reason belongs to a rejected candidate, or is left over from before an accept over a warning. */
  ghost predicate ReasonInv(s: Session) {
    Distinct(s.decisions) && forall id | id in s.reasons :: DecisionFor(s, id) == Rejected || id in s.overrides
  }

  lemma DecidingKeepsReasons(s: Session, id: string, d: Decision)
    requires ReasonInv(s) && d != Pending
    ensures ReasonInv(WithDecision(s, id, d)) && ReasonInv(WithAcceptedOverWarning(s, id))
  {
    SetLaw(s.decisions, id, d);
    SetLaw(s.decisions, id, Accepted);
  }

  lemma ForgettingKeepsReasons(s: Session, id: string)
    requires ReasonInv(s)
    ensures ReasonInv(Forget(s, id))
  {
    DeleteLaw(s.decisions, id);
  }

  lemma {:induction false} DropKeepsReasons(s: Session, entries: JsMap<string, Candidate>, findingId: string)
    requires ReasonInv(s)
    ensures ReasonInv(DropFinding(s, entries, findingId))
  {
    if entries == [] {
    } else {
      var n := |entries| - 1;
      DropKeepsReasons(s, entries[..n], findingId);
      ForgettingKeepsReasons(DropFinding(s, entries[..n], findingId), entries[n].key);
    }
  }

  lemma SameReasons(s: Session, t: Session)
    requires ReasonInv(s) && t.decisions == s.decisions && t.overrides == s.overrides && t.reasons == s.reasons
    ensures ReasonInv(t)
  {
    forall id | id in t.reasons ensures DecisionFor(t, id) == Rejected || id in t.overrides {
      assert DecisionFor(t, id) == DecisionFor(s, id);
    }
  }

  lemma AcceptKeepsReasons(w: World, c: Candidate, confirmed: bool, editorAccepts: bool)
    requires ReasonInv(w.session)
    ensures ReasonInv(AcceptStep(w, c, confirmed, editorAccepts).session)
  {
    var v := AcceptStep(w, c, confirmed, editorAccepts);
    if Took(w, Accept(c, confirmed, editorAccepts)) {
      DecidingKeepsReasons(w.session, c.id, Accepted);
      SameReasons(RecordedSession(w.session, c, CurrentGuard(w.session, w.doc, c).Warn?), v.session);
    }
  }

  lemma StepKeepsReasons(w: World, a: Action)
    requires ReasonInv(w.session)
    ensures ReasonInv(Step(w, a).session)
  {
    match a
    case Accept(c, confirmed, editorAccepts) => AcceptKeepsReasons(w, c, confirmed, editorAccepts);
    case Reject(id) => DecidingKeepsReasons(w.session, id, Rejected);
    case Regenerate(f, c) =>
      DropKeepsReasons(w.session, w.session.candidates, f);
      SameReasons(DropFinding(w.session, w.session.candidates, f), Step(w, a).session);
    case Explain(id, reason) =>
    case _ => SameReasons(w.session, Step(w, a).session);
  }

  /** In every run, within the step rule or not, a reason on record is of a rejected or an overridden candidate. */
  lemma {:induction false} RunKeepsReasons(w: World, actions: seq<Action>)
    requires ReasonInv(w.session)
    ensures ReasonInv(Run(w, actions).session)
  {
    if actions == [] {
    } else {
      var n := |actions| - 1;
      RunKeepsReasons(w, actions[..n]);
      StepKeepsReasons(Run(w, actions[..n]), actions[n]);
    }
  }

  /**
   A rejection shows a reason that was not given for it exactly when one is left over, and
   then the candidate was accepted over a warning.
   */
  lemma OldReasonShown(snapshot: string, actions: seq<Action>, id: string)
    requires DecisionFor(Run(NewWorld(snapshot), actions).session, id) != Rejected
    ensures var w := Run(NewWorld(snapshot), actions);
            var v := Step(w, Reject(id));
            && (ReasonShown(v.session, id).Some? <==> id in w.session.reasons)
            && (ReasonShown(v.session, id).Some? ==>
                  id in w.session.overrides && ReasonShown(v.session, id).value == w.session.reasons[id])
  {
    var w := Run(NewWorld(snapshot), actions);
    RunKeepsReasons(NewWorld(snapshot), actions);
    SetLaw(w.session.decisions, id, Rejected);
  }

  /** Rejected for a reason, accepted over a warning, rejected again without one. */
  ghost function OldReasonRun(c: Candidate, reason: RejectReason): seq<Action> {
    [Generate(c), Reject(c.id), Explain(c.id, reason), Taking(c), Reject(c.id)]
  }

  lemma FiveSteps(w: World, a: Action, b: Action, c: Action, d: Action, e: Action)
    ensures Run(w, [a, b, c, d, e]) == Step(Step(Step(Step(Step(w, a), b), c), d), e)
  {
    hide Step;
    RunOne(w, a);
    RunLast(w, [a], b);
    RunLast(w, [a, b], c);
    RunLast(w, [a, b, c], d);
    RunLast(w, [a, b, c, d], e);
    assert [a] + [b] == [a, b] && [a, b] + [c] == [a, b, c];
    assert [a, b, c] + [d] == [a, b, c, d] && [a, b, c, d] + [e] == [a, b, c, d, e];
  }

  lemma OneRejected(d: JsMap<string, Decision>, candidates: JsMap<string, Candidate>)
    requires |d| == 1 && d[0].value == Rejected
    ensures AcceptedIn(d, candidates) == []
  {
    assert d[1..] == [];
  }

  /** The world after the rejection, with the reason on record. */
  ghost function Explained(snapshot: string, c: Candidate, reason: RejectReason): World {
    Step(Step(Offering(snapshot, c), Reject(c.id)), Explain(c.id, reason))
  }

  lemma ExplainedIs(snapshot: string, c: Candidate, reason: RejectReason)
    ensures var w := Explained(snapshot, c, reason);
            && w.session.decisions == [Pair(c.id, Rejected)] && w.session.reasons == map[c.id := reason]
            && w.doc == snapshot && w.session.expected == ContentHash(snapshot) && AcceptedCandidates(w.session) == []
  {
    var w := Explained(snapshot, c, reason);
    assert w.session.decisions == [Pair(c.id, Rejected)];
    OneRejected(w.session.decisions, w.session.candidates);
  }

  lemma ExplainedIsTaken(snapshot: string, c: Candidate, reason: RejectReason)
    requires Offered(c, snapshot)
    ensures Took(Explained(snapshot, c, reason), Taking(c))
    ensures CurrentGuard(Explained(snapshot, c, reason).session, snapshot, c).Warn? <==> GateFails(c, true)
  {
    hide Explained, ApplyCandidate;
    ExplainedIs(snapshot, c, reason);
    GuardMeaning(c, ContentHash(snapshot), ContentHash(snapshot), []);
    FirstApplied(snapshot, c);
  }

  lemma OverWarning(w: World, c: Candidate, reason: RejectReason)
    requires Took(w, Taking(c)) && CurrentGuard(w.session, w.doc, c).Warn? && Distinct(w.session.decisions)
    requires c.id in w.session.reasons && w.session.reasons[c.id] == reason
    ensures ReasonShown(Step(Step(w, Taking(c)), Reject(c.id)).session, c.id) == Some(reason)
  {
    SetLaw(w.session.decisions, c.id, Accepted);
    SetLaw(Step(w, Taking(c)).session.decisions, c.id, Rejected);
  }

  /** The reason of the first rejection comes back with the second, which gave none. */
  lemma OldReasonIsReached(snapshot: string, c: Candidate, reason: RejectReason)
    requires Offered(c, snapshot) && GateFails(c, true)
    ensures ReasonShown(Run(NewWorld(snapshot), OldReasonRun(c, reason)).session, c.id) == Some(reason)
  {
    hide Offered, Step, Run, NewWorld, ReasonShown, Took, CurrentGuard;
    var w := Explained(snapshot, c, reason);
    ExplainedIs(snapshot, c, reason);
    ExplainedIsTaken(snapshot, c, reason);
    FiveSteps(NewWorld(snapshot), Generate(c), Reject(c.id), Explain(c.id, reason), Taking(c), Reject(c.id));
    OverWarning(w, c, reason);
  }
}
