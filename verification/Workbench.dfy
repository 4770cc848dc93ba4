/**
 The handlers of `apps/vscode/src/extension.ts` that decide on candidates, with
 `apps/vscode/src/apply/acceptCandidate.ts`, over one session and one open document.
 */
module Workbench {
  import opened AcceptAll
  import opened AcceptChain
  import opened AcceptGuard
  import opened Contract
  import opened DedupeIncludes
  import opened EditRanges
  import opened Options
  import opened Patches
  import opened Patching
  import opened Seqs
  import opened Sessions

  lemma {:induction false} HunksOfAppend(a: seq<Candidate>, b: seq<Candidate>)
    ensures HunksOf(a + b) == HunksOf(a) + HunksOf(b)
  {
    if a == [] {
      assert a + b == b;
    } else {
      HunksOfAppend(a[1..], b);
      assert (a + b)[1..] == a[1..] + b;
      Associates(a[0].hunks, HunksOf(a[1..]), HunksOf(b));
    }
  }

  /** Dedupe against the live text, rebase every hunk on its own, apply all ranges at once. */
  method ApplyCandidateTo(doc: string, c: Candidate, accepted: seq<Candidate>, editorAccepts: bool)
    returns (applied: Option<string>, removed: int)
    ensures applied == ApplyCandidate(doc, c, HunksOf(accepted), editorAccepts)
    ensures removed == RemovedCount(c.hunks, IncludesOf(doc))
  {
    var hs;
    hs, removed := Dedupe(c.hunks, doc);
    if hs == [] {
      return Some(doc), removed;
    }
    var acceptedHunks: seq<Hunk> := [];
    for i := 0 to |accepted|
      invariant acceptedHunks == HunksOf(accepted[..i])
    {
      HunksOfAppend(accepted[..i], [accepted[i]]);
      assert accepted[..i + 1] == accepted[..i] + [accepted[i]];
      assert HunksOf([accepted[i]]) == accepted[i].hunks;
      acceptedHunks := acceptedHunks + accepted[i].hunks;
    }
    assert accepted[..|accepted|] == accepted;
    var edits: seq<Edit<char>> := [];
    for i := 0 to |hs|
      invariant edits == ToTextEdits(doc, CandidateToEditRanges(hs, acceptedHunks))[..i]
    {
      var offset := LineOffsetForStart(hs[i].startLine, acceptedHunks);
      edits := edits + [ToTextEdit(doc, HunkToEditRange(hs[i], offset))];
    }
    assert edits == ToTextEdits(doc, CandidateToEditRanges(hs, acceptedHunks));
    applied := if editorAccepts then ApplyTextEdits(doc, edits) else None;
  }

  class Workbench {
    const session: ScanSession
    var doc: string
    ghost var ledger: seq<Entry>
    ghost var left: string

    ghost function World(): World
      reads this, session
    {
      AcceptChain.World(session.Value(), doc, ledger, left)
    }

    constructor (text: string)
      ensures fresh(session) && World() == NewWorld(text)
    {
      session := new ScanSession(text);
      doc := text;
      ledger, left := [], text;
    }

    method AcceptCandidate(c: Candidate, confirmed: bool, editorAccepts: bool)
      modifies this, session
      ensures World() == AcceptStep(old(World()), c, confirmed, editorAccepts)
    {
      var accepted := session.AcceptedList();
      var guard := EvaluateAcceptGuard(c, ContentHash(doc), session.expectedHash, accepted);
      if !guard.Ok() || (guard.Warn? && !confirmed) {
        return;
      }
      var applied, _ := ApplyCandidateTo(doc, c, accepted, editorAccepts);
      if applied.None? {
        return;
      }
      ledger := ledger + EntriesFor(c.hunks, IncludesOf(doc));
      doc, left := applied.value, applied.value;
      if guard.Warn? {
        session.SetAcceptedWithWarning(c.id);
      } else {
        session.SetDecision(c.id, Accepted);
      }
      session.SetExpectedHash(ContentHash(doc));
      var _ := session.RefreshStale(doc);
    }

    method RejectCandidate(id: string)
      modifies session
      ensures World() == Step(old(World()), Reject(id))
    {
      session.SetDecision(id, Rejected);
    }

    /** The reason arrives later than the rejection, if at all. */
    method RejectReasonArrives(id: string, reason: RejectReason)
      modifies session
      ensures World() == Step(old(World()), Explain(id, reason))
    {
      var decision, _, _ := session.DispositionFor(id);
      if decision == Rejected {
        session.SetRejectReason(id, Some(reason));
      }
    }

    method MayRegenerate(violation: bool) returns (go: bool)
      ensures go <==> !session.isStale && violation
    {
      return !session.isStale && violation;
    }

    /** The tests made when a repair is asked for; the repair arrives later, if at all. */
    method MayGenerate(findingId: string, violation: bool) returns (go: bool)
      ensures go <==> !session.isStale && violation
                      && CandidateForFinding(session.Value().candidates, findingId) == None
    {
      var may := MayRegenerate(violation);
      if !may {
        return false;
      }
      var existing := session.ForFinding(findingId);
      return existing == None;
    }

    method RepairArrives(c: Candidate)
      modifies session
      ensures World() == Step(old(World()), Generate(c))
    {
      session.SetCandidate(c);
    }

    method RegeneratedRepairArrives(findingId: string, c: Candidate)
      modifies session
      ensures World() == Step(old(World()), Regenerate(findingId, c))
    {
      session.ReplaceCandidateForFinding(findingId, c);
    }

    /** The document changes at once; the stale flag only when the debounce timer fires. */
    method DocumentChanged(text: string)
      modifies this
      ensures World() == Step(old(World()), Change(text))
    {
      doc := text;
    }

    method StaleTimerFired()
      modifies session
      ensures World() == Step(old(World()), Settle)
    {
      var _ := session.RefreshStale(doc);
    }

    /** What the editor and the timer do before a round of the batch. */
    method Meanwhile(turn: Turn)
      modifies this, session
      ensures World() == Disturbed(old(World()), turn)
    {
      if turn.change.Some? {
        DocumentChanged(turn.change.value);
      }
      if turn.settles {
        StaleTimerFired();
      }
    }

    /** One candidate of a batch; no outcome means that a stale document stops the batch. */
    method AcceptRound(c: Candidate, turn: Turn) returns (outcome: Option<Outcome>)
      modifies this, session
      ensures var v := Disturbed(old(World()), turn);
              if CurrentGuard(v.session, v.doc, c).Stale? then outcome == None && World() == v
              else
                && outcome == Some(OutcomeOf(v.session, v.doc, c, turn.editorAccepts))
                && World() == AcceptStep(v, c, false, turn.editorAccepts)
    {
      hide EntriesFor, IncludesOf, ApplyCandidate, GuardOf, AcceptedIn, HunksOf;
      Meanwhile(turn);
      var accepted := session.AcceptedList();
      var guard := EvaluateAcceptGuard(c, ContentHash(doc), session.expectedHash, accepted);
      if guard.Stale? {
        return None;
      } else if guard.Conflict? {
        return Some(Conflicted);
      } else if guard.NotAcceptable? {
        return Some(Failed);
      } else if guard.Warn? {
        return Some(Unconfirmed);
      }
      var applied, removed := ApplyCandidateTo(doc, c, accepted, turn.editorAccepts);
      if applied.None? {
        return Some(Failed);
      }
      ledger := ledger + EntriesFor(c.hunks, IncludesOf(doc));
      doc, left := applied.value, applied.value;
      session.SetDecision(c.id, Accepted);
      session.SetExpectedHash(ContentHash(doc));
      var _ := session.RefreshStale(doc);
      return Some(Applied(removed));
    }

    method DiffableQueue(findingIds: seq<string>) returns (queue: seq<Candidate>)
      ensures queue == QueueOf(session.Value().candidates, findingIds)
    {
      queue := [];
      for i := 0 to |findingIds|
        invariant queue == QueueOf(session.candidates, findingIds[..i])
      {
        assert findingIds[..i + 1][..i] == findingIds[..i];
        var c := session.ForFinding(findingIds[i]);
        if c.Some? && HasDiff(c.value) {
          queue := queue + [c.value];
        }
      }
      assert findingIds[..|findingIds|] == findingIds;
    }

    /** The loop over the targets, up to a stale stop. */
    method AcceptTargets(targets: seq<Candidate>, turns: seq<Turn>) returns (tally: Tally)
      requires |turns| == |targets|
      modifies this, session
      ensures var batch := RunBatch(old(World()), targets, turns);
              World() == batch.world && tally == TallyOf(batch.outcomes)
    {
      ghost var batch := RunBatch(World(), targets, turns);
      ghost var outcomes: seq<Outcome>, rest := [], batch;
      tally := TallyOf([]);
      var i := 0;
      while i < |targets|
        invariant 0 <= i <= |targets| && tally == TallyOf(outcomes)
        invariant rest == RunBatch(World(), targets[i..], turns[i..])
        invariant batch.world == rest.world && batch.outcomes == outcomes + rest.outcomes
      {
        ghost var before := World();
        var outcome := AcceptRound(targets[i], turns[i]);
        BatchGoesOn(before, targets[i..], turns[i..], World(), outcome, batch, outcomes);
        if outcome.None? {
          return;
        }
        tally := tally.Count(outcome.value);
        assert targets[i..][1..] == targets[i + 1..] && turns[i..][1..] == turns[i + 1..];
        rest := RunBatch(World(), targets[i + 1..], turns[i + 1..]);
        CountLast(outcomes, outcome.value);
        outcomes := outcomes + [outcome.value];
        i := i + 1;
      }
      NothingLast(outcomes, rest.outcomes);
    }

    method AcceptAllReviewed(findingIds: seq<string>, turns: seq<Turn>) returns (tally: Tally)
      requires |turns| == |ToAccept(QueueOf(session.Value().candidates, findingIds), session.Value())|
      modifies this, session
      ensures var s := old(session.Value());
              var batch := RunBatch(old(World()), ToAccept(QueueOf(s.candidates, findingIds), s), turns);
              World() == batch.world && tally == TallyOf(batch.outcomes)
    {
      var queue := DiffableQueue(findingIds);
      var targets := ToAccept(queue, Session(session.snapshot, session.candidates, session.decisions,
                              session.acceptedWithWarning, session.rejectReasons, session.reviewed,
                              session.expectedHash, session.isStale));
      tally := AcceptTargets(targets, turns);
    }
  }

  lemma CountLast(outcomes: seq<Outcome>, o: Outcome)
    ensures TallyOf(outcomes + [o]) == TallyOf(outcomes).Count(o)
  {
    assert (outcomes + [o])[..|outcomes|] == outcomes;
  }

  /** What one round adds to the outcomes so far. */
  lemma BatchGoesOn(w: AcceptChain.World, cs: seq<Candidate>, turns: seq<Turn>, after: AcceptChain.World,
                    outcome: Option<Outcome>, batch: Batch, outcomes: seq<Outcome>)
    requires |turns| == |cs| && cs != []
    requires var v := Disturbed(w, turns[0]);
             if CurrentGuard(v.session, v.doc, cs[0]).Stale? then outcome == None && after == v
             else
               && outcome == Some(OutcomeOf(v.session, v.doc, cs[0], turns[0].editorAccepts))
               && after == AcceptStep(v, cs[0], false, turns[0].editorAccepts)
    requires batch.world == RunBatch(w, cs, turns).world
    requires batch.outcomes == outcomes + RunBatch(w, cs, turns).outcomes
    ensures outcome.None? ==> batch.world == after && batch.outcomes == outcomes
    ensures outcome.Some? ==>
              var rest := RunBatch(after, cs[1..], turns[1..]);
              (batch.world == rest.world && batch.outcomes == (outcomes + [outcome.value]) + rest.outcomes)
  {
    RoundOfBatch(w, cs, turns, after, outcome);
    if outcome.Some? {
      Associates(outcomes, [outcome.value], RunBatch(after, cs[1..], turns[1..]).outcomes);
    } else {
      NothingLast(outcomes, RunBatch(w, cs, turns).outcomes);
    }
  }

  /** What one round leaves of the batch. */
  lemma RoundOfBatch(w: AcceptChain.World, cs: seq<Candidate>, turns: seq<Turn>, after: AcceptChain.World,
                     outcome: Option<Outcome>)
    requires |turns| == |cs| && cs != []
    requires var v := Disturbed(w, turns[0]);
             if CurrentGuard(v.session, v.doc, cs[0]).Stale? then outcome == None && after == v
             else
               && outcome == Some(OutcomeOf(v.session, v.doc, cs[0], turns[0].editorAccepts))
               && after == AcceptStep(v, cs[0], false, turns[0].editorAccepts)
    ensures RunBatch(w, cs, turns)
         == if outcome.None? then Batch(after, [], |cs|)
            else
              var rest := RunBatch(after, cs[1..], turns[1..]);
              rest.(outcomes := [outcome.value] + rest.outcomes)
  {
  }
}
