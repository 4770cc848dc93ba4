/** `apps/vscode/src/ui/model.ts`: gates, badges and the accept guard. */
module AcceptGuard {
  import opened Contract
  import opened Patches
  import opened Seqs

  datatype Badge = ReadyBadge | InsufficientEvidence | ReviewRequired | FailedBadge | NoFix

  predicate JudgmentGate(name: string) {
    name in {"semantic", "violation_removal", "regression"}
  }

  /** The failing validations of one gate class, in order. */
  function Failing(vs: seq<Validation>, judgment: bool): seq<Validation> {
    if vs == [] then []
    else
      var last := vs[|vs| - 1];
      Failing(vs[..|vs| - 1], judgment)
      + if last.status == Fail && JudgmentGate(last.name) == judgment then [last] else []
  }

  method FailingGatesByClass(c: Candidate) returns (mechanical: seq<Validation>, judgment: seq<Validation>)
    ensures mechanical == Failing(c.validations, false) && judgment == Failing(c.validations, true)
  {
    mechanical, judgment := [], [];
    for i := 0 to |c.validations|
      invariant mechanical == Failing(c.validations[..i], false)
      invariant judgment == Failing(c.validations[..i], true)
    {
      var v := c.validations[i];
      if v.status == Fail {
        if JudgmentGate(v.name) {
          judgment := judgment + [v];
        } else {
          mechanical := mechanical + [v];
        }
      }
      assert c.validations[..i + 1][..i] == c.validations[..i];
    }
    assert c.validations[..|c.validations|] == c.validations;
  }

  predicate Unproven(v: Validation) {
    v.status == Skipped || v.status == NotRun
  }

  function CandidateBadge(c: Candidate): Badge {
    if c.status == RepairFailed || |c.hunks| == 0 then NoFix
    else if |Failing(c.validations, false)| > 0 then FailedBadge
    else if |Failing(c.validations, true)| > 0 then ReviewRequired
    else if exists i | 0 <= i < |c.validations| :: Unproven(c.validations[i]) then InsufficientEvidence
    else ReadyBadge
  }

  predicate BadgeAcceptable(b: Badge) {
    b == ReadyBadge || b == InsufficientEvidence || b == ReviewRequired
  }

  predicate BadgeRequiresWarning(b: Badge) {
    b == ReviewRequired
  }

  predicate HasDiff(c: Candidate) {
    CandidateBadge(c) != NoFix
  }

  datatype Guard =
    | Clear
    | Warn(concerns: seq<Validation>)
    | Stale
    | NotAcceptable
    | Conflict(conflictId: string)
  {
    predicate Ok() { Clear? || Warn? }
  }

  /** The first accepted candidate, other than `c` itself, that conflicts with `c`. */
  function FirstConflict(c: Candidate, accepted: seq<Candidate>): seq<Candidate> {
    if accepted == [] then []
    else if accepted[0].id != c.id && HunksConflict(c.hunks, accepted[0].hunks) then [accepted[0]]
    else FirstConflict(c, accepted[1..])
  }

  function GuardOf(c: Candidate, current: Digest, expected: Digest, accepted: seq<Candidate>): Guard {
    if current != expected then Stale
    else if !BadgeAcceptable(CandidateBadge(c)) then NotAcceptable
    else
      var conflict := FirstConflict(c, accepted);
      if conflict != [] then Conflict(conflict[0].id)
      else if BadgeRequiresWarning(CandidateBadge(c)) then Warn(Failing(c.validations, true))
      else Clear
  }

  method EvaluateAcceptGuard(c: Candidate, current: Digest, expected: Digest, accepted: seq<Candidate>)
    returns (g: Guard)
    ensures g == GuardOf(c, current, expected, accepted)
  {
    if current != expected {
      return Stale;
    }
    var badge := CandidateBadge(c);
    if !BadgeAcceptable(badge) {
      return NotAcceptable;
    }
    var i := 0;
    while i < |accepted|
      invariant 0 <= i <= |accepted|
      invariant FirstConflict(c, accepted) == FirstConflict(c, accepted[i..])
    {
      if accepted[i].id != c.id {
        var conflict := CandidatesConflict(c.hunks, accepted[i].hunks);
        if conflict {
          return Conflict(accepted[i].id);
        }
      }
      i := i + 1;
    }
    if BadgeRequiresWarning(badge) {
      var _, concerns := FailingGatesByClass(c);
      return Warn(concerns);
    }
    return Clear;
  }

  // --- what an open guard means ---------------------------------------------------

  predicate GateFails(c: Candidate, judgment: bool) {
    exists i | 0 <= i < |c.validations| ::
      c.validations[i].status == Fail && JudgmentGate(c.validations[i].name) == judgment
  }

  lemma {:induction false} FailingMeaning(vs: seq<Validation>, judgment: bool)
    ensures Failing(vs, judgment) != []
       <==> exists i | 0 <= i < |vs| :: vs[i].status == Fail && JudgmentGate(vs[i].name) == judgment
  {
    if vs == [] {
    } else {
      var n := |vs| - 1;
      FailingMeaning(vs[..n], judgment);
      if i :| 0 <= i < |vs| && vs[i].status == Fail && JudgmentGate(vs[i].name) == judgment {
        if i < n {
          assert vs[..n][i] == vs[i];
        }
      }
    }
  }

  lemma {:induction false} NoConflictMeaning(c: Candidate, accepted: seq<Candidate>)
    ensures FirstConflict(c, accepted) == []
       <==> forall i | 0 <= i < |accepted| :: accepted[i].id == c.id || !HunksConflict(c.hunks, accepted[i].hunks)
  {
    if accepted == [] {
    } else {
      NoConflictMeaning(c, accepted[1..]);
      if FirstConflict(c, accepted) == [] {
        forall i | 0 <= i < |accepted|
          ensures accepted[i].id == c.id || !HunksConflict(c.hunks, accepted[i].hunks)
        {
          assert i > 0 ==> accepted[i] == accepted[1..][i - 1];
        }
      } else if FirstConflict(c, accepted[1..]) != [] {
        var j :| 0 <= j < |accepted[1..]|
          && !(accepted[1..][j].id == c.id || !HunksConflict(c.hunks, accepted[1..][j].hunks));
        assert accepted[j + 1] == accepted[1..][j];
      }
    }
  }

  /** An open guard, both ways; a warning is raised exactly for a failed judgment gate. */
  lemma GuardMeaning(c: Candidate, current: Digest, expected: Digest, accepted: seq<Candidate>)
    ensures var g := GuardOf(c, current, expected, accepted);
            && (g.Ok() <==>
                 && current == expected
                 && c.status != RepairFailed && c.hunks != []
                 && !GateFails(c, false)
                 && forall i | 0 <= i < |accepted| ::
                      accepted[i].id == c.id || !HunksConflict(c.hunks, accepted[i].hunks))
            && (g.Ok() ==> (g.Warn? <==> GateFails(c, true)))
            && (g.Stale? <==> current != expected)
  {
    FailingMeaning(c.validations, false);
    FailingMeaning(c.validations, true);
    NoConflictMeaning(c, accepted);
  }

  // --- what the outcomes mean --------------------------------------------------------

  /** The failed validations whose gates are judgments, or those whose gates are mechanical. */
  function FailedGates(vs: seq<Validation>, judgment: bool): seq<Validation> {
    Filter(vs, (v: Validation) =>
      v.status == Fail && (v.name == "semantic" || v.name == "violation_removal" || v.name == "regression") == judgment)
  }

  lemma {:induction false} FailingAre(vs: seq<Validation>, judgment: bool)
    ensures Failing(vs, judgment) == FailedGates(vs, judgment)
  {
    if vs == [] {
    } else {
      FailingAre(vs[..|vs| - 1], judgment);
      FilterLast(vs, (v: Validation) =>
        v.status == Fail
        && (v.name == "semantic" || v.name == "violation_removal" || v.name == "regression") == judgment);
    }
  }

  lemma SomeFailed(c: Candidate, judgment: bool)
    ensures FailedGates(c.validations, judgment) != [] <==> GateFails(c, judgment)
  {
    FailingAre(c.validations, judgment);
    FailingMeaning(c.validations, judgment);
  }

  /** The badges, by what failed first. */
  lemma BadgeMeaning(c: Candidate)
    ensures var badge, none := CandidateBadge(c), c.status == RepairFailed || c.hunks == [];
            var mechanical, judgment := FailedGates(c.validations, false), FailedGates(c.validations, true);
            var unproven := exists v | v in c.validations :: v.status == Skipped || v.status == NotRun;
            && (badge == NoFix <==> none)
            && (badge == FailedBadge <==> !none && mechanical != [])
            && (badge == ReviewRequired <==> !none && mechanical == [] && judgment != [])
            && (badge == InsufficientEvidence <==> !none && mechanical == [] && judgment == [] && unproven)
            && (badge == ReadyBadge <==> !none && mechanical == [] && judgment == [] && !unproven)
  {
    FailingAre(c.validations, false);
    FailingAre(c.validations, true);
  }

  /** The conflict that is reported is the first. */
  lemma {:induction false} FirstConflictIs(c: Candidate, accepted: seq<Candidate>)
    ensures FirstConflict(c, accepted) != [] ==>
              exists k | 0 <= k < |accepted| ::
                && FirstConflict(c, accepted) == [accepted[k]]
                && accepted[k].id != c.id && HunksConflict(c.hunks, accepted[k].hunks)
                && forall i | 0 <= i < k :: accepted[i].id == c.id || !HunksConflict(c.hunks, accepted[i].hunks)
  {
    if accepted == [] {
    } else if accepted[0].id != c.id && HunksConflict(c.hunks, accepted[0].hunks) {
      assert FirstConflict(c, accepted) == [accepted[0]];
    } else {
      FirstConflictIs(c, accepted[1..]);
      if FirstConflict(c, accepted) != [] {
        var k :| 0 <= k < |accepted[1..]| && FirstConflict(c, accepted[1..]) == [accepted[1..][k]]
          && accepted[1..][k].id != c.id && HunksConflict(c.hunks, accepted[1..][k].hunks)
          && forall i | 0 <= i < k ::
               accepted[1..][i].id == c.id || !HunksConflict(c.hunks, accepted[1..][i].hunks);
        assert accepted[k + 1] == accepted[1..][k];
        assert forall i | 1 <= i < k + 1 :: accepted[i] == accepted[1..][i - 1];
      }
    }
  }

  /**
   The outcomes in the order of the source: a stale document, a candidate that cannot be
   accepted, the first conflict, the failed judgment gates as concerns of a warning.
   */
  lemma GuardOutcome(c: Candidate, current: Digest, expected: Digest, accepted: seq<Candidate>)
    ensures var g := GuardOf(c, current, expected, accepted);
            var unfit := c.status == RepairFailed || c.hunks == [] || FailedGates(c.validations, false) != [];
            var conflict := exists i | 0 <= i < |accepted| ::
              accepted[i].id != c.id && HunksConflict(c.hunks, accepted[i].hunks);
            && (g.Stale? <==> current != expected)
            && (g.NotAcceptable? <==> current == expected && unfit)
            && (g.Conflict? <==> current == expected && !unfit && conflict)
            && (g.Warn? <==> current == expected && !unfit && !conflict && FailedGates(c.validations, true) != [])
            && (g.Warn? ==> g.concerns == FailedGates(c.validations, true))
            && (g.Conflict? ==>
                  exists k | 0 <= k < |accepted| ::
                    && accepted[k].id == g.conflictId != c.id && HunksConflict(c.hunks, accepted[k].hunks)
                    && forall i | 0 <= i < k :: accepted[i].id == c.id || !HunksConflict(c.hunks, accepted[i].hunks))
  {
    FailingAre(c.validations, false);
    FailingAre(c.validations, true);
    NoConflictMeaning(c, accepted);
    FirstConflictIs(c, accepted);
  }
}
