/**
 `Accept all reviewed`: the selection of `apps/vscode/src/session/reviewQueue.ts` and
 the loop of `apps/vscode/src/extension.ts`, with whatever the editor does in between.
 */
module AcceptAll {
  import opened AcceptChain
  import opened AcceptGuard
  import opened Contract
  import opened DedupeIncludes
  import opened JsMaps
  import opened Options
  import opened Patches
  import opened Seqs
  import opened Sessions
  import opened Sorting

  // --- selection ------------------------------------------------------------------

  /** String comparison by code units. */
  predicate IdLess(a: string, b: string) {
    if b == "" then false
    else if a == "" then true
    else a[0] < b[0] || (a[0] == b[0] && IdLess(a[1..], b[1..]))
  }

  predicate IdBefore(a: Candidate, b: Candidate) {
    IdLess(a.id, b.id)
  }

  predicate Eligible(c: Candidate, s: Session) {
    HasDiff(c) && BadgeAcceptable(CandidateBadge(c)) && DecisionFor(s, c.id) == Pending
  }

  function EligibleOf(cs: seq<Candidate>, s: Session): seq<Candidate> {
    if cs == [] then []
    else EligibleOf(cs[..|cs| - 1], s) + if Eligible(cs[|cs| - 1], s) then [cs[|cs| - 1]] else []
  }

  function Reviewed(cs: seq<Candidate>, reviewed: set<string>, wanted: bool): seq<Candidate> {
    if cs == [] then []
    else
      Reviewed(cs[..|cs| - 1], reviewed, wanted)
      + if (cs[|cs| - 1].id in reviewed) == wanted then [cs[|cs| - 1]] else []
  }

  function ToAccept(queue: seq<Candidate>, s: Session): seq<Candidate> {
    Reviewed(Sort(EligibleOf(queue, s), IdBefore), s.reviewed, true)
  }

  function NotReviewed(queue: seq<Candidate>, s: Session): seq<Candidate> {
    Reviewed(Sort(EligibleOf(queue, s), IdBefore), s.reviewed, false)
  }

  lemma {:induction false} IdLessTransitive(a: string, b: string, c: string)
    requires IdLess(a, b) && !IdLess(c, b)
    ensures IdLess(a, c)
  {
    if a == "" || a[0] != b[0] || c[0] != a[0] {
    } else {
      IdLessTransitive(a[1..], b[1..], c[1..]);
    }
  }

  lemma {:induction false} IdLessIrreflexive(a: string, b: string)
    requires IdLess(a, b)
    ensures !IdLess(b, a)
  {
    if a == "" || a[0] != b[0] {
    } else {
      IdLessIrreflexive(a[1..], b[1..]);
    }
  }

  lemma IdOrder()
    ensures StrictOrder(IdBefore)
  {
    forall a, b | IdBefore(a, b) ensures !IdBefore(b, a) {
      IdLessIrreflexive(a.id, b.id);
    }
    forall a, b, c | IdBefore(a, b) && !IdBefore(c, b) ensures IdBefore(a, c) {
      IdLessTransitive(a.id, b.id, c.id);
    }
  }

  lemma {:induction false} ReviewedSplits(cs: seq<Candidate>, reviewed: set<string>)
    ensures multiset(Reviewed(cs, reviewed, true)) + multiset(Reviewed(cs, reviewed, false)) == multiset(cs)
  {
    if cs == [] {
    } else {
      ReviewedSplits(cs[..|cs| - 1], reviewed);
      assert cs == cs[..|cs| - 1] + [cs[|cs| - 1]];
    }
  }

  lemma {:induction false} ReviewedAscends(cs: seq<Candidate>, reviewed: set<string>)
    requires Ordered(cs, IdBefore)
    ensures Ordered(Reviewed(cs, reviewed, true), IdBefore)
  {
    if cs == [] {
    } else {
      var init, last := cs[..|cs| - 1], cs[|cs| - 1];
      assert cs == init + [last];
      OrderedLast(init, last, IdBefore);
      ReviewedAscends(init, reviewed);
      forall x | x in Reviewed(init, reviewed, true) ensures !IdBefore(last, x) {
        ReviewedMember(init, reviewed, x);
      }
      OrderedLast(Reviewed(init, reviewed, true), last, IdBefore);
    }
  }

  lemma {:induction false} EligibleMember(cs: seq<Candidate>, s: Session, c: Candidate)
    ensures c in EligibleOf(cs, s) <==> c in cs && Eligible(c, s)
  {
    if cs == [] {
    } else {
      EligibleMember(cs[..|cs| - 1], s, c);
      assert cs == cs[..|cs| - 1] + [cs[|cs| - 1]];
    }
  }

  /** Ids are compared like strings: a proper prefix first, else by the first code unit that differs. */
  lemma {:induction false} IdLessMeaning(a: string, b: string)
    ensures IdLess(a, b)
       <==> exists k | 0 <= k <= |a| && k < |b| :: a[..k] == b[..k] && (k == |a| || a[k] < b[k])
  {
    if b == "" || a == "" || a[0] != b[0] {
      if a == "" && b != "" {
        assert a[..0] == b[..0];
      } else if b != "" {
        assert a[..0] == b[..0];
        forall k | 0 < k <= |a| && k < |b| ensures a[..k] != b[..k] {
          assert a[..k][0] == a[0] && b[..k][0] == b[0];
        }
      }
    } else {
      IdLessMeaning(a[1..], b[1..]);
      if k :| 0 <= k <= |a[1..]| && k < |b[1..]| && a[1..][..k] == b[1..][..k]
              && (k == |a[1..]| || a[1..][k] < b[1..][k]) {
        assert a[..k + 1] == [a[0]] + a[1..][..k] && b[..k + 1] == [b[0]] + b[1..][..k];
      }
      if k :| 0 <= k <= |a| && k < |b| && a[..k] == b[..k] && (k == |a| || a[k] < b[k]) {
        assert a[1..][..k - 1] == a[..k][1..] && b[1..][..k - 1] == b[..k][1..];
      }
    }
  }

  /** There is something to accept, no mechanical gate failed, and nothing was decided yet. */
  ghost predicate Selectable(c: Candidate, s: Session) {
    && c.hunks != [] && c.status != RepairFailed && FailedGates(c.validations, false) == []
    && DecisionFor(s, c.id) == Pending
  }

  lemma EligibleMeaning(c: Candidate, s: Session)
    ensures Eligible(c, s) <==> Selectable(c, s)
  {
    FailingAre(c.validations, false);
  }

  lemma {:induction false} EligibleBag(cs: seq<Candidate>, s: Session, c: Candidate)
    ensures multiset(EligibleOf(cs, s))[c] == if Selectable(c, s) then multiset(cs)[c] else 0
  {
    if cs == [] {
    } else {
      EligibleBag(cs[..|cs| - 1], s, c);
      EligibleMeaning(cs[|cs| - 1], s);
      assert cs == cs[..|cs| - 1] + [cs[|cs| - 1]];
    }
  }

  lemma {:induction false} EligibleCount(cs: seq<Candidate>, s: Session)
    ensures EligibleOf(cs, s) == Filter(cs, c => Selectable(c, s))
  {
    if cs == [] {
    } else {
      EligibleCount(cs[..|cs| - 1], s);
      EligibleMeaning(cs[|cs| - 1], s);
      FilterLast(cs, c => Selectable(c, s));
    }
  }

  lemma {:induction false} ReviewedBag(cs: seq<Candidate>, reviewed: set<string>, wanted: bool, c: Candidate)
    ensures multiset(Reviewed(cs, reviewed, wanted))[c] == if (c.id in reviewed) == wanted then multiset(cs)[c] else 0
  {
    if cs == [] {
    } else {
      ReviewedBag(cs[..|cs| - 1], reviewed, wanted, c);
      assert cs == cs[..|cs| - 1] + [cs[|cs| - 1]];
    }
  }

  /**
   The targets are, as often as the queue lists them, the pending candidates with a diff and
   without a failed mechanical gate that were reviewed, in ascending id order; the others of
   this kind are those that were not reviewed.
   */
  lemma SelectionMeaning(queue: seq<Candidate>, s: Session, c: Candidate)
    ensures var count := if Selectable(c, s) then multiset(queue)[c] else 0;
            && multiset(ToAccept(queue, s))[c] == (if c.id in s.reviewed then count else 0)
            && multiset(NotReviewed(queue, s))[c] == (if c.id in s.reviewed then 0 else count)
    ensures c in ToAccept(queue, s) <==> c in queue && Selectable(c, s) && c.id in s.reviewed
    ensures Ordered(ToAccept(queue, s), IdBefore)
  {
    var eligible := EligibleOf(queue, s);
    var sorted := Sort(eligible, IdBefore);
    EligibleBag(queue, s, c);
    SortKeeps(eligible, IdBefore);
    ReviewedBag(sorted, s.reviewed, true, c);
    ReviewedBag(sorted, s.reviewed, false, c);
    IdOrder();
    SortOrders(eligible, IdBefore);
    ReviewedAscends(sorted, s.reviewed);
    assert c in ToAccept(queue, s) <==> c in multiset(ToAccept(queue, s));
    assert c in queue <==> c in multiset(queue);
  }

  lemma SelectionCount(queue: seq<Candidate>, s: Session)
    ensures |ToAccept(queue, s)| + |NotReviewed(queue, s)| == |EligibleOf(queue, s)|
  {
    var eligible := EligibleOf(queue, s);
    var sorted := Sort(eligible, IdBefore);
    SortKeeps(eligible, IdBefore);
    ReviewedSplits(sorted, s.reviewed);
    assert |multiset(sorted)| == |multiset(eligible)|;
    assert |multiset(ToAccept(queue, s)) + multiset(NotReviewed(queue, s))| == |multiset(sorted)|;
  }

  lemma {:induction false} ReviewedMember(cs: seq<Candidate>, reviewed: set<string>, c: Candidate)
    ensures c in Reviewed(cs, reviewed, true) <==> c in cs && c.id in reviewed
  {
    if cs == [] {
    } else {
      ReviewedMember(cs[..|cs| - 1], reviewed, c);
      assert cs == cs[..|cs| - 1] + [cs[|cs| - 1]];
    }
  }

  // --- the queue -------------------------------------------------------------------

  /** `diffableQueue`: for each finding of the scan its stored candidate, when there is a diff to show. */
  function QueueOf(candidates: JsMap<string, Candidate>, findingIds: seq<string>): seq<Candidate> {
    if findingIds == [] then []
    else
      var c := CandidateForFinding(candidates, findingIds[|findingIds| - 1]);
      QueueOf(candidates, findingIds[..|findingIds| - 1]) + if c.Some? && HasDiff(c.value) then [c.value] else []
  }

  ghost predicate Unlike(ids: seq<string>) {
    forall i, j | 0 <= i < j < |ids| :: ids[i] != ids[j]
  }

  ghost predicate UnlikeIds(cs: seq<Candidate>) {
    forall i, j | 0 <= i < j < |cs| :: cs[i].id != cs[j].id
  }

  lemma {:induction false} ForFindingIsStored(candidates: JsMap<string, Candidate>, findingId: string)
    ensures var c := CandidateForFinding(candidates, findingId);
            c.Some? ==> c.value.findingId == findingId
                        && exists i | 0 <= i < |candidates| :: candidates[i].value == c.value
  {
    if candidates == [] {
    } else if candidates[0].value.findingId != findingId {
      ForFindingIsStored(candidates[1..], findingId);
      if CandidateForFinding(candidates, findingId).Some? {
        var i :| 0 <= i < |candidates[1..]|
          && candidates[1..][i].value == CandidateForFinding(candidates, findingId).value;
        assert candidates[i + 1] == candidates[1..][i];
      }
    }
  }

  lemma StoredUnderItsId(candidates: JsMap<string, Candidate>, c: Candidate)
    requires Distinct(candidates) && Filed(candidates)
    requires exists i | 0 <= i < |candidates| :: candidates[i].value == c
    ensures Get(candidates, c.id) == Some(c)
  {
    var i :| 0 <= i < |candidates| && candidates[i].value == c;
    GetAt(candidates, i);
  }

  /** The queue lists stored candidates of distinct findings, hence distinct candidates. */
  lemma {:induction false} QueueIsStored(candidates: JsMap<string, Candidate>, findingIds: seq<string>)
    requires Distinct(candidates) && Filed(candidates) && Unlike(findingIds)
    ensures var queue := QueueOf(candidates, findingIds);
            && UnlikeIds(queue)
            && forall c | c in queue :: Get(candidates, c.id) == Some(c) && c.findingId in findingIds
  {
    if findingIds == [] {
    } else {
      var n := |findingIds| - 1;
      QueueIsStored(candidates, findingIds[..n]);
      ForFindingIsStored(candidates, findingIds[n]);
      var init, c := QueueOf(candidates, findingIds[..n]), CandidateForFinding(candidates, findingIds[n]);
      if c.Some? {
        StoredUnderItsId(candidates, c.value);
        assert c.value.findingId !in findingIds[..n];
        forall i | 0 <= i < |init| ensures init[i].id != c.value.id {
          assert init[i] in init;
        }
      }
    }
  }

  function FindingIds(cs: seq<Candidate>): seq<string> {
    if cs == [] then [] else FindingIds(cs[..|cs| - 1]) + [cs[|cs| - 1].findingId]
  }

  lemma FindingIdsLast(cs: seq<Candidate>, c: Candidate)
    ensures FindingIds(cs + [c]) == FindingIds(cs) + [c.findingId]
  {
    assert (cs + [c])[..|cs|] == cs;
  }

  /** A candidate is stored for the finding, and has a diff. */
  predicate HasRepair(candidates: JsMap<string, Candidate>, findingId: string) {
    var c := CandidateForFinding(candidates, findingId);
    c.Some? && c.value.hunks != [] && c.value.status != RepairFailed
  }

  /** The findings that have a candidate to show, in order. */
  function Repaired(candidates: JsMap<string, Candidate>, findingIds: seq<string>): seq<string> {
    Filter(findingIds, f => HasRepair(candidates, f))
  }

  lemma RepairedLast(candidates: JsMap<string, Candidate>, findingIds: seq<string>, f: string)
    ensures Repaired(candidates, findingIds + [f])
         == Repaired(candidates, findingIds) + if HasRepair(candidates, f) then [f] else []
  {
    FilterLast(findingIds + [f], g => HasRepair(candidates, g));
    assert (findingIds + [f])[..|findingIds|] == findingIds;
  }

  lemma QueueLast(candidates: JsMap<string, Candidate>, findingIds: seq<string>, f: string)
    ensures QueueOf(candidates, findingIds + [f])
         == QueueOf(candidates, findingIds)
          + if HasRepair(candidates, f) then [CandidateForFinding(candidates, f).value] else []
  {
    assert (findingIds + [f])[..|findingIds|] == findingIds;
  }

  /** The queue has, in the order of the findings, the first stored candidate of each finding that has a diff. */
  lemma {:induction false} QueueMeaning(candidates: JsMap<string, Candidate>, findingIds: seq<string>)
    ensures FindingIds(QueueOf(candidates, findingIds)) == Repaired(candidates, findingIds)
    ensures forall c | c in QueueOf(candidates, findingIds) :: CandidateForFinding(candidates, c.findingId) == Some(c)
  {
    if findingIds == [] {
    } else {
      var init, f := findingIds[..|findingIds| - 1], findingIds[|findingIds| - 1];
      assert findingIds == init + [f];
      QueueMeaning(candidates, init);
      QueueGrows(candidates, init, f, QueueOf(candidates, init));
    }
  }

  lemma StoredFor(candidates: JsMap<string, Candidate>, f: string)
    ensures var c := CandidateForFinding(candidates, f); c.Some? ==> c.value.findingId == f
  {
    ForFindingMeaning(candidates, f);
  }

  lemma QueueGrows(candidates: JsMap<string, Candidate>, init: seq<string>, f: string, queue: seq<Candidate>)
    requires queue == QueueOf(candidates, init) && FindingIds(queue) == Repaired(candidates, init)
    requires forall c | c in queue :: CandidateForFinding(candidates, c.findingId) == Some(c)
    ensures FindingIds(QueueOf(candidates, init + [f])) == Repaired(candidates, init + [f])
    ensures forall c | c in QueueOf(candidates, init + [f]) :: CandidateForFinding(candidates, c.findingId) == Some(c)
  {
    hide FindingIds, QueueOf, Repaired, CandidateForFinding;
    QueueLast(candidates, init, f);
    RepairedLast(candidates, init, f);
    StoredFor(candidates, f);
    if HasRepair(candidates, f) {
      FindingIdsLast(queue, CandidateForFinding(candidates, f).value);
    }
  }

  /** The targets are pending, distinct, acceptable, and as the session has them. */
  ghost predicate Targets(s: Session, cs: seq<Candidate>) {
    && UnlikeIds(cs)
    && forall i | 0 <= i < |cs| :: Stored(s, cs[i]) && BadgeAcceptable(CandidateBadge(cs[i]))
  }

  /** What the selection takes from the queue of a session are pending targets of that session. */
  lemma SelectedAreTargets(s: Session, findingIds: seq<string>)
    requires Shape(s) && Unlike(findingIds)
    ensures var cs := ToAccept(QueueOf(s.candidates, findingIds), s);
            Targets(s, cs) && forall i | 0 <= i < |cs| :: Selectable(cs[i], s) && cs[i].id in s.reviewed
  {
    var queue := QueueOf(s.candidates, findingIds);
    var cs := ToAccept(queue, s);
    QueueIsStored(s.candidates, findingIds);
    DistinctSelected(queue, s);
    forall i | 0 <= i < |cs| ensures cs[i] in queue && Selectable(cs[i], s) && cs[i].id in s.reviewed {
      assert cs[i] in cs;
      SelectionMeaning(queue, s, cs[i]);
    }
    forall i | 0 <= i < |cs| ensures BadgeAcceptable(CandidateBadge(cs[i])) {
      FailingAre(cs[i].validations, false);
    }
  }

  lemma DistinctSelected(queue: seq<Candidate>, s: Session)
    requires UnlikeIds(queue)
    ensures UnlikeIds(ToAccept(queue, s))
  {
    var eligible := EligibleOf(queue, s);
    var cs := ToAccept(queue, s);
    assert forall c :: multiset(cs)[c] <= multiset(eligible)[c] by {
      SortKeeps(eligible, IdBefore);
      ReviewedSplits(Sort(eligible, IdBefore), s.reviewed);
    }
    forall i, j | 0 <= i < j < |cs| ensures cs[i].id != cs[j].id {
      SelectionMeaning(queue, s, cs[i]);
      SelectionMeaning(queue, s, cs[j]);
      assert cs[i] in cs && cs[j] in cs;
      if cs[i] == cs[j] {
        CountedTwice(cs, i, j);
        EligibleOnce(queue, s, cs[j]);
      }
    }
  }

  lemma CountedTwice(cs: seq<Candidate>, i: nat, j: nat)
    requires i < j < |cs| && cs[i] == cs[j]
    ensures multiset(cs)[cs[j]] >= 2
  {
    assert cs == cs[..j] + ([cs[j]] + cs[j + 1..]);
    assert cs[..j][i] == cs[j] && cs[j] in multiset(cs[..j]);
  }

  lemma {:induction false} EligibleOnce(queue: seq<Candidate>, s: Session, c: Candidate)
    requires UnlikeIds(queue)
    ensures multiset(EligibleOf(queue, s))[c] <= 1
  {
    if queue == [] {
    } else {
      var n := |queue| - 1;
      EligibleOnce(queue[..n], s, c);
      EligibleMember(queue[..n], s, c);
      assert c == queue[n] ==> c !in queue[..n];
      assert c !in EligibleOf(queue[..n], s) ==> multiset(EligibleOf(queue[..n], s))[c] == 0;
    }
  }

  // --- the loop ------------------------------------------------------------------------

  /** How one round ended; `removed` counts the duplicate includes an accept skipped. */
  datatype Outcome = Applied(removed: int) | Conflicted | Unconfirmed | Failed

  datatype Tally = Tally(accepted: nat, conflict: nat, needsConfirmation: nat, failed: nat, dedupedIncludes: int) {
    function Sum(): nat { accepted + conflict + needsConfirmation + failed }

    function Count(o: Outcome): Tally {
      match o
      case Applied(removed) => this.(accepted := accepted + 1, dedupedIncludes := dedupedIncludes + removed)
      case Conflicted => this.(conflict := conflict + 1)
      case Unconfirmed => this.(needsConfirmation := needsConfirmation + 1)
      case Failed => this.(failed := failed + 1)
    }
  }

  function TallyOf(outcomes: seq<Outcome>): Tally {
    if outcomes == [] then Tally(0, 0, 0, 0, 0)
    else TallyOf(outcomes[..|outcomes| - 1]).Count(outcomes[|outcomes| - 1])
  }

  /**
   What happens around one round: perhaps an edit from outside before it, perhaps the
   debounce timer, and the editor's answer.
   */
  datatype Turn = Turn(change: Option<string>, settles: bool, editorAccepts: bool)

  ghost function Disturbed(w: World, turn: Turn): World {
    var v := match turn.change { case None => w case Some(text) => Step(w, Change(text)) };
    if turn.settles then Step(v, Settle) else v
  }

  /** `unvisited` counts the candidates behind a stale stop, the one that found it included. */
  datatype Batch = Batch(world: World, outcomes: seq<Outcome>, unvisited: nat)

  function OutcomeOf(s: Session, doc: string, c: Candidate, editorAccepts: bool): Outcome {
    var g := CurrentGuard(s, doc, c);
    if g.Conflict? then Conflicted
    else if g.Warn? then Unconfirmed
    else if g.Clear? && ApplyCandidate(doc, c, AcceptedHunks(s), editorAccepts).Some? then
      Applied(RemovedCount(c.hunks, IncludesOf(doc)))
    else Failed
  }

  ghost function RunBatch(w: World, cs: seq<Candidate>, turns: seq<Turn>): Batch
    requires |turns| == |cs|
    decreases |cs|
  {
    if cs == [] then Batch(w, [], 0)
    else
      var v := Disturbed(w, turns[0]);
      if CurrentGuard(v.session, v.doc, cs[0]).Stale? then Batch(v, [], |cs|)
      else
        var rest := RunBatch(AcceptStep(v, cs[0], false, turns[0].editorAccepts), cs[1..], turns[1..]);
        rest.(outcomes := [OutcomeOf(v.session, v.doc, cs[0], turns[0].editorAccepts)] + rest.outcomes)
  }

  /** Every target has one outcome, or stays behind a stale stop. */
  lemma {:induction false} EveryTargetCounted(w: World, cs: seq<Candidate>, turns: seq<Turn>)
    requires |turns| == |cs|
    ensures var b := RunBatch(w, cs, turns); |b.outcomes| + b.unvisited == |cs|
    decreases |cs|
  {
    if cs == [] {
    } else {
      var v := Disturbed(w, turns[0]);
      EveryTargetCounted(AcceptStep(v, cs[0], false, turns[0].editorAccepts), cs[1..], turns[1..]);
    }
  }

  lemma {:induction false} TallySum(outcomes: seq<Outcome>)
    ensures TallyOf(outcomes).Sum() == |outcomes|
  {
    if outcomes == [] {
    } else {
      TallySum(outcomes[..|outcomes| - 1]);
    }
  }

  /** All include lines that the accepts skipped. */
  function Skipped(outcomes: seq<Outcome>): int {
    if outcomes == [] then 0
    else (if outcomes[0].Applied? then outcomes[0].removed else 0) + Skipped(outcomes[1..])
  }

  lemma {:induction false} SkippedLast(outcomes: seq<Outcome>, o: Outcome)
    ensures Skipped(outcomes + [o]) == Skipped(outcomes) + if o.Applied? then o.removed else 0
  {
    if outcomes == [] {
    } else {
      SkippedLast(outcomes[1..], o);
      assert (outcomes + [o])[1..] == outcomes[1..] + [o];
    }
  }

  /** Each bucket counts the rounds that ended its way. */
  lemma {:induction false} TallyMeaning(outcomes: seq<Outcome>)
    ensures var t := TallyOf(outcomes);
            && t.accepted == |Filter(outcomes, (o: Outcome) => o.Applied?)|
            && t.conflict == |Filter(outcomes, (o: Outcome) => o.Conflicted?)|
            && t.needsConfirmation == |Filter(outcomes, (o: Outcome) => o.Unconfirmed?)|
            && t.failed == |Filter(outcomes, (o: Outcome) => o.Failed?)|
            && t.dedupedIncludes == Skipped(outcomes)
  {
    if outcomes == [] {
    } else {
      var init, last := outcomes[..|outcomes| - 1], outcomes[|outcomes| - 1];
      assert outcomes == init + [last];
      TallyMeaning(init);
      SkippedLast(init, last);
      FilterLast(outcomes, (o: Outcome) => o.Applied?);
      FilterLast(outcomes, (o: Outcome) => o.Conflicted?);
      FilterLast(outcomes, (o: Outcome) => o.Unconfirmed?);
      FilterLast(outcomes, (o: Outcome) => o.Failed?);
    }
  }

  /** Buckets, unvisited targets and never-displayed candidates add up to the selectable ones. */
  lemma BatchTally(w: World, queue: seq<Candidate>, turns: seq<Turn>)
    requires |turns| == |ToAccept(queue, w.session)|
    ensures var b := RunBatch(w, ToAccept(queue, w.session), turns);
            TallyOf(b.outcomes).Sum() + b.unvisited + |NotReviewed(queue, w.session)|
            == |Filter(queue, c => Selectable(c, w.session))|
  {
    var targets := ToAccept(queue, w.session);
    EveryTargetCounted(w, targets, turns);
    TallySum(RunBatch(w, targets, turns).outcomes);
    SelectionCount(queue, w.session);
    EligibleCount(queue, w.session);
  }

  // --- one round ---------------------------------------------------------------------

  lemma ConflictByMembers(a: seq<Hunk>, b: seq<Hunk>)
    ensures HunksConflict(a, b) <==> exists x, y | x in a && y in b :: RangesIntersect(HunkRange(x), HunkRange(y))
  {
    if x, y :| x in a && y in b && RangesIntersect(HunkRange(x), HunkRange(y)) {
      var i :| 0 <= i < |a| && a[i] == x;
      var j :| 0 <= j < |b| && b[j] == y;
    }
    if HunksConflict(a, b) {
      var i, j :| 0 <= i < |a| && 0 <= j < |b| && RangesIntersect(HunkRange(a[i]), HunkRange(b[j]));
      assert a[i] in a && b[j] in b;
    }
  }

  /** For a candidate that is not accepted, the guard's conflict is a conflict with the accepted hunks. */
  lemma GuardConflict(s: Session, c: Candidate)
    requires Shape(s) && DecisionFor(s, c.id) != Accepted
    ensures FirstConflict(c, AcceptedCandidates(s)) != [] <==> HunksConflict(c.hunks, AcceptedHunks(s))
  {
    var accepted := AcceptedCandidates(s);
    NoConflictMeaning(c, accepted);
    forall i | 0 <= i < |accepted| ensures accepted[i].id != c.id {
      AcceptedMember(s.decisions, s.candidates, accepted[i]);
    }
    ConflictByMembers(c.hunks, AcceptedHunks(s));
    if HunksConflict(c.hunks, AcceptedHunks(s)) {
      var x, y :| x in c.hunks && y in AcceptedHunks(s) && RangesIntersect(HunkRange(x), HunkRange(y));
      HunksMember(accepted, y);
      var i :| 0 <= i < |accepted| && y in accepted[i].hunks;
      ConflictByMembers(c.hunks, accepted[i].hunks);
    }
    if i :| 0 <= i < |accepted| && HunksConflict(c.hunks, accepted[i].hunks) {
      ConflictByMembers(c.hunks, accepted[i].hunks);
      var x, y :| x in c.hunks && y in accepted[i].hunks && RangesIntersect(HunkRange(x), HunkRange(y));
      HunksMember(accepted, y);
    }
  }

  ghost predicate SameHunks(a: seq<Hunk>, b: seq<Hunk>) {
    forall x :: x in a <==> x in b
  }

  lemma Taking(s: Session, c: Candidate)
    requires Shape(s) && Stored(s, c)
    ensures var d := Set(s.decisions, c.id, Accepted);
            && Distinct(d)
            && (forall id :: Get(d, id) == if id == c.id then Some(Accepted) else Get(s.decisions, id))
            && SameHunks(HunksOf(AcceptedIn(d, s.candidates)), AcceptedHunks(s) + c.hunks)
  {
    SetLaw(s.decisions, c.id, Accepted);
    AcceptAddsHunks(s.decisions, s.candidates, c);
    var now := HunksOf(AcceptedIn(Set(s.decisions, c.id, Accepted), s.candidates));
    forall x ensures x in now <==> x in AcceptedHunks(s) + c.hunks {
      assert x in now <==> x in multiset(now);
      assert x in AcceptedHunks(s) <==> x in multiset(AcceptedHunks(s));
      assert x in c.hunks <==> x in multiset(c.hunks);
    }
  }

  /** How a round on a document that is not stale ends, in the order of the tests. */
  lemma OutcomeMeaning(s: Session, doc: string, c: Candidate, editorAccepts: bool)
    requires ContentHash(doc) == s.expected
    ensures var o := OutcomeOf(s, doc, c, editorAccepts);
            var fit := c.hunks != [] && c.status != RepairFailed && FailedGates(c.validations, false) == [];
            var conflict := exists i | 0 <= i < |AcceptedCandidates(s)| ::
              AcceptedCandidates(s)[i].id != c.id && HunksConflict(c.hunks, AcceptedCandidates(s)[i].hunks);
            var judged := FailedGates(c.validations, true) != [];
            var applied := ApplyCandidate(doc, c, AcceptedHunks(s), editorAccepts);
            o == if !fit then Failed
                 else if conflict then Conflicted
                 else if judged then Unconfirmed
                 else if applied.None? then Failed
                 else Applied(RemovedCount(c.hunks, IncludesOf(doc)))
  {
    GuardOutcome(c, ContentHash(doc), s.expected, AcceptedCandidates(s));
  }

  /** One round, however it ends. */
  lemma RoundMeaning(v: World, c: Candidate, editorAccepts: bool)
    requires Shape(v.session) && Stored(v.session, c)
    ensures var t, o := AcceptStep(v, c, false, editorAccepts).session, OutcomeOf(v.session, v.doc, c, editorAccepts);
            && Shape(t) && t.candidates == v.session.candidates
            && (forall id | id != c.id :: DecisionFor(t, id) == DecisionFor(v.session, id))
            && (o.Applied? <==> DecisionFor(t, c.id) == Accepted)
            && (if o.Applied? then SameHunks(AcceptedHunks(t), AcceptedHunks(v.session) + c.hunks)
                else AcceptedHunks(t) == AcceptedHunks(v.session))
            && (o.Conflicted? ==> HunksConflict(c.hunks, AcceptedHunks(v.session)))
            && (o.Unconfirmed? ==> GateFails(c, true) && !HunksConflict(c.hunks, AcceptedHunks(v.session)))
  {
    hide ApplyCandidate, EntriesFor, RemovedCount, IncludesOf;
    GuardConflict(v.session, c);
    FailingMeaning(c.validations, true);
    Taking(v.session, c);
  }

  lemma TargetsStay(s: Session, t: Session, cs: seq<Candidate>)
    requires cs != [] && Targets(s, cs) && t.candidates == s.candidates
    requires forall id | id != cs[0].id :: DecisionFor(t, id) == DecisionFor(s, id)
    ensures Targets(t, cs[1..])
  {
    var rest := cs[1..];
    forall i | 0 <= i < |rest| ensures rest[i] == cs[i + 1] && rest[i].id != cs[0].id {
    }
  }

  lemma DisturbedSession(w: World, turn: Turn)
    ensures Disturbed(w, turn).session == w.session.(stale := Disturbed(w, turn).session.stale)
  {
  }
}
