/** A batch is a ruled run, so sessions that mix batches with single steps are covered. */
module BatchRuns {
  import opened AcceptAll
  import opened AcceptChain
  import opened AcceptGuard
  import opened ChainInvariants
  import opened ChainTheorems
  import opened Contract
  import opened JsMaps
  import opened Options
  import opened Patches
  import opened Sessions

  // --- the steps of a batch ----------------------------------------------------------------

  ghost function Disturbance(turn: Turn): seq<Action> {
    (match turn.change { case None => [] case Some(text) => [Change(text)] })
    + if turn.settles then [Settle] else []
  }

  lemma DisturbedIsRun(w: World, turn: Turn)
    ensures Disturbed(w, turn) == Run(w, Disturbance(turn)) && RuledRun(w, Disturbance(turn))
  {
    var v := match turn.change { case None => w case Some(text) => Step(w, Change(text)) };
    RunOne(v, Settle);
    if turn.change.Some? {
      RunOne(w, Change(turn.change.value));
      RunAppend(w, [Change(turn.change.value)], if turn.settles then [Settle] else []);
    } else {
      assert Disturbance(turn) == if turn.settles then [Settle] else [];
    }
  }

  /** Everything that happens to the world while the batch is at work, in order. */
  ghost function BatchActions(w: World, cs: seq<Candidate>, turns: seq<Turn>): seq<Action>
    requires |turns| == |cs|
    decreases |cs|
  {
    if cs == [] then []
    else
      var v := Disturbed(w, turns[0]);
      var accept := Accept(cs[0], false, turns[0].editorAccepts);
      Disturbance(turns[0])
      + if CurrentGuard(v.session, v.doc, cs[0]).Stale? then []
        else [accept] + BatchActions(Step(v, accept), cs[1..], turns[1..])
  }

  /** A batch is a run of unconfirmed accepts, outside edits and timers that keeps the step rule. */
  lemma {:induction false} BatchIsRun(w: World, cs: seq<Candidate>, turns: seq<Turn>)
    requires |turns| == |cs| && Shape(w.session) && Targets(w.session, cs)
    ensures RunBatch(w, cs, turns).world == Run(w, BatchActions(w, cs, turns))
    ensures RuledRun(w, BatchActions(w, cs, turns))
    decreases |cs|
  {
    if cs == [] {
    } else {
      var v := Disturbed(w, turns[0]);
      DisturbedIsRun(w, turns[0]);
      DisturbedSession(w, turns[0]);
      if CurrentGuard(v.session, v.doc, cs[0]).Stale? {
        assert Disturbance(turns[0]) + [] == Disturbance(turns[0]);
      } else {
        var accept := Accept(cs[0], false, turns[0].editorAccepts);
        var u := Step(v, accept);
        var rest := BatchActions(u, cs[1..], turns[1..]);
        RoundMeaning(v, cs[0], turns[0].editorAccepts);
        TargetsStay(v.session, u.session, cs);
        BatchIsRun(u, cs[1..], turns[1..]);
        RunOne(v, accept);
        RunAppend(v, [accept], rest);
        RunAppend(w, Disturbance(turns[0]), [accept] + rest);
      }
    }
  }

  // --- what each outcome means at the end of any batch ------------------------------------------

  /** The first round of a batch, and what is left to do after it. */
  lemma OpenRound(w: World, cs: seq<Candidate>, turns: seq<Turn>) returns (stopped: bool, o: Outcome, u: World)
    requires |turns| == |cs| && cs != [] && Shape(w.session) && Targets(w.session, cs)
    ensures Shape(u.session) && Targets(u.session, cs[1..])
    ensures forall id | id != cs[0].id :: DecisionFor(u.session, id) == DecisionFor(w.session, id)
    ensures DecisionFor(u.session, cs[0].id) == Accepted <==> o.Applied?
    ensures forall x | x in AcceptedHunks(w.session) :: x in AcceptedHunks(u.session)
    ensures o.Conflicted? ==> HunksConflict(cs[0].hunks, AcceptedHunks(w.session))
    ensures o.Unconfirmed? ==> GateFails(cs[0], true)
    ensures stopped ==> RunBatch(w, cs, turns) == Batch(u, [], |cs|) && o == Failed
    ensures !stopped ==> var rest := RunBatch(u, cs[1..], turns[1..]);
                         RunBatch(w, cs, turns) == rest.(outcomes := [o] + rest.outcomes)
  {
    var v := Disturbed(w, turns[0]);
    DisturbedSession(w, turns[0]);
    RoundMeaning(v, cs[0], turns[0].editorAccepts);
    u := AcceptStep(v, cs[0], false, turns[0].editorAccepts);
    TargetsStay(v.session, u.session, cs);
    o := OutcomeOf(v.session, v.doc, cs[0], turns[0].editorAccepts);
    stopped := CurrentGuard(v.session, v.doc, cs[0]).Stale?;
  }

  /** Accepted hunks are only added, and decisions about other candidates stay. */
  lemma {:induction false} BatchOnlyAccepts(w: World, cs: seq<Candidate>, turns: seq<Turn>, id: string)
    requires |turns| == |cs| && Shape(w.session) && Targets(w.session, cs)
    requires forall i | 0 <= i < |cs| :: cs[i].id != id
    ensures var t := RunBatch(w, cs, turns).world.session;
            && (forall x | x in AcceptedHunks(w.session) :: x in AcceptedHunks(t))
            && DecisionFor(t, id) == DecisionFor(w.session, id)
    decreases |cs|
  {
    if cs == [] {
    } else {
      var stopped, _, u := OpenRound(w, cs, turns);
      if !stopped {
        BatchOnlyAccepts(u, cs[1..], turns[1..], id);
      }
    }
  }

  ghost function OutcomeAt(b: Batch, k: nat): Option<Outcome> {
    if k < |b.outcomes| then Some(b.outcomes[k]) else None
  }

  /** What the outcome of a candidate, if it got one, says about it once the batch is over. */
  ghost predicate SaysTrue(outcome: Option<Outcome>, c: Candidate, t: Session) {
    && (DecisionFor(t, c.id) == Accepted <==> outcome.Some? && outcome.value.Applied?)
    && (outcome == Some(Conflicted) ==> HunksConflict(c.hunks, AcceptedHunks(t)))
    && (outcome == Some(Unconfirmed) ==> GateFails(c, true))
  }

  /**
   However the batch went: the targets with an applied outcome, and no others, end up
   accepted, and a target skipped for a conflict does conflict with what is accepted at the end.
   */
  lemma {:induction false} OutcomesAreTrue(w: World, cs: seq<Candidate>, turns: seq<Turn>, k: nat)
    requires |turns| == |cs| && Shape(w.session) && Targets(w.session, cs) && k < |cs|
    ensures SaysTrue(OutcomeAt(RunBatch(w, cs, turns), k), cs[k], RunBatch(w, cs, turns).world.session)
    decreases |cs|
  {
    hide *;
    if k == 0 {
      FirstOutcomeIsTrue(w, cs, turns);
    } else {
      var stopped, o, u := RoundBefore(w, cs, turns, k);
      if !stopped {
        OutcomesAreTrue(u, cs[1..], turns[1..], k - 1);
        TruthBehind(RunBatch(u, cs[1..], turns[1..]), o, cs, k);
      }
    }
  }

  lemma RoundBefore(w: World, cs: seq<Candidate>, turns: seq<Turn>, k: nat)
    returns (stopped: bool, o: Outcome, u: World)
    requires |turns| == |cs| && k < |cs| && Shape(w.session) && Targets(w.session, cs)
    ensures Shape(u.session) && Targets(u.session, cs[1..])
    ensures stopped ==> SaysTrue(OutcomeAt(RunBatch(w, cs, turns), k), cs[k], RunBatch(w, cs, turns).world.session)
    ensures !stopped ==> var rest := RunBatch(u, cs[1..], turns[1..]);
                         RunBatch(w, cs, turns) == rest.(outcomes := [o] + rest.outcomes)
  {
    stopped, o, u := OpenRound(w, cs, turns);
    NoneAccepted(w.session, u.session, cs, k, o);
  }

  lemma FirstOutcomeIsTrue(w: World, cs: seq<Candidate>, turns: seq<Turn>)
    requires |turns| == |cs| && Shape(w.session) && Targets(w.session, cs) && cs != []
    ensures SaysTrue(OutcomeAt(RunBatch(w, cs, turns), 0), cs[0], RunBatch(w, cs, turns).world.session)
  {
    var stopped, o, u := OpenRound(w, cs, turns);
    if stopped {
      NoneAccepted(w.session, u.session, cs, 0, o);
    } else {
      FirstIsTrue(w.session, u, cs, turns[1..], o);
      TruthBehind(RunBatch(u, cs[1..], turns[1..]), o, cs, 0);
    }
  }

  /** The outcomes of the later rounds stay true behind the first one. */
  lemma TruthBehind(rest: Batch, o: Outcome, cs: seq<Candidate>, k: nat)
    requires k < |cs| && if k == 0 then SaysTrue(Some(o), cs[0], rest.world.session)
                         else SaysTrue(OutcomeAt(rest, k - 1), cs[1..][k - 1], rest.world.session)
    ensures SaysTrue(OutcomeAt(rest.(outcomes := [o] + rest.outcomes), k), cs[k], rest.world.session)
  {
  }

  lemma NoneAccepted(s: Session, t: Session, cs: seq<Candidate>, k: nat, o: Outcome)
    requires Targets(s, cs) && k < |cs| && (DecisionFor(t, cs[0].id) == Accepted <==> o.Applied?)
    requires forall id | id != cs[0].id :: DecisionFor(t, id) == DecisionFor(s, id)
    ensures o == Failed ==> SaysTrue(None, cs[k], t)
  {
  }

  lemma FirstIsTrue(s: Session, u: World, cs: seq<Candidate>, turns: seq<Turn>, o: Outcome)
    requires cs != [] && |turns| == |cs[1..]| && Shape(u.session) && Targets(u.session, cs[1..]) && UnlikeIds(cs)
    requires forall x | x in AcceptedHunks(s) :: x in AcceptedHunks(u.session)
    requires DecisionFor(u.session, cs[0].id) == Accepted <==> o.Applied?
    requires o.Conflicted? ==> HunksConflict(cs[0].hunks, AcceptedHunks(s))
    requires o.Unconfirmed? ==> GateFails(cs[0], true)
    ensures SaysTrue(Some(o), cs[0], RunBatch(u, cs[1..], turns).world.session)
  {
    forall i | 0 <= i < |cs[1..]| ensures cs[1..][i].id != cs[0].id {
      assert cs[1..][i] == cs[i + 1];
    }
    BatchOnlyAccepts(u, cs[1..], turns, cs[0].id);
    ConflictStays(cs[0].hunks, AcceptedHunks(s), AcceptedHunks(RunBatch(u, cs[1..], turns).world.session));
  }

  lemma ConflictStays(hs: seq<Hunk>, before: seq<Hunk>, after: seq<Hunk>)
    requires forall x | x in before :: x in after
    ensures HunksConflict(hs, before) ==> HunksConflict(hs, after)
  {
    ConflictByMembers(hs, before);
    ConflictByMembers(hs, after);
  }

  // --- what a batch does not touch ------------------------------------------------------------------

  lemma RoundDecides(v: World, c: Candidate, editorAccepts: bool, x: string)
    requires Distinct(v.session.decisions)
    ensures var d := DecisionFor(AcceptStep(v, c, false, editorAccepts).session, x);
            d == DecisionFor(v.session, x) || (x == c.id && d == Accepted)
  {
    SetLaw(v.session.decisions, c.id, Accepted);
  }

  /** A batch takes no decision but to accept a target. */
  lemma {:induction false} BatchDecides(w: World, cs: seq<Candidate>, turns: seq<Turn>, x: string)
    requires |turns| == |cs| && Shape(w.session) && Targets(w.session, cs)
    ensures var d := DecisionFor(RunBatch(w, cs, turns).world.session, x);
            || d == DecisionFor(w.session, x)
            || (d == Accepted && exists k | 0 <= k < |cs| :: cs[k].id == x)
    decreases |cs|
  {
    if cs == [] {
    } else {
      var v := Disturbed(w, turns[0]);
      DisturbedSession(w, turns[0]);
      if !CurrentGuard(v.session, v.doc, cs[0]).Stale? {
        var u := AcceptStep(v, cs[0], false, turns[0].editorAccepts);
        RoundMeaning(v, cs[0], turns[0].editorAccepts);
        RoundDecides(v, cs[0], turns[0].editorAccepts, x);
        TargetsStay(v.session, u.session, cs);
        BatchDecides(u, cs[1..], turns[1..], x);
        AmongTheRest(cs, x);
      }
    }
  }

  lemma AmongTheRest(cs: seq<Candidate>, x: string)
    requires cs != []
    ensures (exists k | 0 <= k < |cs[1..]| :: cs[1..][k].id == x) ==> exists k | 0 <= k < |cs| :: cs[k].id == x
  {
    if k :| 0 <= k < |cs[1..]| && cs[1..][k].id == x {
      assert cs[k + 1].id == x;
    }
  }

  /**
   `Accept all reviewed` never touches what was decided before: what was rejected stays
   rejected, what was accepted stays accepted, and only pending, reviewed candidates become
   accepted.
   */
  lemma BatchKeepsDecisions(w: World, findingIds: seq<string>, turns: seq<Turn>, x: string)
    requires Shape(w.session) && Unlike(findingIds) && |turns| == |TargetsOf(w, findingIds)|
    ensures var was, now := DecisionFor(w.session, x),
                            DecisionFor(RunBatch(w, TargetsOf(w, findingIds), turns).world.session, x);
            now != was ==> was == Pending && now == Accepted && x in w.session.reviewed
  {
    var cs := TargetsOf(w, findingIds);
    SelectedAreTargets(w.session, findingIds);
    BatchDecides(w, cs, turns, x);
  }

  /** Reviewing one candidate adds it to the targets, if it can be selected, and takes none away. */
  lemma ReviewSelects(w: World, findingIds: seq<string>, id: string, c: Candidate)
    ensures c in TargetsOf(Step(w, Review(id)), findingIds)
       <==> && c in QueueOf(w.session.candidates, findingIds) && Selectable(c, w.session)
            && (c.id == id || c.id in w.session.reviewed)
  {
    hide ToAccept, QueueOf, FailedGates;
    SelectionMeaning(QueueOf(w.session.candidates, findingIds), w.session.(reviewed := w.session.reviewed + {id}), c);
  }

  // --- runs that mix batches and single steps ------------------------------------------------------

  /** One step, or `Accept all reviewed` over the findings of the scan. */
  datatype Move = Single(action: Action) | Together(findingIds: seq<string>, turns: seq<Turn>)

  ghost function TargetsOf(w: World, findingIds: seq<string>): seq<Candidate> {
    ToAccept(QueueOf(w.session.candidates, findingIds), w.session)
  }

  /** The step keeps the rule; a batch has one turn for each target of distinct findings, and needs no rule. */
  ghost predicate Allows(w: World, m: Move) {
    match m
    case Single(a) => Ruled(w, a)
    case Together(ids, turns) => Unlike(ids) && |turns| == |TargetsOf(w, ids)|
  }

  ghost function Moved(w: World, m: Move): World
    requires Allows(w, m)
  {
    match m
    case Single(a) => Step(w, a)
    case Together(ids, turns) => RunBatch(w, TargetsOf(w, ids), turns).world
  }

  ghost function MoveActions(w: World, m: Move): seq<Action>
    requires Allows(w, m)
  {
    match m
    case Single(a) => [a]
    case Together(ids, turns) => BatchActions(w, TargetsOf(w, ids), turns)
  }

  ghost predicate AllowedMoves(w: World, moves: seq<Move>)
    decreases |moves|
  {
    moves == [] || (Allows(w, moves[0]) && AllowedMoves(Moved(w, moves[0]), moves[1..]))
  }

  ghost function MovedAll(w: World, moves: seq<Move>): World
    requires AllowedMoves(w, moves)
    decreases |moves|
  {
    if moves == [] then w else MovedAll(Moved(w, moves[0]), moves[1..])
  }

  ghost function AllActions(w: World, moves: seq<Move>): seq<Action>
    requires AllowedMoves(w, moves)
    decreases |moves|
  {
    if moves == [] then [] else MoveActions(w, moves[0]) + AllActions(Moved(w, moves[0]), moves[1..])
  }

  lemma MoveIsRun(w: World, m: Move)
    requires SessionInv(w.session) && Allows(w, m)
    ensures Moved(w, m) == Run(w, MoveActions(w, m)) && RuledRun(w, MoveActions(w, m))
    ensures SessionInv(Moved(w, m).session)
  {
    match m {
      case Single(a) =>
        RunOne(w, a);
      case Together(ids, turns) =>
        SelectedAreTargets(w.session, ids);
        BatchIsRun(w, TargetsOf(w, ids), turns);
    }
    RunKeepsSession(w, MoveActions(w, m));
  }

  /** Every mixed run is one ruled run: all that is proved of ruled runs holds of it. */
  lemma {:induction false} MixedRunIsRuled(w: World, moves: seq<Move>)
    requires SessionInv(w.session) && AllowedMoves(w, moves)
    ensures MovedAll(w, moves) == Run(w, AllActions(w, moves)) && RuledRun(w, AllActions(w, moves))
    ensures SessionInv(MovedAll(w, moves).session)
    decreases |moves|
  {
    if moves == [] {
    } else {
      var v := Moved(w, moves[0]);
      MoveIsRun(w, moves[0]);
      MixedRunIsRuled(v, moves[1..]);
      RunAppend(w, MoveActions(w, moves[0]), AllActions(v, moves[1..]));
    }
  }

  // --- candidates come in by single steps only ---------------------------------------------------------

  ghost predicate Brings(a: Action) {
    a.Generate? || a.Regenerate?
  }

  lemma {:induction false} BatchBringsNothing(w: World, cs: seq<Candidate>, turns: seq<Turn>)
    requires |turns| == |cs|
    ensures forall a | a in BatchActions(w, cs, turns) :: !Brings(a)
    decreases |cs|
  {
    if cs == [] {
    } else {
      var accept := Accept(cs[0], false, turns[0].editorAccepts);
      BatchBringsNothing(Step(Disturbed(w, turns[0]), accept), cs[1..], turns[1..]);
    }
  }

  /** The single steps bring in sound candidates only. */
  ghost predicate BringSound(moves: seq<Move>, snapshot: string) {
    forall m | m in moves && m.Single? && Brings(m.action) :: Sound(m.action.candidate, snapshot)
  }

  lemma {:induction false} AllActionsBringSound(w: World, moves: seq<Move>, snapshot: string)
    requires AllowedMoves(w, moves) && BringSound(moves, snapshot)
    ensures forall a | a in AllActions(w, moves) && Brings(a) :: Sound(a.candidate, snapshot)
    decreases |moves|
  {
    if moves == [] {
    } else {
      var m := moves[0];
      assert BringSound(moves[1..], snapshot);
      AllActionsBringSound(Moved(w, m), moves[1..], snapshot);
      if m.Together? {
        BatchBringsNothing(w, TargetsOf(w, m.findingIds), m.turns);
      }
      forall a | a in MoveActions(w, m) && Brings(a) ensures Sound(a.candidate, snapshot) {
        assert m in moves;
      }
    }
  }

  lemma {:induction false} RuledIsSound(w: World, actions: seq<Action>)
    requires HashInv(w) && RuledRun(w, actions)
    requires forall a | a in actions && Brings(a) :: Sound(a.candidate, w.session.snapshot)
    ensures SoundRun(w, actions)
  {
    if actions == [] {
    } else {
      var n := |actions| - 1;
      RuledIsSound(w, actions[..n]);
      RunKeepsHash(w, actions[..n]);
      assert actions[n] in actions;
    }
  }

  /** So a session that uses the batch keeps the ledger invariant, and every theorem about sound runs covers it. */
  lemma MixedRunIsSound(snapshot: string, moves: seq<Move>)
    requires AllowedMoves(NewWorld(snapshot), moves) && BringSound(moves, snapshot)
    ensures var w := NewWorld(snapshot);
            && MovedAll(w, moves) == Run(w, AllActions(w, moves)) && SoundRun(w, AllActions(w, moves))
            && Inv(MovedAll(w, moves))
  {
    var w := NewWorld(snapshot);
    NewWorldInv(snapshot);
    MixedRunIsRuled(w, moves);
    AllActionsBringSound(w, moves, snapshot);
    RuledIsSound(w, AllActions(w, moves));
    RunKeeps(w, AllActions(w, moves));
  }

  /** And with nothing trimmed, and nothing below a deletion, the text is the Original with the accepted patches. */
  lemma MixedRefinement(snapshot: string, moves: seq<Move>)
    requires AllowedMoves(NewWorld(snapshot), moves)
    requires CleanRun(NewWorld(snapshot), AllActions(NewWorld(snapshot), moves))
    ensures var v := MovedAll(NewWorld(snapshot), moves);
            v.session.expected == ContentHash(Declared(v.session)) && (HashPasses(v) <==> v.doc == Declared(v.session))
  {
    NewWorldInv(snapshot);
    MixedRunIsRuled(NewWorld(snapshot), moves);
    ChainRefinement(snapshot, AllActions(NewWorld(snapshot), moves));
  }
}
