/** A batch that neither stops nor fails makes the greedy choice. */
module GreedyBatch {
  import opened AcceptAll
  import opened AcceptChain
  import opened AcceptGuard
  import opened Contract
  import opened Patches
  import opened Sessions

  /** Take each candidate in turn that no judgment gate fails and nothing taken conflicts with. */
  ghost function Greedy(taken: seq<Hunk>, cs: seq<Candidate>): seq<Candidate>
    decreases |cs|
  {
    if cs == [] then []
    else if GateFails(cs[0], true) || HunksConflict(cs[0].hunks, taken) then Greedy(taken, cs[1..])
    else [cs[0]] + Greedy(taken + cs[0].hunks, cs[1..])
  }

  lemma {:induction false} GreedyByMembers(a: seq<Hunk>, b: seq<Hunk>, cs: seq<Candidate>)
    requires SameHunks(a, b)
    ensures Greedy(a, cs) == Greedy(b, cs)
    decreases |cs|
  {
    if cs == [] {
    } else {
      ConflictByMembers(cs[0].hunks, a);
      ConflictByMembers(cs[0].hunks, b);
      GreedyByMembers(a, b, cs[1..]);
      GreedyByMembers(a + cs[0].hunks, b + cs[0].hunks, cs[1..]);
    }
  }

  /** One round takes the candidate exactly when the greedy choice does. */
  lemma RoundIsGreedy(v: World, c: Candidate, editorAccepts: bool)
    requires Shape(v.session) && Stored(v.session, c) && BadgeAcceptable(CandidateBadge(c))
    requires ContentHash(v.doc) == v.session.expected
    requires !OutcomeOf(v.session, v.doc, c, editorAccepts).Failed?
    ensures var t := AcceptStep(v, c, false, editorAccepts).session;
            && Shape(t) && t.candidates == v.session.candidates
            && (forall id | id != c.id :: DecisionFor(t, id) == DecisionFor(v.session, id))
            && (if GateFails(c, true) || HunksConflict(c.hunks, AcceptedHunks(v.session))
                then DecisionFor(t, c.id) != Accepted && AcceptedHunks(t) == AcceptedHunks(v.session)
                else DecisionFor(t, c.id) == Accepted
                     && SameHunks(AcceptedHunks(t), AcceptedHunks(v.session) + c.hunks))
  {
    GuardConflict(v.session, c);
    FailingMeaning(c.validations, true);
    RoundMeaning(v, c, editorAccepts);
  }

  lemma GreedyHead(taken: seq<Hunk>, cs: seq<Candidate>, id: string)
    requires cs != []
    ensures var c, picked := cs[0], Greedy(taken, cs);
            if GateFails(c, true) || HunksConflict(c.hunks, taken) then picked == Greedy(taken, cs[1..])
            else
              var rest := Greedy(taken + c.hunks, cs[1..]);
              && HunksOf(picked) == c.hunks + HunksOf(rest)
              && ((exists x | x in picked :: x.id == id) <==> c.id == id || exists x | x in rest :: x.id == id)
  {
    var c := cs[0];
    if !(GateFails(c, true) || HunksConflict(c.hunks, taken)) {
      var rest := Greedy(taken + c.hunks, cs[1..]);
      assert ([c] + rest)[1..] == rest;
      assert c in [c] + rest;
      if x :| x in rest && x.id == id {
        assert x in [c] + rest;
      }
    }
  }

  /** One unfolding of a batch that neither stops nor fails. */
  lemma FirstRound(w: World, cs: seq<Candidate>, turns: seq<Turn>, v: World, u: World)
    requires |turns| == |cs| && cs != []
    requires RunBatch(w, cs, turns).unvisited == 0 && Failed !in RunBatch(w, cs, turns).outcomes
    requires v == Disturbed(w, turns[0]) && u == AcceptStep(v, cs[0], false, turns[0].editorAccepts)
    ensures ContentHash(v.doc) == v.session.expected
    ensures !OutcomeOf(v.session, v.doc, cs[0], turns[0].editorAccepts).Failed?
    ensures RunBatch(u, cs[1..], turns[1..]).unvisited == 0 && Failed !in RunBatch(u, cs[1..], turns[1..]).outcomes
    ensures RunBatch(u, cs[1..], turns[1..]).world == RunBatch(w, cs, turns).world
  {
    var rest := RunBatch(u, cs[1..], turns[1..]);
    assert !CurrentGuard(v.session, v.doc, cs[0]).Stale?;
    var o := OutcomeOf(v.session, v.doc, cs[0], turns[0].editorAccepts);
    assert RunBatch(w, cs, turns).outcomes == [o] + rest.outcomes;
    assert o in [o] + rest.outcomes;
  }

  /** What the first round decides, and what is left to do after it. */
  lemma OpeningRound(w: World, cs: seq<Candidate>, turns: seq<Turn>) returns (u: World)
    requires |turns| == |cs| && Shape(w.session) && Targets(w.session, cs) && cs != []
    requires RunBatch(w, cs, turns).unvisited == 0 && Failed !in RunBatch(w, cs, turns).outcomes
    ensures Shape(u.session) && Targets(u.session, cs[1..])
    ensures forall id | id != cs[0].id :: DecisionFor(u.session, id) == DecisionFor(w.session, id)
    ensures if GateFails(cs[0], true) || HunksConflict(cs[0].hunks, AcceptedHunks(w.session))
            then DecisionFor(u.session, cs[0].id) != Accepted && AcceptedHunks(u.session) == AcceptedHunks(w.session)
            else DecisionFor(u.session, cs[0].id) == Accepted
                 && SameHunks(AcceptedHunks(u.session), AcceptedHunks(w.session) + cs[0].hunks)
    ensures RunBatch(u, cs[1..], turns[1..]).unvisited == 0 && Failed !in RunBatch(u, cs[1..], turns[1..]).outcomes
    ensures RunBatch(u, cs[1..], turns[1..]).world == RunBatch(w, cs, turns).world
  {
    var v := Disturbed(w, turns[0]);
    u := AcceptStep(v, cs[0], false, turns[0].editorAccepts);
    DisturbedSession(w, turns[0]);
    FirstRound(w, cs, turns, v, u);
    RoundIsGreedy(v, cs[0], turns[0].editorAccepts);
    TargetsStay(v.session, u.session, cs);
  }

  /** Without a stale stop or a failed edit, exactly the greedy choice ends up accepted. */
  lemma {:induction false} BatchIsGreedy(w: World, cs: seq<Candidate>, turns: seq<Turn>, id: string)
    requires |turns| == |cs| && Shape(w.session) && Targets(w.session, cs)
    requires RunBatch(w, cs, turns).unvisited == 0 && Failed !in RunBatch(w, cs, turns).outcomes
    ensures var t, picked := RunBatch(w, cs, turns).world.session, Greedy(AcceptedHunks(w.session), cs);
            && (DecisionFor(t, id) == Accepted
                <==> DecisionFor(w.session, id) == Accepted || exists c | c in picked :: c.id == id)
            && SameHunks(AcceptedHunks(t), AcceptedHunks(w.session) + HunksOf(picked))
    decreases |cs|
  {
    if cs == [] {
    } else {
      var u := OpeningRound(w, cs, turns);
      BatchIsGreedy(u, cs[1..], turns[1..], id);
      OneMorePicked(w.session, u.session, RunBatch(w, cs, turns).world.session, cs, id);
    }
  }

  lemma OneMorePicked(s: Session, u: Session, t: Session, cs: seq<Candidate>, id: string)
    requires cs != [] && forall x | x != cs[0].id :: DecisionFor(u, x) == DecisionFor(s, x)
    requires DecisionFor(s, cs[0].id) != Accepted
    requires if GateFails(cs[0], true) || HunksConflict(cs[0].hunks, AcceptedHunks(s))
             then DecisionFor(u, cs[0].id) != Accepted && AcceptedHunks(u) == AcceptedHunks(s)
             else DecisionFor(u, cs[0].id) == Accepted && SameHunks(AcceptedHunks(u), AcceptedHunks(s) + cs[0].hunks)
    requires DecisionFor(t, id) == Accepted
        <==> DecisionFor(u, id) == Accepted || exists c | c in Greedy(AcceptedHunks(u), cs[1..]) :: c.id == id
    requires SameHunks(AcceptedHunks(t), AcceptedHunks(u) + HunksOf(Greedy(AcceptedHunks(u), cs[1..])))
    ensures var picked := Greedy(AcceptedHunks(s), cs);
            && (DecisionFor(t, id) == Accepted
                <==> DecisionFor(s, id) == Accepted || exists c | c in picked :: c.id == id)
            && SameHunks(AcceptedHunks(t), AcceptedHunks(s) + HunksOf(picked))
  {
    GreedyHead(AcceptedHunks(s), cs, id);
    if !(GateFails(cs[0], true) || HunksConflict(cs[0].hunks, AcceptedHunks(s))) {
      GreedyByMembers(AcceptedHunks(u), AcceptedHunks(s) + cs[0].hunks, cs[1..]);
    }
  }

  lemma {:induction false} SkippedByGreedy(taken: seq<Hunk>, cs: seq<Candidate>, c: Candidate)
    requires c in cs && !GateFails(c, true) && c !in Greedy(taken, cs)
    ensures HunksConflict(c.hunks, taken + HunksOf(Greedy(taken, cs)))
    decreases |cs|
  {
    GreedyHead(taken, cs, c.id);
    if HunksConflict(cs[0].hunks, taken) && cs[0] == c {
      MoreHunks(c.hunks, taken, HunksOf(Greedy(taken, cs)));
    } else if GateFails(cs[0], true) || HunksConflict(cs[0].hunks, taken) {
      SkippedByGreedy(taken, cs[1..], c);
    } else {
      SkippedByGreedy(taken + cs[0].hunks, cs[1..], c);
      var rest := HunksOf(Greedy(taken + cs[0].hunks, cs[1..]));
      assert (taken + cs[0].hunks) + rest == taken + (cs[0].hunks + rest);
    }
  }

  lemma MoreHunks(a: seq<Hunk>, b: seq<Hunk>, more: seq<Hunk>)
    requires HunksConflict(a, b)
    ensures HunksConflict(a, b + more)
  {
    var i, j :| 0 <= i < |a| && 0 <= j < |b| && RangesIntersect(HunkRange(a[i]), HunkRange(b[j]));
    assert (b + more)[j] == b[j];
  }

  /** A target that is skipped without a judgment failure conflicts with what is accepted at the end. */
  lemma SkipsAreConflicts(w: World, cs: seq<Candidate>, turns: seq<Turn>, c: Candidate)
    requires |turns| == |cs| && Shape(w.session) && Targets(w.session, cs)
    requires RunBatch(w, cs, turns).unvisited == 0 && Failed !in RunBatch(w, cs, turns).outcomes
    requires c in cs && !GateFails(c, true) && DecisionFor(RunBatch(w, cs, turns).world.session, c.id) != Accepted
    ensures HunksConflict(c.hunks, AcceptedHunks(RunBatch(w, cs, turns).world.session))
  {
    var taken := AcceptedHunks(w.session);
    BatchIsGreedy(w, cs, turns, c.id);
    SkippedByGreedy(taken, cs, c);
    ConflictByMembers(c.hunks, taken + HunksOf(Greedy(taken, cs)));
    ConflictByMembers(c.hunks, AcceptedHunks(RunBatch(w, cs, turns).world.session));
  }
}
