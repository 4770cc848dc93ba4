/**
 The accept chain: the session, the document, and the steps of
 `apps/vscode/src/extension.ts` that move them.  Each step is one atomic transition.
 */
module AcceptChain {
  import opened AcceptGuard
  import opened Contract
  import opened DedupeIncludes
  import opened EditRanges
  import opened JsMaps
  import opened Options
  import opened Patches
  import opened Sessions
  import opened Text

  // --- what was listed and what was written -------------------------------------------

  /** A hunk as its accepted candidate lists it, and what the accept really wrote for it. */
  datatype Entry = Entry(listed: Hunk, written: Option<Hunk>)

  ghost function Listed(ledger: seq<Entry>): seq<Hunk> {
    seq(|ledger|, i requires 0 <= i < |ledger| => ledger[i].listed)
  }

  ghost function Written(ledger: seq<Entry>): seq<Hunk> {
    if ledger == [] then []
    else
      Written(ledger[..|ledger| - 1])
      + match ledger[|ledger| - 1].written { case None => [] case Some(h) => [h] }
  }

  ghost function EntriesFor(hs: seq<Hunk>, existing: set<string>): seq<Entry> {
    seq(|hs|, i requires 0 <= i < |hs| => Entry(hs[i], DedupeHunk(hs[i], existing)))
  }

  /** Only insertions are ever trimmed or dropped, and never moved. */
  ghost predicate InPlace(e: Entry) {
    && (e.listed.lineCount > 0 ==> e.written == Some(e.listed))
    && (e.written.Some? ==>
          e.written.value.startLine == e.listed.startLine && e.written.value.lineCount == e.listed.lineCount)
  }

  ghost predicate AllInPlace(ledger: seq<Entry>) {
    forall i | 0 <= i < |ledger| :: InPlace(ledger[i])
  }

  /** The lines that a later offset computation counts although they were not written. */
  ghost function Lost(e: Entry): int {
    |NewLines(e.listed)| - match e.written { case None => 0 case Some(h) => |Split(h.text)| }
  }

  /** What the accepted hunks at or above `startLine` lost, in total. */
  ghost function Drift(ledger: seq<Entry>, startLine: int): int {
    if ledger == [] then 0
    else
      var e := ledger[|ledger| - 1];
      Drift(ledger[..|ledger| - 1], startLine) + if Above(e.listed, startLine) then Lost(e) else 0
  }

  ghost predicate Above(h: Hunk, startLine: int) {
    var r := HunkRange(h);
    if r.insert then r.start <= startLine else r.end < startLine
  }

  // --- the world and its steps ------------------------------------------------------------

  /**
   `ledger` and `left`, the text that the last accept left (or the snapshot), are
   specification only: no step of the program reads them.
   */
  datatype World = World(session: Session, doc: string, ledger: seq<Entry>, left: string)

  ghost function NewWorld(snapshot: string): World {
    World(NewSession(snapshot), snapshot, [], snapshot)
  }

  /** `applyCandidate`: the document after the edit, or nothing when the editor refused it. */
  function ApplyCandidate(doc: string, c: Candidate, accepted: seq<Hunk>, editorAccepts: bool): Option<string> {
    var hs := Deduped(c.hunks, IncludesOf(doc));
    if hs == [] then Some(doc)
    else if !editorAccepts then None
    else ApplyRanges(doc, CandidateToEditRanges(hs, accepted))
  }

  ghost function RecordedSession(s: Session, c: Candidate, overWarning: bool): Session {
    if overWarning then WithAcceptedOverWarning(s, c.id) else WithDecision(s, c.id, Accepted)
  }

  ghost function Recorded(w: World, c: Candidate, overWarning: bool, doc: string): World {
    var s := RecordedSession(w.session, c, overWarning);
    World(Refreshed(s.(expected := ContentHash(doc)), doc), doc,
          w.ledger + EntriesFor(c.hunks, IncludesOf(w.doc)), doc)
  }

  function CurrentGuard(s: Session, doc: string, c: Candidate): Guard {
    GuardOf(c, ContentHash(doc), s.expected, AcceptedCandidates(s))
  }

  /** The guard is open, a warning is confirmed, and the editor applies the edit built with the hunks `applied`. */
  ghost predicate GoesThrough(w: World, c: Candidate, confirmed: bool, editorAccepts: bool, applied: seq<Hunk>) {
    var g := CurrentGuard(w.session, w.doc, c);
    g.Ok() && (g.Warn? ==> confirmed) && ApplyCandidate(w.doc, c, applied, editorAccepts).Some?
  }

  /** An accept whose line offsets are computed from the hunks `applied`. */
  ghost function AcceptWith(w: World, c: Candidate, confirmed: bool, editorAccepts: bool, applied: seq<Hunk>): World {
    if GoesThrough(w, c, confirmed, editorAccepts, applied) then
      Recorded(w, c, CurrentGuard(w.session, w.doc, c).Warn?,
               ApplyCandidate(w.doc, c, applied, editorAccepts).value)
    else w
  }

  /** `acceptCandidate`; with `confirmed == false` also one round of the accept-all loop. */
  ghost function AcceptStep(w: World, c: Candidate, confirmed: bool, editorAccepts: bool): World {
    AcceptWith(w, c, confirmed, editorAccepts, AcceptedHunks(w.session))
  }

  /**
   `Generate` and `Regenerate` are the arrivals of a repair that was asked for earlier:
   what was tested when it was asked for is not tested again.  `Explain` is the answer to
   the question why a candidate was rejected, dropped when that is no longer its decision.
   `Change` is any edit, undo or revert of the document made outside the session, and
   `Settle` the debounce timer of `onDocumentChanged` firing, some time after the edits
   that armed it.
   */
  datatype Action =
    | Accept(candidate: Candidate, confirmed: bool, editorAccepts: bool)
    | Reject(id: string)
    | Generate(candidate: Candidate)
    | Regenerate(findingId: string, candidate: Candidate)
    | Explain(id: string, reason: RejectReason)
    | Review(id: string)
    | Change(text: string)
    | Settle

  ghost function Step(w: World, a: Action): World {
    match a
    case Accept(c, confirmed, editorAccepts) => AcceptStep(w, c, confirmed, editorAccepts)
    case Reject(id) => w.(session := WithDecision(w.session, id, Rejected))
    case Generate(c) => w.(session := WithCandidate(w.session, c))
    case Regenerate(f, c) => w.(session := ReplacedForFinding(w.session, f, c))
    case Explain(id, reason) =>
      if DecisionFor(w.session, id) == Rejected then w.(session := WithReason(w.session, id, Some(reason))) else w
    case Review(id) => w.(session := w.session.(reviewed := w.session.reviewed + {id}))
    case Change(text) => w.(doc := text)
    case Settle => w.(session := Refreshed(w.session, w.doc))
  }

  /** The step accepted its candidate. */
  ghost predicate Took(w: World, a: Action) {
    a.Accept? && GoesThrough(w, a.candidate, a.confirmed, a.editorAccepts, AcceptedHunks(w.session))
  }

  ghost function Run(w: World, actions: seq<Action>): World {
    if actions == [] then w else Step(Run(w, actions[..|actions| - 1]), actions[|actions| - 1])
  }

  // --- the step rule ------------------------------------------------------------------------

  /** The candidate is not accepted, and is the one the session has under its id. */
  ghost predicate Stored(s: Session, c: Candidate) {
    DecisionFor(s, c.id) != Accepted && Get(s.candidates, c.id) == Some(c)
  }

  /** Decisions are taken on candidates that are not accepted yet, as the session has them. */
  ghost predicate RuledAs(w: World, a: Action, taken: bool) {
    var s := w.session;
    match a
    case Accept(c, _, _) => taken ==> Stored(s, c)
    case Reject(id) => DecisionFor(s, id) != Accepted
    case Generate(c) => DecisionFor(s, c.id) != Accepted
    case Regenerate(f, c) => DecisionFor(s, c.id) != Accepted && forall x | IsAccepted(s, x) :: x.findingId != f
    case _ => true
  }

  ghost predicate Ruled(w: World, a: Action) {
    RuledAs(w, a, Took(w, a))
  }

  ghost predicate RuledRun(w: World, actions: seq<Action>) {
    actions == [] ||
    (var n := |actions| - 1;
     RuledRun(w, actions[..n]) && Ruled(Run(w, actions[..n]), actions[n]))
  }

  // --- runs, one after the other -------------------------------------------------------

  lemma RunLast(w: World, actions: seq<Action>, a: Action)
    ensures Run(w, actions + [a]) == Step(Run(w, actions), a)
    ensures RuledRun(w, actions + [a]) <==> RuledRun(w, actions) && Ruled(Run(w, actions), a)
  {
    assert (actions + [a])[..|actions|] == actions;
  }

  lemma {:induction false} RunAppend(w: World, a: seq<Action>, b: seq<Action>)
    ensures Run(w, a + b) == Run(Run(w, a), b)
    ensures RuledRun(w, a + b) <==> RuledRun(w, a) && RuledRun(Run(w, a), b)
  {
    if b == [] {
      assert a + b == a;
    } else {
      var init, last := b[..|b| - 1], b[|b| - 1];
      assert b == init + [last] && a + b == (a + init) + [last];
      RunAppend(w, a, init);
      RunLast(w, a + init, last);
      RunLast(Run(w, a), init, last);
    }
  }

  lemma RunOne(w: World, a: Action)
    ensures Run(w, [a]) == Step(w, a)
    ensures RuledRun(w, [a]) <==> Ruled(w, a)
  {
    assert [a][..0] == [];
  }

  // --- what every ruled run keeps of the session ------------------------------------------------

  /** Candidates are stored under their own id. */
  ghost predicate Filed(cs: JsMap<string, Candidate>) {
    forall i | 0 <= i < |cs| :: cs[i].value.id == cs[i].key
  }

  ghost predicate Shape(s: Session) {
    Distinct(s.candidates) && Distinct(s.decisions) && Filed(s.candidates)
  }

  /** What is on record about an accepted candidate. */
  ghost predicate RightlyAccepted(s: Session, c: Candidate) {
    && c.hunks != [] && c.status != RepairFailed && !GateFails(c, false)
    && (c.id in s.overrides <==> GateFails(c, true))
  }

  ghost predicate DecisionInv(s: Session) {
    && (forall id | DecisionFor(s, id) == Accepted :: Get(s.candidates, id).Some?)
    && (forall id | id in s.overrides :: DecisionFor(s, id) == Accepted)
    && (forall c | IsAccepted(s, c) :: RightlyAccepted(s, c))
  }

  /** The accepted candidates are pairwise conflict-free. */
  ghost predicate Apart(s: Session) {
    forall c, d | IsAccepted(s, c) && IsAccepted(s, d) && c.id != d.id :: !HunksConflict(c.hunks, d.hunks)
  }

  ghost predicate SessionInv(s: Session) {
    Shape(s) && DecisionInv(s) && Apart(s)
  }

  // --- steps that leave the accepted candidates alone ---------------------------------------------

  ghost predicate Neutral(s: Session, t: Session) {
    && Shape(t) && t.snapshot == s.snapshot && t.expected == s.expected && t.stale == s.stale
    && AcceptedCandidates(t) == AcceptedCandidates(s)
    && (forall id :: DecisionFor(t, id) == Accepted <==> DecisionFor(s, id) == Accepted)
    && (forall id | DecisionFor(s, id) == Accepted :: Get(t.candidates, id) == Get(s.candidates, id))
    && (forall id | DecisionFor(s, id) == Accepted :: id in t.overrides <==> id in s.overrides)
    && t.overrides <= s.overrides
  }

  lemma SameAccepts(s: Session, t: Session, c: Candidate)
    requires Neutral(s, t) && IsAccepted(t, c)
    ensures IsAccepted(s, c)
  {
  }

  lemma NeutralKeeps(s: Session, t: Session)
    requires SessionInv(s) && Neutral(s, t)
    ensures SessionInv(t)
  {
    forall c | IsAccepted(t, c) ensures RightlyAccepted(t, c) {
      SameAccepts(s, t, c);
    }
    forall c, d | IsAccepted(t, c) && IsAccepted(t, d) && c.id != d.id ensures !HunksConflict(c.hunks, d.hunks) {
      SameAccepts(s, t, c);
      SameAccepts(s, t, d);
    }
  }

  lemma RejectIsNeutral(s: Session, id: string)
    requires Shape(s) && DecisionFor(s, id) != Accepted
    ensures Neutral(s, WithDecision(s, id, Rejected))
  {
    SetLaw(s.decisions, id, Rejected);
    OtherDecision(s.decisions, s.candidates, id, Rejected);
  }

  lemma {:induction false} SetFiled(cs: JsMap<string, Candidate>, c: Candidate)
    requires Filed(cs)
    ensures Filed(Set(cs, c.id, c))
  {
    if cs == [] || cs[0].key == c.id {
    } else {
      assert Filed(cs[1..]);
      SetFiled(cs[1..], c);
    }
  }

  lemma {:induction false} DeleteFiled(cs: JsMap<string, Candidate>, id: string)
    requires Filed(cs)
    ensures Filed(Delete(cs, id))
  {
    if cs == [] || cs[0].key == id {
    } else {
      assert Filed(cs[1..]);
      DeleteFiled(cs[1..], id);
    }
  }

  lemma AcceptedEntry(s: Session, i: nat)
    requires Shape(s) && i < |s.decisions|
    ensures s.decisions[i].value == Accepted <==> DecisionFor(s, s.decisions[i].key) == Accepted
  {
    GetAt(s.decisions, i);
  }

  lemma CandidateIsNeutral(s: Session, c: Candidate)
    requires Shape(s) && DecisionFor(s, c.id) != Accepted
    ensures Neutral(s, WithCandidate(s, c))
  {
    var t := WithCandidate(s, c);
    SetLaw(s.candidates, c.id, c);
    SetFiled(s.candidates, c);
    forall i | 0 <= i < |s.decisions|
      ensures s.decisions[i].value == Accepted ==>
                Get(s.candidates, s.decisions[i].key) == Get(t.candidates, s.decisions[i].key)
    {
      AcceptedEntry(s, i);
    }
    OtherCandidates(s.decisions, s.candidates, t.candidates);
  }

  lemma ForgetIsNeutral(s: Session, id: string)
    requires Shape(s) && DecisionFor(s, id) != Accepted
    ensures Neutral(s, Forget(s, id))
  {
    var t := Forget(s, id);
    DeleteLaw(s.candidates, id);
    DeleteLaw(s.decisions, id);
    DeleteFiled(s.candidates, id);
    DeletedDecision(s.decisions, s.candidates, id);
    forall i | 0 <= i < |t.decisions|
      ensures t.decisions[i].value == Accepted ==>
                Get(s.candidates, t.decisions[i].key) == Get(t.candidates, t.decisions[i].key)
    {
      GetAt(t.decisions, i);
    }
    OtherCandidates(t.decisions, s.candidates, t.candidates);
  }

  lemma {:induction false} DropIsNeutral(s: Session, entries: JsMap<string, Candidate>, f: string)
    requires Shape(s)
    requires forall i | 0 <= i < |entries| ::
               entries[i].value.findingId == f ==> DecisionFor(s, entries[i].key) != Accepted
    ensures Neutral(s, DropFinding(s, entries, f))
  {
    if entries == [] {
    } else {
      var n := |entries| - 1;
      DropIsNeutral(s, entries[..n], f);
      if entries[n].value.findingId == f {
        ForgetIsNeutral(DropFinding(s, entries[..n], f), entries[n].key);
      }
    }
  }

  lemma RegenerateIsNeutral(s: Session, f: string, c: Candidate)
    requires Shape(s) && DecisionFor(s, c.id) != Accepted
    requires forall x | IsAccepted(s, x) :: x.findingId != f
    ensures Neutral(s, ReplacedForFinding(s, f, c))
  {
    forall i | 0 <= i < |s.candidates|
      ensures s.candidates[i].value.findingId == f ==> DecisionFor(s, s.candidates[i].key) != Accepted
    {
      GetAt(s.candidates, i);
      var x := s.candidates[i].value;
      assert IsAccepted(s, x) <==> DecisionFor(s, x.id) == Accepted;
    }
    DropIsNeutral(s, s.candidates, f);
    CandidateIsNeutral(DropFinding(s, s.candidates, f), c);
  }

  // --- an accept, as the session sees it ------------------------------------------------------

  lemma RecordedShape(s: Session, c: Candidate, overWarning: bool)
    requires Shape(s) && DecisionFor(s, c.id) != Accepted && Get(s.candidates, c.id) == Some(c)
    ensures Shape(RecordedSession(s, c, overWarning))
    ensures multiset(AcceptedHunks(RecordedSession(s, c, overWarning)))
         == multiset(AcceptedHunks(s)) + multiset(c.hunks)
  {
    SetLaw(s.decisions, c.id, Accepted);
    AcceptAddsHunks(s.decisions, s.candidates, c);
  }

  /** Recording the decision accepts `c` and nothing else. */
  lemma RecordedAccepts(s: Session, c: Candidate, overWarning: bool, x: Candidate)
    requires Distinct(s.decisions) && Get(s.candidates, c.id) == Some(c)
    ensures IsAccepted(RecordedSession(s, c, overWarning), x) <==> x == c || (x.id != c.id && IsAccepted(s, x))
  {
    SetLaw(s.decisions, c.id, Accepted);
  }

  lemma RecordedDecisions(s: Session, c: Candidate, overWarning: bool)
    requires DecisionInv(s) && Distinct(s.decisions)
    requires DecisionFor(s, c.id) != Accepted && Get(s.candidates, c.id) == Some(c)
    requires c.hunks != [] && c.status != RepairFailed && !GateFails(c, false)
    requires overWarning <==> GateFails(c, true)
    ensures DecisionInv(RecordedSession(s, c, overWarning))
  {
    var t := RecordedSession(s, c, overWarning);
    SetLaw(s.decisions, c.id, Accepted);
    assert c.id !in s.overrides;
    forall x | IsAccepted(t, x) ensures RightlyAccepted(t, x) {
      assert x.id != c.id ==> IsAccepted(s, x);
    }
  }

  lemma RecordedApart(s: Session, c: Candidate, overWarning: bool)
    requires Shape(s) && Apart(s) && Get(s.candidates, c.id) == Some(c)
    requires forall i | 0 <= i < |AcceptedCandidates(s)| ::
               AcceptedCandidates(s)[i].id == c.id || !HunksConflict(c.hunks, AcceptedCandidates(s)[i].hunks)
    ensures Apart(RecordedSession(s, c, overWarning))
  {
    var t := RecordedSession(s, c, overWarning);
    forall x, y | IsAccepted(t, x) && IsAccepted(t, y) && x.id != y.id ensures !HunksConflict(x.hunks, y.hunks) {
      RecordedAccepts(s, c, overWarning, x);
      RecordedAccepts(s, c, overWarning, y);
      if x == c {
        ClearOfAccepted(s, c, y);
      } else if y == c {
        ClearOfAccepted(s, c, x);
        ConflictSymmetric(c.hunks, x.hunks);
      }
    }
  }

  lemma ClearOfAccepted(s: Session, c: Candidate, x: Candidate)
    requires Shape(s) && IsAccepted(s, x) && x.id != c.id
    requires forall i | 0 <= i < |AcceptedCandidates(s)| ::
               AcceptedCandidates(s)[i].id == c.id || !HunksConflict(c.hunks, AcceptedCandidates(s)[i].hunks)
    ensures !HunksConflict(c.hunks, x.hunks)
  {
    AcceptedMember(s.decisions, s.candidates, x);
    var i :| 0 <= i < |AcceptedCandidates(s)| && AcceptedCandidates(s)[i] == x;
  }

  /** Only the decisions, the candidates and the override flags matter. */
  lemma SessionFrame(s: Session, t: Session)
    requires SessionInv(s)
    requires t.decisions == s.decisions && t.candidates == s.candidates && t.overrides == s.overrides
    ensures SessionInv(t)
  {
    forall c | IsAccepted(t, c) ensures RightlyAccepted(t, c) {
      assert IsAccepted(s, c);
    }
    forall c, d | IsAccepted(t, c) && IsAccepted(t, d) && c.id != d.id ensures !HunksConflict(c.hunks, d.hunks) {
      assert IsAccepted(s, c) && IsAccepted(s, d);
    }
  }

  lemma RecordedSessionInv(s: Session, doc: string, c: Candidate)
    requires SessionInv(s) && Stored(s, c) && CurrentGuard(s, doc, c).Ok()
    ensures SessionInv(RecordedSession(s, c, CurrentGuard(s, doc, c).Warn?))
  {
    var overWarning := CurrentGuard(s, doc, c).Warn?;
    GuardMeaning(c, ContentHash(doc), s.expected, AcceptedCandidates(s));
    RecordedShape(s, c, overWarning);
    RecordedDecisions(s, c, overWarning);
    RecordedApart(s, c, overWarning);
  }

  /** An accept keeps the session invariant wherever its edit landed. */
  lemma AcceptKeepsSession(w: World, c: Candidate, confirmed: bool, editorAccepts: bool, applied: seq<Hunk>)
    requires SessionInv(w.session)
    requires GoesThrough(w, c, confirmed, editorAccepts, applied) ==> Stored(w.session, c)
    ensures SessionInv(AcceptWith(w, c, confirmed, editorAccepts, applied).session)
  {
    if GoesThrough(w, c, confirmed, editorAccepts, applied) {
      var g := CurrentGuard(w.session, w.doc, c);
      RecordedSessionInv(w.session, w.doc, c);
      SessionFrame(RecordedSession(w.session, c, g.Warn?),
                   Recorded(w, c, g.Warn?, ApplyCandidate(w.doc, c, applied, editorAccepts).value).session);
    }
  }

  /** The session after a step that accepts nothing. */
  lemma OtherStepIsNeutral(w: World, a: Action)
    requires SessionInv(w.session) && Ruled(w, a) && !a.Accept? && !a.Settle?
    ensures Neutral(w.session, Step(w, a).session)
  {
    match a
    case Reject(id) => RejectIsNeutral(w.session, id);
    case Generate(c) => CandidateIsNeutral(w.session, c);
    case Regenerate(f, c) => RegenerateIsNeutral(w.session, f, c);
    case _ =>
  }

  lemma StepKeepsSession(w: World, a: Action)
    requires SessionInv(w.session) && Ruled(w, a)
    ensures SessionInv(Step(w, a).session)
  {
    if a.Accept? {
      AcceptKeepsSession(w, a.candidate, a.confirmed, a.editorAccepts, AcceptedHunks(w.session));
    } else if a.Settle? {
      SessionFrame(w.session, Step(w, a).session);
    } else {
      OtherStepIsNeutral(w, a);
      NeutralKeeps(w.session, Step(w, a).session);
    }
  }

  /** Every run within the step rule keeps the session invariant, whatever it writes. */
  lemma {:induction false} RunKeepsSession(w: World, actions: seq<Action>)
    requires SessionInv(w.session) && RuledRun(w, actions)
    ensures SessionInv(Run(w, actions).session)
  {
    if actions == [] {
    } else {
      var n := |actions| - 1;
      RunKeepsSession(w, actions[..n]);
      StepKeepsSession(Run(w, actions[..n]), actions[n]);
    }
  }

  // --- what every run keeps -----------------------------------------------------------------

  /** The expected hash is the hash of the text that the last accept left. */
  ghost predicate HashInv(w: World) {
    w.session.expected == ContentHash(w.left)
  }

  lemma {:induction false} DropKeepsRest(s: Session, entries: JsMap<string, Candidate>, f: string)
    ensures var t := DropFinding(s, entries, f);
            t.snapshot == s.snapshot && t.expected == s.expected && t.stale == s.stale
  {
    if entries == [] {
    } else {
      DropKeepsRest(s, entries[..|entries| - 1], f);
    }
  }

  lemma StepKeepsHash(w: World, a: Action)
    requires HashInv(w)
    ensures HashInv(Step(w, a)) && Step(w, a).session.snapshot == w.session.snapshot
  {
    if a.Regenerate? {
      DropKeepsRest(w.session, w.session.candidates, a.findingId);
    }
  }

  lemma {:induction false} RunKeepsHash(w: World, actions: seq<Action>)
    requires HashInv(w)
    ensures HashInv(Run(w, actions)) && Run(w, actions).session.snapshot == w.session.snapshot
  {
    if actions == [] {
    } else {
      RunKeepsHash(w, actions[..|actions| - 1]);
      StepKeepsHash(Run(w, actions[..|actions| - 1]), actions[|actions| - 1]);
    }
  }
}
