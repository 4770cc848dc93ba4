/** `apps/vscode/src/session/ScanSession.ts`: the state of one scanned file. */
module Sessions {
  import opened Contract
  import opened JsMaps
  import opened Options
  import opened Patches
  import opened Seqs

  /** The mutable part of a scan session, as a value. */
  datatype Session = Session(
    snapshot: string,
    candidates: JsMap<string, Candidate>,
    decisions: JsMap<string, Decision>,
    overrides: set<string>,
    reasons: map<string, RejectReason>,
    reviewed: set<string>,
    expected: Digest,
    stale: bool)

  function NewSession(snapshot: string): Session {
    Session(snapshot, [], [], {}, map[], {}, ContentHash(snapshot), false)
  }

  function WithCandidate(s: Session, c: Candidate): Session {
    s.(candidates := Set(s.candidates, c.id, c))
  }

  /** Forget one candidate together with everything recorded about it. */
  function Forget(s: Session, id: string): Session {
    s.(candidates := Delete(s.candidates, id), decisions := Delete(s.decisions, id),
       overrides := s.overrides - {id}, reasons := s.reasons - {id})
  }

  function DropFinding(s: Session, entries: JsMap<string, Candidate>, findingId: string): Session {
    if entries == [] then s
    else
      var n := |entries| - 1;
      var before := DropFinding(s, entries[..n], findingId);
      if entries[n].value.findingId != findingId then before else Forget(before, entries[n].key)
  }

  function ReplacedForFinding(s: Session, findingId: string, c: Candidate): Session {
    WithCandidate(DropFinding(s, s.candidates, findingId), c)
  }

  function WithDecision(s: Session, id: string, d: Decision): Session {
    if d == Pending then
      s.(decisions := Delete(s.decisions, id), overrides := s.overrides - {id}, reasons := s.reasons - {id})
    else
      s.(decisions := Set(s.decisions, id, d),
         overrides := if d != Accepted then s.overrides - {id} else s.overrides,
         reasons := if d != Rejected then s.reasons - {id} else s.reasons)
  }

  function WithReason(s: Session, id: string, reason: Option<RejectReason>): Session {
    s.(reasons := match reason { case Some(r) => s.reasons[id := r] case None => s.reasons - {id} })
  }

  function WithAcceptedOverWarning(s: Session, id: string): Session {
    s.(decisions := Set(s.decisions, id, Accepted), overrides := s.overrides + {id})
  }

  function DecisionFor(s: Session, id: string): Decision {
    match Get(s.decisions, id)
    case Some(d) => d
    case None => Pending
  }

  /** The reason that goes with a rejected candidate, if one is on record. */
  function ReasonShown(s: Session, id: string): Option<RejectReason> {
    if DecisionFor(s, id) == Rejected && id in s.reasons then Some(s.reasons[id]) else None
  }

  /** A candidate of the session that has been accepted, with what was recorded about it. */
  ghost predicate IsAccepted(s: Session, c: Candidate) {
    DecisionFor(s, c.id) == Accepted && Get(s.candidates, c.id) == Some(c)
  }

  function AcceptedIn(decisions: JsMap<string, Decision>, candidates: JsMap<string, Candidate>): seq<Candidate> {
    if decisions == [] then []
    else
      var rest := AcceptedIn(decisions[1..], candidates);
      if decisions[0].value != Accepted then rest
      else match Get(candidates, decisions[0].key) { case Some(c) => [c] + rest case None => rest }
  }

  function AcceptedCandidates(s: Session): seq<Candidate> {
    AcceptedIn(s.decisions, s.candidates)
  }

  /** `flatMap((c) => c.hunks)`. */
  function HunksOf(cs: seq<Candidate>): seq<Hunk> {
    if cs == [] then [] else cs[0].hunks + HunksOf(cs[1..])
  }

  function AcceptedHunks(s: Session): seq<Hunk> {
    HunksOf(AcceptedCandidates(s))
  }

  function Refreshed(s: Session, text: string): Session {
    s.(stale := ContentHash(text) != s.expected)
  }

  /** The first candidate stored for a finding. */
  function CandidateForFinding(candidates: JsMap<string, Candidate>, findingId: string): Option<Candidate> {
    if candidates == [] then None
    else if candidates[0].value.findingId == findingId then Some(candidates[0].value)
    else CandidateForFinding(candidates[1..], findingId)
  }

  class ScanSession {
    const snapshot: string
    var candidates: JsMap<string, Candidate>
    var decisions: JsMap<string, Decision>
    var acceptedWithWarning: set<string>
    var rejectReasons: map<string, RejectReason>
    var reviewed: set<string>
    var expectedHash: Digest
    var isStale: bool

    ghost function Value(): (s: Session)
      reads this
    {
      Session(snapshot, candidates, decisions, acceptedWithWarning, rejectReasons, reviewed, expectedHash, isStale)
    }

    constructor (snapshot: string)
      ensures Value() == NewSession(snapshot)
    {
      this.snapshot := snapshot;
      candidates, decisions := [], [];
      acceptedWithWarning, rejectReasons, reviewed := {}, map[], {};
      expectedHash := ContentHash(snapshot);
      isStale := false;
    }

    method SetExpectedHash(hash: Digest)
      modifies this
      ensures Value() == old(Value()).(expected := hash)
    {
      expectedHash := hash;
    }

    method SetCandidate(c: Candidate)
      modifies this
      ensures Value() == WithCandidate(old(Value()), c)
    {
      candidates := Set(candidates, c.id, c);
    }

    method ReplaceCandidateForFinding(findingId: string, c: Candidate)
      modifies this
      ensures Value() == ReplacedForFinding(old(Value()), findingId, c)
    {
      var entries := candidates;
      for i := 0 to |entries|
        invariant Value() == DropFinding(old(Value()), entries[..i], findingId)
      {
        assert entries[..i + 1][..i] == entries[..i];
        if entries[i].value.findingId == findingId {
          candidates := Delete(candidates, entries[i].key);
          decisions := Delete(decisions, entries[i].key);
          acceptedWithWarning := acceptedWithWarning - {entries[i].key};
          rejectReasons := rejectReasons - {entries[i].key};
        }
      }
      assert entries[..|entries|] == entries;
      candidates := Set(candidates, c.id, c);
    }

    method ForFinding(findingId: string) returns (c: Option<Candidate>)
      ensures c == CandidateForFinding(Value().candidates, findingId)
    {
      var i := 0;
      while i < |candidates|
        invariant 0 <= i <= |candidates|
        invariant CandidateForFinding(candidates, findingId) == CandidateForFinding(candidates[i..], findingId)
      {
        if candidates[i].value.findingId == findingId {
          return Some(candidates[i].value);
        }
        assert candidates[i..][1..] == candidates[i + 1..];
        i := i + 1;
      }
      return None;
    }

    method SetDecision(id: string, d: Decision)
      modifies this
      ensures Value() == WithDecision(old(Value()), id, d)
    {
      if d == Pending {
        decisions := Delete(decisions, id);
        acceptedWithWarning := acceptedWithWarning - {id};
        rejectReasons := rejectReasons - {id};
      } else {
        decisions := Set(decisions, id, d);
        if d != Accepted {
          acceptedWithWarning := acceptedWithWarning - {id};
        }
        if d != Rejected {
          rejectReasons := rejectReasons - {id};
        }
      }
    }

    method SetRejectReason(id: string, reason: Option<RejectReason>)
      modifies this
      ensures Value() == WithReason(old(Value()), id, reason)
    {
      if reason.Some? {
        rejectReasons := rejectReasons[id := reason.value];
      } else {
        rejectReasons := rejectReasons - {id};
      }
    }

    method SetAcceptedWithWarning(id: string)
      modifies this
      ensures Value() == WithAcceptedOverWarning(old(Value()), id)
    {
      decisions := Set(decisions, id, Accepted);
      acceptedWithWarning := acceptedWithWarning + {id};
    }

    method MarkReviewed(id: string)
      modifies this
      ensures Value() == old(Value()).(reviewed := old(reviewed) + {id})
    {
      reviewed := reviewed + {id};
    }

    method AcceptedList() returns (out: seq<Candidate>)
      ensures out == AcceptedCandidates(Value())
    {
      out := [];
      var i := 0;
      while i < |decisions|
        invariant 0 <= i <= |decisions|
        invariant out + AcceptedIn(decisions[i..], candidates) == AcceptedIn(decisions, candidates)
      {
        if decisions[i].value == Accepted {
          var c := Get(candidates, decisions[i].key);
          if c.Some? {
            Associates(out, [c.value], AcceptedIn(decisions[i + 1..], candidates));
            out := out + [c.value];
          }
        }
        assert decisions[i..][1..] == decisions[i + 1..];
        i := i + 1;
      }
      NothingLast(out, AcceptedIn(decisions[i..], candidates));
    }

    /** The decision, whether a judgment gate was overridden and why it was rejected, as the report reads them. */
    method DispositionFor(id: string) returns (decision: Decision, overrode: bool, reason: Option<RejectReason>)
      ensures decision == DecisionFor(Value(), id)
      ensures overrode == (decision == Accepted && id in Value().overrides)
      ensures reason == ReasonShown(Value(), id)
    {
      var d := Get(decisions, id);
      decision := if d.Some? then d.value else Pending;
      overrode := decision == Accepted && id in acceptedWithWarning;
      reason := if decision == Rejected && id in rejectReasons then Some(rejectReasons[id]) else None;
    }

    method RefreshStale(text: string) returns (changed: bool)
      modifies this
      ensures Value() == Refreshed(old(Value()), text)
      ensures changed <==> old(isStale) != isStale
    {
      var nowStale := ContentHash(text) != expectedHash;
      if nowStale == isStale {
        return false;
      }
      isStale := nowStale;
      return true;
    }
  }

  // --- accepted hunks under the map operations --------------------------------------

  lemma {:induction false} AcceptedMember(d: JsMap<string, Decision>, cs: JsMap<string, Candidate>, c: Candidate)
    requires Distinct(d) && forall i | 0 <= i < |cs| :: cs[i].value.id == cs[i].key
    ensures c in AcceptedIn(d, cs) <==> Get(d, c.id) == Some(Accepted) && Get(cs, c.id) == Some(c)
  {
    if d == [] {
    } else {
      AcceptedMember(d[1..], cs, c);
      GetKey(d[1..], d[0].key);
      assert !HasKey(d[1..], d[0].key);
      KeyedById(cs, d[0].key);
    }
  }

  lemma {:induction false} KeyedById(cs: JsMap<string, Candidate>, k: string)
    requires forall i | 0 <= i < |cs| :: cs[i].value.id == cs[i].key
    ensures Get(cs, k).Some? ==> Get(cs, k).value.id == k
  {
    if cs == [] {
    } else {
      KeyedById(cs[1..], k);
    }
  }

  lemma {:induction false} HunksMember(cs: seq<Candidate>, h: Hunk)
    ensures h in HunksOf(cs) <==> exists i | 0 <= i < |cs| :: h in cs[i].hunks
  {
    if cs == [] {
    } else {
      HunksMember(cs[1..], h);
      if i :| 0 <= i < |cs| && h in cs[i].hunks {
        if i > 0 {
          assert cs[1..][i - 1] == cs[i];
        }
      }
    }
  }

  /** Accepting a candidate adds its hunks, wherever its decision sits in the map. */
  lemma {:induction false} AcceptAddsHunks(d: JsMap<string, Decision>, cs: JsMap<string, Candidate>, c: Candidate)
    requires Get(d, c.id) != Some(Accepted) && Get(cs, c.id) == Some(c)
    ensures multiset(HunksOf(AcceptedIn(Set(d, c.id, Accepted), cs)))
         == multiset(HunksOf(AcceptedIn(d, cs))) + multiset(c.hunks)
  {
    var after := Set(d, c.id, Accepted);
    if d == [] {
      OneCandidate(c);
    } else if d[0].key == c.id {
      assert after[1..] == d[1..];
      HeadHunks(d, cs);
      HeadHunks(after, cs);
    } else {
      AcceptAddsHunks(d[1..], cs, c);
      assert after[1..] == Set(d[1..], c.id, Accepted);
      HeadHunks(d, cs);
      HeadHunks(after, cs);
    }
  }

  lemma OneCandidate(c: Candidate)
    ensures HunksOf([c]) == c.hunks
  {
    assert c.hunks + [] == c.hunks;
  }

  lemma HunksOfFirst(c: Candidate, rest: seq<Candidate>)
    ensures HunksOf([c] + rest) == c.hunks + HunksOf(rest)
  {
    assert ([c] + rest)[1..] == rest;
  }

  function HeadOf(d: JsMap<string, Decision>, cs: JsMap<string, Candidate>): seq<Hunk>
    requires d != []
  {
    if d[0].value != Accepted then []
    else match Get(cs, d[0].key) { case Some(c) => c.hunks case None => [] }
  }

  lemma HeadHunks(d: JsMap<string, Decision>, cs: JsMap<string, Candidate>)
    requires d != []
    ensures multiset(HunksOf(AcceptedIn(d, cs)))
         == multiset(HeadOf(d, cs)) + multiset(HunksOf(AcceptedIn(d[1..], cs)))
  {
    var rest := AcceptedIn(d[1..], cs);
    if d[0].value == Accepted && Get(cs, d[0].key).Some? {
      HunksOfFirst(Get(cs, d[0].key).value, rest);
    }
  }

  /** Recording any other decision about a candidate that is not accepted changes nothing. */
  lemma {:induction false} OtherDecision(
      d: JsMap<string, Decision>, cs: JsMap<string, Candidate>, id: string, v: Decision)
    requires Get(d, id) != Some(Accepted) && v != Accepted
    ensures AcceptedIn(Set(d, id, v), cs) == AcceptedIn(d, cs)
  {
    if d == [] {
    } else {
      if d[0].key == id {
        assert Set(d, id, v)[1..] == d[1..];
      } else {
        OtherDecision(d[1..], cs, id, v);
        assert Set(d, id, v)[1..] == Set(d[1..], id, v);
      }
    }
  }

  lemma {:induction false} DeletedDecision(d: JsMap<string, Decision>, cs: JsMap<string, Candidate>, id: string)
    requires Get(d, id) != Some(Accepted)
    ensures AcceptedIn(Delete(d, id), cs) == AcceptedIn(d, cs)
  {
    if d == [] || d[0].key == id {
    } else {
      DeletedDecision(d[1..], cs, id);
      assert Delete(d, id)[1..] == Delete(d[1..], id);
    }
  }

  /** Candidates that no accepted decision names can be stored, replaced or deleted freely. */
  lemma {:induction false} OtherCandidates(
      d: JsMap<string, Decision>, cs: JsMap<string, Candidate>, ds: JsMap<string, Candidate>)
    requires forall i | 0 <= i < |d| :: d[i].value == Accepted ==> Get(cs, d[i].key) == Get(ds, d[i].key)
    ensures AcceptedIn(d, cs) == AcceptedIn(d, ds)
  {
    if d == [] {
    } else {
      forall i | 0 <= i < |d[1..]|
        ensures d[1..][i].value == Accepted ==> Get(cs, d[1..][i].key) == Get(ds, d[1..][i].key)
      {
        assert d[1..][i] == d[i + 1];
      }
      OtherCandidates(d[1..], cs, ds);
    }
  }

  // --- what the updates mean to a reader ----------------------------------------------

  /** Decision, override flag and reject reason of one candidate change; nothing else does. */
  lemma DecisionMeaning(s: Session, id: string, d: Decision)
    requires Distinct(s.decisions)
    ensures var t := WithDecision(s, id, d);
            && (forall x :: DecisionFor(t, x) == if x == id then d else DecisionFor(s, x))
            && (forall x :: x in t.overrides <==> x in s.overrides && (x == id ==> d == Accepted))
            && (forall x :: x in t.reasons <==> x in s.reasons && (x == id ==> d == Rejected))
            && (forall x | x in t.reasons :: t.reasons[x] == s.reasons[x])
            && t == s.(decisions := t.decisions, overrides := t.overrides, reasons := t.reasons)
  {
    SetLaw(s.decisions, id, d);
    DeleteLaw(s.decisions, id);
  }

  /** A reason is shown from its record on until it is cleared or another decision is taken; others are not affected. */
  lemma ReasonMeaning(s: Session, id: string, reason: Option<RejectReason>, d: Decision, x: string)
    requires Distinct(s.decisions)
    ensures var rejected := WithReason(WithDecision(s, id, Rejected), id, reason);
            && ReasonShown(rejected, x) == (if x == id then reason else ReasonShown(s, x))
            && (d != Rejected ==> ReasonShown(WithDecision(rejected, id, d), id) == None)
            && ReasonShown(WithAcceptedOverWarning(rejected, id), id) == None
            && rejected == WithDecision(s, id, Rejected).(reasons := rejected.reasons)
  {
    DecisionMeaning(s, id, Rejected);
    var rejected := WithReason(WithDecision(s, id, Rejected), id, reason);
    SetLaw(s.decisions, id, Rejected);
    DecisionMeaning(rejected, id, d);
    OverrideMeaning(rejected, id);
  }

  /** Accepting over a warning. */
  lemma OverrideMeaning(s: Session, id: string)
    requires Distinct(s.decisions)
    ensures var t := WithAcceptedOverWarning(s, id);
            && (forall x :: DecisionFor(t, x) == if x == id then Accepted else DecisionFor(s, x))
            && (forall x :: x in t.overrides <==> x == id || x in s.overrides)
            && t == s.(decisions := t.decisions, overrides := t.overrides)
  {
    SetLaw(s.decisions, id, Accepted);
  }

  /** The candidate found for a finding is the first of it in the map. */
  lemma {:induction false} ForFindingMeaning(cs: JsMap<string, Candidate>, findingId: string)
    ensures CandidateForFinding(cs, findingId) == None
       <==> forall i | 0 <= i < |cs| :: cs[i].value.findingId != findingId
    ensures CandidateForFinding(cs, findingId) != None ==>
              exists i | 0 <= i < |cs| ::
                && CandidateForFinding(cs, findingId) == Some(cs[i].value) && cs[i].value.findingId == findingId
                && forall j | 0 <= j < i :: cs[j].value.findingId != findingId
  {
    if cs == [] || cs[0].value.findingId == findingId {
    } else {
      ForFindingMeaning(cs[1..], findingId);
      assert forall i | 1 <= i < |cs| :: cs[i] == cs[1..][i - 1];
      if CandidateForFinding(cs, findingId) == None {
        forall i | 0 <= i < |cs| ensures cs[i].value.findingId != findingId {
          assert i > 0 ==> cs[i] == cs[1..][i - 1];
        }
      } else {
        var i :| 0 <= i < |cs[1..]| && CandidateForFinding(cs[1..], findingId) == Some(cs[1..][i].value)
          && cs[1..][i].value.findingId == findingId
          && forall j | 0 <= j < i :: cs[1..][j].value.findingId != findingId;
        assert cs[i + 1] == cs[1..][i];
      }
    }
  }

  /** The id names one of the entries of the finding. */
  ghost predicate OfFinding(entries: JsMap<string, Candidate>, id: string, findingId: string) {
    exists i | 0 <= i < |entries| :: entries[i].key == id && entries[i].value.findingId == findingId
  }

  lemma OfFindingLast(entries: JsMap<string, Candidate>, id: string, findingId: string)
    requires entries != []
    ensures var n := |entries| - 1;
            OfFinding(entries, id, findingId)
            <==> OfFinding(entries[..n], id, findingId)
                 || (entries[n].key == id && entries[n].value.findingId == findingId)
  {
    var n := |entries| - 1;
    if OfFinding(entries[..n], id, findingId) {
      var i :| 0 <= i < n && entries[..n][i].key == id && entries[..n][i].value.findingId == findingId;
      assert entries[i] == entries[..n][i];
    }
    if i :| 0 <= i < n && entries[i].key == id && entries[i].value.findingId == findingId {
      assert entries[..n][i] == entries[i];
    }
  }

  /** Dropping takes away the entries of the finding and what was recorded about them, and keeps all else. */
  lemma {:induction false} DropMeaning(s: Session, entries: JsMap<string, Candidate>, findingId: string, x: string)
    requires Distinct(s.candidates) && Distinct(s.decisions)
    ensures var t, gone := DropFinding(s, entries, findingId), OfFinding(entries, x, findingId);
            && Distinct(t.candidates) && Distinct(t.decisions)
            && Get(t.candidates, x) == (if gone then None else Get(s.candidates, x))
            && DecisionFor(t, x) == (if gone then Pending else DecisionFor(s, x))
            && (x in t.overrides <==> !gone && x in s.overrides)
            && ReasonOf(t, x) == (if gone then None else ReasonOf(s, x))
            && t.snapshot == s.snapshot && t.reviewed == s.reviewed && t.expected == s.expected && t.stale == s.stale
  {
    if entries == [] {
    } else {
      var n := |entries| - 1;
      var before := DropFinding(s, entries[..n], findingId);
      DropMeaning(s, entries[..n], findingId, x);
      OfFindingLast(entries, x, findingId);
      DeleteLaw(before.candidates, entries[n].key);
      DeleteLaw(before.decisions, entries[n].key);
    }
  }

  function ReasonOf(s: Session, id: string): Option<RejectReason> {
    if id in s.reasons then Some(s.reasons[id]) else None
  }

  lemma StoredOfFinding(cs: JsMap<string, Candidate>, id: string, findingId: string)
    requires Distinct(cs)
    ensures OfFinding(cs, id, findingId) <==> Get(cs, id).Some? && Get(cs, id).value.findingId == findingId
  {
    GetKey(cs, id);
    if HasKey(cs, id) {
      var i :| 0 <= i < |cs| && cs[i].key == id;
      GetAt(cs, i);
      if j :| 0 <= j < |cs| && cs[j].key == id && cs[j].value.findingId == findingId {
        GetAt(cs, j);
      }
    }
  }

  /**
   After a regeneration the fresh candidate is stored, no other of its finding is, nothing is
   recorded about those that went, and everything else is as before.
   */
  lemma RegenerationMeaning(s: Session, findingId: string, c: Candidate, x: string)
    requires Distinct(s.candidates) && Distinct(s.decisions)
    ensures var t, was := ReplacedForFinding(s, findingId, c), Get(s.candidates, x);
            var gone := was.Some? && was.value.findingId == findingId;
            && Get(t.candidates, x) == (if x == c.id then Some(c) else if gone then None else was)
            && DecisionFor(t, x) == (if gone then Pending else DecisionFor(s, x))
            && (x in t.overrides <==> !gone && x in s.overrides)
            && ReasonOf(t, x) == (if gone then None else ReasonOf(s, x))
            && t.snapshot == s.snapshot && t.reviewed == s.reviewed && t.expected == s.expected && t.stale == s.stale
  {
    DropMeaning(s, s.candidates, findingId, x);
    StoredOfFinding(s.candidates, x, findingId);
    SetLaw(DropFinding(s, s.candidates, findingId).candidates, c.id, c);
  }

  /** So the finding's candidate is the fresh one from then on. */
  lemma FreshIsFound(s: Session, c: Candidate)
    requires Distinct(s.candidates) && Distinct(s.decisions)
    ensures CandidateForFinding(ReplacedForFinding(s, c.findingId, c).candidates, c.findingId) == Some(c)
  {
    var t := ReplacedForFinding(s, c.findingId, c);
    DropMeaning(s, s.candidates, c.findingId, c.id);
    SetLaw(DropFinding(s, s.candidates, c.findingId).candidates, c.id, c);
    ForFindingMeaning(t.candidates, c.findingId);
    RegenerationMeaning(s, c.findingId, c, c.id);
    GetKey(t.candidates, c.id);
    forall i | 0 <= i < |t.candidates| && t.candidates[i].value.findingId == c.findingId
      ensures t.candidates[i].value == c
    {
      GetAt(t.candidates, i);
      RegenerationMeaning(s, c.findingId, c, t.candidates[i].key);
    }
    var k :| 0 <= k < |t.candidates| && t.candidates[k].key == c.id;
    GetAt(t.candidates, k);
  }

  function Ids(cs: seq<Candidate>): seq<string> {
    if cs == [] then [] else [cs[0].id] + Ids(cs[1..])
  }

  /** The accepted candidates are listed in the order of their decisions. */
  lemma {:induction false} AcceptedOrder(d: JsMap<string, Decision>, cs: JsMap<string, Candidate>)
    requires Distinct(d) && forall i | 0 <= i < |cs| :: cs[i].value.id == cs[i].key
    ensures Ids(AcceptedIn(d, cs))
         == Filter(Keys(d), (id: string) => Get(d, id) == Some(Accepted) && Get(cs, id).Some?)
  {
    if d == [] {
    } else {
      var rest := d[1..];
      AcceptedOrder(rest, cs);
      KeyedById(cs, d[0].key);
      KeyIn(rest, d[0].key);
      assert !HasKey(rest, d[0].key);
      FilterAlike(Keys(rest), (id: string) => Get(d, id) == Some(Accepted) && Get(cs, id).Some?,
                  (id: string) => Get(rest, id) == Some(Accepted) && Get(cs, id).Some?);
      AcceptedHead(d, cs);
    }
  }

  lemma AcceptedHead(d: JsMap<string, Decision>, cs: JsMap<string, Candidate>)
    requires d != [] && (Get(cs, d[0].key).Some? ==> Get(cs, d[0].key).value.id == d[0].key)
    ensures Ids(AcceptedIn(d, cs))
         == (if d[0].value == Accepted && Get(cs, d[0].key).Some? then [d[0].key] else [])
          + Ids(AcceptedIn(d[1..], cs))
  {
    var rest := AcceptedIn(d[1..], cs);
    if d[0].value == Accepted && Get(cs, d[0].key).Some? {
      assert AcceptedIn(d, cs)[1..] == rest;
    }
  }
}
