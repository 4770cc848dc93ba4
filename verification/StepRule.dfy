/**
 Why accepted candidates must not be rejected or regenerated: nothing in the original
 stops it, and the document keeps what the session then disowns.
 */
module StepRule {
  import opened AcceptChain
  import opened ChainInvariants
  import opened ChainTheorems
  import opened CharEdits
  import opened Contract
  import opened EditRanges
  import opened JsMaps
  import opened Patches
  import opened Patching
  import opened Preview
  import opened Sessions
  import opened Text

  // --- worlds, and steps that disown accepted hunks ---------------------------------------

  /** A faithful world in which nothing was trimmed, with the document of the last accept. */
  ghost predicate Sane(w: World) {
    Inv(w) && Faithful(w) && AsListed(w.ledger) && w.doc == w.left
  }

  /** From `w` to `v` the session loses the accepted hunks `gone`, and the document stays. */
  ghost predicate Disowned(w: World, v: World, gone: seq<Hunk>) {
    && v.doc == w.doc && v.session.snapshot == w.session.snapshot && v.session.expected == w.session.expected
    && multiset(AcceptedHunks(w.session)) == multiset(AcceptedHunks(v.session)) + multiset(gone)
  }

  lemma {:induction false} SetTwice<K, V>(m: JsMap<K, V>, k: K, v: V, was: V)
    requires Get(m, k) == Options.Some(was)
    ensures Set(Set(m, k, v), k, was) == m
  {
    if m[0].key == k {
    } else {
      SetTwice(m[1..], k, v, was);
    }
  }

  lemma RejectedHunks(s: Session, c: Candidate)
    requires Shape(s) && IsAccepted(s, c)
    ensures multiset(AcceptedHunks(s))
         == multiset(AcceptedHunks(WithDecision(s, c.id, Rejected))) + multiset(c.hunks)
  {
    var t := WithDecision(s, c.id, Rejected);
    SetLaw(s.decisions, c.id, Rejected);
    SetTwice(s.decisions, c.id, Rejected, Accepted);
    AcceptAddsHunks(t.decisions, t.candidates, c);
  }

  /** Rejecting an accepted candidate disowns its hunks. */
  lemma RejectDisowns(w: World, c: Candidate)
    requires Shape(w.session) && IsAccepted(w.session, c)
    ensures Disowned(w, Step(w, Reject(c.id)), c.hunks)
  {
    RejectedHunks(w.session, c);
  }

  lemma {:induction false} DeleteSet<K, V>(m: JsMap<K, V>, k: K, v: V)
    requires Get(m, k).Some?
    ensures Delete(Set(m, k, v), k) == Delete(m, k)
  {
    if m[0].key == k {
    } else {
      DeleteSet(m[1..], k, v);
    }
  }

  ghost function HunksIfAccepted(s: Session, id: string): seq<Hunk> {
    if DecisionFor(s, id) == Accepted && Get(s.candidates, id).Some? then Get(s.candidates, id).value.hunks else []
  }

  lemma ForgetLoses(s: Session, id: string)
    requires Shape(s) && (DecisionFor(s, id) == Accepted ==> Get(s.candidates, id).Some?)
    ensures Shape(Forget(s, id))
    ensures multiset(AcceptedHunks(s)) == multiset(AcceptedHunks(Forget(s, id))) + multiset(HunksIfAccepted(s, id))
  {
    if DecisionFor(s, id) == Accepted {
      var t := WithDecision(s, id, Rejected);
      KeyedById(s.candidates, id);
      RejectedHunks(s, Get(s.candidates, id).value);
      SetLaw(s.decisions, id, Rejected);
      ForgetIsNeutral(t, id);
      DeleteSet(s.decisions, id, Rejected);
      DeleteLaw(s.decisions, id);
    } else {
      ForgetIsNeutral(s, id);
    }
  }

  /** What is accepted among the entries of the finding. */
  ghost function AcceptedFor(s: Session, entries: JsMap<string, Candidate>, findingId: string): seq<Hunk> {
    if entries == [] then []
    else
      var e, init := entries[|entries| - 1], AcceptedFor(s, entries[..|entries| - 1], findingId);
      if e.value.findingId == findingId then init + HunksIfAccepted(s, e.key) else init
  }

  /** Only the keys of the entries are dropped, and those of the finding lose their decision. */
  lemma {:induction false} DropOnly(s: Session, entries: JsMap<string, Candidate>, findingId: string, k: string)
    requires Shape(s)
    ensures var t := DropFinding(s, entries, findingId);
            && Distinct(t.candidates) && Distinct(t.decisions)
            && (DecisionFor(t, k) == DecisionFor(s, k) || DecisionFor(t, k) == Pending)
            && (!HasKey(entries, k) ==>
                  DecisionFor(t, k) == DecisionFor(s, k) && Get(t.candidates, k) == Get(s.candidates, k))
            && ((exists i | 0 <= i < |entries| :: entries[i].key == k && entries[i].value.findingId == findingId)
                ==> DecisionFor(t, k) == Pending)
  {
    if entries == [] {
    } else {
      var n := |entries| - 1;
      var t := DropFinding(s, entries[..n], findingId);
      DropOnly(s, entries[..n], findingId, k);
      DeleteLaw(t.decisions, entries[n].key);
      DeleteLaw(t.candidates, entries[n].key);
      if HasKey(entries[..n], k) {
        var i :| 0 <= i < n && entries[..n][i].key == k;
        assert entries[i].key == k;
      }
      if i :| 0 <= i < n && entries[i].key == k && entries[i].value.findingId == findingId {
        assert entries[..n][i] == entries[i];
      }
    }
  }

  lemma {:induction false} DropLoses(s: Session, entries: JsMap<string, Candidate>, findingId: string)
    requires Shape(s) && Distinct(entries)
    requires forall id | DecisionFor(s, id) == Accepted :: Get(s.candidates, id).Some?
    ensures var t := DropFinding(s, entries, findingId);
            && Shape(t)
            && multiset(AcceptedHunks(s)) == multiset(AcceptedHunks(t)) + multiset(AcceptedFor(s, entries, findingId))
  {
    if entries == [] {
    } else {
      var n := |entries| - 1;
      DropLoses(s, entries[..n], findingId);
      var t, e := DropFinding(s, entries[..n], findingId), entries[n];
      DropOnly(s, entries[..n], findingId, e.key);
      assert !HasKey(entries[..n], e.key);
      if e.value.findingId == findingId {
        ForgetLoses(t, e.key);
      }
    }
  }

  /** Regenerating a finding disowns whatever was accepted for it. */
  lemma RegenerateDisowns(w: World, findingId: string, c: Candidate)
    requires SessionInv(w.session)
    requires DecisionFor(w.session, c.id) == Accepted ==> Get(w.session.candidates, c.id).value.findingId == findingId
    ensures Disowned(w, Step(w, Regenerate(findingId, c)), AcceptedFor(w.session, w.session.candidates, findingId))
  {
    var s := w.session;
    var t := DropFinding(s, s.candidates, findingId);
    DropLoses(s, s.candidates, findingId);
    DropKeepsRest(s, s.candidates, findingId);
    DropOnly(s, s.candidates, findingId, c.id);
    if DecisionFor(s, c.id) == Accepted {
      GetKey(s.candidates, c.id);
      var i :| 0 <= i < |s.candidates| && s.candidates[i].key == c.id;
      GetAt(s.candidates, i);
    }
    CandidateIsNeutral(t, c);
  }

  lemma InRangePart(hs: seq<Hunk>, gs: seq<Hunk>, n: nat)
    requires InRange(hs, n) && forall x :: x in gs ==> x in hs
    ensures InRange(gs, n)
  {
    forall i | 0 <= i < |gs| ensures gs[i].startLine - 1 + gs[i].lineCount <= n {
      assert gs[i] in hs;
      var j :| 0 <= j < |hs| && hs[j] == gs[i];
    }
  }

  lemma PartsOfBag(hs: seq<Hunk>, gs: seq<Hunk>, more: seq<Hunk>, n: nat)
    requires Disjoint(hs) && InRange(hs, n) && multiset(hs) == multiset(gs) + multiset(more)
    ensures Disjoint(gs) && InRange(gs, n) && InRange(more, n)
    ensures forall x :: x in gs ==> x in hs
  {
    DisjointBag(hs, gs + more);
    forall i, j | 0 <= i < j < |gs| ensures !RangesIntersect(HunkRange(gs[i]), HunkRange(gs[j])) {
      assert (gs + more)[i] == gs[i] && (gs + more)[j] == gs[j];
    }
    forall x | x in gs ensures x in hs {
      assert x in multiset(gs);
      assert x in multiset(hs);
    }
    forall x | x in more ensures x in hs {
      assert x in multiset(more);
      assert x in multiset(hs);
    }
    InRangePart(hs, gs, n);
    InRangePart(hs, more, n);
  }

  lemma AcceptedAreSettled(w: World)
    requires LedgerInv(w)
    ensures Settled(AcceptedHunks(w.session), w.session.snapshot)
  {
    var hs, listed := AcceptedHunks(w.session), Listed(w.ledger);
    SameMembers(hs, listed);
    InRangePart(listed, hs, |Body(w.session.snapshot)|);
  }

  /** The document still has the disowned hunks on top of the accepted ones. */
  lemma DisownedStay(w: World, v: World, gone: seq<Hunk>)
    requires Sane(w) && Disowned(w, v, gone)
    ensures var hs := AcceptedHunks(v.session);
            && HashPasses(v) && Disjoint(hs + gone)
            && Settled(hs, v.session.snapshot) && Settled(gone, v.session.snapshot)
            && v.doc == Patched(v.session.snapshot, hs + gone)
  {
    var all, hs := AcceptedHunks(w.session), AcceptedHunks(v.session);
    LeftIsDeclared(w);
    AcceptedAreSettled(w);
    PartsOfBag(all, hs, gone, |Body(w.session.snapshot)|);
    DisjointBag(all, hs + gone);
    SameMembers(all, hs + gone);
    PatchedOrderFree(w.session.snapshot, all, hs + gone);
  }

  // --- exactly when the document is still right ----------------------------------------------

  /** The first Original line, counted from 0, at which one of the hunks starts. */
  ghost function FirstRow(hs: seq<Hunk>): nat
    requires hs != []
  {
    FirstStart(WrittenEdits(hs))
  }

  /** The Original line behind all that the hunks replace or are inserted in front of. */
  ghost function EndRow(hs: seq<Hunk>): nat {
    LastEnd(WrittenEdits(hs))
  }

  lemma RowsOf(hs: seq<Hunk>, n: nat)
    requires hs != [] && InRange(hs, n)
    ensures FirstRow(hs) < EndRow(hs) <= n + 1
  {
    OutsideAll(WrittenEdits(hs), n);
  }

  /** The lines that stand for the Original lines `lo..hi` under the hunks. */
  ghost function RowsUnder(original: string, hs: seq<Hunk>, lo: nat, hi: nat): seq<string> {
    Window(Body(original), WrittenEdits(hs), lo, hi)
  }

  lemma RowsOfMore(original: string, hs: seq<Hunk>, more: seq<Hunk>)
    requires more != [] && Settled(more, original)
    ensures FirstRow(more) < EndRow(more) <= |Body(original)| + 1
    ensures Patched(original, hs + more) == Patched(original, hs)
       <==> RowsUnder(original, hs + more, FirstRow(more), EndRow(more))
            == RowsUnder(original, hs, FirstRow(more), EndRow(more))
  {
    RowsOf(more, |Body(original)|);
    WrittenSum(hs, more);
    WindowOfMore(Body(original), WrittenEdits(hs), WrittenEdits(more));
    SameBodies(original, hs + more, hs);
  }

  /**
   The guard still passes, and the document is the Original with the accepted patches exactly
   when the rows from the topmost to the lowest disowned hunk read the same without them.
   */
  lemma DisowningIsLocal(w: World, v: World, gone: seq<Hunk>)
    requires Sane(w) && Disowned(w, v, gone) && gone != []
    ensures var hs, lo, hi := AcceptedHunks(v.session), FirstRow(gone), EndRow(gone);
            && HashPasses(v)
            && (v.doc == Declared(v.session)
                <==> RowsUnder(v.session.snapshot, hs + gone, lo, hi) == RowsUnder(v.session.snapshot, hs, lo, hi))
  {
    DisownedStay(w, v, gone);
    RowsOfMore(v.session.snapshot, AcceptedHunks(v.session), gone);
  }

  /** No accepted hunk touches a row between the disowned ones. */
  ghost predicate Alone(hs: seq<Hunk>, gone: seq<Hunk>)
    requires gone != []
  {
    forall i, p: nat | 0 <= i < |hs| && FirstRow(gone) <= p < EndRow(gone) :: !Touches(WrittenEdits(hs)[i], p)
  }

  lemma AloneIsApart(original: string, hs: seq<Hunk>, more: seq<Hunk>)
    requires more != [] && Settled(more, original) && Disjoint(hs + more) && Alone(hs, more)
    ensures Patched(original, hs + more) == Patched(original, hs) <==> Patched(original, more) == original
  {
    var body, es, fs := Body(original), WrittenEdits(hs), WrittenEdits(more);
    var lo, hi := FirstRow(more), EndRow(more);
    WrittenClear(hs + more);
    WrittenSum(hs, more);
    OnlyMore(body, es, fs, es + fs, lo, hi);
    RowsOfMore(original, hs, more);
    FirstWindow(original, more);
  }

  lemma FirstWindow(original: string, more: seq<Hunk>)
    requires more != [] && Settled(more, original)
    ensures Patched(original, more) == original
       <==> RowsUnder(original, more, FirstRow(more), EndRow(more))
            == Window(Body(original), [], FirstRow(more), EndRow(more))
  {
    NothingPatched(original);
    RowsOfMore(original, [], more);
    assert [] + more == more && WrittenEdits([]) == [];
  }

  /** With no accepted hunk in between, exactly when the disowned hunks change nothing in the Original. */
  lemma DisowningAlone(w: World, v: World, gone: seq<Hunk>)
    requires Sane(w) && Disowned(w, v, gone) && gone != [] && Alone(AcceptedHunks(v.session), gone)
    ensures v.doc == Declared(v.session) <==> Patched(v.session.snapshot, gone) == v.session.snapshot
  {
    DisownedStay(w, v, gone);
    AloneIsApart(v.session.snapshot, AcceptedHunks(v.session), gone);
  }

  /** The hunk writes the very lines that the Original has there. */
  ghost predicate RewritesNothing(h: Hunk, original: string) {
    Restates(CharEdits.Body(original), WrittenEdit(h))
  }

  /** Each hunk replaces lines by the same number of lines. */
  ghost predicate KeepLineCount(hs: seq<Hunk>) {
    forall i | 0 <= i < |hs| :: hs[i].lineCount > 0 && |Split(hs[i].text)| == hs[i].lineCount
  }

  /** Hunks that keep the number of lines can be taken away exactly when all of them write what was there. */
  lemma FewerNeutralHunks(original: string, hs: seq<Hunk>, more: seq<Hunk>)
    requires Disjoint(hs + more) && Settled(more, original) && KeepLineCount(more)
    ensures Patched(original, hs + more) == Patched(original, hs)
       <==> forall i | 0 <= i < |more| :: RewritesNothing(more[i], original)
  {
    var body, es, fs := Body(original), WrittenEdits(hs), WrittenEdits(more);
    WrittenClear(hs + more);
    WrittenSum(hs, more);
    MoreRestate(body, es, fs);
    SameBodies(original, hs + more, hs);
    HunksRestate(body, more);
  }

  lemma HunksRestate(body: seq<string>, hs: seq<Hunk>)
    ensures (forall i | 0 <= i < |hs| :: Restates(body, WrittenEdits(hs)[i]))
       <==> forall i | 0 <= i < |hs| :: Restates(body, WrittenEdit(hs[i]))
  {
    assert forall i | 0 <= i < |hs| :: WrittenEdits(hs)[i] == WrittenEdit(hs[i]);
  }

  lemma OneHunkFewer(original: string, hs: seq<Hunk>, h: Hunk)
    requires Disjoint(hs + [h]) && Settled([h], original)
    ensures Patched(original, hs + [h]) == Patched(original, hs) <==> RewritesNothing(h, original)
  {
    var es, e := WrittenEdits(hs), WrittenEdit(h);
    WrittenClear(hs + [h]);
    assert WrittenEdits(hs + [h]) == es + [e];
    ClearSplit(es, [e]);
    assert ClearOf(es, e) by {
      assert [e][0] == e;
    }
    assert [h][0] == h;
    OneMoreRestates(Body(original), es, e);
    SameBodies(original, hs + [h], hs);
  }

  /** Hunks that keep the number of lines: exactly when none of them changes anything. */
  lemma DisowningNeutral(w: World, v: World, gone: seq<Hunk>)
    requires Sane(w) && Disowned(w, v, gone) && KeepLineCount(gone)
    ensures v.doc == Declared(v.session)
       <==> forall i | 0 <= i < |gone| :: RewritesNothing(gone[i], v.session.snapshot)
  {
    DisownedStay(w, v, gone);
    FewerNeutralHunks(v.session.snapshot, AcceptedHunks(v.session), gone);
  }

  /** A single hunk, whatever it does to the number of lines. */
  lemma DisowningSingle(w: World, v: World, h: Hunk)
    requires Sane(w) && Disowned(w, v, [h])
    ensures v.doc == Declared(v.session) <==> RewritesNothing(h, v.session.snapshot)
  {
    DisownedStay(w, v, [h]);
    OneHunkFewer(v.session.snapshot, AcceptedHunks(v.session), h);
  }

  // --- two signs that it is wrong --------------------------------------------------------------

  /** Disowned hunks that changed the number of lines leave a wrong document. */
  lemma DisowningCounts(w: World, v: World, gone: seq<Hunk>)
    requires Sane(w) && Disowned(w, v, gone) && LineDelta(gone) + Deletions(gone) != 0
    ensures HashPasses(v) && v.doc != Declared(v.session)
  {
    DisownedStay(w, v, gone);
    CountDiffers(v.session.snapshot, AcceptedHunks(v.session), gone);
  }

  lemma CountDiffers(original: string, hs: seq<Hunk>, more: seq<Hunk>)
    requires Disjoint(hs + more) && Settled(hs, original) && Settled(more, original)
    requires LineDelta(more) + Deletions(more) != 0
    ensures Patched(original, hs + more) != Patched(original, hs)
  {
    BothWritten(original, hs, more, WrittenEdits(hs), WrittenEdits(more));
    WrittenShift(more, |Body(original)|);
    MoreLines(Body(original), WrittenEdits(hs), WrittenEdits(more), LineDelta(more) + Deletions(more));
  }

  lemma WrittenSum(hs: seq<Hunk>, more: seq<Hunk>)
    ensures WrittenEdits(hs + more) == WrittenEdits(hs) + WrittenEdits(more)
  {
  }

  /** Two groups of hunks as edits of the body. */
  lemma BothWritten(original: string, hs: seq<Hunk>, more: seq<Hunk>, es: seq<Edit<string>>, fs: seq<Edit<string>>)
    requires Disjoint(hs + more) && es == WrittenEdits(hs) && fs == WrittenEdits(more)
    ensures AllClear(es + fs)
    ensures Patched(original, hs + more) == Patched(original, hs)
       <==> Patch(Body(original), es + fs) == Patch(Body(original), es)
    ensures Body(Patched(original, hs)) == Patch(Body(original), es)
  {
    hide *;
    WrittenClear(hs + more);
    WrittenSum(hs, more);
    SameBodies(original, hs + more, hs);
    PatchedSplits(original, hs);
  }

  /** The hunk is above all others; an insertion is above a replacement of the same line. */
  ghost predicate Topmost(hs: seq<Hunk>, i: nat)
    requires i < |hs|
  {
    forall j | 0 <= j < |hs| && j != i :: Behind(WrittenEdit(hs[i]), WrittenEdit(hs[j]))
  }

  lemma TopHolds(body: seq<string>, es: seq<Edit<string>>, fs: seq<Edit<string>>, i: nat, now: seq<string>)
    requires AllClear(es + fs) && Fit(fs, |body|) && i < |fs| && fs[i].text != []
    requires forall j | 0 <= j < |fs| && j != i :: Behind(fs[i], fs[j])
    requires now == Patch(body, es) == Patch(body, es + fs)
    ensures var at := fs[i].start + Shift(es, fs[i].start); 0 <= at < |now| && now[at] == fs[i].text[0]
    ensures fs[i].count > 0 ==> body[fs[i].start] == fs[i].text[0]
  {
    hide Patch, Shift, Holds, Behind, AllClear;
    var e := fs[i];
    TopLands(body, es, fs, i);
    FirstHeld(now, e.start + Shift(es, e.start), e.text);
    if e.count > 0 {
      ClearSplit(es, fs);
      assert ClearOf(es, e);
      TargetKept(body, es, e);
      FirstHeld(now, e.start + Shift(es, e.start), Target(body, e));
    }
  }

  /** Where the first line of the topmost hunk lands, and what is there without it. */
  lemma TopDiffers(original: string, hs: seq<Hunk>, more: seq<Hunk>, i: nat)
    requires Disjoint(hs + more) && Settled(more, original) && i < |more| && Topmost(more, i)
    requires Patched(original, hs + more) == Patched(original, hs)
    ensures var rows, at := Body(Patched(original, hs)), TrueRow(hs, more[i].startLine);
            at < |rows| && rows[at] == Split(more[i].text)[0]
    ensures more[i].lineCount > 0 ==> Body(original)[more[i].startLine - 1] == Split(more[i].text)[0]
  {
    BothWritten(original, hs, more, WrittenEdits(hs), WrittenEdits(more));
    TopRow(Body(original), hs, more, i, WrittenEdits(hs), WrittenEdits(more), Body(Patched(original, hs)));
  }

  lemma TopRow(body: seq<string>, hs: seq<Hunk>, more: seq<Hunk>, i: nat,
               es: seq<Edit<string>>, fs: seq<Edit<string>>, rows: seq<string>)
    requires es == WrittenEdits(hs) && fs == WrittenEdits(more) && AllClear(es + fs)
    requires InRange(more, |body|) && i < |more| && Topmost(more, i)
    requires rows == Patch(body, es) == Patch(body, es + fs)
    ensures var at := TrueRow(hs, more[i].startLine); at < |rows| && rows[at] == Split(more[i].text)[0]
    ensures more[i].lineCount > 0 ==> body[more[i].startLine - 1] == Split(more[i].text)[0]
  {
    TopmostEdit(more, i, fs);
    TopHolds(body, es, fs, i, rows);
  }

  lemma TopmostEdit(more: seq<Hunk>, i: nat, fs: seq<Edit<string>>)
    requires i < |more| && Topmost(more, i) && fs == WrittenEdits(more)
    ensures fs[i] == WrittenEdit(more[i]) && forall j | 0 <= j < |fs| && j != i :: Behind(fs[i], fs[j])
  {
  }

  /**
   The topmost disowned hunk starts with another line than what is there without it: the
   Original's line for a replacement, the line at its row for an insertion.  Whatever the
   other hunks do, the document is wrong.
   */
  lemma DisowningTop(w: World, v: World, gone: seq<Hunk>, i: nat)
    requires Sane(w) && Disowned(w, v, gone) && i < |gone| && Topmost(gone, i)
    requires var first, rows := Split(gone[i].text)[0], Body(Declared(v.session));
             var at := TrueRow(AcceptedHunks(v.session), gone[i].startLine);
             || (gone[i].lineCount > 0 && gone[i].startLine - 1 < |Body(v.session.snapshot)|
                 && Body(v.session.snapshot)[gone[i].startLine - 1] != first)
             || at >= |rows| || rows[at] != first
    ensures HashPasses(v) && v.doc != Declared(v.session)
  {
    DisownedStay(w, v, gone);
    if v.doc == Declared(v.session) {
      TopDiffers(v.session.snapshot, AcceptedHunks(v.session), gone, i);
    }
  }
}
