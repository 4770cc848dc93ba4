/**
 The diff preview of a candidate (`applyHunks` on the snapshot) against what a first
 accept writes into the document (one workspace edit built from the same hunks).
 */
module Preview {
  import opened Seqs
  import opened Text
  import opened Patching
  import opened Patches
  import opened CharEdits
  import opened EditRanges
  import opened Options

  function PreviewText(snapshot: string, hs: seq<Hunk>): string {
    Join(AppliedLines(Split(snapshot), hs))
  }

  /** The first accept of a scan: nothing accepted yet, no include trimmed. */
  function FirstAccept(snapshot: string, hs: seq<Hunk>): Option<string> {
    ApplyRanges(snapshot, CandidateToEditRanges(hs, []))
  }

  function Deletions(hs: seq<Hunk>): nat {
    if hs == [] then 0
    else Deletions(hs[..|hs| - 1]) + if PureDeletion(hs[|hs| - 1]) then 1 else 0
  }

  function LineDelta(hs: seq<Hunk>): int {
    if hs == [] then 0 else LineDelta(hs[..|hs| - 1]) + HunkLineDelta(hs[|hs| - 1])
  }

  /** Patching all lines is patching the body: the last line stays last. */
  lemma LastLineStays(body: seq<string>, last: string, es: seq<Edit<string>>)
    requires Fit(es, |body|)
    ensures Patch(body + [last], es) == Patch(body, es) + [last]
  {
    var lines, n := body + [last], |body|;
    var f, g := Chunks(lines, es), Chunks(body, es);
    forall p: nat | p < n ensures f(p) == g(p) {
      assert lines[p] == body[p];
    }
    CatSame(f, g, 0, n);
    EndChunk(body, es);
    LastChunks(lines, es, n);
    CatSplit(f, 0, n, n + 2);
    Associates(Cat(g, 0, n), Inserted(es, n), [last]);
  }

  lemma LastChunks(lines: seq<string>, es: seq<Edit<string>>, n: nat)
    requires n < |lines| && Fit(es, n)
    ensures n + 1 == |lines| ==> Cat(Chunks(lines, es), n, n + 2) == Inserted(es, n) + [lines[n]]
  {
    NothingReplacing(es, n);
    OnlyOuter(Inserted(es, n), Replacing(es, n), [lines[n]]);
    NothingReplacing(es, n + 1);
    NothingInserted(es, n + 1);
    TwoChunks(Chunks(lines, es), n);
  }

  lemma TwoChunks(f: nat -> seq<string>, n: nat)
    ensures Cat(f, n, n + 2) == f(n) + f(n + 1)
  {
    CatOne(f, n + 1);
  }

  /** The preview as a patched body followed by the last line. */
  lemma PreviewIsPatch(snapshot: string, hs: seq<Hunk>)
    requires Disjoint(hs) && TieOrder(hs) && Settled(hs, snapshot)
    ensures PreviewText(snapshot, hs) == Flatten(Patch(Body(snapshot), LineEdits(hs))) + LastLine(snapshot)
  {
    PreviewLines(snapshot, hs);
    JoinLast(Patch(Body(snapshot), LineEdits(hs)), LastLine(snapshot));
  }

  lemma PreviewLines(snapshot: string, hs: seq<Hunk>)
    requires Disjoint(hs) && TieOrder(hs) && Settled(hs, snapshot)
    ensures AppliedLines(Split(snapshot), hs) == Patch(Body(snapshot), LineEdits(hs)) + [LastLine(snapshot)]
  {
    assert Split(snapshot) == Body(snapshot) + [LastLine(snapshot)] by {
      BodyAndLast(snapshot);
    }
    PreviewOf(Split(snapshot), Body(snapshot), LastLine(snapshot), hs);
  }

  lemma PreviewOf(lines: seq<string>, body: seq<string>, last: string, hs: seq<Hunk>)
    requires Disjoint(hs) && TieOrder(hs) && InRange(hs, |body|) && lines == body + [last]
    ensures AppliedLines(lines, hs) == Patch(body, LineEdits(hs)) + [last]
  {
    AppliedIsPatch(lines, hs);
    LastLineStays(body, last, LineEdits(hs));
  }

  lemma JoinLast(lines: seq<string>, last: string)
    ensures Join(lines + [last]) == Flatten(lines) + last
  {
    JoinAppend(lines, [last]);
  }

  /** The first accept writes the declarative patch. */
  lemma FirstAcceptIsPatched(snapshot: string, hs: seq<Hunk>)
    requires Disjoint(hs) && Settled(hs, snapshot)
    ensures FirstAccept(snapshot, hs) == Some(Patched(snapshot, hs))
  {
    FirstOf(snapshot, [], hs, hs);
  }

  lemma FirstOf(snapshot: string, none: seq<Hunk>, hs: seq<Hunk>, all: seq<Hunk>)
    requires none == [] && all == none + hs && Disjoint(all) && Settled(hs, snapshot)
    ensures FirstAccept(snapshot, hs) == Some(Patched(snapshot, all))
  {
    NothingPatched(snapshot);
    assert WrittenEdits(none) == [];
    ApplyAtTrueRows(snapshot, none, hs, CandidateToEditRanges(hs, none));
  }

  // --- counting lines --------------------------------------------------------------

  lemma {:induction false} WrittenShift(hs: seq<Hunk>, n: nat)
    requires InRange(hs, n)
    ensures Shift(WrittenEdits(hs), n) == LineDelta(hs) + Deletions(hs)
  {
    if hs == [] {
    } else {
      var init := hs[..|hs| - 1];
      WrittenShift(init, n);
      assert WrittenEdits(hs)[..|hs| - 1] == WrittenEdits(init);
    }
  }

  lemma {:induction false} PreviewShift(hs: seq<Hunk>, n: nat)
    requires InRange(hs, n)
    ensures Shift(LineEdits(hs), n) == LineDelta(hs)
  {
    if hs == [] {
    } else {
      var init := hs[..|hs| - 1];
      PreviewShift(init, n);
      assert LineEdits(hs)[..|hs| - 1] == LineEdits(init);
    }
  }

  /** The document grows by the sum of the hunk deltas, plus one line per pure deletion. */
  lemma AcceptedLineCount(snapshot: string, hs: seq<Hunk>)
    requires Disjoint(hs) && Settled(hs, snapshot)
    ensures |Split(Patched(snapshot, hs))| == |Split(snapshot)| + LineDelta(hs) + Deletions(hs)
  {
    var body := Body(snapshot);
    WrittenClear(hs);
    PatchedSplits(snapshot, hs);
    BodyAndLast(Patched(snapshot, hs));
    PatchLength(body, WrittenEdits(hs));
    WrittenShift(hs, |body|);
  }

  lemma PreviewLineCount(snapshot: string, hs: seq<Hunk>)
    requires Disjoint(hs) && TieOrder(hs) && Settled(hs, snapshot)
    ensures |Split(PreviewText(snapshot, hs))| == |Split(snapshot)| + LineDelta(hs)
  {
    var body := Body(snapshot);
    PreviewIsPatch(snapshot, hs);
    BodyAndLast(snapshot);
    DisjointIsClear(hs);
    PatchLength(body, LineEdits(hs));
    PreviewShift(hs, |body|);
    PreviewOneLiners(body, hs, Chunks(body, LineEdits(hs)));
    SplitBack(Patch(body, LineEdits(hs)), LastLine(snapshot));
  }

  lemma PreviewOneLiners(body: seq<string>, hs: seq<Hunk>, f: nat -> seq<string>)
    requires OneLiners(body) && f == Chunks(body, LineEdits(hs))
    ensures OneLiners(Cat(f, 0, |body| + 1))
  {
    forall i | 0 <= i < |hs| ensures OneLiners(LineEdits(hs)[i].text) {
      SplitIsOneLiners(hs[i].text);
    }
    forall p: nat ensures OneLiners(f(p)) {
      ChunkOneLiners(body, LineEdits(hs), p);
    }
    CatOneLiners(f, 0, |body| + 1);
  }

  lemma {:induction false} NoDeletions(hs: seq<Hunk>)
    ensures Deletions(hs) == 0 <==> (forall i | 0 <= i < |hs| :: !PureDeletion(hs[i]))
  {
    if hs == [] {
    } else {
      NoDeletions(hs[..|hs| - 1]);
    }
  }

  /** The preview shows what the accept writes, exactly when no hunk is a pure deletion. */
  lemma PreviewIsFirstAccept(snapshot: string, hs: seq<Hunk>)
    requires Disjoint(hs) && TieOrder(hs) && Settled(hs, snapshot)
    ensures FirstAccept(snapshot, hs) == Some(PreviewText(snapshot, hs))
       <==> forall i | 0 <= i < |hs| :: !PureDeletion(hs[i])
  {
    FirstAcceptIsPatched(snapshot, hs);
    NoDeletions(hs);
    if Deletions(hs) == 0 {
      assert LineEdits(hs) == WrittenEdits(hs);
      PreviewIsPatch(snapshot, hs);
    } else {
      AcceptedLineCount(snapshot, hs);
      PreviewLineCount(snapshot, hs);
    }
  }
}
