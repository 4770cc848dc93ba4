/**
 A first accept whose replacement reaches the last line: the range is clamped to the end
 of the document, and the newline written behind the replacement stays.
 */
module LastLineGap {
  import opened CharEdits
  import opened EditRanges
  import opened Options
  import opened Patches
  import opened Patching
  import opened Preview
  import opened Seqs
  import opened Text

  // --- an edit that ends with the text can take one more element ----------------------

  /** Alike but for the counts of replacements. */
  ghost predicate Alike<T>(es: seq<Edit<T>>, fs: seq<Edit<T>>) {
    && |es| == |fs|
    && forall i | 0 <= i < |es| ::
         es[i].start == fs[i].start && es[i].text == fs[i].text && (es[i].count == 0 <==> fs[i].count == 0)
  }

  lemma {:induction false} SameTexts<T>(es: seq<Edit<T>>, fs: seq<Edit<T>>, p: nat)
    requires Alike(es, fs)
    ensures Inserted(es, p) == Inserted(fs, p) && Replacing(es, p) == Replacing(fs, p)
  {
    if es == [] {
    } else {
      SameTexts(es[..|es| - 1], fs[..|fs| - 1], p);
    }
  }

  /** `fs` is `es` with the replacement that ends at `size` longer by one. */
  ghost predicate Grown<T>(es: seq<Edit<T>>, fs: seq<Edit<T>>, r: nat, size: nat) {
    && Alike(es, fs) && Fit(es, size) && r < |es|
    && es[r].count > 0 && es[r].start + es[r].count == size && fs[r].count == es[r].count + 1
    && forall i | 0 <= i < |es| && i != r :: es[i] == fs[i]
  }

  lemma GrownChunk<T>(base: seq<T>, x: T, es: seq<Edit<T>>, fs: seq<Edit<T>>, r: nat, p: nat)
    requires Grown(es, fs, r, |base|) && p <= |base|
    ensures Chunk(base + [x], fs, p) == Chunk(base, es, p)
  {
    SameTexts(es, fs, p);
    if p < |base| {
      forall i | 0 <= i < |es| ensures Covers(es[i], p) <==> Covers(fs[i], p) {
      }
      assert Covered(es, p) <==> Covered(fs, p);
    } else {
      assert Covers(fs[r], p);
    }
  }

  lemma PastTheEnd<T>(base: seq<T>, es: seq<Edit<T>>, p: nat)
    requires p >= |base| && forall i | 0 <= i < |es| :: es[i].start != p
    ensures |Chunk(base, es, p)| == 0
  {
    NothingInserted(es, p);
    NothingReplacing(es, p);
  }

  lemma CatEmptyLast<T>(f: nat -> seq<T>, g: nat -> seq<T>, n: nat)
    requires |g(n)| == 0 && forall p: nat | p < n :: f(p) == g(p)
    ensures Cat(g, 0, n + 1) == Cat(f, 0, n)
  {
    CatSame(f, g, 0, n);
    CatSplit(g, 0, n, n + 1);
    CatOne(g, n);
    NothingLast(Cat(g, 0, n), Cat(g, n, n + 1));
  }

  lemma GrownChunks<T>(
      base: seq<T>, x: T, es: seq<Edit<T>>, fs: seq<Edit<T>>, r: nat, f: nat -> seq<T>, g: nat -> seq<T>)
    requires Grown(es, fs, r, |base|) && f == Chunks(base, es) && g == Chunks(base + [x], fs)
    ensures |g(|base| + 1)| == 0 && forall p: nat | p < |base| + 1 :: f(p) == g(p)
  {
    forall p: nat | p < |base| + 1 ensures f(p) == g(p) {
      GrownChunk(base, x, es, fs, r, p);
    }
    PastTheEnd(base + [x], fs, |base| + 1);
  }

  lemma GrowLast<T>(base: seq<T>, x: T, es: seq<Edit<T>>, fs: seq<Edit<T>>, r: nat)
    requires Grown(es, fs, r, |base|)
    ensures Patch(base + [x], fs) == Patch(base, es)
  {
    var f, g := Chunks(base, es), Chunks(base + [x], fs);
    GrownChunks(base, x, es, fs, r, f, g);
    CatEmptyLast(f, g, |base| + 1);
  }

  // --- the document with and without a final newline ------------------------------------

  lemma WithNewline(text: string)
    ensures Split(text + "\n") == Split(text) + [""]
    ensures Body(text + "\n") == Split(text) && LastLine(text + "\n") == ""
    ensures |Flatten(Split(text))| == |text| + 1
  {
    TerminatedLines(text);
    SplitIsOneLiners(text);
    NothingLast(Flatten(Split(text)), "");
    SplitBack(Split(text), "");
  }

  lemma SameOffset(text: string, row: nat)
    requires row < |Split(text)|
    ensures ClampedOffset(text + "\n", row, 0) == ClampedOffset(text, row, 0) == Offset(Split(text), row)
  {
    WithNewline(text);
    assert (Split(text) + [""])[..row] == Split(text)[..row];
  }

  lemma EndOffset(text: string)
    ensures ClampedOffset(text, |Split(text)|, 0) == |text|
    ensures ClampedOffset(text + "\n", |Split(text)|, 0) == |text| + 1 == Offset(Split(text), |Split(text)|)
  {
    WithNewline(text);
    var lines := Split(text);
    assert (lines + [""])[..|lines|] == lines[..|lines|] == lines;
  }

  function FirstEdits(text: string, hs: seq<Hunk>): seq<Edit<char>> {
    ToTextEdits(text, CandidateToEditRanges(hs, []))
  }

  /** The replacement reaches the last line and replaces some character. */
  predicate Reaches(text: string, h: Hunk) {
    h.lineCount > 0 && h.startLine - 1 + h.lineCount == |Split(text)| && (h.lineCount > 1 || LastLine(text) != "")
  }

  lemma ReachingEdit(text: string, hs: seq<Hunk>, r: nat)
    requires r < |hs| && Reaches(text, hs[r])
    ensures var e, f := FirstEdits(text, hs)[r], FirstEdits(text + "\n", hs)[r];
            (e.start == f.start && e.text == f.text
             && e.start + e.count == |text| && f.count == e.count + 1 && e.count > 0)
  {
    var row, lines := hs[r].startLine - 1, Split(text);
    SameOffset(text, row);
    EndOffset(text);
    OffsetMonotone(lines, row, |lines|);
    if hs[r].lineCount == 1 {
      OffsetStep(lines, row);
    }
  }

  lemma Offsets(lines: seq<string>, from: nat, to: nat)
    requires from <= to <= |lines|
    ensures Offset(lines, from) + (to - from) <= Offset(lines, to)
    ensures Offset(lines, to) + (|lines| - to) <= Offset(lines, |lines|)
  {
    OffsetMonotone(lines, from, to);
    OffsetMonotone(lines, to, |lines|);
  }

  lemma SameEdit(text: string, other: string, range: EditRange, from: nat, to: nat)
    requires ClampedOffset(text, range.startLine, range.startChar) == from <= to
    requires ClampedOffset(text, range.endLine, range.endChar) == to
    requires ClampedOffset(other, range.startLine, range.startChar) == from
    requires ClampedOffset(other, range.endLine, range.endChar) == to
    ensures ToTextEdit(text, range) == ToTextEdit(other, range) == Edit(from, to - from, range.text)
  {
  }

  lemma OtherEdit(text: string, hs: seq<Hunk>, i: nat)
    requires i < |hs| && hs[i].startLine - 1 + hs[i].lineCount < |Split(text)|
    ensures FirstEdits(text, hs)[i] == FirstEdits(text + "\n", hs)[i]
    ensures FirstEdits(text, hs)[i].start + FirstEdits(text, hs)[i].count <= |text|
  {
    var lines, range := Split(text), CandidateToEditRanges(hs, [])[i];
    var from, to := hs[i].startLine - 1, hs[i].startLine - 1 + hs[i].lineCount;
    assert range.startLine == from && range.endLine == to;
    SameOffset(text, from);
    SameOffset(text, to);
    assert Offset(lines, from) <= Offset(lines, to) <= |text| by {
      Offsets(lines, from, to);
      EndOffset(text);
    }
    SameEdit(text, text + "\n", range, Offset(lines, from), Offset(lines, to));
  }

  /** In range, and no insertion behind the last line. */
  ghost predicate Within(text: string, hs: seq<Hunk>) {
    && InRange(hs, |Split(text)|)
    && forall i | 0 <= i < |hs| && hs[i].lineCount == 0 :: hs[i].startLine - 1 < |Split(text)|
  }

  lemma EditsGrow(text: string, hs: seq<Hunk>, r: nat)
    requires Disjoint(hs) && Within(text, hs) && r < |hs| && Reaches(text, hs[r])
    ensures Grown(FirstEdits(text, hs), FirstEdits(text + "\n", hs), r, |text|)
  {
    ReachingEdit(text, hs, r);
    forall i | 0 <= i < |hs| && i != r
      ensures FirstEdits(text, hs)[i] == FirstEdits(text + "\n", hs)[i]
      ensures FirstEdits(text, hs)[i].start + FirstEdits(text, hs)[i].count <= |text|
    {
      assert !RangesIntersect(HunkRange(hs[if i < r then i else r]), HunkRange(hs[if i < r then r else i]));
      OtherEdit(text, hs, i);
    }
  }

  /** The clamped accept writes what the same accept writes to the document with a final newline. */
  lemma ClampedAccept(text: string, hs: seq<Hunk>, r: nat)
    requires Disjoint(hs) && Within(text, hs) && r < |hs| && Reaches(text, hs[r])
    ensures FirstAccept(text, hs) == Some(Patched(text + "\n", hs))
  {
    var es, fs := FirstEdits(text, hs), FirstEdits(text + "\n", hs);
    EditsGrow(text, hs, r);
    WithNewline(text);
    FirstAcceptIsPatched(text + "\n", hs);
    forall i, j | 0 <= i < j < |es| ensures !Overlap(es[i], es[j]) {
      assert !Overlap(fs[i], fs[j]);
    }
    GrowLast(text, '\n', es, fs, r);
  }

  lemma CatHas<T>(f: nat -> seq<T>, p: nat, n: nat)
    requires p < n
    ensures |Cat(f, 0, n)| >= |f(p)|
  {
    CatSplit(f, 0, p, n);
    assert Cat(f, p, n) == f(p) + Cat(f, p + 1, n);
  }

  lemma SomethingLeft(lines: seq<string>, hs: seq<Hunk>, r: nat)
    requires Disjoint(hs) && r < |hs| && hs[r].lineCount > 0 && InRange(hs, |lines|)
    ensures |Patch(lines, WrittenEdits(hs))| > 0
  {
    var es, p := WrittenEdits(hs), hs[r].startLine - 1;
    assert |Replacing(es, p)| > 0 by {
      WrittenClear(hs);
      assert es[r] in es;
      ReplacingIs(es, es[r]);
    }
    CatHas(Chunks(lines, es), p, |lines| + 1);
  }

  lemma GapWithoutDeletions(text: string, hs: seq<Hunk>, r: nat)
    requires Disjoint(hs) && TieOrder(hs) && Within(text, hs) && r < |hs| && Reaches(text, hs[r])
    requires forall i | 0 <= i < |hs| :: !PureDeletion(hs[i])
    ensures FirstAccept(text, hs) == Some(PreviewText(text, hs) + "\n")
  {
    ClampedAccept(text, hs, r);
    PatchedWithNewline(text, hs);
    PreviewOfReplacements(text, hs);
    SomethingLeft(Split(text), hs, r);
    FlattenIsJoin(Patch(Split(text), WrittenEdits(hs)));
  }

  /** The accept always ends in a newline then. */
  lemma EndsInNewline(text: string, hs: seq<Hunk>, r: nat)
    requires Disjoint(hs) && Within(text, hs) && r < |hs| && Reaches(text, hs[r])
    ensures FirstAccept(text, hs).Some? && FirstAccept(text, hs).value != ""
    ensures FirstAccept(text, hs).value[|FirstAccept(text, hs).value| - 1] == '\n'
  {
    var left := Patch(Split(text), WrittenEdits(hs));
    ClampedAccept(text, hs, r);
    PatchedWithNewline(text, hs);
    SomethingLeft(Split(text), hs, r);
    FlattenIsJoin(left);
  }

  lemma PatchedWithNewline(text: string, hs: seq<Hunk>)
    ensures Patched(text + "\n", hs) == Flatten(Patch(Split(text), WrittenEdits(hs)))
  {
    WithNewline(text);
    NothingLast(Flatten(Patch(Split(text), WrittenEdits(hs))), "");
  }

  lemma PreviewOfReplacements(text: string, hs: seq<Hunk>)
    requires Disjoint(hs) && TieOrder(hs) && InRange(hs, |Split(text)|)
    requires forall i | 0 <= i < |hs| :: !PureDeletion(hs[i])
    ensures PreviewText(text, hs) == Join(Patch(Split(text), WrittenEdits(hs)))
  {
    assert LineEdits(hs) == WrittenEdits(hs);
    AppliedIsPatch(Split(text), hs);
  }

  // --- the preview and the first accept, measured -----------------------------------------

  predicate AtEnd(text: string, h: Hunk) {
    h.lineCount > 0 && h.startLine - 1 + h.lineCount == |Split(text)|
  }

  function EndHunks(text: string, hs: seq<Hunk>): nat {
    if hs == [] then 0 else EndHunks(text, hs[..|hs| - 1]) + if AtEnd(text, hs[|hs| - 1]) then 1 else 0
  }

  /** The preview as character edits of the text with a final newline. */
  function PreviewEdits(text: string, hs: seq<Hunk>): seq<Edit<char>>
    requires InRange(hs, |Split(text)|)
  {
    AsCharEdits(Split(text), LineEdits(hs))
  }

  lemma RowOffset(text: string, row: nat)
    requires row <= |Split(text)|
    ensures ClampedOffset(text, row, 0) == Offset(Split(text), row) - if row == |Split(text)| then 1 else 0
  {
    if row < |Split(text)| {
      SameOffset(text, row);
    } else {
      EndOffset(text);
    }
  }

  lemma RangeSize(text: string, from: nat, to: nat)
    requires from <= to <= |Split(text)| && from < |Split(text)|
    ensures ClampedOffset(text, from, 0) <= ClampedOffset(text, to, 0) <= |text|
    ensures ClampedOffset(text, to, 0) - ClampedOffset(text, from, 0)
         == Offset(Split(text), to) - Offset(Split(text), from) - if to == |Split(text)| then 1 else 0
  {
    RowOffset(text, from);
    RowOffset(text, to);
    EndOffset(text);
    Offsets(Split(text), from, to);
  }

  /** What the accept adds or takes less than the preview on account of one hunk. */
  function Excess(text: string, h: Hunk): nat {
    (if PureDeletion(h) then 1 else 0) + if AtEnd(text, h) then 1 else 0
  }

  lemma OneSize(text: string, hs: seq<Hunk>, i: nat)
    requires Within(text, hs) && i < |hs|
    ensures var e, f := FirstEdits(text, hs)[i], PreviewEdits(text, hs)[i];
            |e.text| - e.count == |f.text| - f.count + Excess(text, hs[i]) && e.start + e.count <= |text|
  {
    hide Split, Offset;
    var h, range := hs[i], CandidateToEditRanges(hs, [])[i];
    assert range == HunkToEditRange(h, 0);
    RangeSize(text, h.startLine - 1, h.startLine - 1 + h.lineCount);
    TerminatedLines(h.text);
  }

  lemma {:induction false} NetDiffers(text: string, hs: seq<Hunk>, es: seq<Edit<char>>, fs: seq<Edit<char>>)
    requires |es| == |fs| == |hs|
    requires forall i | 0 <= i < |hs| ::
               |es[i].text| - es[i].count == |fs[i].text| - fs[i].count + Excess(text, hs[i])
    ensures Net(es) == Net(fs) + Deletions(hs) + EndHunks(text, hs)
  {
    if hs == [] {
    } else {
      var n := |hs| - 1;
      NetDiffers(text, hs[..n], es[..n], fs[..n]);
    }
  }

  lemma NetSizes(text: string, hs: seq<Hunk>)
    requires Within(text, hs)
    ensures Net(FirstEdits(text, hs)) == Net(PreviewEdits(text, hs)) + Deletions(hs) + EndHunks(text, hs)
  {
    forall i | 0 <= i < |hs|
      ensures |FirstEdits(text, hs)[i].text| - FirstEdits(text, hs)[i].count
           == |PreviewEdits(text, hs)[i].text| - PreviewEdits(text, hs)[i].count + Excess(text, hs[i])
    {
      OneSize(text, hs, i);
    }
    NetDiffers(text, hs, FirstEdits(text, hs), PreviewEdits(text, hs));
  }

  lemma AcceptSize(text: string, hs: seq<Hunk>)
    requires Within(text, hs) && FirstAccept(text, hs).Some?
    ensures |FirstAccept(text, hs).value| == |text| + Net(FirstEdits(text, hs))
  {
    var es := FirstEdits(text, hs);
    forall i | 0 <= i < |es| ensures es[i].start + es[i].count <= |text| {
      OneSize(text, hs, i);
    }
    forall i, j | 0 <= i < j < |es| ensures Apart(es[i], es[j]) {
      assert !Overlap(es[i], es[j]);
    }
    PatchSize(text, es);
  }

  lemma CharEditsAllApart(lines: seq<string>, es: seq<Edit<string>>)
    requires AllClear(es) && Fit(es, |lines|)
    ensures AllApart(AsCharEdits(lines, es)) && Fit(AsCharEdits(lines, es), |Flatten(lines)|)
  {
    var cs := AsCharEdits(lines, es);
    forall i, j | 0 <= i < j < |es| ensures Apart(cs[i], cs[j]) {
      CharEditsApart(lines, es[i], es[j]);
    }
    forall i | 0 <= i < |es| ensures cs[i].start + cs[i].count <= |Flatten(lines)| {
      OffsetMonotone(lines, es[i].start + es[i].count, |lines|);
      assert lines[..|lines|] == lines;
    }
  }

  lemma PreviewSize(text: string, hs: seq<Hunk>)
    requires Disjoint(hs) && TieOrder(hs) && InRange(hs, |Split(text)|)
    ensures |Flatten(AppliedLines(Split(text), hs))| == |text| + 1 + Net(PreviewEdits(text, hs))
  {
    var lines, es := Split(text), LineEdits(hs);
    WithNewline(text);
    AppliedIsPatch(lines, hs);
    DisjointIsClear(hs);
    LinesOnly(lines, es);
    CharEditsAllApart(lines, es);
    PatchSize(Flatten(lines), PreviewEdits(text, hs));
  }

  lemma {:induction false} NoEndHunk(text: string, hs: seq<Hunk>)
    requires forall i | 0 <= i < |hs| :: !AtEnd(text, hs[i])
    ensures EndHunks(text, hs) == 0
  {
    if hs == [] {
    } else {
      NoEndHunk(text, hs[..|hs| - 1]);
    }
  }

  /** Disjoint hunks replace the last line once at most. */
  lemma {:induction false} OneEndHunk(text: string, hs: seq<Hunk>, r: nat)
    requires Disjoint(hs) && r < |hs| && AtEnd(text, hs[r])
    ensures EndHunks(text, hs) == 1
  {
    var n := |hs| - 1;
    if r == n {
      forall i | 0 <= i < n ensures !AtEnd(text, hs[i]) {
        assert !RangesIntersect(HunkRange(hs[i]), HunkRange(hs[n]));
      }
      NoEndHunk(text, hs[..n]);
    } else {
      assert !RangesIntersect(HunkRange(hs[r]), HunkRange(hs[n]));
      OneEndHunk(text, hs[..n], r);
    }
  }

  /**
   A first accept that replaces the last line is longer than the preview: by the newline behind
   the replacement, and by an empty line for each pure deletion.  A preview without any line has
   no newline to spare.
   */
  lemma AcceptIsLonger(text: string, hs: seq<Hunk>, r: nat)
    requires Disjoint(hs) && TieOrder(hs) && Within(text, hs) && r < |hs| && AtEnd(text, hs[r])
    ensures FirstAccept(text, hs).Some? ==>
              |FirstAccept(text, hs).value|
              == |PreviewText(text, hs)| + Deletions(hs) + (if AppliedLines(Split(text), hs) == [] then 0 else 1)
              > |PreviewText(text, hs)|
  {
    if FirstAccept(text, hs).Some? {
      var lines := AppliedLines(Split(text), hs);
      AcceptSize(text, hs);
      PreviewSize(text, hs);
      NetSizes(text, hs);
      OneEndHunk(text, hs, r);
      if lines == [] {
        SomeDeletion(text, hs, r);
      } else {
        FlattenIsJoin(lines);
      }
    }
  }

  lemma SomeDeletion(text: string, hs: seq<Hunk>, r: nat)
    requires Disjoint(hs) && TieOrder(hs) && InRange(hs, |Split(text)|) && r < |hs| && hs[r].lineCount > 0
    requires AppliedLines(Split(text), hs) == []
    ensures Deletions(hs) >= 1
  {
    NoDeletions(hs);
    if Deletions(hs) == 0 {
      assert LineEdits(hs) == WrittenEdits(hs);
      AppliedIsPatch(Split(text), hs);
      SomethingLeft(Split(text), hs, r);
    }
  }

  /**
   Preview and document then differ by exactly one newline at the end if and only if no hunk
   is a pure deletion, or one is and nothing is left of the preview.
   */
  lemma LastLineGap(text: string, hs: seq<Hunk>, r: nat)
    requires Disjoint(hs) && TieOrder(hs) && Within(text, hs) && r < |hs| && Reaches(text, hs[r])
    ensures FirstAccept(text, hs) == Some(PreviewText(text, hs) + "\n")
       <==> Deletions(hs) == if AppliedLines(Split(text), hs) == [] then 1 else 0
  {
    hide *;
    var lines := AppliedLines(Split(text), hs);
    ReachesIsAtEnd(text, hs[r]);
    AcceptIsLonger(text, hs, r);
    EndsInNewline(text, hs, r);
    NoDeletions(hs);
    if Deletions(hs) == 0 {
      GapWithoutDeletions(text, hs, r);
    }
    PreviewJoins(text, hs);
    GapBySize(FirstAccept(text, hs).value, PreviewText(text, hs), lines, Deletions(hs));
  }

  lemma ReachesIsAtEnd(text: string, h: Hunk)
    requires Reaches(text, h)
    ensures AtEnd(text, h)
  {
  }

  lemma PreviewJoins(text: string, hs: seq<Hunk>)
    ensures PreviewText(text, hs) == Join(AppliedLines(Split(text), hs))
  {
  }

  lemma GapBySize(accepted: string, preview: string, lines: seq<string>, deletions: nat)
    requires preview == Join(lines) && accepted != "" && accepted[|accepted| - 1] == '\n'
    requires |accepted| == |preview| + deletions + if lines == [] then 0 else 1
    requires deletions == 0 ==> accepted == preview + "\n"
    ensures accepted == preview + "\n" <==> deletions == if lines == [] then 1 else 0
  {
    if lines == [] && deletions == 1 {
      assert |accepted| == 1;
    }
  }

  /**
   For hunks within the document, the preview shows what a first accept writes exactly when
   none of them is a pure deletion and none replaces the last line.
   */
  lemma PreviewAgrees(text: string, hs: seq<Hunk>)
    requires Disjoint(hs) && TieOrder(hs) && Within(text, hs)
    ensures FirstAccept(text, hs) == Some(PreviewText(text, hs))
       <==> Settled(hs, text) && forall i | 0 <= i < |hs| :: !PureDeletion(hs[i])
  {
    if Settled(hs, text) {
      PreviewIsFirstAccept(text, hs);
    } else {
      var r :| 0 <= r < |hs| && hs[r].startLine - 1 + hs[r].lineCount > |Body(text)|;
      AcceptIsLonger(text, hs, r);
    }
  }

  // --- an insertion behind the last line ---------------------------------------------------

  predicate OnlyNewlines(t: string) {
    forall i | 0 <= i < |t| :: t[i] == '\n'
  }

  lemma {:induction false} Rotates(t: string)
    ensures t + "\n" == "\n" + t <==> OnlyNewlines(t)
  {
    if t == "" {
    } else {
      Rotates(t[1..]);
      var a, b := t + "\n", "\n" + t;
      assert a[0] == t[0] && b[0] == '\n';
      assert a[1..] == t[1..] + "\n" && b[1..] == t;
      if t[0] == '\n' {
        assert t == "\n" + t[1..];
        assert a == [a[0]] + a[1..] && b == [b[0]] + b[1..];
      }
    }
  }

  lemma OneInsertion(text: string, e: Edit<char>)
    requires e.start == |text| && e.count == 0
    ensures Patch(text, [e]) == text + e.text
  {
    NoEdits(text);
    Rebase(text, [], e);
    assert [] + [e] == [e];
    RewrittenIsSplice(text, |text|, 0, e.text, Patch(text, [e]));
    assert text[..|text|] == text && text[|text|..] == "";
    NothingLast(text + e.text, text[|text|..]);
  }

  lemma PastEndPreview(text: string, h: Hunk)
    requires h.lineCount == 0 && h.startLine - 1 >= |Split(text)|
    ensures PreviewText(text, [h]) == text + ("\n" + h.text)
  {
    AppendedLines(Split(text), h);
    JoinAppend(Split(text), Split(h.text));
    JoinSplit(h.text);
    TerminatedLines(text);
    Associates(text, "\n", h.text);
  }

  lemma AppendedLines(lines: seq<string>, h: Hunk)
    requires h.lineCount == 0 && h.startLine - 1 >= |lines|
    ensures AppliedLines(lines, [h]) == lines + Split(h.text)
  {
    SortOne(h);
    assert [h][..0] == [];
    assert Spliced(lines, [h]) == JsSplice(Spliced(lines, []), h.startLine - 1, 0, NewLines(h));
    assert lines[..|lines|] == lines && |lines[|lines|..]| == 0;
    NothingLast(lines + Split(h.text), lines[|lines|..]);
  }

  lemma PastEndAccept(text: string, h: Hunk)
    requires h.lineCount == 0 && h.startLine - 1 >= |Split(text)|
    ensures FirstAccept(text, [h]) == Some(text + (h.text + "\n"))
  {
    assert FirstEdits(text, [h]) == [Edit(|text|, 0, h.text + "\n")];
    OneInsertion(text, Edit(|text|, 0, h.text + "\n"));
  }

  /**
   An insertion behind the last line is written at the end of that line: the preview
   puts the newline in front of the inserted text, the document behind it.
   */
  lemma PastEndGap(text: string, h: Hunk)
    requires h.lineCount == 0 && h.startLine - 1 >= |Split(text)|
    ensures PreviewText(text, [h]) == text + ("\n" + h.text)
    ensures FirstAccept(text, [h]) == Some(text + (h.text + "\n"))
    ensures FirstAccept(text, [h]) == Some(PreviewText(text, [h])) <==> OnlyNewlines(h.text)
  {
    PastEndPreview(text, h);
    PastEndAccept(text, h);
    Rotates(h.text);
    SameTail(text, h.text + "\n", "\n" + h.text);
  }

  lemma SameTail(a: string, b: string, c: string)
    ensures a + b == a + c <==> b == c
  {
    EndSlice(a, b, a + b);
    EndSlice(a, c, a + c);
  }
}
