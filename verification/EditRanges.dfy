/**
 `apps/vscode/src/ui/model.ts` (hunk coordinates) and the range clamping of
 `apps/vscode/src/apply/acceptCandidate.ts`, over documents that are strings.
 */
module EditRanges {
  import opened Text
  import opened Patching
  import opened Patches
  import opened CharEdits
  import opened Options

  datatype EditRange = EditRange(
    startLine: int, startChar: nat, endLine: int, endChar: nat, text: string, insert: bool)

  function HunkToEditRange(h: Hunk, lineOffset: int): EditRange {
    var row := h.startLine - 1 + lineOffset;
    if h.lineCount == 0 then EditRange(row, 0, row, 0, h.text + "\n", true)
    else EditRange(row, 0, row + h.lineCount, 0, h.text + "\n", false)
  }

  function HunkLineDelta(h: Hunk): int {
    if h.lineCount == 0 then |NewLines(h)| else |NewLines(h)| - h.lineCount
  }

  /** What one accepted hunk adds to the offset of a hunk that starts at `startLine`. */
  function OffsetPart(h: Hunk, startLine: int): int {
    var r := HunkRange(h);
    if r.insert then (if r.start <= startLine then HunkLineDelta(h) else 0)
    else if r.end < startLine then HunkLineDelta(h) else 0
  }

  function LineOffset(startLine: int, accepted: seq<Hunk>): int {
    if accepted == [] then 0
    else LineOffset(startLine, accepted[..|accepted| - 1]) + OffsetPart(accepted[|accepted| - 1], startLine)
  }

  method LineOffsetForStart(startLine: int, accepted: seq<Hunk>) returns (offset: int)
    ensures offset == LineOffset(startLine, accepted)
  {
    offset := 0;
    for i := 0 to |accepted|
      invariant offset == LineOffset(startLine, accepted[..i])
    {
      var h := accepted[i];
      var r := HunkRange(h);
      if r.insert {
        if r.start <= startLine {
          offset := offset + HunkLineDelta(h);
        }
      } else if r.end < startLine {
        offset := offset + HunkLineDelta(h);
      }
      assert accepted[..i + 1][..i] == accepted[..i];
    }
    assert accepted[..|accepted|] == accepted;
  }

  function CandidateToEditRanges(hs: seq<Hunk>, accepted: seq<Hunk>): seq<EditRange> {
    seq(|hs|, i requires 0 <= i < |hs| => HunkToEditRange(hs[i], LineOffset(hs[i].startLine, accepted)))
  }

  // --- the editor ---------------------------------------------------------------

  /** The offset of a position after `validateRange` has clamped it into the document. */
  function ClampedOffset(text: string, line: int, ch: nat): nat {
    var lines := Split(text);
    if line < 0 then 0
    else if line >= |lines| then |text|
    else |Flatten(lines[..line])| + if ch <= |lines[line]| then ch else |lines[line]|
  }

  function ToTextEdit(text: string, r: EditRange): Edit<char> {
    var from, to := ClampedOffset(text, r.startLine, r.startChar), ClampedOffset(text, r.endLine, r.endChar);
    if from <= to then Edit(from, to - from, r.text) else Edit(to, from - to, r.text)
  }

  /** Ranges may touch, and several insertions may share a position; overlaps are refused. */
  predicate Overlap(a: Edit<char>, b: Edit<char>) {
    a.start < b.start + b.count && b.start < a.start + a.count
  }

  /** One workspace edit: all ranges refer to the text before it, and all land at once. */
  function ApplyTextEdits(text: string, edits: seq<Edit<char>>): Option<string> {
    if exists i, j | 0 <= i < j < |edits| :: Overlap(edits[i], edits[j]) then None
    else Some(Patch(text, edits))
  }

  function ToTextEdits(text: string, ranges: seq<EditRange>): seq<Edit<char>> {
    seq(|ranges|, i requires 0 <= i < |ranges| => ToTextEdit(text, ranges[i]))
  }

  function ApplyRanges(text: string, ranges: seq<EditRange>): Option<string> {
    ApplyTextEdits(text, ToTextEdits(text, ranges))
  }

  // --- the declarative meaning of a set of accepted hunks -----------------------------

  /** What the editor is asked to write for a hunk: its text with a newline, always. */
  function WrittenEdit(h: Hunk): Edit<string> {
    Edit(h.startLine - 1, h.lineCount, Split(h.text))
  }

  function WrittenEdits(hs: seq<Hunk>): seq<Edit<string>> {
    seq(|hs|, i requires 0 <= i < |hs| => WrittenEdit(hs[i]))
  }

  /**
   Original C plus patches: at each Original line the inserted text, then the line or
   its replacement.  The unterminated last line is always kept.
   */
  function Patched(original: string, hs: seq<Hunk>): string {
    Flatten(Patch(Body(original), WrittenEdits(hs))) + LastLine(original)
  }

  /** Every replaced range ends before the last split line, every insertion goes at or before it. */
  ghost predicate Settled(hs: seq<Hunk>, original: string) {
    InRange(hs, |Body(original)|)
  }

  predicate PureDeletion(h: Hunk) {
    h.text == "" && h.lineCount > 0
  }

  lemma WrittenClear(hs: seq<Hunk>)
    ensures Disjoint(hs) <==> AllClear(WrittenEdits(hs))
    ensures LeavesText(WrittenEdits(hs))
  {
    var es := WrittenEdits(hs);
    forall i, j | 0 <= i < j < |hs|
      ensures RangesIntersect(HunkRange(hs[i]), HunkRange(hs[j])) <==> Intersects(es[i], es[j])
    {
      assert es[i] == WrittenEdit(hs[i]) && es[j] == WrittenEdit(hs[j]);
    }
  }

  // --- a range of whole lines is a character range --------------------------------------

  lemma RowStart(text: string, row: nat)
    requires row <= |Body(text)|
    ensures ClampedOffset(text, row, 0) == Offset(Body(text), row)
  {
    assert Split(text)[..row] == Body(text)[..row];
  }

  /** A replacement or insertion at `(row, 0)` edits exactly the lines from `row` on. */
  lemma RangeIsLines(text: string, h: Hunk, offset: int)
    requires 0 <= h.startLine - 1 + offset && h.startLine - 1 + offset + h.lineCount <= |Body(text)|
    ensures ToTextEdit(text, HunkToEditRange(h, offset))
         == CharEdit(Body(text), Edit(h.startLine - 1 + offset, h.lineCount, Split(h.text)))
  {
    var row := h.startLine - 1 + offset;
    RowStart(text, row);
    RowStart(text, row + h.lineCount);
    OffsetMonotone(Body(text), row, row + h.lineCount);
    TerminatedLines(h.text);
  }

  lemma CharEditsApart(body: seq<string>, a: Edit<string>, b: Edit<string>)
    requires a.start + a.count <= |body| && b.start + b.count <= |body| && !Intersects(a, b)
    ensures !Overlap(CharEdit(body, a), CharEdit(body, b))
  {
    if a.start + a.count <= b.start {
      OffsetMonotone(body, a.start + a.count, b.start);
    } else if b.start + b.count <= a.start {
      OffsetMonotone(body, b.start + b.count, a.start);
    }
  }

  // --- applying more hunks to a document that already carries some ------------------------

  lemma {:induction false} PatchOneLiners(body: seq<string>, hs: seq<Hunk>)
    requires OneLiners(body)
    ensures OneLiners(Patch(body, WrittenEdits(hs)))
  {
    var es := WrittenEdits(hs);
    forall i | 0 <= i < |es| ensures OneLiners(es[i].text) {
      SplitIsOneLiners(hs[i].text);
    }
    forall p: nat ensures OneLiners(Chunks(body, es)(p)) {
      ChunkOneLiners(body, es, p);
    }
    CatOneLiners(Chunks(body, es), 0, |body| + 1);
  }

  lemma {:induction false} ChunkOneLiners(body: seq<string>, es: seq<Edit<string>>, p: nat)
    requires OneLiners(body) && forall i | 0 <= i < |es| :: OneLiners(es[i].text)
    ensures OneLiners(Chunk(body, es, p))
    ensures OneLiners(Inserted(es, p)) && OneLiners(Replacing(es, p))
  {
    if es == [] {
    } else {
      ChunkOneLiners(body, es[..|es| - 1], p);
    }
  }

  lemma {:induction false} CatOneLiners(f: nat -> seq<string>, lo: nat, hi: nat)
    requires forall p: nat :: OneLiners(f(p))
    ensures OneLiners(Cat(f, lo, hi))
    decreases hi - lo
  {
    if lo >= hi {
    } else {
      CatOneLiners(f, lo + 1, hi);
    }
  }

  /** A patched text splits back into the patched body and the untouched last line. */
  lemma PatchedSplits(original: string, hs: seq<Hunk>)
    ensures Body(Patched(original, hs)) == Patch(Body(original), WrittenEdits(hs))
    ensures LastLine(Patched(original, hs)) == LastLine(original)
  {
    BodyAndLast(original);
    PatchOneLiners(Body(original), hs);
    SplitBack(Patch(Body(original), WrittenEdits(hs)), LastLine(original));
  }

  lemma SameBodies(original: string, hs: seq<Hunk>, gs: seq<Hunk>)
    ensures Patched(original, hs) == Patched(original, gs)
       <==> Patch(Body(original), WrittenEdits(hs)) == Patch(Body(original), WrittenEdits(gs))
  {
    PatchedSplits(original, hs);
    PatchedSplits(original, gs);
  }

  lemma NothingPatched(original: string)
    ensures Patched(original, []) == original
  {
    assert WrittenEdits([]) == [];
    NoEdits(Body(original));
    BodyAndLast(original);
  }

  /** The row at which line `startLine` of the Original sits once `written` is in the document. */
  function TrueRow(written: seq<Hunk>, startLine: LineNo): nat {
    Land(WrittenEdits(written), startLine - 1)
  }

  lemma LandedFit(body: seq<string>, es: seq<Edit<string>>, more: seq<Edit<string>>)
    requires AllClear(es + more) && Fit(more, |body|)
    ensures Fit(AllLanded(es, more), |Patch(body, es)|)
  {
    ClearSplit(es, more);
    forall i | 0 <= i < |more|
      ensures AllLanded(es, more)[i].start + AllLanded(es, more)[i].count <= |Patch(body, es)|
    {
      var e := more[i];
      assert ClearOf(es, e);
      Rebase(body, es, e);
      RewrittenIsSplice(Patch(body, es), e.start + Shift(es, e.start), e.count, e.text, Patch(body, es + [e]));
    }
  }

  lemma RangesAreLanded(text: string, now: seq<string>, written: seq<Hunk>, hs: seq<Hunk>, ranges: seq<EditRange>)
    requires now == Body(text) && |ranges| == |hs|
    requires Fit(AllLanded(WrittenEdits(written), WrittenEdits(hs)), |now|)
    requires forall i | 0 <= i < |hs| ::
               ranges[i] == HunkToEditRange(hs[i], TrueRow(written, hs[i].startLine) - (hs[i].startLine - 1))
    ensures ToTextEdits(text, ranges) == AsCharEdits(now, AllLanded(WrittenEdits(written), WrittenEdits(hs)))
  {
    hide Split, Flatten;
    var landed := AllLanded(WrittenEdits(written), WrittenEdits(hs));
    forall i | 0 <= i < |hs| ensures ToTextEdit(text, ranges[i]) == CharEdit(now, landed[i]) {
      assert landed[i].start + landed[i].count <= |now|;
      RangeIsLines(text, hs[i], TrueRow(written, hs[i].startLine) - (hs[i].startLine - 1));
    }
  }

  /** Ranges that all sit at their true rows complete the patch, in one workspace edit. */
  lemma ApplyAtTrueRows(original: string, written: seq<Hunk>, hs: seq<Hunk>, ranges: seq<EditRange>)
    requires Disjoint(written + hs) && Settled(hs, original) && |ranges| == |hs|
    requires forall i | 0 <= i < |hs| ::
               ranges[i] == HunkToEditRange(hs[i], TrueRow(written, hs[i].startLine) - (hs[i].startLine - 1))
    ensures ApplyRanges(Patched(original, written), ranges) == Some(Patched(original, written + hs))
  {
    hide Split, Flatten, Patch, Land, Disjoint, LeavesText;
    var body, es, more := Body(original), WrittenEdits(written), WrittenEdits(hs);
    var now := Patch(body, es);
    assert WrittenEdits(written + hs) == es + more;
    WrittenClear(written + hs);
    WrittenClear(written);
    PatchedSplits(original, written);
    LandedFit(body, es, more);
    var landed := AllLanded(es, more);
    RangesAreLanded(Patched(original, written), now, written, hs, ranges);
    LandedApart(body, es, more, now);
    LinesAreChars(now, landed, LastLine(original));
    PatchInTwo(body, es, more);
  }

  lemma LandedApart(body: seq<string>, es: seq<Edit<string>>, more: seq<Edit<string>>, now: seq<string>)
    requires AllClear(es + more) && Fit(more, |body|) && LeavesText(es) && now == Patch(body, es)
    requires Fit(AllLanded(es, more), |now|)
    ensures forall i, j | 0 <= i < j < |more| ::
              !Overlap(AsCharEdits(now, AllLanded(es, more))[i], AsCharEdits(now, AllLanded(es, more))[j])
  {
    ClearSplit(es, more);
    forall i | 0 <= i < |more| ensures ClearOf(es, more[i]) {
    }
    AllLandedClear(body, es, more);
    forall i, j | 0 <= i < j < |more|
      ensures !Overlap(AsCharEdits(now, AllLanded(es, more))[i], AsCharEdits(now, AllLanded(es, more))[j])
    {
      CharEditsApart(now, AllLanded(es, more)[i], AllLanded(es, more)[j]);
    }
  }

  /** `lineOffsetForStart` is the shift of what it believes was written. */
  lemma {:induction false} LineOffsetIsShift(startLine: LineNo, hs: seq<Hunk>)
    ensures LineOffset(startLine, hs) == Shift(LineEdits(hs), startLine - 1)
  {
    if hs == [] {
    } else {
      LineOffsetIsShift(startLine, hs[..|hs| - 1]);
      assert LineEdits(hs)[..|hs| - 1] == LineEdits(hs[..|hs| - 1]);
    }
  }
}
