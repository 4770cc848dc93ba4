/** `packages/core/src/patches.js`: hunk application and conflicts. */
module Patches {
  import opened Patching
  import opened Sorting
  import opened Text

  type LineNo = n: int | 1 <= n witness 1

  /** A patch unit on Original C lines: `lineCount == 0` inserts before `startLine`. */
  datatype Hunk = Hunk(id: string, startLine: LineNo, lineCount: nat, text: string)

  datatype Range = Range(start: int, end: int, insert: bool)

  function HunkRange(h: Hunk): Range {
    if h.lineCount == 0 then Range(h.startLine, h.startLine, true)
    else Range(h.startLine, h.startLine + h.lineCount - 1, false)
  }

  predicate RangesIntersect(a: Range, b: Range) {
    if a.insert && b.insert then a.start == b.start
    else if a.insert then a.start > b.start && a.start <= b.end
    else if b.insert then b.start > a.start && b.start <= a.end
    else a.start <= b.end && b.start <= a.end
  }

  predicate HunksConflict(a: seq<Hunk>, b: seq<Hunk>) {
    exists i, j | 0 <= i < |a| && 0 <= j < |b| :: RangesIntersect(HunkRange(a[i]), HunkRange(b[j]))
  }

  /** The nested loops of `candidatesConflict`. */
  method CandidatesConflict(a: seq<Hunk>, b: seq<Hunk>) returns (conflict: bool)
    ensures conflict <==> HunksConflict(a, b)
  {
    for i := 0 to |a|
      invariant forall x, y | 0 <= x < i && 0 <= y < |b| :: !RangesIntersect(HunkRange(a[x]), HunkRange(b[y]))
    {
      for j := 0 to |b|
        invariant forall y | 0 <= y < j :: !RangesIntersect(HunkRange(a[i]), HunkRange(b[y]))
      {
        if RangesIntersect(HunkRange(a[i]), HunkRange(b[j])) {
          return true;
        }
      }
    }
    return false;
  }

  lemma ConflictSymmetric(a: seq<Hunk>, b: seq<Hunk>)
    ensures HunksConflict(a, b) <==> HunksConflict(b, a)
  {
    if HunksConflict(a, b) {
      var i, j :| 0 <= i < |a| && 0 <= j < |b| && RangesIntersect(HunkRange(a[i]), HunkRange(b[j]));
      assert RangesIntersect(HunkRange(b[j]), HunkRange(a[i]));
    }
    if HunksConflict(b, a) {
      var i, j :| 0 <= i < |b| && 0 <= j < |a| && RangesIntersect(HunkRange(b[i]), HunkRange(a[j]));
      assert RangesIntersect(HunkRange(a[j]), HunkRange(b[i]));
    }
  }

  // --- what a hunk writes ------------------------------------------------------

  /** The lines `applyHunks` puts in: none for a pure deletion. */
  function NewLines(h: Hunk): seq<string> {
    if h.text == "" && h.lineCount > 0 then [] else Split(h.text)
  }

  /** A hunk as a 0-based edit of the line list. */
  function LineEdit(h: Hunk): Edit<string> {
    Edit(h.startLine - 1, h.lineCount, NewLines(h))
  }

  function LineEdits(hs: seq<Hunk>): seq<Edit<string>> {
    seq(|hs|, i requires 0 <= i < |hs| => LineEdit(hs[i]))
  }

  /** No two hunks of the list intersect. */
  ghost predicate Disjoint(hs: seq<Hunk>) {
    forall i, j | 0 <= i < j < |hs| :: !RangesIntersect(HunkRange(hs[i]), HunkRange(hs[j]))
  }

  ghost predicate InRange(hs: seq<Hunk>, lineCount: nat) {
    forall i | 0 <= i < |hs| :: hs[i].startLine - 1 + hs[i].lineCount <= lineCount
  }

  lemma DisjointIsClear(hs: seq<Hunk>)
    ensures Disjoint(hs) <==> AllClear(LineEdits(hs))
  {
    var es := LineEdits(hs);
    forall i, j | 0 <= i < j < |hs|
      ensures RangesIntersect(HunkRange(hs[i]), HunkRange(hs[j])) <==> Intersects(es[i], es[j])
    {
      assert es[i] == LineEdit(hs[i]) && es[j] == LineEdit(hs[j]);
    }
  }

  // --- applyHunks ----------------------------------------------------------------

  /** `lines.splice(at, count, ...text)`, with the clamping of `Array.prototype.splice`. */
  function JsSplice(s: seq<string>, at: nat, count: nat, text: seq<string>): seq<string> {
    var from := if at <= |s| then at else |s|;
    var to := if from + count <= |s| then from + count else |s|;
    s[..from] + text + s[to..]
  }

  predicate StartsLater(a: Hunk, b: Hunk) {
    a.startLine > b.startLine
  }

  /** `[...hunks].sort((a, b) => b.start_line - a.start_line)`, a stable sort. */
  function SortDescending(hs: seq<Hunk>): seq<Hunk> {
    Sort(hs, StartsLater)
  }

  /** The line list after splicing the hunks in list order. */
  function Spliced(lines: seq<string>, hs: seq<Hunk>): seq<string> {
    if hs == [] then lines
    else
      var h := hs[|hs| - 1];
      JsSplice(Spliced(lines, hs[..|hs| - 1]), h.startLine - 1, h.lineCount, NewLines(h))
  }

  function AppliedLines(lines: seq<string>, hs: seq<Hunk>): seq<string> {
    Spliced(lines, SortDescending(hs))
  }

  lemma SplicedNext(lines: seq<string>, hs: seq<Hunk>, k: nat)
    requires k < |hs|
    ensures Spliced(lines, hs[..k + 1])
         == JsSplice(Spliced(lines, hs[..k]), hs[k].startLine - 1, hs[k].lineCount, NewLines(hs[k]))
  {
    assert hs[..k + 1][..k] == hs[..k];
  }

  method ApplyHunks(content: string, hs: seq<Hunk>) returns (out: string)
    ensures out == Join(AppliedLines(Split(content), hs))
  {
    var lines := Split(content);
    var sorted := SortDescending(hs);
    var k := 0;
    while k < |sorted|
      invariant 0 <= k <= |sorted|
      invariant lines == Spliced(Split(content), sorted[..k])
    {
      var h := sorted[k];
      if h.lineCount == 0 {
        lines := JsSplice(lines, h.startLine - 1, 0, NewLines(h));
      } else {
        lines := JsSplice(lines, h.startLine - 1, h.lineCount, NewLines(h));
      }
      SplicedNext(Split(content), sorted, k);
      k := k + 1;
    }
    assert sorted[..k] == sorted;
    out := Join(lines);
  }

  // --- the order in which the hunks are spliced ------------------------------------

  ghost predicate Descending(hs: seq<Hunk>) {
    forall i, j | 0 <= i < j < |hs| :: hs[i].startLine >= hs[j].startLine
  }

  /** An insertion directly in front of a replaced line, in either list order. */
  ghost predicate Tie(ins: Hunk, rep: Hunk) {
    ins.lineCount == 0 && rep.lineCount > 0 && ins.startLine == rep.startLine
  }

  /** On equal starts the replacement is listed before the insertion. */
  ghost predicate TieOrder(hs: seq<Hunk>) {
    forall i, j | 0 <= i < j < |hs| :: !Tie(hs[i], hs[j])
  }

  lemma SameHunksSorted(hs: seq<Hunk>)
    ensures forall x :: x in SortDescending(hs) <==> x in hs
    ensures |SortDescending(hs)| == |hs|
  {
    SortMember(hs, StartsLater);
  }

  lemma SortOne(h: Hunk)
    ensures SortDescending([h]) == [h]
  {
    SameHunksSorted([h]);
    assert SortDescending([h])[0] in SortDescending([h]);
  }

  lemma SortDescends(hs: seq<Hunk>)
    ensures Descending(SortDescending(hs))
  {
    SortOrders(hs, StartsLater);
    var sorted := SortDescending(hs);
    forall i, j | 0 <= i < j < |sorted| ensures sorted[i].startLine >= sorted[j].startLine {
      assert !StartsLater(sorted[j], sorted[i]);
    }
  }

  lemma TieOrderLast(hs: seq<Hunk>, h: Hunk)
    ensures TieOrder(hs + [h]) <==> TieOrder(hs) && (forall x | x in hs :: !Tie(x, h))
  {
    ghost var bad := (a: Hunk, b: Hunk) => Tie(a, b);
    NoPairLast(hs, h, bad);
    assert NoPair(hs, bad) <==> TieOrder(hs);
    assert NoPair(hs + [h], bad) <==> TieOrder(hs + [h]);
  }

  lemma SortDisjoint(hs: seq<Hunk>)
    ensures Disjoint(SortDescending(hs)) <==> Disjoint(hs)
  {
    var bad := (a: Hunk, b: Hunk) => RangesIntersect(HunkRange(a), HunkRange(b));
    SortNoPair(hs, StartsLater, bad);
    assert NoPair(hs, bad) <==> Disjoint(hs);
    assert NoPair(SortDescending(hs), bad) <==> Disjoint(SortDescending(hs));
  }

  lemma SortTieOrder(hs: seq<Hunk>)
    ensures TieOrder(SortDescending(hs)) <==> TieOrder(hs)
  {
    ghost var bad := (a: Hunk, b: Hunk) => Tie(a, b);
    SortNoPair(hs, StartsLater, bad);
    assert NoPair(hs, bad) <==> TieOrder(hs);
    assert NoPair(SortDescending(hs), bad) <==> TieOrder(SortDescending(hs));
  }

  // --- the loop is the simultaneous patch ---------------------------------------------

  /** Everything already spliced lies below the next hunk, so it is not displaced. */
  lemma {:induction false} NothingAbove(sorted: seq<Hunk>, h: Hunk)
    requires Disjoint(sorted + [h]) && TieOrder(sorted + [h])
    requires forall x | x in sorted :: x.startLine >= h.startLine
    ensures Shift(LineEdits(sorted), h.startLine - 1) == 0
  {
    if sorted == [] {
    } else {
      var n := |sorted| - 1;
      var all := sorted + [h];
      assert !RangesIntersect(HunkRange(all[n]), HunkRange(all[n + 1])) && !Tie(all[n], all[n + 1]);
      assert sorted[n] in sorted;
      assert all == sorted[..n] + [sorted[n]] + [h];
      DropMiddle(sorted[..n], sorted[n], h);
      NothingAbove(sorted[..n], h);
      assert LineEdits(sorted)[..n] == LineEdits(sorted[..n]);
    }
  }

  lemma DropMiddle(init: seq<Hunk>, mid: Hunk, h: Hunk)
    requires Disjoint(init + [mid] + [h]) && TieOrder(init + [mid] + [h])
    ensures Disjoint(init + [h]) && TieOrder(init + [h])
  {
    var all, few := init + [mid] + [h], init + [h];
    forall i, j | 0 <= i < j < |few|
      ensures !RangesIntersect(HunkRange(few[i]), HunkRange(few[j])) && !Tie(few[i], few[j])
    {
      assert few[i] == all[i];
      assert few[j] == all[if j < |init| then j else j + 1];
    }
  }

  lemma ClearOfLast(init: seq<Hunk>, h: Hunk)
    requires Disjoint(init + [h])
    ensures Disjoint(init) && ClearOf(LineEdits(init), LineEdit(h))
    ensures AllClear(LineEdits(init)) && LineEdits(init + [h]) == LineEdits(init) + [LineEdit(h)]
  {
    assert LineEdits(init + [h]) == LineEdits(init) + [LineEdit(h)];
    DisjointIsClear(init + [h]);
    ClearSplit(LineEdits(init), [LineEdit(h)]);
    DisjointIsClear(init);
    forall i | 0 <= i < |init| ensures !Intersects(LineEdits(init)[i], LineEdit(h)) {
      assert [LineEdit(h)][0] == LineEdit(h);
    }
  }

  lemma SpliceStep(lines: seq<string>, init: seq<Hunk>, h: Hunk, now: seq<string>)
    requires Disjoint(init + [h]) && TieOrder(init + [h]) && h.startLine - 1 + h.lineCount <= |lines|
    requires forall x | x in init :: x.startLine >= h.startLine
    requires now == Patch(lines, LineEdits(init))
    ensures JsSplice(now, h.startLine - 1, h.lineCount, NewLines(h)) == Patch(lines, LineEdits(init + [h]))
  {
    NothingAbove(init, h);
    ClearOfLast(init, h);
    SpliceUndisplaced(lines, LineEdits(init), LineEdit(h), now);
  }

  lemma SpliceUndisplaced(lines: seq<string>, es: seq<Edit<string>>, e: Edit<string>, now: seq<string>)
    requires AllClear(es) && ClearOf(es, e) && e.start + e.count <= |lines| && Shift(es, e.start) == 0
    requires now == Patch(lines, es)
    ensures JsSplice(now, e.start, e.count, e.text) == Patch(lines, es + [e])
  {
    Rebase(lines, es, e);
    JsSpliceInRange(now, e.start, e.count, e.text, Patch(lines, es + [e]));
  }

  lemma JsSpliceInRange(s: seq<string>, at: nat, count: nat, text: seq<string>, t: seq<string>)
    requires Rewritten(s, at, count, text, t)
    ensures JsSplice(s, at, count, text) == t
  {
    RewrittenIsSplice(s, at, count, text, t);
  }

  lemma {:induction false} SplicedIsPatch(lines: seq<string>, sorted: seq<Hunk>)
    requires Descending(sorted) && Disjoint(sorted) && TieOrder(sorted) && InRange(sorted, |lines|)
    ensures Spliced(lines, sorted) == Patch(lines, LineEdits(sorted))
  {
    if sorted == [] {
      NoEdits(lines);
      assert LineEdits(sorted) == [];
    } else {
      var n := |sorted| - 1;
      assert sorted == sorted[..n] + [sorted[n]];
      SplicedIsPatch(lines, sorted[..n]);
      SpliceStep(lines, sorted[..n], sorted[n], Spliced(lines, sorted[..n]));
    }
  }

  /** The descending in-place loop computes the simultaneous patch, for every listing order. */
  lemma AppliedIsPatch(lines: seq<string>, hs: seq<Hunk>)
    requires Disjoint(hs) && TieOrder(hs) && InRange(hs, |lines|)
    ensures AppliedLines(lines, hs) == Patch(lines, LineEdits(hs))
  {
    var sorted := SortDescending(hs);
    SortDisjoint(hs);
    SortTieOrder(hs);
    SortDescends(hs);
    SameHunksSorted(hs);
    forall i | 0 <= i < |sorted| ensures sorted[i].startLine - 1 + sorted[i].lineCount <= |lines| {
      assert sorted[i] in hs;
    }
    SplicedIsPatch(lines, sorted);
    SamePatch(lines, sorted, hs);
  }

  /** The patch depends only on which hunks there are. */
  lemma SamePatch(lines: seq<string>, hs: seq<Hunk>, gs: seq<Hunk>)
    requires Disjoint(hs) && Disjoint(gs) && forall x :: x in hs <==> x in gs
    ensures Patch(lines, LineEdits(hs)) == Patch(lines, LineEdits(gs))
  {
    DisjointIsClear(hs);
    DisjointIsClear(gs);
    SameLineEdits(hs, gs);
    SameLineEdits(gs, hs);
    PatchOrderFree(lines, LineEdits(hs), LineEdits(gs));
  }

  lemma SameLineEdits(hs: seq<Hunk>, gs: seq<Hunk>)
    requires forall x :: x in hs <==> x in gs
    ensures forall e :: e in LineEdits(hs) ==> e in LineEdits(gs)
  {
    forall e | e in LineEdits(hs) ensures e in LineEdits(gs) {
      var i :| 0 <= i < |hs| && LineEdits(hs)[i] == e;
      assert hs[i] in gs;
      var j :| 0 <= j < |gs| && gs[j] == hs[i];
      assert LineEdits(gs)[j] == e;
    }
  }

  /** Every listing of the same hunks that keeps the tie order applies alike. */
  lemma ApplyOrderFree(lines: seq<string>, hs: seq<Hunk>, gs: seq<Hunk>)
    requires Disjoint(hs) && TieOrder(hs) && InRange(hs, |lines|)
    requires Disjoint(gs) && TieOrder(gs) && forall x :: x in hs <==> x in gs
    ensures AppliedLines(lines, hs) == AppliedLines(lines, gs)
  {
    forall i | 0 <= i < |gs| ensures gs[i].startLine - 1 + gs[i].lineCount <= |lines| {
      assert gs[i] in hs;
    }
    AppliedIsPatch(lines, hs);
    AppliedIsPatch(lines, gs);
    SamePatch(lines, hs, gs);
  }
}
