/**
 `applyHunks` splices an insertion that is listed before a replacement of the same
 line first, and then overwrites the inserted lines.  The listing order on such ties
 is exactly what decides whether the loop is the simultaneous patch.
 */
module TieOrders {
  import opened Text
  import opened Patching
  import opened Patches

  function Removed(hs: seq<Hunk>): nat {
    if hs == [] then 0 else Removed(hs[..|hs| - 1]) + hs[|hs| - 1].lineCount
  }

  ghost predicate Unwritten(hs: seq<Hunk>, x: string) {
    forall h | h in hs :: x !in NewLines(h)
  }

  // --- an upper bound for the patch ----------------------------------------------

  ghost function Erased(es: seq<Edit<string>>): seq<Edit<string>> {
    seq(|es|, i requires 0 <= i < |es| => es[i].(text := []))
  }

  lemma {:induction false} CatCount(f: nat -> seq<string>, g: nat -> seq<string>, lo: nat, hi: nat, x: string)
    requires forall p: nat | lo <= p < hi :: multiset(f(p))[x] <= |g(p)|
    ensures multiset(Cat(f, lo, hi))[x] <= |Cat(g, lo, hi)|
    decreases hi - lo
  {
    if lo >= hi {
    } else {
      CatCount(f, g, lo + 1, hi, x);
    }
  }

  lemma {:induction false} NotWritten(es: seq<Edit<string>>, p: nat, x: string)
    requires forall i | 0 <= i < |es| :: x !in es[i].text
    ensures x !in Inserted(es, p) && x !in Replacing(es, p)
  {
    if es == [] {
    } else {
      NotWritten(es[..|es| - 1], p, x);
    }
  }

  lemma KeptBound(base: seq<string>, es: seq<Edit<string>>, p: nat, x: string)
    requires forall i | 0 <= i < |es| :: x !in es[i].text
    ensures multiset(Chunk(base, es, p))[x] <= |Chunk(base, Erased(es), p)|
  {
    NotWritten(es, p, x);
    if Covered(Erased(es), p) {
      var i :| 0 <= i < |es| && Covers(Erased(es)[i], p);
      assert Covers(es[i], p);
    }
    assert multiset(Inserted(es, p))[x] == 0 && multiset(Replacing(es, p))[x] == 0;
    assert multiset(Kept(base, es, p))[x] <= |Kept(base, es, p)| <= |Kept(base, Erased(es), p)|;
  }

  lemma {:induction false} ErasedLength(lines: seq<string>, hs: seq<Hunk>)
    requires Disjoint(hs) && InRange(hs, |lines|)
    ensures |Patch(lines, Erased(LineEdits(hs)))| + Removed(hs) == |lines|
  {
    if hs == [] {
      NoEdits(lines);
      assert Erased(LineEdits(hs)) == [];
    } else {
      var n := |hs| - 1;
      var init, h := hs[..n], hs[n];
      assert hs == init + [h];
      ClearOfLast(init, h);
      ErasedLength(lines, init);
      var e := LineEdit(h).(text := []);
      ErasedClear(LineEdits(init), LineEdit(h));
      assert Erased(LineEdits(hs)) == Erased(LineEdits(init)) + [e];
      ErasedStep(lines, Erased(LineEdits(init)), e);
    }
  }

  lemma ErasedClear(es: seq<Edit<string>>, e: Edit<string>)
    requires AllClear(es) && ClearOf(es, e)
    ensures AllClear(Erased(es)) && ClearOf(Erased(es), e.(text := []))
  {
    forall i, j | 0 <= i < j < |es| ensures !Intersects(Erased(es)[i], Erased(es)[j]) {
      assert !Intersects(es[i], es[j]);
    }
    forall i | 0 <= i < |es| ensures !Intersects(Erased(es)[i], e.(text := [])) {
      assert !Intersects(es[i], e);
    }
  }

  lemma ErasedStep(lines: seq<string>, es: seq<Edit<string>>, e: Edit<string>)
    requires AllClear(es) && ClearOf(es, e) && e.start + e.count <= |lines| && e.text == []
    ensures |Patch(lines, es + [e])| + e.count == |Patch(lines, es)|
  {
    Rebase(lines, es, e);
    RewrittenIsSplice(Patch(lines, es), e.start + Shift(es, e.start), e.count, e.text, Patch(lines, es + [e]));
  }

  lemma PatchKeepsAtMost(lines: seq<string>, hs: seq<Hunk>, x: string)
    requires Disjoint(hs) && InRange(hs, |lines|) && Unwritten(hs, x)
    ensures multiset(Patch(lines, LineEdits(hs)))[x] + Removed(hs) <= |lines|
  {
    var es := LineEdits(hs);
    forall i | 0 <= i < |es| ensures x !in es[i].text {
      assert hs[i] in hs;
    }
    forall p: nat ensures multiset(Chunks(lines, es)(p))[x] <= |Chunks(lines, Erased(es))(p)| {
      KeptBound(lines, es, p, x);
    }
    CatCount(Chunks(lines, es), Chunks(lines, Erased(es)), 0, |lines| + 1, x);
    ErasedLength(lines, hs);
  }

  // --- a lower bound for the loop ----------------------------------------------------

  lemma SpliceCount(s: seq<string>, at: nat, count: nat, text: seq<string>, x: string)
    requires x !in text
    ensures multiset(JsSplice(s, at, count, text))[x] + count
         >= multiset(s)[x] + if at < |s| && s[at] != x && count > 0 then 1 else 0
  {
    var from := if at <= |s| then at else |s|;
    var to := if from + count <= |s| then from + count else |s|;
    ThreeSlices(s, from, to);
    CountParts(s[..from], s[from..to], s[to..], text, x);
    CountAtMost(s[from..to], x);
  }

  lemma ThreeSlices(s: seq<string>, from: nat, to: nat)
    requires from <= to <= |s|
    ensures s[..from] + s[from..to] + s[to..] == s
  {
  }

  lemma CountParts(a: seq<string>, b: seq<string>, c: seq<string>, text: seq<string>, x: string)
    requires x !in text
    ensures multiset(a + text + c)[x] + multiset(b)[x] == multiset(a + b + c)[x]
  {
    assert multiset(text)[x] == 0;
  }

  lemma CountAtMost(s: seq<string>, x: string)
    ensures multiset(s)[x] <= |s|
    ensures s != [] && s[0] != x ==> multiset(s)[x] < |s|
  {
    assert multiset(s)[x] <= |multiset(s)|;
    if s != [] && s[0] != x {
      assert s == [s[0]] + s[1..];
      assert multiset(s[1..])[x] <= |multiset(s[1..])|;
    }
  }

  lemma {:induction false} SplicedReaches(lines: seq<string>, sorted: seq<Hunk>, p: nat)
    requires p <= |lines| && forall i | 0 <= i < |sorted| :: p <= sorted[i].startLine - 1
    ensures p <= |Spliced(lines, sorted)|
  {
    if sorted == [] {
    } else {
      SplicedReaches(lines, sorted[..|sorted| - 1], p);
    }
  }

  /** A violated tie in a sorted, disjoint list sits on neighbours. */
  lemma TieIsAdjacent(sorted: seq<Hunk>, i: nat)
    requires Disjoint(sorted) && Descending(sorted)
    requires i < |sorted| - 1 && Tie(sorted[i], sorted[|sorted| - 1])
    ensures i == |sorted| - 2
  {
    var n := |sorted| - 1;
    assert sorted[i].startLine >= sorted[n - 1].startLine >= sorted[n].startLine;
    assert !RangesIntersect(HunkRange(sorted[n - 1]), HunkRange(sorted[n]));
  }

  /** The insertion's first line is what the replacement is about to remove. */
  lemma InsertedLineIsNext(lines: seq<string>, sorted: seq<Hunk>, x: string)
    requires sorted != [] && Descending(sorted) && InRange(sorted, |lines|) && Unwritten(sorted, x)
    requires sorted[|sorted| - 1].lineCount == 0
    ensures var at := sorted[|sorted| - 1].startLine - 1;
            at < |Spliced(lines, sorted)| && Spliced(lines, sorted)[at] != x
  {
    var n := |sorted| - 1;
    SplicedReaches(lines, sorted[..n], sorted[n].startLine - 1);
    assert sorted[n] in sorted;
    assert NewLines(sorted[n])[0] in NewLines(sorted[n]);
  }

  lemma LastSpliceCount(lines: seq<string>, sorted: seq<Hunk>, x: string)
    requires sorted != [] && Unwritten(sorted, x)
    ensures var h, was := sorted[|sorted| - 1], Spliced(lines, sorted[..|sorted| - 1]);
            multiset(Spliced(lines, sorted))[x] + h.lineCount
            >= multiset(was)[x]
             + if h.startLine - 1 < |was| && was[h.startLine - 1] != x && h.lineCount > 0 then 1 else 0
  {
    hide JsSplice;
    var h := sorted[|sorted| - 1];
    assert x !in NewLines(h) by {
      assert h in sorted;
    }
    SpliceCount(Spliced(lines, sorted[..|sorted| - 1]), h.startLine - 1, h.lineCount, NewLines(h), x);
  }

  lemma {:induction false} LoopKeepsAtLeast(lines: seq<string>, sorted: seq<Hunk>, x: string)
    requires Disjoint(sorted) && Descending(sorted) && InRange(sorted, |lines|) && Unwritten(sorted, x)
    ensures multiset(Spliced(lines, sorted))[x] + Removed(sorted) >= multiset(lines)[x]
    ensures !TieOrder(sorted) ==> multiset(Spliced(lines, sorted))[x] + Removed(sorted) > multiset(lines)[x]
  {
    if sorted == [] {
    } else {
      var n := |sorted| - 1;
      LoopKeepsAtLeast(lines, sorted[..n], x);
      LastSpliceCount(lines, sorted, x);
      if !TieOrder(sorted) && TieOrder(sorted[..n]) {
        ViolatedLast(lines, sorted, x);
      }
    }
  }

  lemma ViolatedLast(lines: seq<string>, sorted: seq<Hunk>, x: string)
    requires Disjoint(sorted) && Descending(sorted) && InRange(sorted, |lines|) && Unwritten(sorted, x)
    requires sorted != [] && !TieOrder(sorted) && TieOrder(sorted[..|sorted| - 1])
    ensures var h := sorted[|sorted| - 1];
            var now := Spliced(lines, sorted[..|sorted| - 1]);
            h.lineCount > 0 && h.startLine - 1 < |now| && now[h.startLine - 1] != x
  {
    TiedNeighbour(sorted);
    InsertedLineIsNext(lines, sorted[..|sorted| - 1], x);
  }

  lemma TiedNeighbour(sorted: seq<Hunk>)
    requires Disjoint(sorted) && Descending(sorted)
    requires sorted != [] && !TieOrder(sorted) && TieOrder(sorted[..|sorted| - 1])
    ensures |sorted| >= 2 && Tie(sorted[|sorted| - 2], sorted[|sorted| - 1])
  {
    var n := |sorted| - 1;
    assert sorted == sorted[..n] + [sorted[n]];
    TieOrderLast(sorted[..n], sorted[n]);
    var tied :| tied in sorted[..n] && Tie(tied, sorted[n]);
    var i :| 0 <= i < n && sorted[i] == tied;
    TieIsAdjacent(sorted, i);
  }

  // --- a document that tells the two apart --------------------------------------------

  function Longest(lines: seq<string>): nat {
    if lines == [] then 0
    else
      var rest := Longest(lines[..|lines| - 1]);
      if |lines[|lines| - 1]| > rest then |lines[|lines| - 1]| else rest
  }

  function LongestWritten(hs: seq<Hunk>): nat {
    if hs == [] then 0
    else
      var rest, last := LongestWritten(hs[..|hs| - 1]), Longest(NewLines(hs[|hs| - 1]));
      if last > rest then last else rest
  }

  lemma {:induction false} LongestBounds(lines: seq<string>, x: string)
    requires x in lines
    ensures |x| <= Longest(lines)
  {
    if x == lines[|lines| - 1] {
    } else {
      LongestBounds(lines[..|lines| - 1], x);
    }
  }

  lemma {:induction false} LongestWrittenBounds(hs: seq<Hunk>, h: Hunk)
    requires h in hs
    ensures Longest(NewLines(h)) <= LongestWritten(hs)
  {
    if h == hs[|hs| - 1] {
    } else {
      LongestWrittenBounds(hs[..|hs| - 1], h);
    }
  }

  lemma FreshLine(hs: seq<Hunk>) returns (x: string)
    ensures Unwritten(hs, x) && '\n' !in x
  {
    x := seq(LongestWritten(hs) + 1, _ => 'x');
    forall h | h in hs ensures x !in NewLines(h) {
      LongestWrittenBounds(hs, h);
      if x in NewLines(h) {
        LongestBounds(NewLines(h), x);
      }
    }
  }

  lemma {:induction false} LastLine(hs: seq<Hunk>) returns (n: nat)
    ensures InRange(hs, n) && n >= 1
  {
    n := 1;
    if hs == [] {
    } else {
      var h := hs[|hs| - 1];
      n := LastLine(hs[..|hs| - 1]);
      if h.startLine - 1 + h.lineCount > n {
        n := h.startLine - 1 + h.lineCount;
      }
    }
  }

  lemma {:induction false} AllTheSame(x: string, lines: seq<string>)
    requires forall i | 0 <= i < |lines| :: lines[i] == x
    ensures multiset(lines)[x] == |lines|
  {
    if lines == [] {
    } else {
      AllTheSame(x, lines[1..]);
      assert lines == [lines[0]] + lines[1..];
    }
  }

  lemma Separating(hs: seq<Hunk>) returns (content: string)
    requires Disjoint(hs) && !TieOrder(hs)
    ensures InRange(hs, |Split(content)|)
    ensures AppliedLines(Split(content), hs) != Patch(Split(content), LineEdits(hs))
  {
    var x := FreshLine(hs);
    var n := LastLine(hs);
    var lines := seq(n, _ => x);
    content := Join(lines);
    SplitJoin(lines);
    AllTheSame(x, lines);
    var sorted := SortDescending(hs);
    SortDisjoint(hs);
    SortTieOrder(hs);
    SortDescends(hs);
    SameHunksSorted(hs);
    forall i | 0 <= i < |sorted| ensures sorted[i].startLine - 1 + sorted[i].lineCount <= n {
      assert sorted[i] in hs;
    }
    LoopKeepsAtLeast(lines, sorted, x);
    PatchKeepsAtMost(lines, sorted, x);
    SamePatch(lines, sorted, hs);
  }

  /** The loop meets the simultaneous meaning on every document exactly under the tie order. */
  lemma TieOrderIsExact(hs: seq<Hunk>)
    requires Disjoint(hs)
    ensures TieOrder(hs) <==>
            forall content: string | InRange(hs, |Split(content)|) ::
              AppliedLines(Split(content), hs) == Patch(Split(content), LineEdits(hs))
  {
    if TieOrder(hs) {
      forall content: string | InRange(hs, |Split(content)|)
        ensures AppliedLines(Split(content), hs) == Patch(Split(content), LineEdits(hs))
      {
        AppliedIsPatch(Split(content), hs);
      }
    } else {
      var content := Separating(hs);
    }
  }
}
