/** `hunkUnifiedDiff` of `apps/vscode/src/session/repairReport.ts`. */
module UnifiedDiff {
  import opened Patches
  import opened Patching
  import opened Seqs
  import opened Text

  function Prefixed(prefix: char, lines: seq<string>): seq<string> {
    if lines == [] then []
    else Prefixed(prefix, lines[..|lines| - 1]) + [[prefix] + lines[|lines| - 1]]
  }

  /** The numbers of `@@ -oldStart,oldLen +newStart,newLen @@` and the rows of the four groups below it. */
  datatype Fragment = Fragment(
    oldStart: int, oldLen: nat, newStart: int, newLen: nat,
    before: seq<string>, removed: seq<string>, added: seq<string>, after: seq<string>)
  {
    /** `[...before, ...removed, ...added, ...after]`, each row behind the mark of its group. */
    function Body(): seq<string> {
      Prefixed(' ', before) + Prefixed('-', removed) + Prefixed('+', added) + Prefixed(' ', after)
    }
  }

  function Max(a: int, b: int): int { if a < b then b else a }

  function Min(a: int, b: int): int { if a < b then a else b }

  /** The rows `from..to`; a row behind the end of the file is rendered as `undefined`. */
  function Rows(lines: seq<string>, from: nat, to: nat): (rows: seq<string>)
    ensures |rows| == if to <= from then 0 else to - from
  {
    if to <= from then []
    else Rows(lines, from, to - 1) + [if to - 1 < |lines| then lines[to - 1] else "undefined"]
  }

  /** The rows `from..to` as far as the file has them. */
  function Slice(lines: seq<string>, from: nat, to: nat): seq<string> {
    if to <= from then []
    else if to - 1 < |lines| then Slice(lines, from, to - 1) + [lines[to - 1]]
    else Slice(lines, from, to - 1)
  }

  /** The fragment from row `from` on with these lines above, removed, added and below. */
  ghost predicate Reads(
      f: Fragment, from: nat, above: seq<string>, removed: seq<string>, added: seq<string>, below: seq<string>)
  {
    && f.oldStart == f.newStart == from + 1
    && f.oldLen == |above| + |removed| + |below| && f.newLen == |above| + |added| + |below|
    && f.before == above && f.removed == removed && f.added == added && f.after == below
  }

  /** The fragment of one hunk, with up to `context` lines to either side. */
  ghost predicate FragmentOf(lines: seq<string>, h: Hunk, context: nat, f: Fragment) {
    var first, last := h.startLine - 1, h.startLine - 1 + h.lineCount;
    var from := Max(0, first - context);
    Reads(f, from, Rows(lines, from, first), Slice(lines, first, last), NewLines(h), Slice(lines, last, last + context))
  }

  /** `for (i = from; i < to; i += 1) before.push(...)`, which does not look at the end of the file. */
  method PushRows(lines: seq<string>, from: nat, to: nat) returns (out: seq<string>)
    requires from <= to
    ensures out == Rows(lines, from, to)
  {
    out := [];
    for i := from to to
      invariant out == Rows(lines, from, i)
    {
      out := out + [if i < |lines| then lines[i] else "undefined"];
    }
  }

  /** `for (i = from; i < to && i < total; i += 1) out.push(...)`. */
  method Push(lines: seq<string>, from: nat, to: nat) returns (out: seq<string>)
    ensures out == Slice(lines, from, to)
  {
    out := [];
    var i := from;
    while i < to && i < |lines|
      invariant from <= i && (i <= to || i == from)
      invariant out == Slice(lines, from, i)
    {
      out := out + [lines[i]];
      i := i + 1;
    }
    SliceEnds(lines, from, i, to);
  }

  lemma {:induction false} SliceStops(lines: seq<string>, from: nat, to: nat)
    requires |lines| <= to
    ensures Slice(lines, from, to) == Slice(lines, from, |lines|)
  {
    if |lines| == to {
    } else {
      SliceStops(lines, from, to - 1);
      SliceEmpty(lines, from, |lines|);
    }
  }

  lemma SliceEmpty(lines: seq<string>, from: nat, to: nat)
    ensures to <= from ==> Slice(lines, from, to) == []
  {
  }

  lemma SliceEnds(lines: seq<string>, from: nat, i: nat, to: nat)
    requires from <= i && (i <= to || i == from) && !(i < to && i < |lines|)
    ensures Slice(lines, from, i) == Slice(lines, from, to)
  {
    if |lines| <= i <= to {
      SliceStops(lines, from, i);
      SliceStops(lines, from, to);
    }
  }

  method HunkUnifiedDiff(original: string, h: Hunk, context: nat) returns (f: Fragment)
    ensures FragmentOf(Split(original), h, context, f)
  {
    f := DiffOfLines(Split(original), h, context);
  }

  method DiffOfLines(lines: seq<string>, h: Hunk, context: nat) returns (f: Fragment)
    ensures FragmentOf(lines, h, context, f)
  {
    var first := h.startLine - 1;
    var ctxStart := Max(0, first - context);
    var before := PushRows(lines, ctxStart, first);
    var removed := RemovedRows(lines, h);
    var added := NewLines(h);
    var after := RowsBelow(lines, h, context);
    f := Fragment(ctxStart + 1, |before| + |removed| + |after|, ctxStart + 1, |before| + |added| + |after|,
                  before, removed, added, after);
  }

  method RemovedRows(lines: seq<string>, h: Hunk) returns (removed: seq<string>)
    ensures removed == Slice(lines, h.startLine - 1, h.startLine - 1 + h.lineCount)
  {
    removed := [];
    if h.lineCount > 0 {
      removed := Push(lines, h.startLine - 1, h.startLine - 1 + h.lineCount);
    }
  }

  method RowsBelow(lines: seq<string>, h: Hunk, context: nat) returns (after: seq<string>)
    ensures after == Slice(lines, h.startLine - 1 + h.lineCount, h.startLine - 1 + h.lineCount + context)
  {
    var first := h.startLine - 1;
    var lastRemoved := if h.lineCount > 0 then first + h.lineCount - 1 else first - 1;
    var ctxEnd := Min(|lines| - 1, (if h.lineCount > 0 then lastRemoved else first - 1) + context);
    var afterStart := if h.lineCount > 0 then lastRemoved + 1 else first;
    after := Push(lines, afterStart, ctxEnd + 1);
    EndOfFile(lines, afterStart, afterStart + context, ctxEnd + 1);
  }

  lemma EndOfFile(lines: seq<string>, from: nat, to: nat, end: nat)
    requires end == Min(|lines|, to)
    ensures Slice(lines, from, end) == Slice(lines, from, to)
  {
    if |lines| <= to {
      SliceStops(lines, from, to);
    }
  }

  // --- how a unified diff is read ---------------------------------------------------

  /** The lines of one side: context lines and those with the side's own mark, marks removed. */
  function Side(mark: char, body: seq<string>): seq<string> {
    if body == [] then []
    else
      (if body[0] != "" && (body[0][0] == ' ' || body[0][0] == mark) then [body[0][1..]] else [])
      + Side(mark, body[1..])
  }

  lemma {:induction false} SideAppend(mark: char, a: seq<string>, b: seq<string>)
    ensures Side(mark, a + b) == Side(mark, a) + Side(mark, b)
  {
    if a == [] {
      assert a + b == b;
    } else {
      SideAppend(mark, a[1..], b);
      assert (a + b)[1..] == a[1..] + b;
      Associates(Side(mark, a[..1]), Side(mark, a[1..]), Side(mark, b));
      SideOfFirst(mark, a);
      SideOfFirst(mark, a + b);
      assert (a + b)[..1] == a[..1];
    }
  }

  lemma SideOfFirst(mark: char, a: seq<string>)
    requires a != []
    ensures Side(mark, a) == Side(mark, a[..1]) + Side(mark, a[1..])
  {
    NothingLast(Side(mark, a[..1]), Side(mark, a[..1][1..]));
  }

  lemma {:induction false} SideOfPrefixed(mark: char, prefix: char, lines: seq<string>)
    ensures Side(mark, Prefixed(prefix, lines)) == if prefix == ' ' || prefix == mark then lines else []
  {
    if lines == [] {
    } else {
      var init, last := lines[..|lines| - 1], lines[|lines| - 1];
      SideOfPrefixed(mark, prefix, init);
      SideOfLast(mark, prefix, Prefixed(prefix, init), last);
      assert lines == init + [last];
    }
  }

  lemma SideOfLast(mark: char, prefix: char, body: seq<string>, line: string)
    ensures Side(mark, body + [[prefix] + line])
         == Side(mark, body) + if prefix == ' ' || prefix == mark then [line] else []
  {
    SideAppend(mark, body, [[prefix] + line]);
    SideOfOne(mark, prefix, line);
  }

  lemma SideOfOne(mark: char, prefix: char, line: string)
    ensures Side(mark, [[prefix] + line]) == if prefix == ' ' || prefix == mark then [line] else []
  {
    var body := [[prefix] + line];
    assert body[0][1..] == line && body[1..] == [];
  }

  lemma SideOfFour(mark: char, a: seq<string>, b: seq<string>, c: seq<string>, d: seq<string>)
    ensures Side(mark, a + b + c + d) == Side(mark, a) + Side(mark, b) + Side(mark, c) + Side(mark, d)
  {
    SideAppend(mark, a + b + c, d);
    SideAppend(mark, a + b, c);
    SideAppend(mark, a, b);
  }

  lemma OldSide(a: seq<string>, b: seq<string>, c: seq<string>, d: seq<string>)
    ensures Side('-', Prefixed(' ', a) + Prefixed('-', b) + Prefixed('+', c) + Prefixed(' ', d)) == a + b + d
  {
    SideOfFour('-', Prefixed(' ', a), Prefixed('-', b), Prefixed('+', c), Prefixed(' ', d));
    SideOfPrefixed('-', ' ', a);
    SideOfPrefixed('-', '-', b);
    SideOfPrefixed('-', '+', c);
    SideOfPrefixed('-', ' ', d);
    NothingLast(a + b, Side('-', Prefixed('+', c)));
  }

  lemma NewSide(a: seq<string>, b: seq<string>, c: seq<string>, d: seq<string>)
    ensures Side('+', Prefixed(' ', a) + Prefixed('-', b) + Prefixed('+', c) + Prefixed(' ', d)) == a + c + d
  {
    SideOfFour('+', Prefixed(' ', a), Prefixed('-', b), Prefixed('+', c), Prefixed(' ', d));
    SideOfPrefixed('+', ' ', a);
    SideOfPrefixed('+', '-', b);
    SideOfPrefixed('+', '+', c);
    SideOfPrefixed('+', ' ', d);
    NothingLast(a, Side('+', Prefixed('-', b)));
  }

  lemma ThreeSlices(s: seq<string>, a: nat, b: nat, c: nat, d: nat)
    requires a <= b <= c <= d <= |s|
    ensures s[a..b] + s[b..c] + s[c..d] == s[a..d]
  {
  }

  lemma SpliceSlice(s: seq<string>, from: nat, first: nat, last: nat, to: nat, text: seq<string>)
    requires from <= first <= last <= to <= |s|
    ensures Splice(s, from, to - from, s[from..first] + text + s[last..to]) == Splice(s, first, last - first, text)
  {
    assert s[..first] == s[..from] + s[from..first];
    assert s[last..] == s[last..to] + s[to..];
    Outward(s[..from], s[from..first], text, s[last..to], s[to..]);
  }

  lemma Outward(a: seq<string>, b: seq<string>, c: seq<string>, d: seq<string>, e: seq<string>)
    ensures a + (b + c + d) + e == (a + b) + c + (d + e)
  {
  }

  /** A single hunk that starts in the file, or right behind it, replaces what there is of its lines. */
  lemma SingleHunk(lines: seq<string>, h: Hunk, last: nat)
    requires h.startLine - 1 <= |lines| && last == Min(h.startLine - 1 + h.lineCount, |lines|)
    ensures AppliedLines(lines, [h]) == Splice(lines, h.startLine - 1, last - (h.startLine - 1), NewLines(h))
  {
    assert [h][..0] == [];
    SortOne(h);
    assert Spliced(lines, [h]) == JsSplice(Spliced(lines, []), h.startLine - 1, h.lineCount, NewLines(h));
  }

  lemma {:induction false} RowsInFile(lines: seq<string>, from: nat, to: nat)
    requires to <= |lines|
    ensures Rows(lines, from, to) == Slice(lines, from, to)
  {
    if to <= from {
    } else {
      RowsInFile(lines, from, to - 1);
    }
  }

  lemma {:induction false} SliceInFile(lines: seq<string>, from: nat, to: nat)
    requires from <= to <= |lines|
    ensures Slice(lines, from, to) == lines[from..to]
  {
    if from == to {
    } else {
      SliceInFile(lines, from, to - 1);
      assert lines[from..to] == lines[from..to - 1] + [lines[to - 1]];
    }
  }

  lemma SliceBelow(lines: seq<string>, from: nat, to: nat, start: nat, end: nat)
    requires from <= to && start == Min(from, |lines|) && end == Min(to, |lines|)
    ensures Slice(lines, from, to) == Slice(lines, start, end)
  {
    EndOfFile(lines, from, to, end);
    SliceEmpty(lines, from, end);
    SliceEmpty(lines, start, end);
  }

  lemma SidesOf(f: Fragment)
    ensures Side('-', f.Body()) == f.before + f.removed + f.after
    ensures Side('+', f.Body()) == f.before + f.added + f.after
  {
    OldSide(f.before, f.removed, f.added, f.after);
    NewSide(f.before, f.removed, f.added, f.after);
  }

  /** The old side is what the header names, and the new side in its place leaves `result`. */
  ghost predicate Fits(
      lines: seq<string>, f: Fragment, oldSide: seq<string>, newSide: seq<string>, result: seq<string>)
  {
    && 0 <= f.oldStart - 1 && f.oldStart - 1 + f.oldLen <= |lines| && |newSide| == f.newLen
    && oldSide == lines[f.oldStart - 1..f.oldStart - 1 + f.oldLen]
    && Splice(lines, f.oldStart - 1, f.oldLen, newSide) == result
  }

  lemma SlicesFit(lines: seq<string>, from: nat, first: nat, last: nat, to: nat, f: Fragment)
    requires from <= first <= last <= to <= |lines| && f.oldStart == from + 1 && f.oldLen == to - from
    requires f.before == lines[from..first] && f.removed == lines[first..last] && f.after == lines[last..to]
    requires f.newLen == |f.before| + |f.added| + |f.after|
    ensures Fits(lines, f, f.before + f.removed + f.after, f.before + f.added + f.after,
                 Splice(lines, first, last - first, f.added))
  {
    ThreeSlices(lines, from, first, last, to);
    SpliceSlice(lines, from, first, last, to, f.added);
  }

  /** A hunk that starts in the file, or right behind it, shows lines of the file only. */
  lemma ShownInFile(lines: seq<string>, h: Hunk, context: nat, from: nat, last: nat, to: nat)
    requires h.startLine - 1 <= |lines| && from == Max(0, h.startLine - 1 - context)
    requires last == Min(h.startLine - 1 + h.lineCount, |lines|)
    requires to == Min(h.startLine - 1 + h.lineCount + context, |lines|)
    ensures var first, end := h.startLine - 1, h.startLine - 1 + h.lineCount;
            && from <= first <= last <= to <= |lines|
            && Rows(lines, from, first) == Slice(lines, from, first)
            && Slice(lines, first, end) == Slice(lines, first, last)
            && Slice(lines, end, end + context) == Slice(lines, last, to)
  {
    var first, end := h.startLine - 1, h.startLine - 1 + h.lineCount;
    RowsInFile(lines, from, first);
    EndOfFile(lines, first, end, last);
    SliceBelow(lines, end, end + context, last, to);
  }

  lemma RowsFit(lines: seq<string>, from: nat, first: nat, last: nat, to: nat, f: Fragment)
    requires from <= first <= last <= to <= |lines|
    requires Reads(f, from, Slice(lines, from, first), Slice(lines, first, last), f.added, Slice(lines, last, to))
    ensures Fits(lines, f, f.before + f.removed + f.after, f.before + f.added + f.after,
                 Splice(lines, first, last - first, f.added))
  {
    SliceInFile(lines, from, first);
    SliceInFile(lines, first, last);
    SliceInFile(lines, last, to);
    SlicesFit(lines, from, first, last, to, f);
  }

  lemma FitsTheFile(lines: seq<string>, h: Hunk, context: nat, f: Fragment, last: nat)
    requires FragmentOf(lines, h, context, f) && h.startLine - 1 <= |lines|
    requires last == Min(h.startLine - 1 + h.lineCount, |lines|)
    ensures Fits(lines, f, f.before + f.removed + f.after, f.before + f.added + f.after,
                 Splice(lines, h.startLine - 1, last - (h.startLine - 1), NewLines(h)))
  {
    hide Fits, Rows, Slice, NewLines, Splice;
    var first, end := h.startLine - 1, h.startLine - 1 + h.lineCount;
    var from, to := Max(0, first - context), Min(end + context, |lines|);
    ShownInFile(lines, h, context, from, last, to);
    RowsFit(lines, from, first, last, to, f);
  }

  lemma BehindTheFile(lines: seq<string>, h: Hunk, context: nat, f: Fragment)
    requires FragmentOf(lines, h, context, f) && h.startLine - 1 > |lines|
    ensures f.oldStart - 1 + f.oldLen > |lines|
  {
  }

  /**
   The header names lines of the Original exactly when the hunk starts in it or right
   behind it.  Then the old side is the slice that the header names, and putting the new
   side in its place is exactly what applying the hunk does.
   */
  lemma DiffIsFaithful(original: string, h: Hunk, context: nat, f: Fragment)
    requires FragmentOf(Split(original), h, context, f)
    ensures var lines := Split(original);
            && (f.oldStart - 1 + f.oldLen <= |lines| <==> h.startLine - 1 <= |lines|)
            && (h.startLine - 1 <= |lines| ==>
                  Fits(lines, f, Side('-', f.Body()), Side('+', f.Body()), AppliedLines(lines, [h])))
  {
    if h.startLine - 1 <= |Split(original)| {
      var last := Min(h.startLine - 1 + h.lineCount, |Split(original)|);
      FitsTheFile(Split(original), h, context, f, last);
      SingleHunk(Split(original), h, last);
      SidesOf(f);
    } else {
      BehindTheFile(Split(original), h, context, f);
    }
  }

  /** To either side there are `context` lines of the Original, or all that it has, and both sides start alike. */
  lemma ContextIsFull(lines: seq<string>, h: Hunk, context: nat, f: Fragment)
    requires FragmentOf(lines, h, context, f) && h.startLine - 1 <= |lines|
    ensures var first, last := h.startLine - 1, Min(h.startLine - 1 + h.lineCount, |lines|);
            && |f.before| == Min(context, first) && |f.after| == Min(context, |lines| - last)
            && f.before == lines[first - |f.before|..first] && f.removed == lines[first..last]
            && f.after == lines[last..last + |f.after|] && f.added == NewLines(h)
            && f.oldStart == f.newStart == first - |f.before| + 1
  {
    hide Rows, Slice, NewLines;
    var first, end := h.startLine - 1, h.startLine - 1 + h.lineCount;
    var from, last, to := Max(0, first - context), Min(end, |lines|), Min(end + context, |lines|);
    ShownInFile(lines, h, context, from, last, to);
    SlicesAreFull(lines, from, first, last, to);
  }

  lemma SlicesAreFull(lines: seq<string>, from: nat, first: nat, last: nat, to: nat)
    requires from <= first <= last <= to <= |lines|
    ensures Slice(lines, from, first) == lines[from..first] && |lines[from..first]| == first - from
    ensures Slice(lines, first, last) == lines[first..last]
    ensures Slice(lines, last, to) == lines[last..to] && |lines[last..to]| == to - last
  {
    SliceInFile(lines, from, first);
    SliceInFile(lines, first, last);
    SliceInFile(lines, last, to);
  }

  lemma {:induction false} RowsAt(lines: seq<string>, from: nat, to: nat, k: nat)
    requires k < |Rows(lines, from, to)|
    ensures Rows(lines, from, to)[k] == if from + k < |lines| then lines[from + k] else "undefined"
  {
    if k == |Rows(lines, from, to)| - 1 {
    } else {
      RowsAt(lines, from, to - 1, k);
    }
  }

  /** Above a hunk the window is always full: rows that the Original does not have are shown as `undefined`. */
  lemma ContextAbove(lines: seq<string>, h: Hunk, context: nat, f: Fragment, k: nat)
    requires FragmentOf(lines, h, context, f) && k < |f.before|
    ensures |f.before| == Min(context, h.startLine - 1)
    ensures var row := h.startLine - 1 - |f.before| + k;
            f.before[k] == if row < |lines| then lines[row] else "undefined"
  {
    RowsAt(lines, Max(0, h.startLine - 1 - context), h.startLine - 1, k);
  }
}
