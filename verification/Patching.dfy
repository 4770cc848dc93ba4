/**
 Simultaneous edits of a sequence, stated position by position, and the laws that
 relate them to one-at-a-time splices.  The same definitions serve lines (the
 hunks of a candidate) and characters (the ranges of one editor transaction).
 */
module Patching {
  import opened Seqs

  /** Replace `count` elements from `start` by `text`; `count == 0` inserts before `start`. */
  datatype Edit<T> = Edit(start: nat, count: nat, text: seq<T>)

  predicate Intersects<T>(a: Edit<T>, b: Edit<T>) {
    if a.count == 0 && b.count == 0 then a.start == b.start
    else if a.count == 0 then b.start < a.start < b.start + b.count
    else if b.count == 0 then a.start < b.start < a.start + a.count
    else a.start < b.start + b.count && b.start < a.start + a.count
  }

  ghost predicate ClearOf<T>(es: seq<Edit<T>>, e: Edit<T>) {
    forall i | 0 <= i < |es| :: !Intersects(es[i], e)
  }

  ghost predicate AllClear<T>(es: seq<Edit<T>>) {
    forall i, j | 0 <= i < j < |es| :: !Intersects(es[i], es[j])
  }

  ghost predicate Fit<T>(es: seq<Edit<T>>, size: nat) {
    forall i | 0 <= i < |es| :: es[i].start + es[i].count <= size
  }

  // --- concatenations over a range of positions ---------------------------------

  /** `f(lo) + f(lo + 1) + ... + f(hi - 1)`. */
  function Cat<T>(f: nat -> seq<T>, lo: nat, hi: nat): seq<T>
    decreases hi - lo
  {
    if lo >= hi then [] else f(lo) + Cat(f, lo + 1, hi)
  }

  lemma {:induction false} CatSplit<T>(f: nat -> seq<T>, lo: nat, mid: nat, hi: nat)
    requires lo <= mid <= hi
    ensures Cat(f, lo, hi) == Cat(f, lo, mid) + Cat(f, mid, hi)
    decreases mid - lo
  {
    if lo >= mid {
    } else {
      CatSplit(f, lo + 1, mid, hi);
      Associates(f(lo), Cat(f, lo + 1, mid), Cat(f, mid, hi));
    }
  }

  lemma CatLast<T>(f: nat -> seq<T>, p: nat)
    ensures |Cat(f, 0, p + 1)| == |Cat(f, 0, p)| + |f(p)|
  {
    CatSplit(f, 0, p, p + 1);
  }

  lemma {:induction false} CatSame<T>(f: nat -> seq<T>, g: nat -> seq<T>, lo: nat, hi: nat)
    requires forall x: nat | lo <= x < hi :: f(x) == g(x)
    ensures Cat(f, lo, hi) == Cat(g, lo, hi)
    decreases hi - lo
  {
    if lo >= hi {
    } else {
      CatSame(f, g, lo + 1, hi);
    }
  }

  lemma {:induction false} CatCopies<T>(f: nat -> seq<T>, base: seq<T>, lo: nat, hi: nat)
    requires lo <= hi <= |base|
    requires forall x: nat | lo <= x < hi :: f(x) == [base[x]]
    ensures Cat(f, lo, hi) == base[lo..hi]
    decreases hi - lo
  {
    if lo >= hi {
    } else {
      CatCopies(f, base, lo + 1, hi);
      assert base[lo..hi] == [base[lo]] + base[lo + 1..hi];
    }
  }

  lemma {:induction false} CatNothing<T>(f: nat -> seq<T>, lo: nat, hi: nat)
    requires forall x: nat | lo <= x < hi :: |f(x)| == 0
    ensures |Cat(f, lo, hi)| == 0
    decreases hi - lo
  {
    if lo >= hi {
    } else {
      CatNothing(f, lo + 1, hi);
    }
  }

  // --- the declarative patch --------------------------------------------------

  /** What the insertions of `es` put before position `p`. */
  function Inserted<T>(es: seq<Edit<T>>, p: nat): seq<T> {
    if es == [] then []
    else
      var e := es[|es| - 1];
      Inserted(es[..|es| - 1], p) + (if e.count == 0 && e.start == p then e.text else [])
  }

  /** What the replacements of `es` that start at `p` write there. */
  function Replacing<T>(es: seq<Edit<T>>, p: nat): seq<T> {
    if es == [] then []
    else
      var e := es[|es| - 1];
      Replacing(es[..|es| - 1], p) + (if e.count > 0 && e.start == p then e.text else [])
  }

  predicate Covers<T>(e: Edit<T>, p: nat) {
    e.start <= p < e.start + e.count
  }

  predicate Covered<T>(es: seq<Edit<T>>, p: nat) {
    exists i | 0 <= i < |es| :: Covers(es[i], p)
  }

  /** The base element at `p`, unless an edit replaces it or `p` is past the end. */
  function Kept<T>(base: seq<T>, es: seq<Edit<T>>, p: nat): seq<T> {
    if p < |base| && !Covered(es, p) then [base[p]] else []
  }

  /** Everything the patched sequence holds on account of position `p`. */
  function Chunk<T>(base: seq<T>, es: seq<Edit<T>>, p: nat): seq<T> {
    Inserted(es, p) + (Replacing(es, p) + Kept(base, es, p))
  }

  function Chunks<T>(base: seq<T>, es: seq<Edit<T>>): nat -> seq<T> {
    (p: nat) => Chunk(base, es, p)
  }

  /** All edits of `es` applied to `base` at once; the position past the end takes insertions. */
  function Patch<T>(base: seq<T>, es: seq<Edit<T>>): seq<T> {
    Cat(Chunks(base, es), 0, |base| + 1)
  }

  lemma NoEdits<T>(base: seq<T>)
    ensures Patch(base, []) == base
  {
    CatSplit(Chunks(base, []), 0, |base|, |base| + 1);
    CatCopies(Chunks(base, []), base, 0, |base|);
    CatNothing(Chunks(base, []), |base|, |base| + 1);
  }

  // --- the chunks around one more edit ------------------------------------------

  lemma LastEdit<T>(es: seq<Edit<T>>, e: Edit<T>, p: nat)
    ensures Inserted(es + [e], p) == Inserted(es, p) + if e.count == 0 && e.start == p then e.text else []
    ensures Replacing(es + [e], p) == Replacing(es, p) + if e.count > 0 && e.start == p then e.text else []
    ensures Covered(es + [e], p) <==> Covered(es, p) || Covers(e, p)
  {
    assert (es + [e])[..|es|] == es;
    if Covered(es, p) {
      var i :| 0 <= i < |es| && Covers(es[i], p);
      assert (es + [e])[i] == es[i];
    }
    if Covers(e, p) {
      assert (es + [e])[|es|] == e;
    }
  }

  lemma {:induction false} NothingInserted<T>(es: seq<Edit<T>>, p: nat)
    requires forall i | 0 <= i < |es| :: es[i].count == 0 ==> es[i].start != p
    ensures |Inserted(es, p)| == 0
  {
    if es == [] {
    } else {
      NothingInserted(es[..|es| - 1], p);
    }
  }

  lemma {:induction false} NothingReplacing<T>(es: seq<Edit<T>>, p: nat)
    requires forall i | 0 <= i < |es| :: es[i].count > 0 ==> es[i].start != p
    ensures |Replacing(es, p)| == 0
  {
    if es == [] {
    } else {
      NothingReplacing(es[..|es| - 1], p);
    }
  }

  lemma UnaffectedChunk<T>(base: seq<T>, es: seq<Edit<T>>, e: Edit<T>, p: nat)
    requires p != e.start && !Covers(e, p)
    ensures Chunk(base, es + [e], p) == Chunk(base, es, p)
  {
    LastEdit(es, e, p);
  }

  /** Where a replacement starts, `es` may have put an insertion in front, and nothing else. */
  lemma ChunkAtReplacement<T>(base: seq<T>, es: seq<Edit<T>>, e: Edit<T>)
    requires ClearOf(es, e) && e.count > 0 && e.start + e.count <= |base|
    ensures Chunk(base, es, e.start) == Inserted(es, e.start) + [base[e.start]]
    ensures Chunk(base, es + [e], e.start) == Inserted(es, e.start) + e.text
  {
    forall i | 0 <= i < |es| ensures !Covers(es[i], e.start) {
      assert !Intersects(es[i], e);
    }
    NothingReplacing(es, e.start);
    ReplacementChunk(base, es, es + [e], e);
  }

  lemma ReplacementChunk<T>(base: seq<T>, es: seq<Edit<T>>, fs: seq<Edit<T>>, e: Edit<T>)
    requires fs == es + [e] && e.count > 0 && e.start < |base|
    requires |Replacing(es, e.start)| == 0 && !Covered(es, e.start)
    ensures Chunk(base, es, e.start) == Inserted(es, e.start) + [base[e.start]]
    ensures Chunk(base, fs, e.start) == Inserted(es, e.start) + e.text
  {
    LastEdit(es, e, e.start);
    assert Covers(e, e.start);
    OnlyOuter(Inserted(es, e.start), Replacing(es, e.start), [base[e.start]]);
    OnlyMiddle(Inserted(es, e.start), Replacing(es, e.start), e.text, Kept(base, fs, e.start));
    assert Inserted(es, e.start) + [] == Inserted(es, e.start);
  }

  /** Where an insertion goes, `es` inserts nothing. */
  lemma ChunkAtInsertion<T>(base: seq<T>, es: seq<Edit<T>>, e: Edit<T>)
    requires ClearOf(es, e) && e.count == 0
    ensures |Inserted(es, e.start)| == 0
    ensures Chunk(base, es + [e], e.start) == e.text + Chunk(base, es, e.start)
  {
    var p := e.start;
    forall i | 0 <= i < |es| ensures es[i].count == 0 ==> es[i].start != p {
      assert !Intersects(es[i], e);
    }
    NothingInserted(es, p);
    LastEdit(es, e, p);
    assert Kept(base, es + [e], p) == Kept(base, es, p);
    NothingFirst(Inserted(es, p), e.text);
    NothingFirst(Inserted(es, p), Replacing(es, p) + Kept(base, es, p));
  }

  /** Inside the target of a clear edit, `es` does nothing: every position is copied. */
  lemma ChunkInTarget<T>(base: seq<T>, es: seq<Edit<T>>, e: Edit<T>, p: nat)
    requires ClearOf(es, e) && e.start < p < e.start + e.count <= |base|
    ensures Chunk(base, es, p) == [base[p]] && |Chunk(base, es + [e], p)| == 0
  {
    forall i | 0 <= i < |es|
      ensures !Covers(es[i], p) && es[i].start != p
    {
      assert !Intersects(es[i], e);
    }
    NothingReplacing(es, p);
    NothingInserted(es, p);
    LastEdit(es, e, p);
    assert Covers(e, p);
  }

  // --- where a position of the base lands ----------------------------------------

  /** Net growth of everything that lies wholly above `p`; insertions at `p` count. */
  function Shift<T>(es: seq<Edit<T>>, p: nat): int {
    if es == [] then 0
    else Shift(es[..|es| - 1], p) + Growth(es[|es| - 1], p)
  }

  function Growth<T>(e: Edit<T>, p: nat): int {
    if e.count == 0 then (if e.start <= p then |e.text| else 0)
    else if e.start + e.count <= p then |e.text| - e.count else 0
  }

  ghost predicate Interior<T>(e: Edit<T>, p: nat) {
    e.start < p < e.start + e.count
  }

  ghost predicate Boundary<T>(es: seq<Edit<T>>, p: nat) {
    forall i | 0 <= i < |es| :: !Interior(es[i], p)
  }

  /** No position is replaced by both. */
  predicate Apart<T>(a: Edit<T>, b: Edit<T>) {
    a.count == 0 || b.count == 0 || a.start + a.count <= b.start || b.start + b.count <= a.start
  }

  lemma KeptGrowth<T>(base: seq<T>, es: seq<Edit<T>>, e: Edit<T>, p: nat)
    requires forall i | 0 <= i < |es| :: Apart(es[i], e)
    ensures |Kept(base, es + [e], p)| == |Kept(base, es, p)| - if Covers(e, p) && p < |base| then 1 else 0
  {
    LastEdit(es, e, p);
    if Covers(e, p) {
      forall i | 0 <= i < |es| ensures !Covers(es[i], p) {
        assert Apart(es[i], e);
      }
    }
  }

  lemma ChunkGrowth<T>(base: seq<T>, es: seq<Edit<T>>, e: Edit<T>, p: nat)
    requires forall i | 0 <= i < |es| :: Apart(es[i], e)
    ensures |Chunk(base, es + [e], p)|
         == |Chunk(base, es, p)| + (if e.start == p then |e.text| else 0)
          - (if Covers(e, p) && p < |base| then 1 else 0)
  {
    assert |Inserted(es + [e], p)| + |Replacing(es + [e], p)|
        == |Inserted(es, p)| + |Replacing(es, p)| + if e.start == p then |e.text| else 0 by {
      LastEdit(es, e, p);
    }
    KeptGrowth(base, es, e, p);
  }

  /** How much `e` adds to the chunks above position `p`. */
  function GrowthAbove<T>(e: Edit<T>, p: nat): int {
    if p <= e.start then 0 else |e.text| - if p < e.start + e.count then p - e.start else e.count
  }

  lemma {:induction false} LengthsAbove<T>(f: nat -> seq<T>, g: nat -> seq<T>, e: Edit<T>, p: nat)
    requires forall x: nat | x < p ::
               |g(x)| == |f(x)| + (if e.start == x then |e.text| else 0) - (if Covers(e, x) then 1 else 0)
    ensures |Cat(g, 0, p)| == |Cat(f, 0, p)| + GrowthAbove(e, p)
  {
    if p == 0 {
    } else {
      LengthsAbove(f, g, e, p - 1);
      CatLast(f, p - 1);
      CatLast(g, p - 1);
    }
  }

  /** One more edit changes the length of the part above `p` by what it did up there. */
  lemma PrefixGrowth<T>(base: seq<T>, es: seq<Edit<T>>, e: Edit<T>, p: nat)
    requires p <= |base| || (p == |base| + 1 && e.start + e.count <= |base|)
    requires forall i | 0 <= i < |es| :: Apart(es[i], e)
    ensures |Cat(Chunks(base, es + [e]), 0, p)| == |Cat(Chunks(base, es), 0, p)| + GrowthAbove(e, p)
  {
    forall x: nat | x < p
      ensures |Chunk(base, es + [e], x)|
           == |Chunk(base, es, x)| + (if e.start == x then |e.text| else 0) - (if Covers(e, x) then 1 else 0)
    {
      ChunkGrowth(base, es, e, x);
    }
    LengthsAbove(Chunks(base, es), Chunks(base, es + [e]), e, p);
  }

  lemma {:induction false} PrefixLength<T>(base: seq<T>, es: seq<Edit<T>>, p: nat)
    requires p <= |base| && AllClear(es) && Boundary(es, p)
    ensures |Cat(Chunks(base, es), 0, p)| + |Inserted(es, p)| == p + Shift(es, p)
  {
    if es == [] {
      CatCopies(Chunks(base, es), base, 0, p);
    } else {
      var n := |es| - 1;
      var init, e := es[..n], es[n];
      assert es == init + [e];
      assert ClearOf(init, e) && AllClear(init) && Boundary(init, p);
      PrefixLength(base, init, p);
      PrefixGrowth(base, init, e, p);
      LastEdit(init, e, p);
      assert !Interior(e, p);
    }
  }

  ghost predicate AllApart<T>(es: seq<Edit<T>>) {
    forall i, j | 0 <= i < j < |es| :: Apart(es[i], es[j])
  }

  function Net<T>(es: seq<Edit<T>>): int {
    if es == [] then 0 else Net(es[..|es| - 1]) + |es[|es| - 1].text| - es[|es| - 1].count
  }

  /** The length of a patch, also with several insertions at one position. */
  lemma {:induction false} PatchSize<T>(base: seq<T>, es: seq<Edit<T>>)
    requires AllApart(es) && Fit(es, |base|)
    ensures |Patch(base, es)| == |base| + Net(es)
  {
    if es == [] {
      NoEdits(base);
    } else {
      var init, e := es[..|es| - 1], es[|es| - 1];
      assert es == init + [e];
      PatchSize(base, init);
      PrefixGrowth(base, init, e, |base| + 1);
    }
  }

  // --- one more edit is one splice -------------------------------------------------

  /** `lines.splice(at, count, ...text)` for an in-range splice. */
  function Splice<T>(s: seq<T>, at: nat, count: nat, text: seq<T>): seq<T>
    requires at + count <= |s|
  {
    s[..at] + text + s[at + count..]
  }

  /** `t` is `s` with the `count` elements at `at` rewritten to `text`. */
  ghost predicate Rewritten<T(!new)>(s: seq<T>, at: nat, count: nat, text: seq<T>, t: seq<T>) {
    exists before: seq<T>, target: seq<T>, rest: seq<T> ::
      |before| == at && |target| == count && s == before + (target + rest) && t == before + (text + rest)
  }

  lemma RewrittenIsSplice<T(!new)>(s: seq<T>, at: nat, count: nat, text: seq<T>, t: seq<T>)
    requires Rewritten(s, at, count, text, t)
    ensures at + count <= |s| && t == Splice(s, at, count, text)
  {
  }

  /** Two families of chunks that differ only on `p..q`, where one copies and the other writes. */
  lemma CatReplace<T(!new)>(
      f: nat -> seq<T>, g: nat -> seq<T>, base: seq<T>, p: nat, q: nat, n: nat, ins: seq<T>, text: seq<T>)
    requires p < q <= n && q <= |base|
    requires forall x: nat | x < p || q <= x :: f(x) == g(x)
    requires forall x: nat | p < x < q :: f(x) == [base[x]] && |g(x)| == 0
    requires f(p) == ins + [base[p]] && g(p) == ins + text
    ensures Rewritten(Cat(f, 0, n), |Cat(f, 0, p)| + |ins|, q - p, text, Cat(g, 0, n))
  {
    CatSame(f, g, 0, p);
    CatSame(f, g, q, n);
    CatCopyAfter(f, base, p, q, ins);
    CatWriteFirst(g, p, q);
    ThreeParts(f, p, q, n);
    ThreeParts(g, p, q, n);
    ReplacementWitness(Cat(f, 0, p), ins, base[p..q], text, Cat(f, q, n), Cat(f, 0, n), Cat(g, 0, n));
  }

  lemma ReplacementWitness<T(!new)>(
      above: seq<T>, ins: seq<T>, was: seq<T>, text: seq<T>, rest: seq<T>, s: seq<T>, t: seq<T>)
    requires s == above + ((ins + was) + rest) && t == above + ((ins + text) + rest)
    ensures Rewritten(s, |above| + |ins|, |was|, text, t)
  {
    Regroup(above, ins, was, rest);
    Regroup(above, ins, text, rest);
  }

  lemma CatCopyAfter<T>(f: nat -> seq<T>, base: seq<T>, p: nat, q: nat, ins: seq<T>)
    requires p < q <= |base|
    requires f(p) == ins + [base[p]]
    requires forall x: nat | p < x < q :: f(x) == [base[x]]
    ensures Cat(f, p, q) == ins + base[p..q]
  {
    CatCopies(f, base, p + 1, q);
    Associates(ins, [base[p]], base[p + 1..q]);
    assert base[p..q] == [base[p]] + base[p + 1..q];
  }

  lemma CatWriteFirst<T>(g: nat -> seq<T>, p: nat, q: nat)
    requires p < q
    requires forall x: nat | p < x < q :: |g(x)| == 0
    ensures Cat(g, p, q) == g(p)
  {
    CatNothing(g, p + 1, q);
  }

  /** Two families of chunks of which one writes `text` in front of position `p`. */
  lemma CatInsert<T(!new)>(f: nat -> seq<T>, g: nat -> seq<T>, p: nat, n: nat, text: seq<T>)
    requires p < n
    requires forall x: nat | x != p :: f(x) == g(x)
    requires g(p) == text + f(p)
    ensures Rewritten(Cat(f, 0, n), |Cat(f, 0, p)|, 0, text, Cat(g, 0, n))
  {
    CatSame(f, g, 0, p);
    CatSame(f, g, p + 1, n);
    CatSplit(f, 0, p, n);
    CatSplit(g, 0, p, n);
    Associates(text, f(p), Cat(f, p + 1, n));
    InsertionWitness(Cat(f, 0, p), text, Cat(f, p, n), Cat(f, 0, n), Cat(g, 0, n));
  }

  lemma InsertionWitness<T(!new)>(before: seq<T>, text: seq<T>, rest: seq<T>, s: seq<T>, t: seq<T>)
    requires s == before + rest && t == before + (text + rest)
    ensures Rewritten(s, |before|, 0, text, t)
  {
    var nothing: seq<T> := [];
    NothingFirst(nothing, rest);
  }

  lemma ThreeParts<T>(f: nat -> seq<T>, p: nat, q: nat, n: nat)
    requires p <= q <= n
    ensures Cat(f, 0, n) == Cat(f, 0, p) + (Cat(f, p, q) + Cat(f, q, n))
  {
    CatSplit(f, 0, p, n);
    CatSplit(f, p, q, n);
  }

  lemma LandingSpot<T>(base: seq<T>, es: seq<Edit<T>>, e: Edit<T>)
    requires AllClear(es) && ClearOf(es, e) && e.start + e.count <= |base|
    ensures |Cat(Chunks(base, es), 0, e.start)| + |Inserted(es, e.start)| == e.start + Shift(es, e.start)
  {
    forall i | 0 <= i < |es| ensures !Interior(es[i], e.start) {
      assert !Intersects(es[i], e);
    }
    PrefixLength(base, es, e.start);
  }

  /** A new, clear edit lands exactly `Shift` elements away from its base position. */
  lemma Rebase<T(!new)>(base: seq<T>, es: seq<Edit<T>>, e: Edit<T>)
    requires AllClear(es) && ClearOf(es, e) && e.start + e.count <= |base|
    ensures 0 <= e.start + Shift(es, e.start)
    ensures Rewritten(Patch(base, es), e.start + Shift(es, e.start), e.count, e.text, Patch(base, es + [e]))
  {
    LandingSpot(base, es, e);
    if e.count == 0 {
      RebaseInsertion(base, es, e);
    } else {
      RebaseReplacement(base, es, e);
    }
  }

  lemma RebaseReplacement<T(!new)>(base: seq<T>, es: seq<Edit<T>>, e: Edit<T>)
    requires ClearOf(es, e) && e.count > 0 && e.start + e.count <= |base|
    ensures Rewritten(Patch(base, es), |Cat(Chunks(base, es), 0, e.start)| + |Inserted(es, e.start)|,
                      e.count, e.text, Patch(base, es + [e]))
  {
    ReplacementChunks(base, es, e, Chunks(base, es), Chunks(base, es + [e]));
    CatReplace(Chunks(base, es), Chunks(base, es + [e]), base, e.start, e.start + e.count, |base| + 1,
               Inserted(es, e.start), e.text);
  }

  lemma ReplacementChunks<T>(base: seq<T>, es: seq<Edit<T>>, e: Edit<T>, f: nat -> seq<T>, g: nat -> seq<T>)
    requires ClearOf(es, e) && e.count > 0 && e.start + e.count <= |base|
    requires f == Chunks(base, es) && g == Chunks(base, es + [e])
    ensures forall x: nat | x < e.start || e.start + e.count <= x :: f(x) == g(x)
    ensures forall x: nat | e.start < x < e.start + e.count :: f(x) == [base[x]] && |g(x)| == 0
    ensures f(e.start) == Inserted(es, e.start) + [base[e.start]]
    ensures g(e.start) == Inserted(es, e.start) + e.text
  {
    forall x: nat | x < e.start || e.start + e.count <= x ensures f(x) == g(x) {
      UnaffectedChunk(base, es, e, x);
    }
    forall x: nat | e.start < x < e.start + e.count ensures f(x) == [base[x]] && |g(x)| == 0 {
      ChunkInTarget(base, es, e, x);
    }
    ChunkAtReplacement(base, es, e);
  }

  lemma RebaseInsertion<T(!new)>(base: seq<T>, es: seq<Edit<T>>, e: Edit<T>)
    requires ClearOf(es, e) && e.count == 0 && e.start <= |base|
    ensures |Inserted(es, e.start)| == 0
    ensures Rewritten(Patch(base, es), |Cat(Chunks(base, es), 0, e.start)|, 0, e.text, Patch(base, es + [e]))
  {
    var f, g := Chunks(base, es), Chunks(base, es + [e]);
    forall x: nat | x != e.start ensures f(x) == g(x) {
      UnaffectedChunk(base, es, e, x);
    }
    ChunkAtInsertion(base, es, e);
    CatInsert(f, g, e.start, |base| + 1, e.text);
  }

  // --- the patch depends on the edits only, not on their order -------------------------

  lemma PatchLength<T>(base: seq<T>, es: seq<Edit<T>>)
    requires AllClear(es) && Fit(es, |base|)
    ensures |Patch(base, es)| == |base| + Shift(es, |base|)
  {
    PrefixLength(base, es, |base|);
    CatLast(Chunks(base, es), |base|);
    NothingReplacing(es, |base|);
  }

  lemma {:induction false} InsertedIs<T>(es: seq<Edit<T>>, e: Edit<T>)
    requires AllClear(es) && e in es && e.count == 0
    ensures Inserted(es, e.start) == e.text
  {
    var n := |es| - 1;
    var init, last := es[..n], es[n];
    if e == last {
      forall i | 0 <= i < |init| ensures init[i].count == 0 ==> init[i].start != e.start {
        assert !Intersects(es[i], es[n]);
      }
      NothingInserted(init, e.start);
    } else {
      var i :| 0 <= i < |es| && es[i] == e;
      assert init[i] == e && !Intersects(es[i], es[n]);
      InsertedIs(init, e);
    }
  }

  lemma {:induction false} ReplacingIs<T>(es: seq<Edit<T>>, e: Edit<T>)
    requires AllClear(es) && e in es && e.count > 0
    ensures Replacing(es, e.start) == e.text
  {
    var n := |es| - 1;
    var init, last := es[..n], es[n];
    if e == last {
      forall i | 0 <= i < |init| ensures init[i].count > 0 ==> init[i].start != e.start {
        assert !Intersects(es[i], es[n]);
      }
      NothingReplacing(init, e.start);
    } else {
      var i :| 0 <= i < |es| && es[i] == e;
      assert init[i] == e && !Intersects(es[i], es[n]);
      ReplacingIs(init, e);
    }
  }

  ghost predicate SameEdits<T>(es: seq<Edit<T>>, fs: seq<Edit<T>>) {
    (forall e :: e in es ==> e in fs) && (forall e :: e in fs ==> e in es)
  }

  lemma SameInserted<T>(es: seq<Edit<T>>, fs: seq<Edit<T>>, p: nat)
    requires AllClear(es) && AllClear(fs) && SameEdits(es, fs)
    ensures Inserted(es, p) == Inserted(fs, p)
  {
    if i :| 0 <= i < |es| && es[i].count == 0 && es[i].start == p {
      assert es[i] in fs;
      InsertedIs(es, es[i]);
      InsertedIs(fs, es[i]);
    } else {
      NothingInserted(es, p);
      forall j | 0 <= j < |fs| ensures fs[j].count == 0 ==> fs[j].start != p {
        assert fs[j] in es;
      }
      NothingInserted(fs, p);
    }
  }

  lemma SameReplacing<T>(es: seq<Edit<T>>, fs: seq<Edit<T>>, p: nat)
    requires AllClear(es) && AllClear(fs) && SameEdits(es, fs)
    ensures Replacing(es, p) == Replacing(fs, p)
  {
    if i :| 0 <= i < |es| && es[i].count > 0 && es[i].start == p {
      assert es[i] in fs;
      ReplacingIs(es, es[i]);
      ReplacingIs(fs, es[i]);
    } else {
      NothingReplacing(es, p);
      forall j | 0 <= j < |fs| ensures fs[j].count > 0 ==> fs[j].start != p {
        assert fs[j] in es;
      }
      NothingReplacing(fs, p);
    }
  }

  lemma SameChunk<T>(base: seq<T>, es: seq<Edit<T>>, fs: seq<Edit<T>>, p: nat)
    requires AllClear(es) && AllClear(fs) && SameEdits(es, fs)
    ensures Chunk(base, es, p) == Chunk(base, fs, p)
  {
    SameInserted(es, fs, p);
    SameReplacing(es, fs, p);
    if Covered(es, p) {
      SameCover(es, fs, p);
    }
    if Covered(fs, p) {
      SameCover(fs, es, p);
    }
  }

  lemma SameCover<T>(es: seq<Edit<T>>, fs: seq<Edit<T>>, p: nat)
    requires SameEdits(es, fs) && Covered(es, p)
    ensures Covered(fs, p)
  {
    var i :| 0 <= i < |es| && Covers(es[i], p);
    assert es[i] in fs;
  }

  /** Two clear lists of the same edits patch alike, whatever their order. */
  lemma PatchOrderFree<T>(base: seq<T>, es: seq<Edit<T>>, fs: seq<Edit<T>>)
    requires AllClear(es) && AllClear(fs) && SameEdits(es, fs)
    ensures Patch(base, es) == Patch(base, fs)
  {
    forall q: nat ensures Chunks(base, es)(q) == Chunks(base, fs)(q) {
      SameChunk(base, es, fs, q);
    }
    CatSame(Chunks(base, es), Chunks(base, fs), 0, |base| + 1);
  }

  // --- a second batch, rebased edit by edit, completes the first --------------------------

  /** Where base position `p` is found after `es`. */
  function Land<T>(es: seq<Edit<T>>, p: nat): nat {
    var at := p + Shift(es, p);
    if at < 0 then 0 else at
  }

  function Landed<T>(es: seq<Edit<T>>, e: Edit<T>): Edit<T> {
    e.(start := Land(es, e.start))
  }

  /** `more`, each edit moved on its own to where its target is after `es`. */
  function AllLanded<T>(es: seq<Edit<T>>, more: seq<Edit<T>>): seq<Edit<T>> {
    seq(|more|, i requires 0 <= i < |more| => Landed(es, more[i]))
  }

  /** Every replacement leaves something behind, so distinct boundaries stay distinct. */
  ghost predicate LeavesText<T>(es: seq<Edit<T>>) {
    forall i | 0 <= i < |es| :: es[i].count > 0 ==> |es[i].text| > 0
  }

  lemma BoundaryChunk<T>(base: seq<T>, es: seq<Edit<T>>, p: nat)
    requires p < |base| && AllClear(es) && LeavesText(es) && Boundary(es, p)
    ensures |Chunk(base, es, p)| > |Inserted(es, p)|
  {
    if i :| 0 <= i < |es| && Covers(es[i], p) {
      assert !Interior(es[i], p);
      ReplacingIs(es, es[i]);
    }
  }

  lemma LandMonotone<T>(base: seq<T>, es: seq<Edit<T>>, p: nat, q: nat)
    requires p < q <= |base| && AllClear(es) && LeavesText(es) && Boundary(es, p) && Boundary(es, q)
    ensures Land(es, p) < Land(es, q)
  {
    PrefixLength(base, es, p);
    PrefixLength(base, es, q);
    CatSplit(Chunks(base, es), 0, p, q);
    BoundaryChunk(base, es, p);
  }

  /** Before it is replaced, the target of a clear edit is copied, behind what is inserted in front of it. */
  lemma CopiesTarget<T>(base: seq<T>, es: seq<Edit<T>>, e: Edit<T>, f: nat -> seq<T>)
    requires ClearOf(es, e) && e.count > 0 && e.start + e.count <= |base| && f == Chunks(base, es)
    ensures f(e.start) == Inserted(es, e.start) + [base[e.start]]
    ensures forall x: nat | e.start < x < e.start + e.count :: f(x) == [base[x]]
  {
    ReplacementChunks(base, es, e, f, Chunks(base, es + [e]));
  }

  lemma {:induction false} ShiftAcross<T>(es: seq<Edit<T>>, e: Edit<T>)
    requires ClearOf(es, e) && e.count > 0
    ensures Shift(es, e.start) <= Shift(es, e.start + e.count)
  {
    if es == [] {
    } else {
      ShiftAcross(es[..|es| - 1], e);
      assert !Intersects(es[|es| - 1], e);
    }
  }

  /** The whole target of a clear replacement moves together. */
  lemma LandTarget<T>(base: seq<T>, es: seq<Edit<T>>, e: Edit<T>)
    requires AllClear(es) && ClearOf(es, e) && e.count > 0 && e.start + e.count <= |base|
    ensures Boundary(es, e.start) && Boundary(es, e.start + e.count)
    ensures Land(es, e.start) + e.count <= Land(es, e.start + e.count)
  {
    forall i | 0 <= i < |es| ensures !Interior(es[i], e.start) && !Interior(es[i], e.start + e.count) {
      assert !Intersects(es[i], e);
    }
    LandingSpot(base, es, e);
    ShiftAcross(es, e);
  }

  /** The order of two edits clear of `es` survives landing. */
  lemma LandingOrder<T>(base: seq<T>, es: seq<Edit<T>>, x: Edit<T>, y: Edit<T>)
    requires AllClear(es) && LeavesText(es) && ClearOf(es, x) && ClearOf(es, y)
    requires x.start + x.count <= |base| && y.start + y.count <= |base|
    ensures x.start < y.start ==> Land(es, x.start) < Land(es, y.start)
    ensures x.start + x.count <= y.start ==> Land(es, x.start) + x.count <= Land(es, y.start)
  {
    forall i | 0 <= i < |es| ensures !Interior(es[i], x.start) && !Interior(es[i], y.start) {
      assert !Intersects(es[i], x) && !Intersects(es[i], y);
    }
    if x.start < y.start {
      LandMonotone(base, es, x.start, y.start);
    }
    if x.count > 0 && x.start + x.count <= y.start {
      LandTarget(base, es, x);
      if x.start + x.count < y.start {
        LandMonotone(base, es, x.start + x.count, y.start);
      }
    }
  }

  /** Also where replacements leave nothing behind, what lies below lands no higher. */
  lemma LandingWeak<T>(base: seq<T>, es: seq<Edit<T>>, p: nat, q: nat)
    requires p <= q <= |base| && AllClear(es) && Boundary(es, p) && Boundary(es, q)
    ensures p + Shift(es, p) <= q + Shift(es, q)
  {
    PrefixLength(base, es, p);
    PrefixLength(base, es, q);
    CatSplit(Chunks(base, es), 0, p, q);
  }

  /** Two edits clear of `es`, one below the other, land at rows that exist, one below the other. */
  lemma LandingApart<T>(base: seq<T>, es: seq<Edit<T>>, x: Edit<T>, y: Edit<T>)
    requires AllClear(es) && ClearOf(es, x) && ClearOf(es, y)
    requires x.start + x.count <= y.start && y.start + y.count <= |base|
    ensures 0 <= x.start + Shift(es, x.start)
    ensures x.start + Shift(es, x.start) + x.count <= y.start + Shift(es, y.start)
  {
    LandingSpot(base, es, x);
    forall i | 0 <= i < |es| ensures !Interior(es[i], x.start) && !Interior(es[i], y.start) {
      assert !Intersects(es[i], x) && !Intersects(es[i], y);
    }
    if x.count == 0 {
      LandingWeak(base, es, x.start, y.start);
    } else {
      LandTarget(base, es, x);
      ShiftAcross(es, x);
      LandingWeak(base, es, x.start + x.count, y.start);
    }
  }

  lemma LandedPair<T>(base: seq<T>, es: seq<Edit<T>>, x: Edit<T>, y: Edit<T>)
    requires AllClear(es) && LeavesText(es) && ClearOf(es, x) && ClearOf(es, y) && !Intersects(x, y)
    requires x.start + x.count <= |base| && y.start + y.count <= |base|
    ensures !Intersects(Landed(es, x), Landed(es, y))
    ensures Growth(Landed(es, x), Land(es, y.start)) == Growth(x, y.start)
  {
    LandingOrder(base, es, x, y);
    LandingOrder(base, es, y, x);
  }

  lemma {:induction false} ShiftAppend<T>(es: seq<Edit<T>>, more: seq<Edit<T>>, p: nat)
    ensures Shift(es + more, p) == Shift(es, p) + Shift(more, p)
  {
    if more == [] {
      assert es + more == es;
    } else {
      var n := |more| - 1;
      ShiftAppend(es, more[..n], p);
      assert (es + more)[..|es + more| - 1] == es + more[..n];
    }
  }

  lemma {:induction false} ShiftOfLanded<T>(base: seq<T>, es: seq<Edit<T>>, more: seq<Edit<T>>, e: Edit<T>)
    requires AllClear(es) && LeavesText(es) && ClearOf(es, e) && ClearOf(more, e)
    requires forall i | 0 <= i < |more| :: ClearOf(es, more[i])
    requires Fit(more, |base|) && e.start + e.count <= |base|
    ensures Shift(AllLanded(es, more), Land(es, e.start)) == Shift(more, e.start)
    ensures ClearOf(AllLanded(es, more), Landed(es, e))
  {
    hide Intersects, Patch, Land, Growth, LeavesText;
    if more == [] {
    } else {
      var n := |more| - 1;
      ShiftOfLanded(base, es, more[..n], e);
      LandedPair(base, es, more[n], e);
      assert AllLanded(es, more) == AllLanded(es, more[..n]) + [Landed(es, more[n])];
      assert AllLanded(es, more)[..n] == AllLanded(es, more[..n]);
    }
  }

  lemma SameRewrite<T(!new)>(s: seq<T>, at: nat, count: nat, text: seq<T>, t: seq<T>, u: seq<T>)
    requires Rewritten(s, at, count, text, t) && Rewritten(s, at, count, text, u)
    ensures t == u
  {
    RewrittenIsSplice(s, at, count, text, t);
    RewrittenIsSplice(s, at, count, text, u);
  }

  lemma AllLandedClear<T>(base: seq<T>, es: seq<Edit<T>>, more: seq<Edit<T>>)
    requires AllClear(es) && LeavesText(es) && AllClear(more) && Fit(more, |base|)
    requires forall i | 0 <= i < |more| :: ClearOf(es, more[i])
    ensures AllClear(AllLanded(es, more))
  {
    forall i, j | 0 <= i < j < |more|
      ensures !Intersects(AllLanded(es, more)[i], AllLanded(es, more)[j])
    {
      LandedPair(base, es, more[i], more[j]);
    }
  }

  lemma OneMoreLanded<T(!new)>(base: seq<T>, es: seq<Edit<T>>, init: seq<Edit<T>>, e: Edit<T>, fs: seq<Edit<T>>)
    requires AllClear(es) && ClearOf(es, e) && AllClear(es + init) && ClearOf(es + init, e)
    requires AllClear(fs) && ClearOf(fs, Landed(es, e)) && e.start + e.count <= |base|
    requires Shift(fs, Land(es, e.start)) == Shift(init, e.start)
    requires Patch(Patch(base, es), fs) == Patch(base, es + init)
    ensures Patch(Patch(base, es), fs + [Landed(es, e)]) == Patch(base, (es + init) + [e])
  {
    var all := es + init;
    ShiftAppend(es, init, e.start);
    Rebase(base, es, e);
    RewrittenIsSplice(Patch(base, es), Land(es, e.start), e.count, e.text, Patch(base, es + [e]));
    Rebase(base, all, e);
    Rebase(Patch(base, es), fs, Landed(es, e));
    SameRewrite(Patch(base, all), e.start + Shift(all, e.start), e.count, e.text,
                Patch(base, all + [e]), Patch(Patch(base, es), fs + [Landed(es, e)]));
  }

  lemma NothingLanded<T>(base: seq<T>, es: seq<Edit<T>>, more: seq<Edit<T>>)
    requires more == []
    ensures Patch(Patch(base, es), AllLanded(es, more)) == Patch(base, es + more)
  {
    NoEdits(Patch(base, es));
    assert AllLanded(es, more) == [];
    assert es + more == es;
  }

  lemma LandedLast<T>(es: seq<Edit<T>>, init: seq<Edit<T>>, e: Edit<T>, more: seq<Edit<T>>)
    requires more == init + [e]
    ensures AllLanded(es, more) == AllLanded(es, init) + [Landed(es, e)] && es + more == (es + init) + [e]
  {
  }

  /** Patching what `es` left with the landed `more` is patching the base with both. */
  lemma {:induction false} PatchInTwo<T(!new)>(base: seq<T>, es: seq<Edit<T>>, more: seq<Edit<T>>)
    requires AllClear(es + more) && Fit(more, |base|) && LeavesText(es)
    ensures Patch(Patch(base, es), AllLanded(es, more)) == Patch(base, es + more)
    decreases |more|
  {
    if more == [] {
      NothingLanded(base, es, more);
    } else {
      var init, e := more[..|more| - 1], more[|more| - 1];
      PartsClear(es, init, e, more);
      PatchInTwo(base, es, init);
      AllLandedClear(base, es, init);
      ShiftOfLanded(base, es, init, e);
      OneMoreLanded(base, es, init, e, AllLanded(es, init));
      LandedLast(es, init, e, more);
    }
  }

  // --- edits that write back what was there -------------------------------------------------

  ghost predicate Holds<T>(s: seq<T>, at: int, part: seq<T>) {
    0 <= at && at + |part| <= |s| && s[at..at + |part|] == part
  }

  lemma HoldsMiddle<T>(a: seq<T>, b: seq<T>, c: seq<T>, rest: seq<T>, s: seq<T>)
    requires s == a + ((b + c) + rest)
    ensures Holds(s, |a| + |b|, c)
  {
    Regroup(a, b, c, rest);
    MiddleSlice(a + b, c, rest, s);
  }

  /** What the base has where `e` would replace it. */
  function Target<T>(base: seq<T>, e: Edit<T>): (target: seq<T>)
    requires e.start + e.count <= |base|
    ensures |target| == e.count
  {
    base[e.start..e.start + e.count]
  }

  ghost predicate Restates<T>(base: seq<T>, e: Edit<T>) {
    e.start + e.count <= |base| && e.text == Target(base, e)
  }

  /** The target of an edit that is clear of `es` is found unchanged where the edit would land. */
  lemma TargetKept<T(!new)>(base: seq<T>, es: seq<Edit<T>>, e: Edit<T>)
    requires AllClear(es) && ClearOf(es, e) && e.start + e.count <= |base|
    ensures Holds(Patch(base, es), e.start + Shift(es, e.start), Target(base, e))
  {
    hide Patch, Shift, Chunks, Inserted, Cat, Holds;
    LandingSpot(base, es, e);
    if e.count == 0 {
      Rebase(base, es, e);
      EmptyHeld(Patch(base, es), e.start + Shift(es, e.start), e.text, Patch(base, es + [e]), Target(base, e));
    } else {
      TargetCopied(base, es, e, Chunks(base, es));
      CopyHeld(base, es, e, Chunks(base, es), Inserted(es, e.start), Target(base, e));
    }
  }

  lemma EmptyHeld<T(!new)>(s: seq<T>, at: nat, text: seq<T>, t: seq<T>, none: seq<T>)
    requires Rewritten(s, at, 0, text, t) && |none| == 0
    ensures Holds(s, at, none)
  {
    RewrittenIsSplice(s, at, 0, text, t);
  }

  lemma TargetCopied<T>(base: seq<T>, es: seq<Edit<T>>, e: Edit<T>, f: nat -> seq<T>)
    requires ClearOf(es, e) && e.count > 0 && e.start + e.count <= |base| && f == Chunks(base, es)
    ensures Cat(f, e.start, e.start + e.count) == Inserted(es, e.start) + Target(base, e)
  {
    CopiesTarget(base, es, e, f);
    CatCopyAfter(f, base, e.start, e.start + e.count, Inserted(es, e.start));
  }

  lemma CopyHeld<T>(base: seq<T>, es: seq<Edit<T>>, e: Edit<T>, f: nat -> seq<T>, ins: seq<T>, target: seq<T>)
    requires e.start + e.count <= |base| && f == Chunks(base, es)
    requires Cat(f, e.start, e.start + e.count) == ins + target
    ensures Holds(Patch(base, es), |Cat(f, 0, e.start)| + |ins|, target)
  {
    PartHeld(f, e.start, e.start + e.count, |base| + 1, ins, target);
  }

  lemma PartHeld<T>(f: nat -> seq<T>, p: nat, q: nat, n: nat, ins: seq<T>, target: seq<T>)
    requires p <= q <= n && Cat(f, p, q) == ins + target
    ensures Holds(Cat(f, 0, n), |Cat(f, 0, p)| + |ins|, target)
  {
    ThreeParts(f, p, q, n);
    HoldsMiddle(Cat(f, 0, p), ins, target, Cat(f, q, n), Cat(f, 0, n));
  }

  lemma OwnBoundary<T>(es: seq<Edit<T>>, e: Edit<T>)
    requires AllClear(es) && e in es
    ensures Boundary(es, e.start)
  {
    var i :| 0 <= i < |es| && es[i] == e;
    forall j | 0 <= j < |es| ensures !Interior(es[j], e.start) {
      if j < i {
        assert !Intersects(es[j], es[i]);
      } else if j > i {
        assert !Intersects(es[i], es[j]);
      }
    }
  }

  lemma WrittenChunk<T>(base: seq<T>, es: seq<Edit<T>>, e: Edit<T>)
    requires AllClear(es) && e in es && e.count > 0
    ensures Chunk(base, es, e.start) == Inserted(es, e.start) + e.text
  {
    var i :| 0 <= i < |es| && es[i] == e;
    assert Covers(es[i], e.start);
    ReplacingIs(es, e);
    NothingLast(e.text, Kept(base, es, e.start));
  }

  /** Every replacement of a patch is found where it landed. */
  lemma TextWritten<T(!new)>(base: seq<T>, es: seq<Edit<T>>, e: Edit<T>)
    requires AllClear(es) && e in es && e.count > 0 && e.start < |base|
    ensures Holds(Patch(base, es), e.start + Shift(es, e.start), e.text)
  {
    var p, n := e.start, |base| + 1;
    OwnBoundary(es, e);
    PrefixLength(base, es, p);
    WrittenChunk(base, es, e);
    CatFirst(Chunks(base, es), p);
    PartHeld(Chunks(base, es), p, p + 1, n, Inserted(es, p), e.text);
  }

  lemma CatFirst<T>(f: nat -> seq<T>, p: nat)
    ensures Cat(f, p, p + 1) == f(p)
  {
  }

  lemma SameSplice<T(!new)>(s: seq<T>, at: nat, count: nat, text: seq<T>, t: seq<T>, target: seq<T>)
    requires Rewritten(s, at, count, text, t) && Holds(s, at, target) && |target| == count
    ensures t == s <==> text == target
  {
    var before, was, rest :|
      |before| == at && |was| == count && s == before + (was + rest) && t == before + (text + rest);
    assert was == target by {
      MiddleSlice(before, was, rest, s);
    }
    if t == s {
      assert |text| == |was|;
      MiddleSlice(before, text, rest, t);
      MiddleSlice(before, was, rest, s);
    }
  }

  /** One more clear edit leaves the patch as it is exactly when it writes back what the base has there. */
  lemma OneMoreRestates<T(!new)>(base: seq<T>, es: seq<Edit<T>>, e: Edit<T>)
    requires AllClear(es) && ClearOf(es, e) && e.start + e.count <= |base|
    ensures Patch(base, es + [e]) == Patch(base, es) <==> Restates(base, e)
  {
    TargetKept(base, es, e);
    Rebase(base, es, e);
    SameSplice(Patch(base, es), e.start + Shift(es, e.start), e.count, e.text, Patch(base, es + [e]), Target(base, e));
  }

  // --- an edit that lands too far down ---------------------------------------------------------

  lemma OneEdit<T(!new)>(base: seq<T>, e: Edit<T>)
    requires e.start + e.count <= |base|
    ensures Rewritten(base, e.start, e.count, e.text, Patch(base, [e]))
  {
    NoEdits(base);
    Rebase(base, [], e);
    assert [] + [e] == [e];
  }

  lemma SameMiddle<T>(above: seq<T>, a: seq<T>, b: seq<T>, rest: seq<T>)
    ensures above + (a + rest) == above + (b + rest) <==> a == b
  {
    assert |above + (a + rest)| == |above| + |a| + |rest| && |above + (b + rest)| == |above| + |b| + |rest|;
    MiddleSlice(above, a, rest, above + (a + rest));
    MiddleSlice(above, b, rest, above + (b + rest));
  }

  lemma SplicedInParts<T>(s: seq<T>, p: nat, n: nat, k: nat, text: seq<T>)
    requires p + n + k <= |s|
    ensures Splice(s, p, n, text) == s[..p] + ((text + s[p + n..p + n + k]) + s[p + n + k..])
  {
    assert s[p + n..] == s[p + n..p + n + k] + s[p + n + k..];
  }

  lemma MovedInParts<T>(s: seq<T>, p: nat, n: nat, k: nat, text: seq<T>)
    requires p + n + k <= |s|
    ensures Splice(s, p + k, n, text) == s[..p] + ((s[p..p + k] + text) + s[p + n + k..])
  {
    assert s[..p + k] == s[..p] + s[p..p + k];
  }

  /** The text and the `k` elements above and below it read the same either way around. */
  ghost predicate Rotation<T>(base: seq<T>, e: Edit<T>, k: nat)
    requires e.start + e.count + k <= |base|
  {
    base[e.start..e.start + k] + e.text == e.text + base[e.start + e.count..e.start + e.count + k]
  }

  /** The same text instead of as many elements here or there: a difference nobody sees. */
  ghost predicate Interchangeable<T>(base: seq<T>, a: Edit<T>, b: Edit<T>)
    requires a.start + a.count <= |base| && b.start + b.count <= |base|
  {
    && a.count == b.count
    && if a.start <= b.start then Rotation(base, a, b.start - a.start) else Rotation(base, b, a.start - b.start)
  }

  /** One text at two places: the results are equal exactly when the places are interchangeable. */
  lemma TwoPlaces<T(!new)>(base: seq<T>, a: Edit<T>, b: Edit<T>)
    requires a.start + a.count <= |base| && b.start + b.count <= |base| && a.text == b.text
    ensures Patch(base, [b]) == Patch(base, [a]) <==> Interchangeable(base, a, b)
  {
    hide Patch, Rotation;
    OneEdit(base, a);
    OneEdit(base, b);
    if a.count != b.count {
      RewrittenIsSplice(base, a.start, a.count, a.text, Patch(base, [a]));
      RewrittenIsSplice(base, b.start, b.count, b.text, Patch(base, [b]));
    } else if a.start <= b.start {
      MovedRewrite(base, a, b.start - a.start, Patch(base, [a]), Patch(base, [b]));
    } else {
      MovedRewrite(base, b, a.start - b.start, Patch(base, [b]), Patch(base, [a]));
    }
  }

  ghost predicate Repeats<T>(s: seq<T>, x: T) {
    forall i | 0 <= i < |s| :: s[i] == x
  }

  /** By one element: only a text that repeats the element above it and as its last target. */
  lemma RotationByOne<T>(base: seq<T>, e: Edit<T>)
    requires e.start + e.count + 1 <= |base| && e.text != []
    ensures Rotation(base, e, 1)
       <==> base[e.start + e.count] == base[e.start] && Repeats(e.text, base[e.start])
  {
    var x, y, t := base[e.start], base[e.start + e.count], e.text;
    assert base[e.start..e.start + 1] == [x] && base[e.start + e.count..e.start + e.count + 1] == [y];
    if [x] + t == t + [y] {
      AllAlike(x, t, y);
    }
    if y == x && Repeats(t, x) {
      assert [x] + t == t + [y];
    }
  }

  lemma {:induction false} AllAlike<T>(x: T, t: seq<T>, y: T)
    requires [x] + t == t + [y] && t != []
    ensures y == x && Repeats(t, x)
    decreases |t|
  {
    assert ([x] + t)[0] == x && (t + [y])[0] == t[0];
    if |t| == 1 {
      assert ([x] + t)[1] == t[0] && (t + [y])[1] == y;
    } else {
      assert t == [x] + t[1..];
      assert ([x] + t)[1..] == t && (t + [y])[1..] == t[1..] + [y];
      AllAlike(x, t[1..], y);
    }
  }

  lemma MovedRewrite<T(!new)>(s: seq<T>, e: Edit<T>, k: nat, t: seq<T>, u: seq<T>)
    requires e.start + e.count + k <= |s|
    requires Rewritten(s, e.start, e.count, e.text, t) && Rewritten(s, e.start + k, e.count, e.text, u)
    ensures u == t <==> Rotation(s, e, k)
  {
    MovedSplice(s, e.start, e.count, k, e.text, t, u);
  }

  lemma MovedSplice<T(!new)>(s: seq<T>, p: nat, n: nat, k: nat, text: seq<T>, t: seq<T>, u: seq<T>)
    requires p + n + k <= |s| && Rewritten(s, p, n, text, t) && Rewritten(s, p + k, n, text, u)
    ensures u == t <==> s[p..p + k] + text == text + s[p + n..p + n + k]
  {
    RewrittenIsSplice(s, p, n, text, t);
    RewrittenIsSplice(s, p + k, n, text, u);
    SplicedInParts(s, p, n, k, text);
    MovedInParts(s, p, n, k, text);
    SameMiddle(s[..p], s[p..p + k] + text, text + s[p + n..p + n + k], s[p + n + k..]);
  }

  /** Replacements that keep the length. */
  ghost predicate KeepLength<T>(es: seq<Edit<T>>) {
    forall i | 0 <= i < |es| :: es[i].count > 0 && |es[i].text| == es[i].count
  }

  lemma {:induction false} NoShift<T>(es: seq<Edit<T>>, p: nat)
    requires KeepLength(es)
    ensures Shift(es, p) == 0
  {
    if es == [] {
    } else {
      NoShift(es[..|es| - 1], p);
    }
  }

  lemma {:induction false} RestatingChangesNothing<T(!new)>(base: seq<T>, es: seq<Edit<T>>, more: seq<Edit<T>>)
    requires AllClear(es + more) && forall i | 0 <= i < |more| :: Restates(base, more[i])
    ensures Patch(base, es + more) == Patch(base, es)
    decreases |more|
  {
    if more == [] {
      assert es + more == es;
    } else {
      var init, e := more[..|more| - 1], more[|more| - 1];
      PartsClear(es, init, e, more);
      RestatingChangesNothing(base, es, init);
      OneMoreRestates(base, es + init, e);
      assert es + more == (es + init) + [e];
    }
  }

  /** Further replacements that keep the length change nothing exactly when each writes back what was there. */
  lemma MoreRestate<T(!new)>(base: seq<T>, es: seq<Edit<T>>, more: seq<Edit<T>>)
    requires AllClear(es + more) && Fit(more, |base|) && KeepLength(more)
    ensures Patch(base, es + more) == Patch(base, es)
       <==> forall i | 0 <= i < |more| :: Restates(base, more[i])
  {
    if Patch(base, es + more) == Patch(base, es) {
      forall i | 0 <= i < |more| ensures Restates(base, more[i]) {
        WrittenBack(base, es, more, i);
      }
    } else if forall i | 0 <= i < |more| :: Restates(base, more[i]) {
      RestatingChangesNothing(base, es, more);
    }
  }

  lemma SameHeld<T>(s: seq<T>, at: int, a: seq<T>, b: seq<T>)
    requires Holds(s, at, a) && Holds(s, at, b) && |a| == |b|
    ensures a == b
  {
  }

  lemma WrittenBack<T(!new)>(base: seq<T>, es: seq<Edit<T>>, more: seq<Edit<T>>, i: nat)
    requires AllClear(es + more) && Fit(more, |base|) && KeepLength(more) && i < |more|
    requires Patch(base, es + more) == Patch(base, es)
    ensures Restates(base, more[i])
  {
    var e := more[i];
    ClearSplit(es, more);
    assert ClearOf(es, e);
    assert (es + more)[|es| + i] == e;
    TargetKept(base, es, e);
    TextWritten(base, es + more, e);
    ShiftAppend(es, more, e.start);
    NoShift(more, e.start);
    SameHeld(Patch(base, es), e.start + Shift(es, e.start), e.text, Target(base, e));
  }

  // --- two patches that differ on a range of positions ------------------------------------------

  /** What a patch holds on account of the positions `lo..hi`. */
  function Window<T>(base: seq<T>, es: seq<Edit<T>>, lo: nat, hi: nat): seq<T> {
    Cat(Chunks(base, es), lo, hi)
  }

  predicate Touches<T>(e: Edit<T>, p: nat) {
    e.start == p || Covers(e, p)
  }

  lemma {:induction false} UntouchedChunk<T>(base: seq<T>, es: seq<Edit<T>>, more: seq<Edit<T>>, p: nat)
    requires forall i | 0 <= i < |more| :: !Touches(more[i], p)
    ensures Chunk(base, es + more, p) == Chunk(base, es, p)
    decreases |more|
  {
    hide Chunk;
    if more == [] {
      assert es + more == es;
    } else {
      var init, e := more[..|more| - 1], more[|more| - 1];
      UntouchedChunk(base, es, init, p);
      UnaffectedChunk(base, es + init, e, p);
      assert es + more == (es + init) + [e];
    }
  }

  /** The first position at which one of the edits starts. */
  ghost function FirstStart<T>(es: seq<Edit<T>>): nat
    requires es != []
  {
    var last := es[|es| - 1].start;
    if |es| == 1 then last
    else
      var init := FirstStart(es[..|es| - 1]);
      if last < init then last else init
  }

  /** The position behind all that the edits replace or are inserted in front of. */
  ghost function LastEnd<T>(es: seq<Edit<T>>): nat {
    if es == [] then 0
    else
      var e, init := es[|es| - 1], LastEnd(es[..|es| - 1]);
      var end := e.start + if e.count == 0 then 1 else e.count;
      if end > init then end else init
  }

  lemma {:induction false} OutsideAll<T>(es: seq<Edit<T>>, size: nat)
    requires es != [] && Fit(es, size)
    ensures FirstStart(es) < LastEnd(es) <= size + 1
    ensures forall i, p: nat | 0 <= i < |es| && (p < FirstStart(es) || LastEnd(es) <= p) :: !Touches(es[i], p)
  {
    if |es| == 1 {
      assert es[..0] == [];
    } else {
      var init := es[..|es| - 1];
      OutsideAll(init, size);
      forall i, p: nat | 0 <= i < |es| && (p < FirstStart(es) || LastEnd(es) <= p) ensures !Touches(es[i], p) {
        if i < |es| - 1 {
          assert !Touches(init[i], p);
        }
      }
    }
  }

  /** Two patches that agree outside a window are equal exactly when they agree in it. */
  lemma SameWindow<T>(base: seq<T>, es: seq<Edit<T>>, fs: seq<Edit<T>>, lo: nat, hi: nat)
    requires lo <= hi <= |base| + 1
    requires forall p: nat | p < lo || hi <= p :: Chunk(base, es, p) == Chunk(base, fs, p)
    ensures Patch(base, es) == Patch(base, fs) <==> Window(base, es, lo, hi) == Window(base, fs, lo, hi)
  {
    WindowDecides(Chunks(base, es), Chunks(base, fs), lo, hi, |base| + 1);
  }

  /** Further edits change a patch exactly when they change what is between the first and the last of them. */
  lemma WindowOfMore<T>(base: seq<T>, es: seq<Edit<T>>, more: seq<Edit<T>>)
    requires more != [] && Fit(more, |base|)
    ensures var lo, hi := FirstStart(more), LastEnd(more);
            Patch(base, es + more) == Patch(base, es)
            <==> Window(base, es + more, lo, hi) == Window(base, es, lo, hi)
  {
    var lo, hi := FirstStart(more), LastEnd(more);
    OutsideAll(more, |base|);
    forall p: nat | p < lo || hi <= p ensures Chunk(base, es + more, p) == Chunk(base, es, p) {
      UntouchedChunk(base, es, more, p);
    }
    SameWindow(base, es + more, es, lo, hi);
  }

  /** Two lists of edits differ at most between the first and the last of them all. */
  lemma WindowOfBoth<T>(base: seq<T>, es: seq<Edit<T>>, fs: seq<Edit<T>>)
    requires es + fs != [] && Fit(es + fs, |base|)
    ensures var lo, hi := FirstStart(es + fs), LastEnd(es + fs);
            Patch(base, es) == Patch(base, fs) <==> Window(base, es, lo, hi) == Window(base, fs, lo, hi)
  {
    var all, lo, hi := es + fs, FirstStart(es + fs), LastEnd(es + fs);
    OutsideAll(all, |base|);
    forall p: nat | p < lo || hi <= p ensures Chunk(base, es, p) == Chunk(base, fs, p) {
      assert forall i | 0 <= i < |es| :: es[i] == all[i];
      assert forall i | 0 <= i < |fs| :: fs[i] == all[|es| + i];
      UntouchedChunk(base, [], es, p);
      UntouchedChunk(base, [], fs, p);
      assert [] + es == es && [] + fs == fs;
    }
    SameWindow(base, es, fs, lo, hi);
  }

  lemma WindowDecides<T>(f: nat -> seq<T>, g: nat -> seq<T>, lo: nat, hi: nat, n: nat)
    requires lo <= hi <= n && forall p: nat | p < lo || hi <= p :: f(p) == g(p)
    ensures Cat(f, 0, n) == Cat(g, 0, n) <==> Cat(f, lo, hi) == Cat(g, lo, hi)
  {
    CatSame(f, g, 0, lo);
    CatSame(f, g, hi, n);
    ThreeParts(f, lo, hi, n);
    ThreeParts(g, lo, hi, n);
    SameMiddle(Cat(f, 0, lo), Cat(f, lo, hi), Cat(g, lo, hi), Cat(f, hi, n));
  }

  lemma PrefixHeld<T>(f: nat -> seq<T>, p: nat, n: nat, target: seq<T>, rest: seq<T>)
    requires p < n && f(p) == target + rest
    ensures Holds(Cat(f, 0, n), |Cat(f, 0, p)|, target)
  {
    CatSplit(f, 0, p, n);
    Associates(target, rest, Cat(f, p + 1, n));
    MiddleSlice(Cat(f, 0, p), target, rest + Cat(f, p + 1, n), Cat(f, 0, n));
  }

  /** Every insertion of a patch is found where it landed. */
  lemma TextInserted<T(!new)>(base: seq<T>, es: seq<Edit<T>>, e: Edit<T>)
    requires AllClear(es) && e in es && e.count == 0 && e.start <= |base|
    ensures Holds(Patch(base, es), e.start + Shift(es, e.start) - |e.text|, e.text)
  {
    OwnBoundary(es, e);
    PrefixLength(base, es, e.start);
    InsertedIs(es, e);
    PrefixHeld(Chunks(base, es), e.start, |base| + 1, e.text, Replacing(es, e.start) + Kept(base, es, e.start));
  }

  lemma MoreLines<T>(base: seq<T>, es: seq<Edit<T>>, more: seq<Edit<T>>, growth: int)
    requires AllClear(es + more) && Fit(es, |base|) && Fit(more, |base|) && Shift(more, |base|) == growth != 0
    ensures Patch(base, es + more) != Patch(base, es)
  {
    ClearSplit(es, more);
    ShiftAppend(es, more, |base|);
    PatchLength(base, es);
    PatchLength(base, es + more);
  }

  /** Where `es` touches nothing, `more` alone decides what a patch by both holds. */
  lemma OnlyMore<T>(base: seq<T>, es: seq<Edit<T>>, more: seq<Edit<T>>, both: seq<Edit<T>>, lo: nat, hi: nat)
    requires both == es + more && AllClear(both)
    requires forall i, p: nat | 0 <= i < |es| && lo <= p < hi :: !Touches(es[i], p)
    ensures Window(base, both, lo, hi) == Window(base, more, lo, hi)
    ensures Window(base, es, lo, hi) == Window(base, [], lo, hi)
  {
    SwapClear(es, more);
    forall p: nat | lo <= p < hi ensures Chunk(base, both, p) == Chunk(base, more, p) {
      SameChunk(base, both, more + es, p);
      UntouchedChunk(base, more, es, p);
    }
    forall p: nat | lo <= p < hi ensures Chunk(base, es, p) == Chunk(base, [], p) {
      assert [] + es == es;
      UntouchedChunk(base, [], es, p);
    }
    CatSame(Chunks(base, both), Chunks(base, more), lo, hi);
    CatSame(Chunks(base, es), Chunks(base, []), lo, hi);
  }

  lemma SwapClear<T>(es: seq<Edit<T>>, more: seq<Edit<T>>)
    requires AllClear(es + more)
    ensures AllClear(more + es) && SameEdits(es + more, more + es)
  {
    ClearSplit(es, more);
    ClearSplit(more, es);
    forall i, j | 0 <= i < |more| && 0 <= j < |es| ensures !Intersects(more[i], es[j]) {
      assert !Intersects(es[j], more[i]);
    }
  }

  // --- the topmost of several edits --------------------------------------------------------------

  /** `g` starts below `e`, or replaces what `e` is inserted in front of. */
  predicate Behind<T>(e: Edit<T>, g: Edit<T>) {
    g.start > e.start || (g.start == e.start && e.count == 0 && g.count > 0)
  }

  lemma {:induction false} NothingAboveTop<T>(es: seq<Edit<T>>, e: Edit<T>)
    requires forall i | 0 <= i < |es| :: Behind(e, es[i])
    ensures Shift(es, e.start) == 0
  {
    if es == [] {
    } else {
      NothingAboveTop(es[..|es| - 1], e);
    }
  }

  lemma ShiftOfOne<T>(e: Edit<T>, p: nat)
    ensures Shift([e], p) == Growth(e, p)
  {
    assert [e][..0] == [];
  }

  lemma ShiftOfTop<T>(more: seq<Edit<T>>, i: nat)
    requires i < |more| && forall j | 0 <= j < |more| && j != i :: Behind(more[i], more[j])
    ensures Shift(more, more[i].start) == Growth(more[i], more[i].start)
  {
    hide Shift, Growth, Behind;
    var e := more[i];
    assert more == more[..i] + ([e] + more[i + 1..]);
    ShiftAppend(more[..i], [e] + more[i + 1..], e.start);
    ShiftAppend([e], more[i + 1..], e.start);
    NothingAboveTop(more[..i], e);
    NothingAboveTop(more[i + 1..], e);
    ShiftOfOne(e, e.start);
  }

  /** The topmost of further edits lands where it would land alone. */
  lemma TopLands<T(!new)>(base: seq<T>, es: seq<Edit<T>>, more: seq<Edit<T>>, i: nat)
    requires AllClear(es + more) && Fit(more, |base|)
    requires i < |more| && forall j | 0 <= j < |more| && j != i :: Behind(more[i], more[j])
    ensures Holds(Patch(base, es + more), more[i].start + Shift(es, more[i].start), more[i].text)
  {
    hide Patch, Shift, Growth, Behind, AllClear, Holds;
    ShiftAppend(es, more, more[i].start);
    ShiftOfTop(more, i);
    assert (es + more)[|es| + i] == more[i];
    OwnLanding(base, es + more, more[i], Shift(es, more[i].start));
  }

  /** An edit of the patch lands by the shift of the others above it. */
  lemma OwnLanding<T(!new)>(base: seq<T>, es: seq<Edit<T>>, e: Edit<T>, others: int)
    requires AllClear(es) && e in es && e.start + e.count <= |base|
    requires Shift(es, e.start) == others + Growth(e, e.start)
    ensures Holds(Patch(base, es), e.start + others, e.text)
  {
    if e.count == 0 {
      TextInserted(base, es, e);
    } else {
      TextWritten(base, es, e);
    }
  }

  lemma FirstHeld<T>(s: seq<T>, at: int, text: seq<T>)
    requires Holds(s, at, text) && text != []
    ensures 0 <= at < |s| && s[at] == text[0]
  {
    assert s[at..at + |text|][0] == s[at];
  }

  ghost predicate ClearAcross<T>(es: seq<Edit<T>>, more: seq<Edit<T>>) {
    forall i, j | 0 <= i < |es| && 0 <= j < |more| :: !Intersects(es[i], more[j])
  }

  lemma ClearSplit<T>(es: seq<Edit<T>>, more: seq<Edit<T>>)
    ensures AllClear(es + more) <==> AllClear(es) && AllClear(more) && ClearAcross(es, more)
  {
    var all := es + more;
    if AllClear(all) {
      forall i, j | 0 <= i < |es| && 0 <= j < |more| ensures !Intersects(es[i], more[j]) {
        assert all[i] == es[i] && all[|es| + j] == more[j];
      }
      forall i, j | 0 <= i < j < |more| ensures !Intersects(more[i], more[j]) {
        assert all[|es| + i] == more[i] && all[|es| + j] == more[j];
      }
      forall i, j | 0 <= i < j < |es| ensures !Intersects(es[i], es[j]) {
        assert all[i] == es[i] && all[j] == es[j];
      }
    }
  }

  lemma PartsClear<T>(es: seq<Edit<T>>, init: seq<Edit<T>>, e: Edit<T>, more: seq<Edit<T>>)
    requires more == init + [e] && AllClear(es + more)
    ensures AllClear(es) && AllClear(es + init) && AllClear(init) && AllClear(more)
    ensures ClearOf(es, e) && ClearOf(init, e) && ClearOf(es + init, e)
    ensures forall i | 0 <= i < |more| :: ClearOf(es, more[i])
  {
    ClearSplit(es, more);
    assert es + more == (es + init) + [e];
    ClearSplit(es + init, [e]);
    ClearSplit(init, [e]);
    assert ClearOf(es + init, e) by {
      forall i | 0 <= i < |es + init| ensures !Intersects((es + init)[i], e) {
        assert e == [e][0];
      }
    }
    forall i | 0 <= i < |init| ensures !Intersects(init[i], e) {
      assert e == [e][0];
    }
    assert e == more[|init|];
  }
}
