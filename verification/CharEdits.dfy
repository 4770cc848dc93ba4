/**
 The bridge between lines and characters.  A document is a body of lines that each
 end in a newline, followed by an unterminated last line; whole-line edits of the
 body are exactly the simultaneous character edits of the text.
 */
module CharEdits {
  import opened Seqs
  import opened Text
  import opened Patching

  /** All lines of a text but the last one. */
  function Body(text: string): seq<string> {
    var lines := Split(text);
    lines[..|lines| - 1]
  }

  function LastLine(text: string): string {
    var lines := Split(text);
    lines[|lines| - 1]
  }

  lemma BodyAndLast(text: string)
    ensures Flatten(Body(text)) + LastLine(text) == text
    ensures Split(text) == Body(text) + [LastLine(text)]
    ensures OneLiners(Body(text)) && '\n' !in LastLine(text)
  {
    var lines := Split(text);
    assert lines == Body(text) + [LastLine(text)];
    JoinSplit(text);
    JoinAppend(Body(text), [LastLine(text)]);
    SplitIsOneLiners(text);
    assert LastLine(text) == lines[|lines| - 1];
  }

  lemma SplitBack(body: seq<string>, last: string)
    requires OneLiners(body) && '\n' !in last
    ensures Split(Flatten(body) + last) == body + [last]
    ensures Body(Flatten(body) + last) == body && LastLine(Flatten(body) + last) == last
  {
    JoinAppend(body, [last]);
    SplitJoin(body + [last]);
  }

  /** The offset at which line `r` starts. */
  function Offset(body: seq<string>, r: nat): nat
    requires r <= |body|
  {
    |Flatten(body[..r])|
  }

  lemma OffsetStep(body: seq<string>, r: nat)
    requires r < |body|
    ensures Offset(body, r + 1) == Offset(body, r) + |body[r]| + 1
  {
    FlattenAppend(body[..r], [body[r]]);
    assert body[..r + 1] == body[..r] + [body[r]];
  }

  lemma {:induction false} OffsetMonotone(body: seq<string>, r: nat, q: nat)
    requires r <= q <= |body|
    ensures Offset(body, r) + (q - r) <= Offset(body, q)
  {
    if r >= q {
    } else {
      OffsetMonotone(body, r, q - 1);
      OffsetStep(body, q - 1);
    }
  }

  /** A whole-line edit as a character edit. */
  function CharEdit(body: seq<string>, e: Edit<string>): Edit<char>
    requires e.start + e.count <= |body|
  {
    OffsetMonotone(body, e.start, e.start + e.count);
    Edit(Offset(body, e.start), Offset(body, e.start + e.count) - Offset(body, e.start), Flatten(e.text))
  }

  function AsCharEdits(body: seq<string>, es: seq<Edit<string>>): seq<Edit<char>>
    requires Fit(es, |body|)
  {
    seq(|es|, i requires 0 <= i < |es| => CharEdit(body, es[i]))
  }

  // --- what the character edits do at each offset ------------------------------------

  lemma StartsAlike(body: seq<string>, e: Edit<string>, r: nat)
    requires e.start + e.count <= |body| && r <= |body|
    ensures CharEdit(body, e).start == Offset(body, r) <==> e.start == r
    ensures CharEdit(body, e).count == 0 <==> e.count == 0
  {
    if e.start < r {
      OffsetMonotone(body, e.start, r);
    } else {
      OffsetMonotone(body, r, e.start);
    }
    OffsetMonotone(body, e.start, e.start + e.count);
  }

  lemma {:induction false} InsertedAlike(body: seq<string>, es: seq<Edit<string>>, r: nat)
    requires Fit(es, |body|) && r <= |body|
    ensures Inserted(AsCharEdits(body, es), Offset(body, r)) == Flatten(Inserted(es, r))
    ensures Replacing(AsCharEdits(body, es), Offset(body, r)) == Flatten(Replacing(es, r))
  {
    if es == [] {
    } else {
      var n := |es| - 1;
      InsertedAlike(body, es[..n], r);
      assert AsCharEdits(body, es)[..n] == AsCharEdits(body, es[..n]);
      StartsAlike(body, es[n], r);
      var e := es[n];
      FlattenAppend(Inserted(es[..n], r), if e.count == 0 && e.start == r then e.text else []);
      FlattenAppend(Replacing(es[..n], r), if e.count > 0 && e.start == r then e.text else []);
    }
  }

  /** No character edit starts inside a line. */
  lemma {:induction false} NothingInsideLine(body: seq<string>, es: seq<Edit<string>>, r: nat, p: nat)
    requires Fit(es, |body|) && r < |body| && Offset(body, r) < p < Offset(body, r + 1)
    ensures |Inserted(AsCharEdits(body, es), p)| == 0 && |Replacing(AsCharEdits(body, es), p)| == 0
  {
    forall i | 0 <= i < |es| ensures CharEdit(body, es[i]).start != p {
      if es[i].start <= r {
        OffsetMonotone(body, es[i].start, r);
      } else {
        OffsetMonotone(body, r + 1, es[i].start);
      }
    }
    NothingInserted(AsCharEdits(body, es), p);
    NothingReplacing(AsCharEdits(body, es), p);
  }

  lemma {:induction false} NothingAfterBody(body: seq<string>, es: seq<Edit<string>>, p: nat)
    requires Fit(es, |body|) && Offset(body, |body|) < p
    ensures |Inserted(AsCharEdits(body, es), p)| == 0 && |Replacing(AsCharEdits(body, es), p)| == 0
  {
    forall i | 0 <= i < |es| ensures CharEdit(body, es[i]).start != p {
      OffsetMonotone(body, es[i].start, |body|);
    }
    NothingInserted(AsCharEdits(body, es), p);
    NothingReplacing(AsCharEdits(body, es), p);
  }

  lemma CoversAlike(body: seq<string>, e: Edit<string>, r: nat, p: nat)
    requires e.start + e.count <= |body| && r < |body| && Offset(body, r) <= p < Offset(body, r + 1)
    ensures Covers(CharEdit(body, e), p) <==> Covers(e, r)
  {
    if e.start <= r {
      OffsetMonotone(body, e.start, r);
    } else {
      OffsetMonotone(body, r + 1, e.start);
    }
    if e.start + e.count <= r {
      OffsetMonotone(body, e.start + e.count, r);
    } else {
      OffsetMonotone(body, r + 1, e.start + e.count);
    }
  }

  lemma CoveredAlike(body: seq<string>, es: seq<Edit<string>>, r: nat, p: nat)
    requires Fit(es, |body|) && r < |body| && Offset(body, r) <= p < Offset(body, r + 1)
    ensures Covered(AsCharEdits(body, es), p) <==> Covered(es, r)
  {
    var cs := AsCharEdits(body, es);
    forall i | 0 <= i < |es| ensures Covers(cs[i], p) <==> Covers(es[i], r) {
      CoversAlike(body, es[i], r, p);
    }
    if Covered(es, r) {
      var i :| 0 <= i < |es| && Covers(es[i], r);
      assert Covers(cs[i], p);
    }
  }

  lemma NotCoveredAfterBody(body: seq<string>, es: seq<Edit<string>>, p: nat)
    requires Fit(es, |body|) && Offset(body, |body|) <= p
    ensures !Covered(AsCharEdits(body, es), p)
  {
    forall i | 0 <= i < |es| ensures !Covers(CharEdit(body, es[i]), p) {
      OffsetMonotone(body, es[i].start + es[i].count, |body|);
    }
  }

  // --- one line of the body, as characters ---------------------------------------------

  lemma LineOfText(body: seq<string>, last: string, r: nat, text: string)
    requires r < |body| && text == Flatten(body) + last
    ensures Offset(body, r + 1) == Offset(body, r) + |body[r]| + 1 <= |text|
    ensures text[Offset(body, r)..Offset(body, r + 1)] == body[r] + "\n"
  {
    OffsetStep(body, r);
    var before, line, after := Flatten(body[..r]), body[r] + "\n", Flatten(body[r + 1..]);
    assert Flatten(body) == before + (line + after) by {
      assert body == body[..r] + body[r..] && body[r..][1..] == body[r + 1..];
      FlattenAppend(body[..r], body[r..]);
    }
    Associates(before, line + after, last);
    Associates(line, after, last);
    MiddleSlice(before, line, after + last, text);
  }

  /** Behind its start, the characters of a line are copied or dropped together. */
  lemma InsideLine(body: seq<string>, es: seq<Edit<string>>, r: nat, text: string, x: nat)
    requires Fit(es, |body|) && r < |body| && Offset(body, r) < x < Offset(body, r + 1) <= |text|
    ensures Chunk(text, AsCharEdits(body, es), x) == if Covered(es, r) then [] else [text[x]]
  {
    var cs := AsCharEdits(body, es);
    CoveredAlike(body, es, r, x);
    NothingInsideLine(body, es, r, x);
    NothingFirst(Inserted(cs, x), Replacing(cs, x) + Kept(text, cs, x));
    NothingFirst(Replacing(cs, x), Kept(text, cs, x));
  }

  lemma LineStart(body: seq<string>, es: seq<Edit<string>>, r: nat, text: string)
    requires Fit(es, |body|) && r < |body| && Offset(body, r) < Offset(body, r + 1) <= |text|
    ensures Chunk(text, AsCharEdits(body, es), Offset(body, r))
         == (Flatten(Inserted(es, r)) + Flatten(Replacing(es, r)))
          + if Covered(es, r) then [] else [text[Offset(body, r)]]
  {
    var cs, p := AsCharEdits(body, es), Offset(body, r);
    CoveredAlike(body, es, r, p);
    InsertedAlike(body, es, r);
    Associates(Flatten(Inserted(es, r)), Flatten(Replacing(es, r)), Kept(text, cs, p));
  }

  lemma FlatChunk(body: seq<string>, es: seq<Edit<string>>, r: nat)
    requires r < |body|
    ensures Flatten(Chunk(body, es, r))
         == (Flatten(Inserted(es, r)) + Flatten(Replacing(es, r))) + if Covered(es, r) then "" else body[r] + "\n"
  {
    FlattenAppend(Inserted(es, r), Replacing(es, r) + Kept(body, es, r));
    FlattenAppend(Replacing(es, r), Kept(body, es, r));
    Associates(Flatten(Inserted(es, r)), Flatten(Replacing(es, r)), Flatten(Kept(body, es, r)));
  }

  lemma LineChunks(body: seq<string>, es: seq<Edit<string>>, last: string, r: nat, text: string, f: nat -> seq<char>)
    requires Fit(es, |body|) && r < |body| && text == Flatten(body) + last
    requires f == Chunks(text, AsCharEdits(body, es))
    ensures Cat(f, Offset(body, r), Offset(body, r + 1)) == Flatten(Chunk(body, es, r))
  {
    var p, q := Offset(body, r), Offset(body, r + 1);
    LineOfText(body, last, r, text);
    LineStart(body, es, r, text);
    forall x: nat | p < x < q ensures f(x) == if Covered(es, r) then [] else [text[x]] {
      InsideLine(body, es, r, text, x);
    }
    FlatChunk(body, es, r);
    LineCopied(f, text, p, q, Flatten(Inserted(es, r)) + Flatten(Replacing(es, r)), Covered(es, r));
  }

  lemma LineCopied(f: nat -> seq<char>, text: string, p: nat, q: nat, ins: string, dropped: bool)
    requires p < q <= |text| && f(p) == ins + if dropped then [] else [text[p]]
    requires forall x: nat | p < x < q :: f(x) == if dropped then [] else [text[x]]
    ensures Cat(f, p, q) == ins + if dropped then [] else text[p..q]
  {
    if dropped {
      CatWriteFirst(f, p, q);
    } else {
      CatCopyAfter(f, text, p, q, ins);
    }
  }

  lemma NothingAbove(body: seq<string>, f: nat -> seq<char>, g: nat -> seq<string>)
    ensures Offset(body, 0) == 0 && Cat(f, 0, 0) == Flatten(Cat(g, 0, 0))
  {
    assert body[..0] == [];
  }

  lemma {:induction false} BodyChunks(body: seq<string>, es: seq<Edit<string>>, last: string, r: nat,
                                      text: string, f: nat -> seq<char>)
    requires Fit(es, |body|) && r <= |body| && text == Flatten(body) + last
    requires f == Chunks(text, AsCharEdits(body, es))
    ensures Cat(f, 0, Offset(body, r)) == Flatten(Cat(Chunks(body, es), 0, r))
  {
    hide Flatten, Offset, Chunk, Cat, AsCharEdits;
    if r == 0 {
      NothingAbove(body, f, Chunks(body, es));
    } else {
      BodyChunks(body, es, last, r - 1, text, f);
      LineChunks(body, es, last, r - 1, text, f);
      OffsetMonotone(body, r - 1, r);
      CatSplit(f, 0, Offset(body, r - 1), Offset(body, r));
      CatSplit(Chunks(body, es), 0, r - 1, r);
      CatOne(Chunks(body, es), r - 1);
      FlattenAppend(Cat(Chunks(body, es), 0, r - 1), Chunk(body, es, r - 1));
    }
  }

  /** Past the start of the last line, characters are only copied. */
  lemma TailOnlyCopies(body: seq<string>, es: seq<Edit<string>>, text: string, x: nat)
    requires Fit(es, |body|) && Offset(body, |body|) < x
    ensures Chunk(text, AsCharEdits(body, es), x) == Kept(text, [], x)
  {
    var cs := AsCharEdits(body, es);
    NotCoveredAfterBody(body, es, x);
    NothingAfterBody(body, es, x);
    NothingFirst(Inserted(cs, x), Replacing(cs, x) + Kept(text, cs, x));
    NothingFirst(Replacing(cs, x), Kept(text, cs, x));
  }

  lemma TailStart(body: seq<string>, es: seq<Edit<string>>, text: string, p: nat)
    requires Fit(es, |body|) && p == Offset(body, |body|)
    ensures Chunk(text, AsCharEdits(body, es), p) == Flatten(Inserted(es, |body|)) + Kept(text, [], p)
  {
    var cs := AsCharEdits(body, es);
    InsertedAlike(body, es, |body|);
    NothingReplacing(es, |body|);
    NotCoveredAfterBody(body, es, p);
    OnlyOuter(Inserted(cs, p), Replacing(cs, p), Kept(text, cs, p));
  }

  /** From position `p` on a family of chunks writes `ins` and copies the rest of the text. */
  lemma CatTail(f: nat -> seq<char>, text: string, p: nat, n: nat, ins: string, last: string)
    requires p < n == |text| && f(p) == ins + [text[p]] && |f(n)| == 0 && last == text[p..n]
    requires forall x: nat | p < x < n :: f(x) == [text[x]]
    ensures Cat(f, p, n + 1) == ins + last
  {
    CatDropLast(f, p, n);
    CatCopyAfter(f, text, p, n, ins);
  }

  lemma CatDropLast(f: nat -> seq<char>, p: nat, n: nat)
    requires p <= n && |f(n)| == 0
    ensures Cat(f, p, n + 1) == Cat(f, p, n)
  {
    CatSplit(f, p, n, n + 1);
    CatOne(f, n);
    NothingLast(Cat(f, p, n), f(n));
  }

  /** From the end of the body on: what is inserted there, then the last line unchanged. */
  lemma TailChunks(body: seq<string>, es: seq<Edit<string>>, last: string, text: string, f: nat -> seq<char>)
    requires Fit(es, |body|) && text == Flatten(body) + last
    requires f == Chunks(text, AsCharEdits(body, es))
    ensures Offset(body, |body|) <= |text|
    ensures Cat(f, Offset(body, |body|), |text| + 1) == Flatten(Inserted(es, |body|)) + last
  {
    var p := Offset(body, |body|);
    LastStart(body, last, text);
    assert f(p) == Flatten(Inserted(es, |body|)) + Kept(text, [], p) by {
      TailStart(body, es, text, p);
    }
    assert forall x: nat | p < x :: f(x) == Kept(text, [], x) by {
      TailCopies(body, es, text, f);
    }
    TailOf(f, text, p, Flatten(Inserted(es, |body|)), last);
  }

  lemma LastStart(body: seq<string>, last: string, text: string)
    requires text == Flatten(body) + last
    ensures Offset(body, |body|) <= |text| && text[Offset(body, |body|)..|text|] == last
  {
    assert Offset(body, |body|) == |Flatten(body)| by {
      assert body[..|body|] == body;
    }
    EndSlice(Flatten(body), last, text);
  }

  lemma TailCopies(body: seq<string>, es: seq<Edit<string>>, text: string, f: nat -> seq<char>)
    requires Fit(es, |body|) && f == Chunks(text, AsCharEdits(body, es))
    ensures forall x: nat | Offset(body, |body|) < x :: f(x) == Kept(text, [], x)
  {
    forall x: nat | Offset(body, |body|) < x ensures f(x) == Kept(text, [], x) {
      TailOnlyCopies(body, es, text, x);
    }
  }

  lemma TailOf(f: nat -> seq<char>, text: string, p: nat, ins: string, last: string)
    requires p <= |text| && text[p..|text|] == last && f(p) == ins + Kept(text, [], p)
    requires forall x: nat | p < x :: f(x) == Kept(text, [], x)
    ensures Cat(f, p, |text| + 1) == ins + last
  {
    if p < |text| {
      CatTail(f, text, p, |text|, ins, last);
    } else {
      CatOne(f, p);
    }
  }

  lemma CatOne<T>(f: nat -> seq<T>, p: nat)
    ensures Cat(f, p, p + 1) == f(p)
  {
  }

  lemma CatJoin(f: nat -> seq<char>, mid: nat, n: nat, above: string, ins: string, last: string)
    requires mid <= n
    requires Cat(f, 0, mid) == above && Cat(f, mid, n) == ins + last
    ensures Cat(f, 0, n) == (above + ins) + last
  {
    CatSplit(f, 0, mid, n);
    Associates(above, ins, last);
  }

  /** Whole-line edits and their character edits give the same document. */
  lemma LinesAreChars(body: seq<string>, es: seq<Edit<string>>, last: string)
    requires Fit(es, |body|)
    ensures Patch(Flatten(body) + last, AsCharEdits(body, es)) == Flatten(Patch(body, es)) + last
  {
    hide Flatten, Offset, Inserted, Chunk, Cat, AsCharEdits;
    var text := Flatten(body) + last;
    var above, ins := Flatten(Cat(Chunks(body, es), 0, |body|)), Flatten(Inserted(es, |body|));
    PatchedText(body, es, above, ins);
    PatchedChars(body, es, last, text, Chunks(text, AsCharEdits(body, es)), Offset(body, |body|), |text| + 1,
                 above, ins);
  }

  lemma PatchedChars(body: seq<string>, es: seq<Edit<string>>, last: string, text: string, f: nat -> seq<char>,
                     p: nat, n: nat, above: string, ins: string)
    requires Fit(es, |body|) && text == Flatten(body) + last && f == Chunks(text, AsCharEdits(body, es))
    requires p == Offset(body, |body|) && n == |text| + 1
    requires above == Flatten(Cat(Chunks(body, es), 0, |body|)) && ins == Flatten(Inserted(es, |body|))
    ensures Cat(f, 0, n) == (above + ins) + last
  {
    AbovePart(body, es, last, text, f, p, above);
    TailPart(body, es, last, text, f, p, n, ins);
    CatJoin(f, p, n, above, ins, last);
  }

  lemma AbovePart(body: seq<string>, es: seq<Edit<string>>, last: string, text: string, f: nat -> seq<char>,
                  p: nat, above: string)
    requires Fit(es, |body|) && text == Flatten(body) + last && f == Chunks(text, AsCharEdits(body, es))
    requires p == Offset(body, |body|) && above == Flatten(Cat(Chunks(body, es), 0, |body|))
    ensures Cat(f, 0, p) == above
  {
    BodyChunks(body, es, last, |body|, text, f);
  }

  lemma TailPart(body: seq<string>, es: seq<Edit<string>>, last: string, text: string, f: nat -> seq<char>,
                 p: nat, n: nat, ins: string)
    requires Fit(es, |body|) && text == Flatten(body) + last && f == Chunks(text, AsCharEdits(body, es))
    requires p == Offset(body, |body|) && n == |text| + 1 && ins == Flatten(Inserted(es, |body|))
    ensures p <= n && Cat(f, p, n) == ins + last
  {
    TailChunks(body, es, last, text, f);
  }

  lemma LinesOnly(body: seq<string>, es: seq<Edit<string>>)
    requires Fit(es, |body|)
    ensures Patch(Flatten(body), AsCharEdits(body, es)) == Flatten(Patch(body, es))
  {
    LinesAreChars(body, es, "");
    NothingLast(Flatten(body), "");
    NothingLast(Flatten(Patch(body, es)), "");
  }

  lemma PatchedText(body: seq<string>, es: seq<Edit<string>>, above: string, ins: string)
    requires Fit(es, |body|)
    requires above == Flatten(Cat(Chunks(body, es), 0, |body|)) && ins == Flatten(Inserted(es, |body|))
    ensures Flatten(Patch(body, es)) == above + ins
  {
    EndChunk(body, es);
    FlattenAppend(Cat(Chunks(body, es), 0, |body|), Inserted(es, |body|));
  }

  lemma EndChunk<T>(body: seq<T>, es: seq<Edit<T>>)
    requires Fit(es, |body|)
    ensures Patch(body, es) == Cat(Chunks(body, es), 0, |body|) + Inserted(es, |body|)
  {
    CatSplit(Chunks(body, es), 0, |body|, |body| + 1);
    CatOne(Chunks(body, es), |body|);
    NothingReplacing(es, |body|);
    OnlyOuter(Inserted(es, |body|), Replacing(es, |body|), []);
    assert Inserted(es, |body|) + [] == Inserted(es, |body|);
  }
}
