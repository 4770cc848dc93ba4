/** Strings as lines: `s.split('\n')` and `lines.join('\n')` on LF-only text. */
module Text {
  import opened Seqs

  /** `s.split('\n')`: never empty, and "" splits into one empty line. */
  function Split(s: string): (lines: seq<string>)
    ensures |lines| >= 1
  {
    if s == "" then [""]
    else if s[0] == '\n' then [""] + Split(s[1..])
    else
      var rest := Split(s[1..]);
      [[s[0]] + rest[0]] + rest[1..]
  }

  /** `lines.join('\n')`. */
  function Join(lines: seq<string>): string {
    if |lines| == 0 then ""
    else if |lines| == 1 then lines[0]
    else lines[0] + "\n" + Join(lines[1..])
  }

  /** Every line followed by its own newline. */
  function Flatten(lines: seq<string>): string {
    if |lines| == 0 then "" else lines[0] + "\n" + Flatten(lines[1..])
  }

  /** No line holds a newline. */
  ghost predicate OneLiners(lines: seq<string>) {
    forall i | 0 <= i < |lines| :: '\n' !in lines[i]
  }

  lemma {:induction false} SplitIsOneLiners(s: string)
    ensures OneLiners(Split(s))
  {
    if s == "" {
    } else {
      SplitIsOneLiners(s[1..]);
    }
  }

  /** Splitting loses nothing. */
  lemma {:induction false} JoinSplit(s: string)
    ensures Join(Split(s)) == s
  {
    if s == "" {
    } else {
      JoinSplit(s[1..]);
      var rest := Split(s[1..]);
      if s[0] != '\n' && |rest| > 1 {
        assert ([[s[0]] + rest[0]] + rest[1..])[1..] == rest[1..];
      }
    }
  }

  /** Joining newline-free lines and splitting again gives the same lines. */
  lemma {:induction false} SplitJoin(lines: seq<string>)
    requires |lines| >= 1 && OneLiners(lines)
    ensures Split(Join(lines)) == lines
    decreases |lines|, |lines[0]|
  {
    if lines[0] != "" {
      var shorter := [lines[0][1..]] + lines[1..];
      SplitJoin(shorter);
      assert shorter[1..] == lines[1..];
      assert Join(lines) == [lines[0][0]] + Join(shorter);
      assert Join(lines)[1..] == Join(shorter);
      assert [lines[0][0]] + shorter[0] == lines[0];
      assert [[lines[0][0]] + shorter[0]] + shorter[1..] == [lines[0]] + lines[1..] == lines;
    } else if |lines| > 1 {
      SplitJoin(lines[1..]);
      assert Join(lines)[1..] == Join(lines[1..]);
      assert [""] + lines[1..] == lines;
    }
  }

  lemma {:induction false} JoinAppend(a: seq<string>, b: seq<string>)
    requires |b| >= 1
    ensures Join(a + b) == Flatten(a) + Join(b)
  {
    if a == [] {
      assert a + b == b;
    } else {
      JoinAppend(a[1..], b);
      assert (a + b)[1..] == a[1..] + b;
    }
  }

  lemma {:induction false} FlattenAppend(a: seq<string>, b: seq<string>)
    ensures Flatten(a + b) == Flatten(a) + Flatten(b)
  {
    if a == [] {
      assert a + b == b;
    } else {
      FlattenAppend(a[1..], b);
      assert (a + b)[1..] == a[1..] + b;
      Associates(a[0] + "\n", Flatten(a[1..]), Flatten(b));
    }
  }

  /** `t + "\n"` is exactly the lines of `t`, each with its newline. */
  lemma TerminatedLines(t: string)
    ensures Flatten(Split(t)) == t + "\n"
  {
    FlattenIsJoin(Split(t));
    JoinSplit(t);
  }

  lemma {:induction false} FlattenIsJoin(lines: seq<string>)
    requires |lines| >= 1
    ensures Flatten(lines) == Join(lines) + "\n"
  {
    if |lines| <= 1 {
    } else {
      FlattenIsJoin(lines[1..]);
    }
  }
}
