/** Regrouping facts about concatenation, named so that proofs can ask for one at a time. */
module Seqs {
  lemma Associates<T>(a: seq<T>, b: seq<T>, c: seq<T>)
    ensures a + (b + c) == (a + b) + c
  {
  }

  lemma Regroup<T>(a: seq<T>, b: seq<T>, c: seq<T>, d: seq<T>)
    ensures a + ((b + c) + d) == (a + b) + (c + d)
  {
  }

  lemma NothingFirst<T>(a: seq<T>, b: seq<T>)
    requires |a| == 0
    ensures a + b == b
  {
  }

  lemma NothingLast<T>(a: seq<T>, b: seq<T>)
    requires |b| == 0
    ensures a + b == a
  {
  }

  lemma OnlyOuter<T>(a: seq<T>, b: seq<T>, c: seq<T>)
    requires |b| == 0
    ensures a + (b + c) == a + c
  {
  }

  lemma OnlyMiddle<T>(a: seq<T>, b: seq<T>, c: seq<T>, d: seq<T>)
    requires |b| == 0 && |d| == 0
    ensures a + ((b + c) + d) == a + c
  {
  }

  lemma EndSlice<T>(a: seq<T>, b: seq<T>, s: seq<T>)
    requires s == a + b
    ensures s[|a|..|s|] == b
  {
  }

  lemma MiddleSlice<T>(a: seq<T>, b: seq<T>, c: seq<T>, s: seq<T>)
    requires s == a + (b + c)
    ensures |a| + |b| <= |s|
    ensures s[|a|..|a| + |b|] == b
  {
  }

  // --- filtering ----------------------------------------------------------------------------

  /** The elements that `keep` accepts, in order. */
  function Filter<T>(s: seq<T>, keep: T -> bool): seq<T> {
    if s == [] then []
    else if keep(s[0]) then [s[0]] + Filter(s[1..], keep)
    else Filter(s[1..], keep)
  }

  lemma {:induction false} FilterAppend<T>(a: seq<T>, b: seq<T>, keep: T -> bool)
    ensures Filter(a + b, keep) == Filter(a, keep) + Filter(b, keep)
  {
    if a == [] {
      assert a + b == b;
    } else {
      FilterAppend(a[1..], b, keep);
      assert (a + b)[1..] == a[1..] + b;
    }
  }

  lemma FilterLast<T>(s: seq<T>, keep: T -> bool)
    requires s != []
    ensures Filter(s, keep) == Filter(s[..|s| - 1], keep) + if keep(s[|s| - 1]) then [s[|s| - 1]] else []
  {
    var init, last := s[..|s| - 1], s[|s| - 1];
    assert s == init + [last];
    FilterAppend(init, [last], keep);
    assert [last][1..] == [];
  }

  lemma {:induction false} FilterMember<T>(s: seq<T>, keep: T -> bool, x: T)
    ensures x in Filter(s, keep) <==> x in s && keep(x)
  {
    if s == [] {
    } else {
      FilterMember(s[1..], keep, x);
      assert s == [s[0]] + s[1..];
    }
  }

  lemma {:induction false} FilterAll<T>(s: seq<T>, keep: T -> bool)
    ensures |Filter(s, keep)| <= |s|
    ensures |Filter(s, keep)| == |s| <==> forall i | 0 <= i < |s| :: keep(s[i])
    ensures |Filter(s, keep)| == |s| ==> Filter(s, keep) == s
  {
    if s == [] {
    } else {
      FilterAll(s[1..], keep);
      if forall i | 0 <= i < |s[1..]| :: keep(s[1..][i]) {
        assert forall i | 1 <= i < |s| :: s[i] == s[1..][i - 1];
      }
      assert forall i | 0 <= i < |s[1..]| :: s[1..][i] == s[i + 1];
      assert s == [s[0]] + s[1..];
    }
  }

  lemma {:induction false} FilterAlike<T>(s: seq<T>, keep: T -> bool, wanted: T -> bool)
    requires forall x | x in s :: keep(x) == wanted(x)
    ensures Filter(s, keep) == Filter(s, wanted)
  {
    if s == [] {
    } else {
      assert s[0] in s && forall x | x in s[1..] :: x in s;
      FilterAlike(s[1..], keep, wanted);
    }
  }
}
