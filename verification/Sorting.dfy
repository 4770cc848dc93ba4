/** The stable sort of `Array.prototype.sort` and `sorted`, as an insertion sort. */
module Sorting {
  /** Behind everything in the sorted list that need not come after `x`. */
  function Place<T>(sorted: seq<T>, x: T, before: (T, T) -> bool): seq<T> {
    if sorted == [] || !before(x, sorted[|sorted| - 1]) then sorted + [x]
    else Place(sorted[..|sorted| - 1], x, before) + [sorted[|sorted| - 1]]
  }

  function Sort<T>(xs: seq<T>, before: (T, T) -> bool): seq<T> {
    if xs == [] then [] else Place(Sort(xs[..|xs| - 1], before), xs[|xs| - 1], before)
  }

  /** No element stands behind one that it has to precede. */
  ghost predicate Ordered<T>(xs: seq<T>, before: (T, T) -> bool) {
    forall i, j | 0 <= i < j < |xs| :: !before(xs[j], xs[i])
  }

  ghost predicate StrictOrder<T(!new)>(before: (T, T) -> bool) {
    && (forall a, b | before(a, b) :: !before(b, a))
    && (forall a, b, c | before(a, b) && !before(c, b) :: before(a, c))
  }

  lemma LastOfBag<T>(xs: seq<T>)
    requires xs != []
    ensures multiset(xs) == multiset(xs[..|xs| - 1]) + multiset{xs[|xs| - 1]}
  {
    assert xs == xs[..|xs| - 1] + [xs[|xs| - 1]];
  }

  lemma {:induction false} PlaceKeeps<T>(sorted: seq<T>, x: T, before: (T, T) -> bool)
    ensures multiset(Place(sorted, x, before)) == multiset(sorted) + multiset{x}
  {
    if sorted == [] || !before(x, sorted[|sorted| - 1]) {
    } else {
      PlaceKeeps(sorted[..|sorted| - 1], x, before);
      LastOfBag(sorted);
    }
  }

  lemma {:induction false} SortKeeps<T>(xs: seq<T>, before: (T, T) -> bool)
    ensures multiset(Sort(xs, before)) == multiset(xs)
  {
    if xs == [] {
    } else {
      SortKeeps(xs[..|xs| - 1], before);
      PlaceKeeps(Sort(xs[..|xs| - 1], before), xs[|xs| - 1], before);
      LastOfBag(xs);
    }
  }

  lemma SortMember<T(!new)>(xs: seq<T>, before: (T, T) -> bool)
    ensures forall x :: x in Sort(xs, before) <==> x in xs
    ensures |Sort(xs, before)| == |xs|
  {
    SortKeeps(xs, before);
    forall x ensures x in Sort(xs, before) <==> x in xs {
      assert x in Sort(xs, before) <==> x in multiset(Sort(xs, before));
      assert x in xs <==> x in multiset(xs);
    }
    assert |multiset(Sort(xs, before))| == |multiset(xs)|;
  }

  // --- what sorting leaves of pairs in list order ------------------------------------

  /** No pair of elements, taken in list order, is bad. */
  ghost predicate NoPair<T>(xs: seq<T>, bad: (T, T) -> bool) {
    forall i, j | 0 <= i < j < |xs| :: !bad(xs[i], xs[j])
  }

  lemma NoPairLast<T(!new)>(xs: seq<T>, x: T, bad: (T, T) -> bool)
    ensures NoPair(xs + [x], bad) <==> NoPair(xs, bad) && (forall y | y in xs :: !bad(y, x))
  {
    var all := xs + [x];
    if NoPair(all, bad) {
      forall i, j | 0 <= i < j < |xs| ensures !bad(xs[i], xs[j]) {
        assert all[i] == xs[i] && all[j] == xs[j];
      }
      forall y | y in xs ensures !bad(y, x) {
        var i :| 0 <= i < |xs| && xs[i] == y;
        assert all[i] == y && all[|xs|] == x;
      }
    }
  }

  lemma NoPairSwap<T(!new)>(init: seq<T>, last: T, x: T, bad: (T, T) -> bool)
    requires bad(last, x) == bad(x, last)
    ensures NoPair(init + [last] + [x], bad) <==> NoPair(init + [x] + [last], bad)
  {
    hide NoPair;
    NoPairLast(init, x, bad);
    NoPairLast(init, last, bad);
    NoPairLast(init + [last], x, bad);
    NoPairLast(init + [x], last, bad);
  }

  lemma PlaceMember<T(!new)>(sorted: seq<T>, x: T, before: (T, T) -> bool)
    ensures forall y :: y in Place(sorted, x, before) <==> y in sorted + [x]
  {
    PlaceKeeps(sorted, x, before);
    forall y ensures y in Place(sorted, x, before) <==> y in sorted + [x] {
      assert y in Place(sorted, x, before) <==> y in multiset(Place(sorted, x, before));
      assert y in sorted <==> y in multiset(sorted);
    }
  }

  /** Sorting never swaps the members of a pair, unless it is harmless either way. */
  lemma {:induction false} PlaceNoPair<T(!new)>(sorted: seq<T>, x: T, before: (T, T) -> bool, bad: (T, T) -> bool)
    requires forall a, b | before(a, b) :: bad(a, b) == bad(b, a)
    ensures NoPair(Place(sorted, x, before), bad) <==> NoPair(sorted + [x], bad)
  {
    hide NoPair;
    if sorted == [] || !before(x, sorted[|sorted| - 1]) {
    } else {
      var init, last := sorted[..|sorted| - 1], sorted[|sorted| - 1];
      PlaceNoPair(init, x, before, bad);
      PlaceMember(init, x, before);
      PlacedBefore(sorted, init, x, Place(init, x, before), last, bad);
    }
  }

  lemma PlacedBefore<T(!new)>(
      sorted: seq<T>, init: seq<T>, x: T, placed: seq<T>, last: T, bad: (T, T) -> bool)
    requires |sorted| > 0 && init == sorted[..|sorted| - 1] && last == sorted[|sorted| - 1]
    requires (NoPair(placed, bad) <==> NoPair(init + [x], bad)) && bad(last, x) == bad(x, last)
    requires forall y :: y in placed <==> y in init + [x]
    ensures NoPair(placed + [last], bad) <==> NoPair(sorted + [x], bad)
  {
    hide NoPair;
    assert sorted == init + [last];
    NoPairLast(placed, last, bad);
    NoPairLast(init + [x], last, bad);
    NoPairSwap(init, last, x, bad);
  }

  lemma {:induction false} SortNoPair<T(!new)>(xs: seq<T>, before: (T, T) -> bool, bad: (T, T) -> bool)
    requires forall a, b | before(a, b) :: bad(a, b) == bad(b, a)
    ensures NoPair(Sort(xs, before), bad) <==> NoPair(xs, bad)
  {
    hide NoPair, Place;
    if xs == [] {
    } else {
      var init, last := xs[..|xs| - 1], xs[|xs| - 1];
      SortNoPair(init, before, bad);
      PlaceNoPair(Sort(init, before), last, before, bad);
      SortMember(init, before);
      NoPairLast(init, last, bad);
      NoPairLast(Sort(init, before), last, bad);
      assert xs == init + [last];
    }
  }

  // --- the result is ordered -------------------------------------------------------------

  lemma OrderedLast<T(!new)>(xs: seq<T>, x: T, before: (T, T) -> bool)
    ensures Ordered(xs + [x], before) <==> Ordered(xs, before) && (forall y | y in xs :: !before(x, y))
  {
    var bad := (a: T, b: T) => before(b, a);
    NoPairLast(xs, x, bad);
    assert NoPair(xs, bad) <==> Ordered(xs, before);
    assert NoPair(xs + [x], bad) <==> Ordered(xs + [x], before);
  }

  lemma {:induction false} PlaceOrders<T(!new)>(sorted: seq<T>, x: T, before: (T, T) -> bool)
    requires StrictOrder(before) && Ordered(sorted, before)
    ensures Ordered(Place(sorted, x, before), before)
  {
    if sorted == [] {
    } else {
      var init, last := sorted[..|sorted| - 1], sorted[|sorted| - 1];
      assert sorted == init + [last];
      OrderedLast(init, last, before);
      if before(x, last) {
        PlaceOrders(init, x, before);
        PlaceMember(init, x, before);
        OrderedLast(Place(init, x, before), last, before);
      } else {
        OrderedLast(sorted, x, before);
      }
    }
  }

  lemma {:induction false} SortOrders<T(!new)>(xs: seq<T>, before: (T, T) -> bool)
    requires StrictOrder(before)
    ensures Ordered(Sort(xs, before), before)
  {
    if xs == [] {
    } else {
      SortOrders(xs[..|xs| - 1], before);
      PlaceOrders(Sort(xs[..|xs| - 1], before), xs[|xs| - 1], before);
    }
  }

  // --- the first of the result --------------------------------------------------------------

  lemma {:induction false} PlacedFirst<T(!new)>(sorted: seq<T>, x: T, before: (T, T) -> bool)
    requires StrictOrder(before) && Ordered(sorted, before)
    ensures Place(sorted, x, before) != []
    ensures Place(sorted, x, before)[0] == if sorted == [] || before(x, sorted[0]) then x else sorted[0]
  {
    if sorted == [] || !before(x, sorted[|sorted| - 1]) {
    } else {
      PlacedFirst(sorted[..|sorted| - 1], x, before);
    }
  }

  /** The first is a least element, and of several such the one that was first. */
  lemma {:induction false} SortFirst<T(!new)>(xs: seq<T>, before: (T, T) -> bool) returns (i: nat)
    requires StrictOrder(before) && xs != []
    ensures i < |xs| && Sort(xs, before) != [] && Sort(xs, before)[0] == xs[i]
    ensures forall j | 0 <= j < |xs| :: !before(xs[j], xs[i])
    ensures forall j | 0 <= j < i :: before(xs[i], xs[j])
    decreases |xs|
  {
    hide Place;
    var n := |xs| - 1;
    SortOrders(xs[..n], before);
    PlacedFirst(Sort(xs[..n], before), xs[n], before);
    if n == 0 {
      i := 0;
    } else {
      i := SortFirst(xs[..n], before);
      assert forall j | 0 <= j < n :: xs[..n][j] == xs[j];
      if before(xs[n], xs[i]) {
        i := n;
      }
    }
  }
}
