/** Python's stable `sort` with a key order, as the solver uses it. */
module Ranking {
  /** `before(a, b)`: `a` must come before `b`. */
  ghost predicate Strict<T(!new)>(before: (T, T) -> bool) {
    && (forall a, b :: before(a, b) ==> !before(b, a))
    && (forall a, b, c :: !before(b, a) && !before(c, b) ==> !before(c, a))
  }

  ghost predicate Ordered<T>(xs: seq<T>, before: (T, T) -> bool) {
    forall i, j :: 0 <= i < j < |xs| ==> !before(xs[j], xs[i])
  }

  /** Places a later element behind every earlier one it must not precede. */
  function Insert<T>(x: T, xs: seq<T>, before: (T, T) -> bool): seq<T> {
    if |xs| == 0 then [x]
    else if before(x, xs[0]) then [x] + xs
    else [xs[0]] + Insert(x, xs[1..], before)
  }

  function Sorted<T>(xs: seq<T>, before: (T, T) -> bool): seq<T> {
    if |xs| == 0 then [] else Insert(xs[|xs| - 1], Sorted(xs[..|xs| - 1], before), before)
  }

  lemma {:induction false} InsertKeeps<T>(x: T, xs: seq<T>, before: (T, T) -> bool)
    ensures multiset(Insert(x, xs, before)) == multiset(xs) + multiset{x}
    ensures |Insert(x, xs, before)| == |xs| + 1
  {
    if |xs| > 0 {
      assert xs == [xs[0]] + xs[1..];
      if !before(x, xs[0]) {
        InsertKeeps(x, xs[1..], before);
      }
    }
  }

  lemma {:induction false} InsertOrders<T(!new)>(x: T, xs: seq<T>, before: (T, T) -> bool)
    requires Strict(before) && Ordered(xs, before)
    ensures Ordered(Insert(x, xs, before), before)
  {
    if |xs| > 0 {
      if before(x, xs[0]) {
        var ys := [x] + xs;
        forall j | 0 < j < |ys| ensures !before(ys[j], ys[0]) {
          assert ys[j] == xs[j - 1];
          assert j > 1 ==> !before(xs[j - 1], xs[0]);
        }
      } else {
        var rest := Insert(x, xs[1..], before);
        InsertOrders(x, xs[1..], before);
        InsertKeeps(x, xs[1..], before);
        forall j | 0 <= j < |rest| ensures !before(rest[j], xs[0]) {
          assert rest[j] in multiset(rest);
          if rest[j] != x {
            assert rest[j] in xs[1..];
          }
        }
      }
    }
  }

  /** The result is a permutation in order. */
  lemma {:induction false} SortedSorts<T(!new)>(xs: seq<T>, before: (T, T) -> bool)
    requires Strict(before)
    ensures multiset(Sorted(xs, before)) == multiset(xs) && |Sorted(xs, before)| == |xs|
    ensures Ordered(Sorted(xs, before), before)
    ensures forall x :: x in Sorted(xs, before) <==> x in xs
  {
    if |xs| > 0 {
      var n := |xs| - 1;
      var front := Sorted(xs[..n], before);
      assert Sorted(xs, before) == Insert(xs[n], front, before);
      SortedSorts(xs[..n], before);
      hide Sorted, Insert, Ordered, Strict;
      InsertKeeps(xs[n], front, before);
      InsertOrders(xs[n], front, before);
      assert xs == xs[..n] + [xs[n]];
    }
    SameMembers(Sorted(xs, before), xs);
  }

  /** Elements stand as `precedes` has it, each before all later ones. */
  ghost predicate InTurn<T(!new)>(xs: seq<T>, precedes: (T, T) -> bool) {
    forall i, j :: 0 <= i < j < |xs| ==> precedes(xs[i], xs[j])
  }

  ghost predicate TiesInTurn<T(!new)>(xs: seq<T>, before: (T, T) -> bool, precedes: (T, T) -> bool) {
    forall i, j :: 0 <= i < j < |xs| && !before(xs[i], xs[j]) && !before(xs[j], xs[i]) ==> precedes(xs[i], xs[j])
  }

  lemma {:induction false} InsertIsStable<T(!new)>(x: T, xs: seq<T>, before: (T, T) -> bool, precedes: (T, T) -> bool)
    requires Strict(before) && Ordered(xs, before) && TiesInTurn(xs, before, precedes)
    requires forall y :: y in xs ==> precedes(y, x)
    ensures TiesInTurn(Insert(x, xs, before), before, precedes)
  {
    if |xs| > 0 {
      if before(x, xs[0]) {
        var ys := [x] + xs;
        forall j | 0 < j < |ys| ensures before(ys[0], ys[j]) {
          assert ys[j] == xs[j - 1];
          assert j > 1 ==> !before(xs[j - 1], xs[0]);
        }
      } else {
        var rest := Insert(x, xs[1..], before);
        InsertIsStable(x, xs[1..], before, precedes);
        InsertKeeps(x, xs[1..], before);
        var ys := [xs[0]] + rest;
        forall j | 0 < j < |ys| && !before(ys[0], ys[j]) && !before(ys[j], ys[0]) ensures precedes(ys[0], ys[j]) {
          assert ys[j] == rest[j - 1] && rest[j - 1] in multiset(rest);
          if rest[j - 1] != x {
            assert rest[j - 1] in xs[1..];
          }
        }
      }
    }
  }

  /** Whatever order elements were given in, those that rank alike stay in that order. */
  lemma {:induction false} SortedIsStable<T(!new)>(xs: seq<T>, before: (T, T) -> bool, precedes: (T, T) -> bool)
    requires Strict(before) && InTurn(xs, precedes)
    ensures TiesInTurn(Sorted(xs, before), before, precedes)
  {
    if |xs| > 0 {
      var n := |xs| - 1;
      SortedSorts(xs[..n], before);
      SortedIsStable(xs[..n], before, precedes);
      InsertIsStable(xs[n], Sorted(xs[..n], before), before, precedes);
    }
  }

  lemma BothEmpty<T>(xs: seq<T>, ys: seq<T>)
    requires forall x :: x in xs <==> x in ys
    ensures |xs| == 0 <==> |ys| == 0
  {
    if |xs| > 0 {
      assert xs[0] in ys;
    }
    if |ys| > 0 {
      assert ys[0] in xs;
    }
  }

  /** Two lists of the same elements in the same strict order are the same list. */
  lemma {:induction false} OrderDetermines<T(!new)>(xs: seq<T>, ys: seq<T>, precedes: (T, T) -> bool)
    requires InTurn(xs, precedes) && InTurn(ys, precedes) && forall a, b :: precedes(a, b) ==> !precedes(b, a)
    requires forall x :: x in xs <==> x in ys
    ensures xs == ys
  {
    BothEmpty(xs, ys);
    if |xs| > 0 {
      assert xs[0] in ys && ys[0] in xs;
      var i :| 0 <= i < |xs| && xs[i] == ys[0];
      var j :| 0 <= j < |ys| && ys[j] == xs[0];
      assert xs[0] == ys[0];
      forall x ensures x in xs[1..] <==> x in ys[1..] {
        assert x in xs <==> x == xs[0] || x in xs[1..];
        assert x in ys <==> x == ys[0] || x in ys[1..];
      }
      OrderDetermines(xs[1..], ys[1..], precedes);
    }
  }

  lemma SameMembers<T>(a: seq<T>, b: seq<T>)
    requires multiset(a) == multiset(b)
    ensures forall x :: x in a <==> x in b
  {
    forall x ensures x in a <==> x in b {
      assert x in a <==> x in multiset(a);
      assert x in b <==> x in multiset(b);
    }
  }
}
