/** The detector's independence test: Kuhn's augmenting paths over the ILLEGAL
    (character slot, position) pairs, updating `match` and `seen` in place, and the
    proof that what they find is a maximum matching. */
module Matching {
  import opened SetBounds

  // ------------------------------------------------------------ specification

  /** Character slot `c` would be illegal at position `i`. */
  ghost predicate Illegal(legal: seq<seq<bool>>, c: int, i: int) {
    0 <= c < |legal| && 0 <= i < |legal[c]| && !legal[c][i]
  }

  ghost predicate Rectangular(legal: seq<seq<bool>>, width: nat) {
    forall c :: 0 <= c < |legal| ==> |legal[c]| == width
  }

  /** `m[i]` is the slot matched to position `i`, or -1. */
  ghost predicate Edges(legal: seq<seq<bool>>, m: seq<int>) {
    forall i :: 0 <= i < |m| && m[i] != -1 ==> Illegal(legal, m[i], i)
  }

  ghost predicate Injective(m: seq<int>) {
    forall i, j :: 0 <= i < j < |m| && m[i] != -1 ==> m[i] != m[j]
  }

  ghost predicate IsMatching(legal: seq<seq<bool>>, m: seq<int>) {
    Edges(legal, m) && Injective(m)
  }

  ghost function Matched(m: seq<int>): set<int> {
    set i | 0 <= i < |m| && m[i] != -1
  }

  ghost predicate Maximum(legal: seq<seq<bool>>, width: nat, k: int) {
    && (exists m: seq<int> :: |m| == width && IsMatching(legal, m) && |Matched(m)| == k)
    && (forall m: seq<int> :: |m| == width && IsMatching(legal, m) ==> |Matched(m)| <= k)
  }

  // ------------------------------------------------------------ one search

  ghost predicate NeighboursIn(legal: seq<seq<bool>>, c: int, R: set<int>) {
    forall k :: Illegal(legal, c, k) ==> k in R
  }

  /** Every position of `R` is matched, and no slot matched into `R` has an illegal
      position outside it: an alternating path that enters `R` can never leave. */
  ghost predicate Closed(legal: seq<seq<bool>>, m: seq<int>, R: set<int>) {
    forall j :: j in R ==> 0 <= j < |m| && m[j] != -1 && NeighboursIn(legal, m[j], R)
  }

  ghost predicate AllSeen(legal: seq<seq<bool>>, c: int, seen: seq<bool>) {
    forall k :: Illegal(legal, c, k) ==> k < |seen| && seen[k]
  }

  /** Marks only grow, and every newly marked position is matched to a slot all of
      whose illegal positions are marked too. */
  ghost predicate Explored(legal: seq<seq<bool>>, m: seq<int>, s0: seq<bool>, s1: seq<bool>) {
    && |s0| == |s1| == |m|
    && (forall j :: 0 <= j < |s0| && s0[j] ==> s1[j])
    && (forall j :: 0 <= j < |s0| && s1[j] && !s0[j] ==> m[j] != -1 && AllSeen(legal, m[j], s1))
  }

  /** `m1` is `m0` after a successful search from slot `c`: `c` now stands at the new
      position `p`, one free position `q` was covered, no slot was lost, positions
      marked before the search did not move, and only `c` may appear twice (at a
      position marked before, which the caller is about to overwrite). */
  ghost predicate Augmented(legal: seq<seq<bool>>, c: int, m0: seq<int>, m1: seq<int>, s0: seq<bool>, p: int, q: int) {
    && |m0| == |m1| == |s0|
    && 0 <= p < |m0| && 0 <= q < |m0|
    && (forall j :: 0 <= j < |m0| && s0[j] ==> m1[j] == m0[j])
    && Edges(legal, m1)
    && !s0[p] && m1[p] == c
    && m0[q] == -1
    && (forall j :: 0 <= j < |m0| ==> (m1[j] != -1 <==> m0[j] != -1 || j == q))
    && (forall i, j :: 0 <= i < j < |m0| && m1[i] != -1 && m1[i] == m1[j] ==> m1[i] == c && (s0[i] || s0[j]))
    && SlotsGrow(c, m0, m1)
  }

  ghost predicate SlotsGrow(c: int, m0: seq<int>, m1: seq<int>) {
    && (forall x :: x in m0 && x != -1 ==> x in m1)
    && (forall x :: x in m1 && x != -1 ==> x == c || x in m0)
  }

  lemma SlotsAfterMove(m: seq<int>, m1: seq<int>, i: int, c: int, p: int)
    requires 0 <= i < |m| == |m1| && SlotsGrow(m[i], m, m1)
    requires 0 <= p < |m1| && p != i && m1[p] == m[i] && m1[i] == m[i]
    ensures SlotsGrow(c, m, m1[i := c])
  {
    var m2 := m1[i := c];
    forall x | x in m1 ensures x in m2 {
      var k :| 0 <= k < |m1| && m1[k] == x;
      assert m2[if k == i then p else k] == x;
    }
  }

  lemma PathEnds(legal: seq<seq<bool>>, c: int, m: seq<int>, s0: seq<bool>, i: int)
    requires IsMatching(legal, m) && |m| == |s0| && 0 <= i < |m|
    requires Illegal(legal, c, i) && m[i] == -1 && !s0[i]
    requires forall j :: 0 <= j < |m| && m[j] == c ==> s0[j]
    ensures Augmented(legal, c, m, m[i := c], s0, i, i)
  {
    var m1 := m[i := c];
    forall x | x in m && x != -1 ensures x in m1 {
      var k :| 0 <= k < |m| && m[k] == x;
      assert m1[k] == x;
    }
  }

  lemma PathExtends(legal: seq<seq<bool>>, c: int, m: seq<int>, m1: seq<int>, s0: seq<bool>, s1: seq<bool>,
                    i: int, p: int, q: int)
    requires IsMatching(legal, m) && |m| == |s0| && 0 <= i < |m|
    requires Illegal(legal, c, i) && m[i] != -1 && !s0[i] && c != m[i]
    requires forall j :: 0 <= j < |m| && m[j] == c ==> s0[j]
    requires |s1| == |s0| && s1[i] && forall j :: 0 <= j < |s0| && s0[j] ==> s1[j]
    requires Augmented(legal, m[i], m, m1, s1, p, q)
    ensures Augmented(legal, c, m, m1[i := c], s0, i, q)
  {
    var m2 := m1[i := c];
    SlotsAfterMove(m, m1, i, c, p);
    forall j, k | 0 <= j < k < |m| && m2[j] != -1 && m2[j] == m2[k]
      ensures m2[j] == c && (s0[j] || s0[k])
    {
      OnlyTheRootRepeats(legal, c, m, m1, s0, s1, i, p, q, j, k);
    }
  }

  /** A slot at two positions of the extended path can only be its root, and one of
      the two positions is then an old one. */
  lemma OnlyTheRootRepeats(legal: seq<seq<bool>>, c: int, m: seq<int>, m1: seq<int>, s0: seq<bool>, s1: seq<bool>,
                           i: int, p: int, q: int, j: int, k: int)
    requires Injective(m) && |m| == |s0| && 0 <= i < |m| && m[i] != -1 && c != m[i] && c != -1
    requires forall x :: 0 <= x < |m| && m[x] == c ==> s0[x]
    requires |s1| == |s0| && s1[i] && forall x :: 0 <= x < |s0| && s0[x] ==> s1[x]
    requires Augmented(legal, m[i], m, m1, s1, p, q)
    requires 0 <= j < k < |m| && m1[i := c][j] != -1 && m1[i := c][j] == m1[i := c][k]
    ensures m1[i := c][j] == c && (s0[j] || s0[k])
  {
    if j == i || k == i {
      var other := if j == i then k else j;
      assert m1[other] == c && c in m;
      var x :| 0 <= x < |m| && m[x] == c;
      assert m1[x] == c;
      assert x == other;
    }
  }

  lemma OneHolder(legal: seq<seq<bool>>, m: seq<int>, i: int)
    requires IsMatching(legal, m) && 0 <= i < |m| && m[i] != -1
    ensures 0 <= m[i] < |legal| && forall j :: 0 <= j < |m| && m[j] == m[i] ==> j == i
  {
  }

  /** One augmenting search from slot `c`.  A failed search changes nothing and
      leaves everything it marked closed; a successful one never enters a closed
      set `R`, and fails outright when `c` can only enter through `R`. */
  method Augment(c: int, legal: seq<seq<bool>>, match_: array<int>, seen: array<bool>, ghost R: set<int>)
    returns (found: bool, ghost p: int, ghost q: int)
    requires 0 <= c < |legal| && match_.Length == seen.Length && Rectangular(legal, match_.Length)
    requires IsMatching(legal, match_[..])
    requires forall j :: 0 <= j < match_.Length && match_[j] == c ==> seen[j]
    requires Closed(legal, match_[..], R)
    modifies match_, seen
    ensures forall j :: 0 <= j < seen.Length && old(seen[j]) ==> seen[j]
    ensures found ==> Augmented(legal, c, old(match_[..]), match_[..], old(seen[..]), p, q)
    ensures !found ==> match_[..] == old(match_[..])
    ensures !found ==> Explored(legal, match_[..], old(seen[..]), seen[..]) && AllSeen(legal, c, seen[..])
    ensures forall j :: j in R ==> match_[j] == old(match_[j])
    ensures NeighboursIn(legal, c, R) ==> !found
    decreases set j | 0 <= j < seen.Length && !seen[j]
  {
    hide Augmented, IsMatching;
    p, q := -1, -1;
    ghost var m, s0 := match_[..], seen[..];
    ghost var unseen := set j | 0 <= j < seen.Length && !seen[j];
    for i := 0 to match_.Length
      invariant match_[..] == m
      invariant Explored(legal, m, s0, seen[..])
      invariant forall k :: Illegal(legal, c, k) && k < i ==> seen[k]
    {
      if legal[c][i] || seen[i] {
        continue;
      }
      seen[i] := true;
      assert Illegal(legal, c, i) && i in unseen;
      if match_[i] == -1 {
        PathEnds(legal, c, m, s0, i);
        match_[i] := c;
        assert match_[..] == m[i := c];
        return true, i, i;
      }
      ghost var s1 := seen[..];
      OneHolder(legal, m, i);
      found, p, q := Augment(match_[i], legal, match_, seen, R);
      if found {
        ghost var m1 := match_[..];
        PathExtends(legal, c, m, m1, s0, s1, i, p, q);
        match_[i] := c;
        assert match_[..] == m1[i := c];
        return true, i, q;
      }
      assert Explored(legal, m, s1, seen[..]) && AllSeen(legal, m[i], seen[..]);
    }
    return false, -1, -1;
  }

  // ------------------------------------------------------------ all searches

  /** Slots `0..c` that could not be matched are confined to the closed set `R`,
      which makes `R` and the slots matched outside it a vertex cover. */
  ghost predicate Confined(legal: seq<seq<bool>>, m: seq<int>, c: int, R: set<int>) {
    && Closed(legal, m, R)
    && forall x :: 0 <= x < c && x !in m ==> NeighboursIn(legal, x, R)
  }

  lemma AfterSuccess(legal: seq<seq<bool>>, c: int, m: seq<int>, m1: seq<int>, s0: seq<bool>,
                     p: int, q: int, R: set<int>)
    requires IsMatching(legal, m) && 0 <= c < |legal| && c !in m && Confined(legal, m, c, R)
    requires Augmented(legal, c, m, m1, s0, p, q) && forall j :: 0 <= j < |s0| ==> !s0[j]
    requires forall j :: j in R ==> m1[j] == m[j]
    requires forall x :: x in m ==> -1 <= x < c
    ensures IsMatching(legal, m1) && Confined(legal, m1, c + 1, R)
    ensures |Matched(m1)| == |Matched(m)| + 1
    ensures forall x :: x in m1 ==> -1 <= x < c + 1
  {
    assert Matched(m1) == Matched(m) + {q};
  }

  lemma AfterFailure(legal: seq<seq<bool>>, c: int, m: seq<int>, s0: seq<bool>, s1: seq<bool>, R: set<int>)
    requires 0 <= c < |legal| && Confined(legal, m, c, R)
    requires Explored(legal, m, s0, s1) && AllSeen(legal, c, s1) && forall j :: 0 <= j < |s0| ==> !s0[j]
    ensures Confined(legal, m, c + 1, R + set j | 0 <= j < |s1| && s1[j])
  {
  }

  /** `max_illegal` over the legality table: one search per slot, each with fresh
      marks.  The count is the size of a maximum matching. */
  method MaxIllegal(legal: seq<seq<bool>>, width: nat) returns (total: nat)
    requires Rectangular(legal, width)
    ensures Maximum(legal, width, total)
  {
    var match_ := new int[width](_ => -1);
    total := 0;
    ghost var R: set<int> := {};
    assert Matched(match_[..]) == {};
    for c := 0 to |legal|
      invariant IsMatching(legal, match_[..])
      invariant forall x :: x in match_[..] ==> -1 <= x < c
      invariant total == |Matched(match_[..])|
      invariant Confined(legal, match_[..], c, R)
    {
      ghost var m := match_[..];
      var seen := new bool[width](_ => false);
      ghost var s0 := seen[..];
      assert forall j :: 0 <= j < width && match_[j] == c ==> c in m;
      var found, p, q := Augment(c, legal, match_, seen, R);
      if found {
        AfterSuccess(legal, c, m, match_[..], s0, p, q, R);
        total := total + 1;
      } else {
        AfterFailure(legal, c, m, s0, seen[..], R);
        R := R + set j | 0 <= j < |seen[..]| && seen[..][j];
      }
    }
    forall m: seq<int> | |m| == width && IsMatching(legal, m)
      ensures |Matched(m)| <= total
    {
      CoverBound(legal, match_[..], R, m);
    }
    assert |match_[..]| == width;
  }

  // ------------------------------------------------------------ maximality

  /** Position of slot `x` in `m`. */
  ghost function Place(m: seq<int>, x: int): (k: int)
    requires x in m
    ensures 0 <= k < |m| && m[k] == x
  {
    var k :| 0 <= k < |m| && m[k] == x;
    k
  }

  /** A slot matched by `m'` outside `R` is matched by `m` outside `R`. */
  lemma OutsideBound(legal: seq<seq<bool>>, m: seq<int>, R: set<int>, m': seq<int>)
    requires |m| == |m'| && Edges(legal, m') && Injective(m')
    requires Confined(legal, m, |legal|, R)
    ensures |Matched(m') - R| <= |Matched(m) - R|
  {
    var outside := Matched(m') - R;
    forall j | j in outside ensures m'[j] in m && Place(m, m'[j]) in Matched(m) - R {
      assert Illegal(legal, m'[j], j);
      assert m'[j] in m;
    }
    var f := map j | j in outside :: Place(m, m'[j]);
    InjectiveMapBound(outside, f, Matched(m) - R);
  }

  /** No matching is larger than a matching whose failed slots are confined. */
  lemma CoverBound(legal: seq<seq<bool>>, m: seq<int>, R: set<int>, m': seq<int>)
    requires |m| == |m'| && IsMatching(legal, m) && IsMatching(legal, m')
    requires Confined(legal, m, |legal|, R)
    ensures |Matched(m')| <= |Matched(m)|
  {
    OutsideBound(legal, m, R, m');
    InsideBound(Matched(m') * R, R);
    assert Matched(m') == Matched(m') * R + (Matched(m') - R);
    assert Matched(m) == R + (Matched(m) - R);
  }
}
