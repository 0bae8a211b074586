/** What a named character does to the candidates: which of them stay, which strings are
    new, and exactly when there are fewer. */
module Narrowing {
  import opened Common
  import opened Posterior
  import opened Ranking
  import opened Repairs
  import opened SetBounds
  import opened Solver

  // ------------------------------------------------- what is within reach

  lemma AnotherCharacter(fmt: Fmt, i: nat, c: char) returns (d: char)
    requires WellFormed(fmt) && i < fmt.Length()
    ensures d in fmt.alpha[i] && d != c
  {
    var alphabet := fmt.alpha[i];
    assert alphabet[0] != alphabet[1];
    d := if alphabet[0] == c then alphabet[1] else alphabet[0];
  }

  /** Naming an allowed character leaves within reach exactly the strings that have it,
      and puts at least one out of reach. */
  lemma NamingNarrowsReach(fmt: Fmt, h: string, locked: set<nat>, i: nat, c: char)
    requires WellFormed(fmt) && |h| == fmt.Length() && i < |h| && i !in locked && c in fmt.alpha[i]
    ensures forall x :: LegalEdit(fmt, h[i := c], locked + {i}, x) <==> LegalEdit(fmt, h, locked, x) && x[i] == c
    ensures exists x :: LegalEdit(fmt, h, locked, x) && x[i] != c
  {
    var h' := h[i := c];
    forall x ensures LegalEdit(fmt, h', locked + {i}, x) <==> LegalEdit(fmt, h, locked, x) && x[i] == c {
      if LegalEdit(fmt, h', locked + {i}, x) {
        assert x[i] == h'[i];
        assert forall j :: 0 <= j < |h| && j != i ==> h'[j] == h[j];
      }
    }
    var d := AnotherCharacter(fmt, i, c);
    assert LegalEdit(fmt, h, locked, h[i := d]);
  }

  // ------------------------------------------------- before and after

  ghost predicate Has(x: string, i: nat, c: char) {
    i < |x| && x[i] == c
  }

  /** The candidates of a string, and those after a human named `c` at position `i`. */
  ghost predicate BeforeAndAfter(fmt: Fmt, w: Weights, h: string, confs: seq<real>, locked: set<nat>, i: nat, c: char,
                                 conf: real, xs: seq<string>, m: nat, ys: seq<string>, n: nat) {
    && WellFormed(fmt) && |h| == |confs| == fmt.Length()
    && i < |h| && i !in locked && (c == h[i] || c in fmt.alpha[i])
    && IsCandidateList(fmt, Posts(fmt, h, confs, locked, w), h, locked, xs, m)
    && IsCandidateList(fmt, Posts(fmt, h[i := c], confs[i := conf], locked + {i}, w), h[i := c], locked + {i}, ys, n)
  }

  /** No candidate is new and there are fewer. */
  ghost predicate Narrower(xs: seq<string>, ys: seq<string>) {
    |ys| < |xs| && forall y :: y in ys ==> y in xs
  }

  ghost predicate OneEditAway(fmt: Fmt, h: string, locked: set<nat>, x: string)
    requires |h| == fmt.Length()
  {
    exists j, k :: SingleEdit(fmt, h, locked, x, j, k)
  }

  lemma LockingKeepsSingleEdits(fmt: Fmt, h: string, locked: set<nat>, i: nat, x: string)
    requires |h| == fmt.Length() && i < |h| && i !in locked
    ensures OneEditAway(fmt, h, locked + {i}, x) <==> OneEditAway(fmt, h, locked, x) && Has(x, i, h[i])
  {
    if j, k :| SingleEdit(fmt, h, locked, x, j, k) && x[i] == h[i] {
      assert j != i;
      assert SingleEdit(fmt, h, locked + {i}, x, j, k);
    }
    if j, k :| SingleEdit(fmt, h, locked + {i}, x, j, k) {
      assert SingleEdit(fmt, h, locked, x, j, k);
    }
  }

  /** Every later candidate has the named character. */
  lemma LaterHaveIt(fmt: Fmt, w: Weights, h: string, confs: seq<real>, locked: set<nat>, i: nat, c: char, conf: real,
                    xs: seq<string>, m: nat, ys: seq<string>, n: nat)
    requires BeforeAndAfter(fmt, w, h, confs, locked, i, c, conf, xs, m, ys, n)
    ensures forall y :: y in ys ==> Has(y, i, c)
  {
    var posts' := Posts(fmt, h[i := c], confs[i := conf], locked + {i}, w);
    forall y | y in ys ensures Has(y, i, c) {
      CandidatesAreLegal(fmt, posts', h[i := c], locked + {i}, ys, n, y);
    }
  }

  /** What a single edit says of the radius. */
  lemma OneEditSuffices(fmt: Fmt, posts: seq<map<char, real>>, h: string, locked: set<nat>, xs: seq<string>, m: nat,
                        x: string)
    requires |posts| == |h| == fmt.Length() && IsCandidateList(fmt, posts, h, locked, xs, m)
    requires !fmt.ok(h) && fmt.ok(x) && OneEditAway(fmt, h, locked, x)
    ensures m == 1 && x in xs
  {
    RadiusMeans(fmt, posts, h, locked, xs, m);
  }

  // ------------------------------------------------- with at most one edit

  lemma KeptFromOneEdit(fmt: Fmt, w: Weights, h: string, confs: seq<real>, locked: set<nat>, i: nat, c: char,
                        conf: real, xs: seq<string>, m: nat, ys: seq<string>, n: nat, x: string)
    requires BeforeAndAfter(fmt, w, h, confs, locked, i, c, conf, xs, m, ys, n)
    requires m <= 1 && x in xs && Has(x, i, c)
    ensures forall y :: y in ys <==> y in xs && Has(y, i, c)
  {
    var h', locked' := h[i := c], locked + {i};
    var posts' := Posts(fmt, h', confs[i := conf], locked', w);
    RadiusMeans(fmt, posts', h', locked', ys, n);
    if c != h[i] {
      OnlyTheString(fmt, h, locked, xs, m, i, c);
    } else {
      assert h' == h;
      if m == 0 {
        assert ys == [h] && xs == [h];
      } else {
        LockingKeepsSingleEdits(fmt, h, locked, i, x);
        OneEditSuffices(fmt, posts', h, locked', ys, n, x);
        StillOneEditAway(fmt, h, locked, i, xs, ys);
      }
    }
  }

  lemma StillOneEditAway(fmt: Fmt, h: string, locked: set<nat>, i: nat, xs: seq<string>, ys: seq<string>)
    requires |h| == fmt.Length() && i < |h| && i !in locked
    requires ExactlyR1(fmt, h, locked, xs) && ExactlyR1(fmt, h, locked + {i}, ys)
    ensures forall y :: y in ys <==> y in xs && Has(y, i, h[i])
  {
    forall y ensures y in ys <==> y in xs && Has(y, i, h[i]) {
      LockingKeepsSingleEdits(fmt, h, locked, i, y);
      assert y in xs <==> fmt.ok(y) && OneEditAway(fmt, h, locked, y);
      assert y in ys <==> fmt.ok(y) && OneEditAway(fmt, h, locked + {i}, y);
    }
  }

  /** Of the strings one edit away only one has another character at `i`. */
  lemma OnlyTheString(fmt: Fmt, h: string, locked: set<nat>, xs: seq<string>, m: nat, i: nat, c: char)
    requires |h| == fmt.Length() && i < |h| && c != h[i] && m <= 1
    requires m == 0 ==> xs == [h]
    requires m == 1 ==> ExactlyR1(fmt, h, locked, xs)
    ensures forall x :: x in xs && Has(x, i, c) ==> x == h[i := c] && fmt.ok(x)
  {
  }

  // ------------------------------------------------- fewer candidates

  lemma {:induction false} DistinctCount<T>(xs: seq<T>)
    requires NoDuplicates(xs)
    ensures |set x | x in xs| == |xs|
  {
    if |xs| > 0 {
      var n := |xs| - 1;
      DistinctCount(xs[..n]);
      assert xs == xs[..n] + [xs[n]];
      assert (set x | x in xs) == (set x | x in xs[..n]) + {xs[n]};
    }
  }

  /** A list without repetitions drawn from another is shorter exactly when something of
      the other is missing. */
  lemma FewerExactlyWhen<T(!new)>(xs: seq<T>, ys: seq<T>)
    requires NoDuplicates(xs) && NoDuplicates(ys) && forall y :: y in ys ==> y in xs
    ensures |ys| < |xs| <==> exists x :: x in xs && x !in ys
  {
    var a, b := set x | x in xs, set y | y in ys;
    DistinctCount(xs);
    DistinctCount(ys);
    if x :| x in xs && x !in ys {
      InsideBound(b, a - {x});
    } else {
      assert a == b;
    }
  }

  lemma ListsAreDistinct(fmt: Fmt, w: Weights, h: string, confs: seq<real>, locked: set<nat>, i: nat, c: char,
                         conf: real, xs: seq<string>, m: nat, ys: seq<string>, n: nat)
    requires BeforeAndAfter(fmt, w, h, confs, locked, i, c, conf, xs, m, ys, n)
    ensures NoDuplicates(xs) && NoDuplicates(ys) && (m <= 1 ==> xs != [])
  {
  }

  /** With candidates at most one edit away, and one of them having the named character:
      those that have it stay, no other does, and there are fewer exactly when some
      candidate had another character there. */
  lemma NamingNarrowsExactlyWhen(fmt: Fmt, w: Weights, h: string, confs: seq<real>, locked: set<nat>, i: nat, c: char,
                                 conf: real, xs: seq<string>, m: nat, ys: seq<string>, n: nat)
    requires BeforeAndAfter(fmt, w, h, confs, locked, i, c, conf, xs, m, ys, n)
    requires m <= 1 && exists x :: x in xs && Has(x, i, c)
    ensures forall y :: y in ys <==> y in xs && Has(y, i, c)
    ensures |ys| < |xs| <==> exists x :: x in xs && !Has(x, i, c)
  {
    var x :| x in xs && Has(x, i, c);
    KeptFromOneEdit(fmt, w, h, confs, locked, i, c, conf, xs, m, ys, n, x);
    ListsAreDistinct(fmt, w, h, confs, locked, i, c, conf, xs, m, ys, n);
    hide BeforeAndAfter;
    FewerExactlyWhen(xs, ys);
  }

  // ------------------------------------------------- with two edits, another character named

  lemma OtherOf(a: set<nat>, i: nat) returns (j: nat)
    requires |a| == 2 && i in a
    ensures j != i && a - {i} == {j}
  {
    j := Member(a - {i});
    assert |a - {i} - {j}| == 0;
  }

  /** A string two edits away that has the named character is then one edit away. */
  lemma CloserByOne(fmt: Fmt, h: string, locked: set<nat>, i: nat, c: char, x: string)
    requires |h| == fmt.Length() && i < |h| && i !in locked && c != h[i]
    requires LegalEdit(fmt, h, locked, x) && |Edited(h, x)| == 2 && Has(x, i, c)
    ensures OneEditAway(fmt, h[i := c], locked + {i}, x)
  {
    var h', n: nat := h[i := c], i;
    assert n in Edited(h, x);
    var j := OtherOf(Edited(h, x), n);
    assert Edited(h', x) == Edited(h, x) - {n};
    assert LegalEdit(fmt, h', locked + {i}, x);
    OneEditIsSingle(fmt, h', locked + {i}, x, j);
  }

  /** With no repair within one edit, naming another character than the heard one moves
      the search one edit closer: candidates that have it stay, and if there is one then
      the new list is every valid single repair of the corrected string. */
  lemma CorrectingMovesCloser(fmt: Fmt, w: Weights, h: string, confs: seq<real>, locked: set<nat>, i: nat, c: char,
                              conf: real, xs: seq<string>, m: nat, ys: seq<string>, n: nat)
    requires BeforeAndAfter(fmt, w, h, confs, locked, i, c, conf, xs, m, ys, n) && m == 2 && c != h[i]
    ensures forall x :: x in xs && Has(x, i, c) ==> x in ys
    ensures (exists x :: x in xs && Has(x, i, c)) ==> n == 1 && ExactlyR1(fmt, h[i := c], locked + {i}, ys)
  {
    var h', locked' := h[i := c], locked + {i};
    var posts, posts' := Posts(fmt, h, confs, locked, w), Posts(fmt, h', confs[i := conf], locked', w);
    var k :| 0 <= k < |fmt.alpha[i]| && fmt.alpha[i][k] == c;
    assert SingleEdit(fmt, h, locked, h', i, k);
    assert !fmt.ok(h');
    forall x | x in xs && Has(x, i, c) ensures n == 1 && x in ys {
      CandidatesAreLegal(fmt, posts, h, locked, xs, m, x);
      CloserByOne(fmt, h, locked, i, c, x);
      OneEditSuffices(fmt, posts', h', locked', ys, n, x);
    }
  }
  // ------------------------------------------------- with two edits, the heard character named

  /** The unlocked positions doubted more than `j`. */
  ghost function Ahead(posts: seq<map<char, real>>, h: string, locked: set<nat>, j: nat): set<nat>
    requires j < |posts| == |h|
  {
    set k: nat | k < |h| && k !in locked && Greater((Doubt(posts, h, k), k), (Doubt(posts, h, j), j))
  }

  /** One of the five most doubted positions, where the search seeds its edits. */
  ghost predicate IsSeed(posts: seq<map<char, real>>, h: string, locked: set<nat>, j: nat)
    requires |posts| == |h|
  {
    j < |h| && j !in locked && |Ahead(posts, h, locked, j)| < TOP_POSITIONS
  }

  /** The position that is next. */
  ghost predicate IsSixth(posts: seq<map<char, real>>, h: string, locked: set<nat>, j: nat)
    requires |posts| == |h|
  {
    j < |h| && j !in locked && |Ahead(posts, h, locked, j)| == TOP_POSITIONS
  }

  lemma {:induction false} DoubtsAscend(posts: seq<map<char, real>>, h: string, locked: set<nat>, n: nat)
    requires n <= |posts| == |h|
    ensures NoDuplicates(Doubts(posts, h, locked, n))
  {
    if n > 0 {
      DoubtsAscend(posts, h, locked, n - 1);
      DoubtsAre(posts, h, locked, n - 1);
      var ds := Doubts(posts, h, locked, n - 1);
      forall k | 0 <= k < |ds| ensures ds[k].1 != n - 1 {
        assert ds[k] in ds;
      }
    }
  }

  /** The position in the doubt order is the number of positions ahead. */
  lemma RankInOrder(posts: seq<map<char, real>>, h: string, locked: set<nat>, k: nat)
    requires |posts| == |h| && k < |DoubtOrder(posts, h, locked)|
    ensures var order := DoubtOrder(posts, h, locked);
      order[k] < |h| && order[k] !in locked && |Ahead(posts, h, locked, order[k])| == k
  {
    var order := DoubtOrder(posts, h, locked);
    var sorted := SortedDoubts(posts, h, locked);
    DoubtsAscend(posts, h, locked, |h|);
    assert Strict(Greater);
    SortedSorts(Doubts(posts, h, locked, |h|), Greater);
    SameMultisetNoDuplicates(Doubts(posts, h, locked, |h|), sorted);
    AheadIsPrefix(posts, h, locked, sorted, k);
    assert order[k] == sorted[k].1;
    DistinctCount(sorted[..k]);
    SamePositions(posts, h, sorted[..k], Ahead(posts, h, locked, order[k]));
  }

  lemma AheadIsPrefix(posts: seq<map<char, real>>, h: string, locked: set<nat>, sorted: seq<(real, nat)>, k: nat)
    requires |posts| == |h| && NoDuplicates(sorted) && Ordered(sorted, Greater) && k < |sorted|
    requires forall d :: d in sorted <==> d.1 < |h| && d.1 !in locked && d.0 == Doubt(posts, h, d.1)
    ensures sorted[k].1 < |h| && sorted[k].1 !in locked
    ensures forall d: (real, nat) :: d in sorted[..k] <==>
      d.1 < |h| && d.0 == Doubt(posts, h, d.1) && d.1 in Ahead(posts, h, locked, sorted[k].1)
  {
    assert sorted[k] in sorted;
    forall d | d in sorted[..k] ensures d in sorted && Greater(d, sorted[k]) {
      var a :| 0 <= a < k && sorted[a] == d;
      assert !Greater(sorted[k], sorted[a]) && sorted[a] != sorted[k];
    }
    forall d | d in sorted && Greater(d, sorted[k]) ensures d in sorted[..k] {
      var a :| 0 <= a < |sorted| && sorted[a] == d;
    }
  }

  /** Doubts and positions determine each other. */
  lemma SamePositions(posts: seq<map<char, real>>, h: string, ds: seq<(real, nat)>, a: set<nat>)
    requires |posts| == |h| && forall i :: i in a ==> i < |h|
    requires forall d :: d in ds <==> d.1 < |h| && d.0 == Doubt(posts, h, d.1) && d.1 in a
    ensures |set d | d in ds| == |a|
  {
    var s := set d | d in ds;
    var position := map d | d in s :: d.1;
    var doubt := map i: nat | i in a :: (Doubt(posts, h, i), i);
    InjectiveMapBound(s, position, a);
    InjectiveMapBound(a, doubt, s);
  }

  lemma AmongFirst<T>(xs: seq<T>, n: nat, k: nat)
    requires k < |xs|
    ensures k < n ==> xs[k] in FirstOf(xs, n)
  {
    if k < n {
      assert FirstOf(xs, n)[k] == xs[k];
    }
  }

  /** The search seeds exactly at the five most doubted positions. */
  lemma SeedsAre(posts: seq<map<char, real>>, h: string, locked: set<nat>)
    requires |posts| == |h|
    ensures forall j: nat :: j in FirstOf(DoubtOrder(posts, h, locked), TOP_POSITIONS) <==> IsSeed(posts, h, locked, j)
  {
    var order := DoubtOrder(posts, h, locked);
    DoubtOrderRanks(posts, h, locked);
    forall j: nat ensures j in FirstOf(order, TOP_POSITIONS) <==> IsSeed(posts, h, locked, j) {
      if j in order {
        var k :| 0 <= k < |order| && order[k] == j;
        RankInOrder(posts, h, locked, k);
        AmongFirst(order, TOP_POSITIONS, k);
        if j in FirstOf(order, TOP_POSITIONS) {
          var k' :| 0 <= k' < |FirstOf(order, TOP_POSITIONS)| && order[k'] == j;
          RankInOrder(posts, h, locked, k');
        }
      }
    }
  }

  lemma AheadIsNested(posts: seq<map<char, real>>, h: string, locked: set<nat>, i: nat, j: nat)
    requires i < |posts| == |h| && j < |h| && i !in locked && j !in locked && i != j
    ensures if i in Ahead(posts, h, locked, j) then |Ahead(posts, h, locked, i)| < |Ahead(posts, h, locked, j)|
            else |Ahead(posts, h, locked, j)| < |Ahead(posts, h, locked, i)|
  {
    var a, b := Ahead(posts, h, locked, i), Ahead(posts, h, locked, j);
    if i in b {
      InsideBound(a, b - {i});
    } else {
      assert j in a;
      InsideBound(b, a - {j});
    }
  }

  /** Locking a seed makes the sixth position one; locking another changes nothing. */
  lemma SeedsAfterLocking(posts: seq<map<char, real>>, posts': seq<map<char, real>>, h: string, locked: set<nat>, i: nat)
    requires |posts| == |posts'| == |h| && i < |h| && i !in locked
    requires forall j: nat :: j < |h| && j != i ==> posts'[j] == posts[j]
    ensures forall j: nat :: IsSeed(posts', h, locked + {i}, j) <==>
      j != i && (IsSeed(posts, h, locked, j) || (IsSeed(posts, h, locked, i) && IsSixth(posts, h, locked, j)))
  {
    forall j: nat ensures IsSeed(posts', h, locked + {i}, j) <==>
      j != i && (IsSeed(posts, h, locked, j) || (IsSeed(posts, h, locked, i) && IsSixth(posts, h, locked, j))) {
      if j < |h| && j !in locked && j != i {
        var before, after := Ahead(posts, h, locked, j), Ahead(posts', h, locked + {i}, j);
        assert after == before - {i};
        AheadIsNested(posts, h, locked, i, j);
      }
    }
  }

  /** What a seed elsewhere finds with `i` locked is what it found that leaves `i` alone. */
  lemma SeedAfterLocking(fmt: Fmt, h: string, locked: set<nat>, x: string, i: nat, j: nat, alts: seq<char>)
    requires |h| == fmt.Length() && i < |h| && j < |h| && i != j && i !in locked
    ensures FromPosition(fmt, h, locked + {i}, x, j, alts) <==>
      FromPosition(fmt, h, locked, x, j, alts) && Has(x, i, h[i])
  {
    forall c | c in alts
      ensures FromSeed(fmt, h, locked + {i}, x, j, c) <==> FromSeed(fmt, h, locked, x, j, c) && Has(x, i, h[i])
    {
      var seed := h[j := c];
      assert locked + {i} + {j} == locked + {j} + {i};
      LockingKeepsSingleEdits(fmt, seed, locked + {j}, i, x);
    }
  }

  /** What is seeded at a position never has the heard character there. */
  lemma SeededElsewhere(fmt: Fmt, h: string, locked: set<nat>, x: string, i: nat, alts: seq<char>)
    requires |h| == fmt.Length() && i < |h| && FromPosition(fmt, h, locked, x, i, alts) && h[i] !in alts
    ensures !Has(x, i, h[i])
  {
  }

  /** Found by a seed at `j`, and with the heard character at `i`. */
  ghost predicate FoundAt(fmt: Fmt, posts: seq<map<char, real>>, h: string, locked: set<nat>, x: string, i: nat, j: nat)
    requires |posts| == |h| == fmt.Length() && i < |h|
  {
    j < |h| && j != i && Has(x, i, h[i]) && FromPosition(fmt, h, locked, x, j, AltsAt(fmt, posts, h, j))
  }

  /** Nothing seeded at the sixth position is new. */
  ghost predicate SixthFindsNothingNew(fmt: Fmt, posts: seq<map<char, real>>, h: string, locked: set<nat>, i: nat,
                                       xs: seq<string>)
    requires |posts| == |h| == fmt.Length() && i < |h|
  {
    forall x, j: nat :: FoundAt(fmt, posts, h, locked, x, i, j) && IsSixth(posts, h, locked, j) ==> x in xs
  }

  /** Found by a seed that is one before or after `i` is locked. */
  ghost predicate FoundOnceLocked(fmt: Fmt, posts: seq<map<char, real>>, h: string, locked: set<nat>, x: string, i: nat)
    requires |posts| == |h| == fmt.Length() && i < |h|
  {
    exists j: nat :: FoundAt(fmt, posts, h, locked, x, i, j)
      && (IsSeed(posts, h, locked, j) || (IsSeed(posts, h, locked, i) && IsSixth(posts, h, locked, j)))
  }

  lemma FoundAfterLocking(fmt: Fmt, posts: seq<map<char, real>>, posts': seq<map<char, real>>, h: string,
                          locked: set<nat>, i: nat, x: string)
    requires |posts| == |posts'| == |h| == fmt.Length() && i < |h| && i !in locked
    requires forall j: nat :: j < |h| && j != i ==> posts'[j] == posts[j]
    ensures FromSearch(fmt, posts', h, locked + {i}, x, FirstOf(DoubtOrder(posts', h, locked + {i}), TOP_POSITIONS)) <==>
      FoundOnceLocked(fmt, posts, h, locked, x, i)
  {
    var locked' := locked + {i};
    SeedsAre(posts', h, locked');
    SeedsAfterLocking(posts, posts', h, locked, i);
    hide IsSeed, IsSixth, DoubtOrder, FirstOf, FromPosition, Has;
    forall j: nat | j < |h| && j != i
      ensures AltsAt(fmt, posts', h, j) == AltsAt(fmt, posts, h, j)
      ensures FromPosition(fmt, h, locked', x, j, AltsAt(fmt, posts, h, j)) <==>
        FromPosition(fmt, h, locked, x, j, AltsAt(fmt, posts, h, j)) && Has(x, i, h[i])
    {
      SeedAfterLocking(fmt, h, locked, x, i, j, AltsAt(fmt, posts, h, j));
    }
  }

  lemma FoundWithHeard(fmt: Fmt, posts: seq<map<char, real>>, h: string, locked: set<nat>, i: nat, x: string)
    requires |posts| == |h| == fmt.Length() && i < |h| && i !in locked && Has(x, i, h[i])
    ensures FromSearch(fmt, posts, h, locked, x, FirstOf(DoubtOrder(posts, h, locked), TOP_POSITIONS)) <==>
      exists j: nat :: FoundAt(fmt, posts, h, locked, x, i, j) && IsSeed(posts, h, locked, j)
  {
    SeedsAre(posts, h, locked);
    AlternatesAreLegal(posts[i], fmt.alpha[i], h[i]);
    hide IsSeed, DoubtOrder, FirstOf;
    if FromPosition(fmt, h, locked, x, i, AltsAt(fmt, posts, h, i)) {
      SeededElsewhere(fmt, h, locked, x, i, AltsAt(fmt, posts, h, i));
    }
  }
  /** With no repair within one edit, confirming the heard character keeps the candidates
      that leave it alone, and adds what the position that is sixth in doubt finds once
      one of the five before it is locked. */
  lemma ConfirmingKeepsFound(fmt: Fmt, w: Weights, h: string, confs: seq<real>, locked: set<nat>, i: nat, conf: real,
                             xs: seq<string>, m: nat, ys: seq<string>, n: nat)
    requires i < |h| && BeforeAndAfter(fmt, w, h, confs, locked, i, h[i], conf, xs, m, ys, n) && m == 2
    ensures n == 2 && forall x :: x in xs && Has(x, i, h[i]) ==> x in ys
    ensures var posts := Posts(fmt, h, confs, locked, w);
      (forall y :: y in ys ==> y in xs) <==>
        (IsSeed(posts, h, locked, i) ==> SixthFindsNothingNew(fmt, posts, h, locked, i, xs))
  {
    var locked' := locked + {i};
    var posts, posts' := Posts(fmt, h, confs, locked, w), Posts(fmt, h, confs[i := conf], locked', w);
    assert h[i := h[i]] == h;
    NoSingleEditAfterLocking(fmt, posts', h, locked, i, ys, n);
    forall x ensures x in ys <==> FoundOnceLocked(fmt, posts, h, locked, x, i) {
      FoundAfterLocking(fmt, posts, posts', h, locked, i, x);
    }
    forall x | Has(x, i, h[i])
      ensures x in xs <==> exists j: nat :: FoundAt(fmt, posts, h, locked, x, i, j) && IsSeed(posts, h, locked, j)
    {
      FoundWithHeard(fmt, posts, h, locked, i, x);
    }
    hide IsCandidateList, BeforeAndAfter, IsSeed, IsSixth, Posts, DoubtOrder;
  }

  lemma NoSingleEditAfterLocking(fmt: Fmt, posts': seq<map<char, real>>, h: string, locked: set<nat>, i: nat,
                                 ys: seq<string>, n: nat)
    requires |posts'| == |h| == fmt.Length() && i < |h| && i !in locked && !fmt.ok(h)
    requires ExactlyR1(fmt, h, locked, []) && IsCandidateList(fmt, posts', h, locked + {i}, ys, n)
    ensures n == 2
  {
    RadiusMeans(fmt, posts', h, locked + {i}, ys, n);
    forall x | OneEditAway(fmt, h, locked + {i}, x) ensures !fmt.ok(x) {
      LockingKeepsSingleEdits(fmt, h, locked, i, x);
      assert x !in [];
    }
    assert ExactlyR1(fmt, h, locked + {i}, []) by {
      assert forall x :: OneEditAway(fmt, h, locked + {i}, x) <==> exists j, k :: SingleEdit(fmt, h, locked + {i}, x, j, k);
    }
  }

  // ------------------------------------------------- the exact condition

  /** What a caller can tell beforehand of new candidates: there are none at most one edit
      away if some candidate has the named character; two edits away if every valid
      single repair of the corrected string was offered, or the sixth seed finds nothing
      new. */
  ghost predicate NoneNew(fmt: Fmt, w: Weights, h: string, confs: seq<real>, locked: set<nat>, i: nat, c: char,
                          xs: seq<string>, m: nat)
    requires |h| == |confs| == fmt.Length() && i < |h|
  {
    var posts := Posts(fmt, h, confs, locked, w);
    if m == 2 && c == h[i] then IsSeed(posts, h, locked, i) ==> SixthFindsNothingNew(fmt, posts, h, locked, i, xs)
    else
      && (exists x :: x in xs && Has(x, i, c))
      && (m == 2 ==> forall y :: fmt.ok(y) && OneEditAway(fmt, h[i := c], locked + {i}, y) ==> y in xs)
  }

  lemma WhatStays(fmt: Fmt, w: Weights, h: string, confs: seq<real>, locked: set<nat>, i: nat, c: char, conf: real,
                  xs: seq<string>, m: nat, ys: seq<string>, n: nat)
    requires BeforeAndAfter(fmt, w, h, confs, locked, i, c, conf, xs, m, ys, n)
    ensures forall x :: x in xs && Has(x, i, c) ==> x in ys
    ensures (forall y :: y in ys ==> y in xs) <==> ys == [] || NoneNew(fmt, w, h, confs, locked, i, c, xs, m)
  {
    LaterHaveIt(fmt, w, h, confs, locked, i, c, conf, xs, m, ys, n);
    assert m <= 2;
    if ys != [] {
      assert ys[0] in ys;
    }
    if m <= 1 {
      forall x | x in xs && Has(x, i, c) ensures forall y :: y in ys <==> y in xs && Has(y, i, c) {
        KeptFromOneEdit(fmt, w, h, confs, locked, i, c, conf, xs, m, ys, n, x);
      }
    } else if c == h[i] {
      ConfirmingKeepsFound(fmt, w, h, confs, locked, i, conf, xs, m, ys, n);
    } else {
      CorrectingMovesCloser(fmt, w, h, confs, locked, i, c, conf, xs, m, ys, n);
      assert n == 1 ==> forall y :: y in ys <==> fmt.ok(y) && OneEditAway(fmt, h[i := c], locked + {i}, y);
    }
  }

  /** Naming a character makes the candidates strictly fewer, none of them new, exactly
      when some candidate had another character there and none is new; or none is left. */
  lemma ShrinksExactlyWhen(fmt: Fmt, w: Weights, h: string, confs: seq<real>, locked: set<nat>, i: nat, c: char,
                           conf: real, xs: seq<string>, m: nat, ys: seq<string>, n: nat)
    requires BeforeAndAfter(fmt, w, h, confs, locked, i, c, conf, xs, m, ys, n)
    ensures forall x :: x in xs && Has(x, i, c) ==> x in ys
    ensures Narrower(xs, ys) <==>
      (exists x :: x in xs && !Has(x, i, c)) && (ys == [] || NoneNew(fmt, w, h, confs, locked, i, c, xs, m))
  {
    LaterHaveIt(fmt, w, h, confs, locked, i, c, conf, xs, m, ys, n);
    ListsAreDistinct(fmt, w, h, confs, locked, i, c, conf, xs, m, ys, n);
    WhatStays(fmt, w, h, confs, locked, i, c, conf, xs, m, ys, n);
    hide BeforeAndAfter, NoneNew;
    if forall y :: y in ys ==> y in xs {
      FewerExactlyWhen(xs, ys);
    }
  }
  /** The comment's claim fails on every valid string: confirming what was heard leaves
      it the only candidate, as before. */
  lemma ConfirmingNeedNotNarrow(fmt: Fmt, w: Weights, h: string, confs: seq<real>, locked: set<nat>, i: nat, conf: real,
                                xs: seq<string>, m: nat, ys: seq<string>, n: nat)
    requires i < |h| && BeforeAndAfter(fmt, w, h, confs, locked, i, h[i], conf, xs, m, ys, n) && fmt.ok(h)
    ensures ys == xs == [h]
  {
    RadiusMeans(fmt, Posts(fmt, h, confs, locked, w), h, locked, xs, m);
    NamingSettles(fmt, w, h, confs, locked, i, h[i], conf, xs, m, ys, n);
    assert h[i := h[i]] == h;
  }

  /** The corrected string is the only candidate exactly when it is valid. */
  lemma NamingSettles(fmt: Fmt, w: Weights, h: string, confs: seq<real>, locked: set<nat>, i: nat, c: char, conf: real,
                      xs: seq<string>, m: nat, ys: seq<string>, n: nat)
    requires BeforeAndAfter(fmt, w, h, confs, locked, i, c, conf, xs, m, ys, n)
    ensures fmt.ok(h[i := c]) <==> ys == [h[i := c]]
  {
    var h', locked' := h[i := c], locked + {i};
    var posts' := Posts(fmt, h', confs[i := conf], locked', w);
    RadiusMeans(fmt, posts', h', locked', ys, n);
    if ys == [h'] {
      assert ys[0] in ys;
      CandidatesAreLegal(fmt, posts', h', locked', ys, n, h');
    }
  }
}
