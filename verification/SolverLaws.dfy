/** What the solver's ranking, verdict and question come to in terms of the masses, the
    confidences and the confusion weights themselves. */
module SolverLaws {
  import opened Common
  import opened Marginals
  import opened Posterior
  import opened RealSums
  import opened Repairs
  import opened Solver
  import Iso6346
  import Narrowing

  // ------------------------------------------------- evidence at every position

  /** What character `c` at position `i` contributes: its mass, floored. */
  function Factor(posts: seq<map<char, real>>, i: nat, c: char): (f: real)
    requires i < |posts|
    ensures f > 0.0
  {
    var m := Mass(posts[i], c);
    if m > 0.000000000001 then m else 0.000000000001
  }

  /** A product, kept whole while the proofs rearrange products. */
  function Times(a: real, b: real): real { a * b }

  lemma Commute(a: real, b: real)
    ensures Times(a, b) == Times(b, a)
  {
  }

  lemma Associate(a: real, b: real, c: real)
    ensures Times(Times(a, b), c) == Times(a, Times(b, c))
  {
  }

  lemma Monotone(a: real, b: real, p: real)
    requires p > 0.0
    ensures a > b <==> Times(a, p) > Times(b, p)
  {
  }

  lemma PositiveTimes(a: real, b: real)
    requires a > 0.0 && b > 0.0
    ensures Times(a, b) > 0.0
  {
  }

  lemma OneMoreFactor(posts: seq<map<char, real>>, x: string, n: nat)
    requires n < |posts| == |x|
    ensures Likelihood(posts, x, n + 1) == Times(Likelihood(posts, x, n), Factor(posts, n, x[n]))
  {
  }

  /** Both sides of a proportion times `f`. */
  lemma Scaled(l: real, a: real, l': real, b: real, f: real)
    requires Times(l, a) == Times(l', b)
    ensures Times(Times(l, f), a) == Times(Times(l', f), b)
  {
    hide Times;
    Associate(l, f, a);
    Commute(f, a);
    Associate(l, a, f);
    Associate(l', f, b);
    Commute(f, b);
    Associate(l', b, f);
  }

  lemma Started(l: real, a: real, b: real)
    ensures Times(Times(l, a), b) == Times(Times(l, b), a)
  {
    hide Times;
    Associate(l, a, b);
    Commute(a, b);
    Associate(l, b, a);
  }

  lemma {:induction false} ExchangeUpTo(posts: seq<map<char, real>>, x: string, y: string, i: nat, n: nat)
    requires |x| == |y| == |posts| && i < |posts| && n <= |posts|
    requires forall j :: 0 <= j < |posts| && j != i ==> x[j] == y[j]
    ensures n <= i ==> Likelihood(posts, x, n) == Likelihood(posts, y, n)
    ensures n > i ==>
      Times(Likelihood(posts, x, n), Factor(posts, i, y[i])) == Times(Likelihood(posts, y, n), Factor(posts, i, x[i]))
  {
    if n == 0 {
      assert Likelihood(posts, x, 0) == Likelihood(posts, y, 0);
    } else {
      hide Likelihood, Factor, Times;
      ExchangeUpTo(posts, x, y, i, n - 1);
      OneMoreFactor(posts, x, n - 1);
      OneMoreFactor(posts, y, n - 1);
      if n > i + 1 {
        Scaled(Likelihood(posts, x, n - 1), Factor(posts, i, y[i]), Likelihood(posts, y, n - 1), Factor(posts, i, x[i]),
               Factor(posts, n - 1, x[n - 1]));
      } else if n == i + 1 {
        Started(Likelihood(posts, x, i), Factor(posts, i, x[i]), Factor(posts, i, y[i]));
      }
    }
  }

  lemma Exchanged(posts: seq<map<char, real>>, x: string, i: nat, c: char)
    requires |x| == |posts| && i < |x|
    ensures Times(Likelihood(posts, x[i := c], |x|), Factor(posts, i, x[i])) ==
      Times(Likelihood(posts, x, |x|), Factor(posts, i, c))
  {
    hide Likelihood, Factor, Times;
    var y := x[i := c];
    ExchangeUpTo(posts, y, x, i, |x|);
    assert y[i] == c;
  }

  /** Exchanging one character exchanges its factor, whatever the rest of the string is. */
  lemma Exchange(posts: seq<map<char, real>>, x: string, i: nat, c: char)
    requires |x| == |posts| && i < |x|
    ensures Likelihood(posts, x[i := c], |x|) * Factor(posts, i, x[i]) == Likelihood(posts, x, |x|) * Factor(posts, i, c)
  {
    hide Likelihood, Factor;
    Exchanged(posts, x, i, c);
  }

  lemma Ratios(x: real, y: real, l: real, a: real, a': real, b: real, b': real)
    requires l > 0.0 && a' > 0.0 && b' > 0.0 && Times(x, a') == Times(l, a) && Times(y, b') == Times(l, b)
    ensures x > y <==> Times(a, b') > Times(b, a')
  {
    PositiveTimes(a', b');
    hide Times;
    Monotone(x, y, Times(a', b'));
    Monotone(Times(a, b'), Times(b, a'), l);
    Regroup(x, a', b', l, a);
    Regroup(y, b', a', l, b);
    Commute(a', b');
  }

  lemma Regroup(x: real, p: real, q: real, l: real, a: real)
    requires Times(x, p) == Times(l, a)
    ensures Times(x, Times(p, q)) == Times(Times(a, q), l)
  {
    hide Times;
    Associate(x, p, q);
    Associate(l, a, q);
    Commute(l, Times(a, q));
  }

  lemma EditsCompared(posts: seq<map<char, real>>, h: string, i: nat, c: char, j: nat, d: char)
    requires |h| == |posts| && i < |h| && j < |h| && i != j
    ensures Likelihood(posts, h[i := c], |h|) > Likelihood(posts, h[j := d], |h|) <==>
      Times(Factor(posts, i, c), Factor(posts, j, h[j])) > Times(Factor(posts, j, d), Factor(posts, i, h[i]))
  {
    LikelihoodIsPositive(posts, h, |h|);
    hide Likelihood, Factor, Times;
    Exchanged(posts, h, i, c);
    Exchanged(posts, h, j, d);
    Ratios(Likelihood(posts, h[i := c], |h|), Likelihood(posts, h[j := d], |h|), Likelihood(posts, h, |h|),
           Factor(posts, i, c), Factor(posts, i, h[i]), Factor(posts, j, d), Factor(posts, j, h[j]));
  }

  /** Of two single edits the likelier is the one that gains more by its character over
      the heard one, and so they are ranked. */
  lemma SingleEditsRank(posts: seq<map<char, real>>, h: string, ranked: seq<(real, string)>, k: nat, l: nat,
                        i: nat, c: char, j: nat, d: char)
    requires |h| == |posts| && i < |h| && j < |h| && i != j && Descending(posts, ranked)
    requires k < |ranked| && l < |ranked| && ranked[k].1 == h[i := c] && ranked[l].1 == h[j := d]
    ensures ranked[k].0 > ranked[l].0 <==>
      Factor(posts, i, c) * Factor(posts, j, h[j]) > Factor(posts, j, d) * Factor(posts, i, h[i])
    ensures Factor(posts, i, c) * Factor(posts, j, h[j]) > Factor(posts, j, d) * Factor(posts, i, h[i]) ==> k < l
  {
    hide Likelihood, Factor;
    EditsCompared(posts, h, i, c, j, d);
  }

  /** Two candidates that differ at one position rank by their characters there. */
  lemma OneCharacterRanks(posts: seq<map<char, real>>, ranked: seq<(real, string)>, k: nat, l: nat, i: nat, c: char)
    requires Descending(posts, ranked) && k < |ranked| && l < |ranked| && i < |posts|
    requires ranked[k].1 == ranked[l].1[i := c]
    ensures ranked[k].0 > ranked[l].0 <==> Factor(posts, i, c) > Factor(posts, i, ranked[l].1[i])
  {
    var x := ranked[l].1;
    LikelihoodIsPositive(posts, x, |x|);
    hide Likelihood, Factor, Times;
    Exchanged(posts, x, i, c);
    Compare(ranked[k].0, ranked[l].0, Factor(posts, i, c), Factor(posts, i, x[i]));
  }

  lemma Compare(x: real, l: real, a: real, b: real)
    requires l > 0.0 && b > 0.0 && Times(x, b) == Times(l, a)
    ensures x > l <==> a > b
  {
    hide Times;
    Commute(l, a);
    Commute(l, b);
    Monotone(x, l, b);
    Monotone(a, b, l);
  }

  // ------------------------------------------------- plausibility

  lemma {:induction false} PowerIsPositive(q: real, n: nat)
    requires q > 0.0
    ensures Power(q, n) > 0.0
  {
    if n > 0 {
      PowerIsPositive(q, n - 1);
      PositiveProduct(Power(q, n - 1), q);
    }
  }

  lemma OneMorePower(q: real, n: nat)
    ensures Power(q, n + 1) == Times(Power(q, n), q)
  {
  }

  lemma NotGreater(a: real, b: real, p: real)
    requires p > 0.0 && a <= b
    ensures Times(a, p) <= Times(b, p)
  {
  }

  lemma ProductsCompare(a: real, b: real, p: real, q: real)
    requires a > 0.0 && b > 0.0 && p > 0.0 && q > 0.0
    ensures a >= b && p >= q ==> Times(a, p) >= Times(b, q)
    ensures a <= b && p < q ==> Times(a, p) < Times(b, q)
  {
    hide Times;
    Commute(b, p);
    Commute(b, q);
    if a >= b && p >= q {
      NotGreater(b, a, p);
      NotGreater(q, p, b);
    } else if a <= b && p < q {
      NotGreater(a, b, p);
      Monotone(q, p, b);
    }
  }

  /** Over `n` characters a likelihood compares with the `n`-th power of a mass as its
      characters do with that mass. */
  lemma {:induction false} LikelihoodAgainstPower(posts: seq<map<char, real>>, x: string, q: real, n: nat)
    requires n <= |posts| == |x| && q > 0.0
    ensures (forall i: nat :: i < n ==> Factor(posts, i, x[i]) >= q) ==> Likelihood(posts, x, n) >= Power(q, n)
    ensures (forall i: nat :: i < n ==> Factor(posts, i, x[i]) < q) ==>
      Likelihood(posts, x, n) <= Power(q, n) && (n > 0 ==> Likelihood(posts, x, n) < Power(q, n))
  {
    if n == 0 {
      assert Likelihood(posts, x, 0) == Power(q, 0) == 1.0;
    } else {
      LikelihoodIsPositive(posts, x, n - 1);
      PowerIsPositive(q, n - 1);
      hide Likelihood, Power, Factor, Times;
      LikelihoodAgainstPower(posts, x, q, n - 1);
      OneMoreFactor(posts, x, n - 1);
      OneMorePower(q, n - 1);
      ProductsCompare(Likelihood(posts, x, n - 1), Power(q, n - 1), Factor(posts, n - 1, x[n - 1]), q);
    }
  }

  /** A lone candidate with every character at five percent or more is plausible, one
      with every character below is not. */
  lemma LoneCandidate(w: Weights, posts: seq<map<char, real>>, h: string, locked: set<nat>, ranked: seq<(real, string)>)
    requires |posts| == |h| > 0 && |ranked| == 1 && Descending(posts, ranked)
    ensures (forall i: nat :: i < |h| ==> Factor(posts, i, ranked[0].1[i]) >= 0.05) ==>
      Verdict(w, posts, h, locked, ranked) != AskLowPlaus
    ensures (forall i: nat :: i < |h| ==> Factor(posts, i, ranked[0].1[i]) < 0.05) ==>
      Verdict(w, posts, h, locked, ranked) == AskLowPlaus
  {
    hide Likelihood, Power, Factor;
    LikelihoodAgainstPower(posts, ranked[0].1, 0.05, |h|);
  }

  // ------------------------------------------------- the verdict

  /** A position nobody has answered about, the character in doubt by more than two
      fifths, and left as it was. */
  ghost predicate DoubtLeft(posts: seq<map<char, real>>, h: string, locked: set<nat>, top: string, i: nat)
    requires |posts| == |h| == |top|
  {
    i < |h| && i !in locked && Mass(posts[i], h[i]) < 0.6 && top[i] == h[i]
  }

  ghost predicate UnknownEdit(w: Weights, h: string, top: string, i: nat)
    requires |h| == |top|
  {
    i < |h| && top[i] != h[i] && w(top[i], h[i]) < 0.15
  }

  /** Ahead of the rest: plausible when alone, or nine tenths of the whole and eight
      times the next. */
  ghost predicate Ahead(ranked: seq<(real, string)>, n: nat)
    requires ranked != []
  {
    if |ranked| == 1 then ranked[0].0 >= Power(0.05, n)
    else ranked[0].0 >= 0.9 * Sum(seq(|ranked|, k requires 0 <= k < |ranked| => ranked[k].0))
         && ranked[0].0 >= 8.0 * ranked[1].0
  }

  /** Each verdict, exactly. */
  lemma VerdictExactly(w: Weights, posts: seq<map<char, real>>, h: string, locked: set<nat>, ranked: seq<(real, string)>)
    requires |posts| == |h| && ranked != [] && |ranked[0].1| == |h|
    ensures var top, v := ranked[0].1, Verdict(w, posts, h, locked, ranked);
      && (v == AskLowPlaus <==> !Ahead(ranked, |h|) && |ranked| == 1)
      && (v == Ask <==> !Ahead(ranked, |h|) && |ranked| > 1)
      && (v == AskUnexplained <==> Ahead(ranked, |h|) && exists i: nat :: DoubtLeft(posts, h, locked, top, i))
      && (v == FlagImplausible <==> Ahead(ranked, |h|) && !(exists i: nat :: DoubtLeft(posts, h, locked, top, i))
                                    && exists i: nat :: UnknownEdit(w, h, top, i))
      && (v == Accept <==> Ahead(ranked, |h|) && !(exists i: nat :: DoubtLeft(posts, h, locked, top, i))
                           && !(exists i: nat :: UnknownEdit(w, h, top, i)))
  {
    var top := ranked[0].1;
    assert seq(|ranked|, k requires 0 <= k < |ranked| => ranked[k].0) == Likelihoods(ranked);
    assert Ahead(ranked, |h|) <==> Clear(ranked, |h|);
    hide Clear, Ahead;
    assert Doubtful(posts, h, locked) <= Edited(h, top) <==> !exists i: nat :: DoubtLeft(posts, h, locked, top, i) by {
      forall i: nat ensures DoubtLeft(posts, h, locked, top, i) <==> i in Doubtful(posts, h, locked) && i !in Edited(h, top) {
      }
    }
    forall i: nat ensures UnknownEdit(w, h, top, i) <==> WeakEditAt(w, h, top, i) {
    }
  }

  // ------------------------------------------------- doubt and the question

  /** Doubtful are the unlocked positions where the character is not allowed or was heard
      with confidence below three fifths. */
  lemma DoubtfulExactly(fmt: Fmt, w: Weights, h: string, confs: seq<real>, locked: set<nat>, i: nat)
    requires WellFormed(fmt) && Floored(w) && |h| == |confs| == fmt.Length() && i < |h|
    ensures i in Doubtful(Posts(fmt, h, confs, locked, w), h, locked) <==>
      i !in locked && (h[i] !in fmt.alpha[i] || confs[i] < 0.6)
  {
    HeardMass(fmt.alpha[i], h[i], confs[i], w);
  }

  ghost function DoubtOf(fmt: Fmt, h: string, confs: seq<real>, i: nat): real
    requires i < |h| == |confs| == fmt.Length()
  {
    if h[i] in fmt.alpha[i] then 1.0 - confs[i] else 1.0
  }

  /** Unlocked, heard unsurely, and left as it was by the top candidate. */
  ghost predicate Unsure(fmt: Fmt, h: string, confs: seq<real>, locked: set<nat>, top: string, i: nat)
    requires |h| == |confs| == fmt.Length() == |top|
  {
    i < |h| && i !in locked && top[i] == h[i] && (h[i] !in fmt.alpha[i] || confs[i] < 0.6)
  }

  lemma UnexplainedExactly(fmt: Fmt, w: Weights, h: string, confs: seq<real>, locked: set<nat>, top: string, i: nat)
    requires WellFormed(fmt) && Floored(w) && |h| == |confs| == fmt.Length() == |top|
    ensures var posts := Posts(fmt, h, confs, locked, w);
      && (i in Doubtful(posts, h, locked) - Edited(h, top) <==> Unsure(fmt, h, confs, locked, top, i))
      && (i < |h| && i !in locked ==> Doubt(posts, h, i) == DoubtOf(fmt, h, confs, i))
  {
    if i < |h| {
      DoubtfulExactly(fmt, w, h, confs, locked, i);
      HeardMass(fmt.alpha[i], h[i], confs[i], w);
    }
  }

  /** With doubt left, the question goes to the position among those left that was heard
      least surely; with none, to the unlocked position the candidates differ on most,
      the last of equals. */
  lemma AsksWhere(fmt: Fmt, w: Weights, entropy: Entropy, h: string, confs: seq<real>, locked: set<nat>, r: Result)
    requires WellFormed(fmt) && Floored(w) && |h| == |confs| == fmt.Length()
    requires Decided(fmt, w, entropy, h, confs, locked, r) && r.ranked != []
    ensures r.askPos.Some? && r.top.Some? && |r.top.value| == |h| && r.askPos.value < |h| && r.askPos.value !in locked
    ensures r.unexplained > 0 ==> Unsure(fmt, h, confs, locked, r.top.value, r.askPos.value)
    ensures r.unexplained > 0 ==> forall i: nat :: Unsure(fmt, h, confs, locked, r.top.value, i) ==>
      DoubtOf(fmt, h, confs, i) <= DoubtOf(fmt, h, confs, r.askPos.value)
    ensures r.unexplained == 0 ==> forall i: nat :: i < |h| && i !in locked ==>
      var e, f := entropy(Marginal(r.ranked, i)), entropy(Marginal(r.ranked, r.askPos.value));
      e < f || (e == f && i <= r.askPos.value)
    ensures r.unexplained == |set i: nat | i < |h| && Unsure(fmt, h, confs, locked, r.top.value, i)|
    ensures r.ambiguous == |set i: nat | i < |h| && i !in locked && entropy(Marginal(r.ranked, i)) > 0.5|
  {
    var posts, top := Posts(fmt, h, confs, locked, w), r.top.value;
    var unexplained := Doubtful(posts, h, locked) - Edited(h, top);
    forall i: nat
      ensures i in unexplained <==> Unsure(fmt, h, confs, locked, top, i)
      ensures i < |h| && i !in locked ==> Doubt(posts, h, i) == DoubtOf(fmt, h, confs, i)
    {
      UnexplainedExactly(fmt, w, h, confs, locked, top, i);
    }
    hide IsCandidateList, TiesInOrder, Verdict, Posts, Doubt, DoubtOf, WellFormed, Floored, Doubtful, Edited;
    assert unexplained == set i: nat | i < |h| && Unsure(fmt, h, confs, locked, top, i);
    assert Ambiguous(entropy, r.ranked, h, locked) ==
      set i: nat | i < |h| && i !in locked && entropy(Marginal(r.ranked, i)) > 0.5;
  }

  // ------------------------------------------------- the double search, and ties

  /** With no single repair the candidates are exactly the valid strings two legal edits
      away of which one puts, at one of the five most doubted positions, one of its six
      likeliest other characters. */
  lemma DoubleSearchExactly(fmt: Fmt, posts: seq<map<char, real>>, h: string, locked: set<nat>, cands: seq<string>,
                            x: string)
    requires |posts| == |h| == fmt.Length() && IsCandidateList(fmt, posts, h, locked, cands, 2)
    ensures x in cands <==>
      fmt.ok(x) && LegalEdit(fmt, h, locked, x) && |Edited(h, x)| == 2 && exists i: nat :: SeededBy(fmt, posts, h, locked, x, i)
  {
    Narrowing.SeedsAre(posts, h, locked);
    if x in cands {
      CandidatesAreLegal(fmt, posts, h, locked, cands, 2, x);
      var i: nat :| Narrowing.IsSeed(posts, h, locked, i) && FromPosition(fmt, h, locked, x, i, AltsAt(fmt, posts, h, i));
      FoundIsSeeded(fmt, posts, h, locked, x, i);
    }
    if fmt.ok(x) && LegalEdit(fmt, h, locked, x) && |Edited(h, x)| == 2 {
      if i: nat :| SeededBy(fmt, posts, h, locked, x, i) {
        SeededIsFound(fmt, posts, h, locked, x, i);
      }
    }
  }

  ghost predicate SeededBy(fmt: Fmt, posts: seq<map<char, real>>, h: string, locked: set<nat>, x: string, i: nat)
    requires |posts| == |h| == fmt.Length() == |x|
  {
    AmongFive(posts, h, locked, i) && x[i] != h[i] && x[i] in AltsAt(fmt, posts, h, i)
  }

  /** Unlocked, and fewer than five unlocked positions are more doubted, or as much and
      later. */
  ghost predicate AmongFive(posts: seq<map<char, real>>, h: string, locked: set<nat>, i: nat)
    requires |posts| == |h|
  {
    && i < |h| && i !in locked
    && |set k: nat | k < |h| && k !in locked
         && (Doubt(posts, h, k) > Doubt(posts, h, i) || (Doubt(posts, h, k) == Doubt(posts, h, i) && k > i))| < 5
  }

  lemma SeedsByDoubt(posts: seq<map<char, real>>, h: string, locked: set<nat>, i: nat)
    requires |posts| == |h|
    ensures Narrowing.IsSeed(posts, h, locked, i) <==> AmongFive(posts, h, locked, i)
  {
    if i < |h| {
      assert Narrowing.Ahead(posts, h, locked, i) == set k: nat | k < |h| && k !in locked
           && (Doubt(posts, h, k) > Doubt(posts, h, i) || (Doubt(posts, h, k) == Doubt(posts, h, i) && k > i));
    }
  }

  lemma FoundIsSeeded(fmt: Fmt, posts: seq<map<char, real>>, h: string, locked: set<nat>, x: string, i: nat)
    requires |posts| == |h| == fmt.Length() == |x| && Narrowing.IsSeed(posts, h, locked, i)
    requires FromPosition(fmt, h, locked, x, i, AltsAt(fmt, posts, h, i)) && ExactlyR1(fmt, h, locked, [])
    ensures SeededBy(fmt, posts, h, locked, x, i)
  {
    SeedsByDoubt(posts, h, locked, i);
    AlternatesAreLegal(posts[i], fmt.alpha[i], h[i]);
    var c :| c in AltsAt(fmt, posts, h, i) && FromSeed(fmt, h, locked, x, i, c);
    hide Doubt, AltsAt;
  }

  lemma SeededIsFound(fmt: Fmt, posts: seq<map<char, real>>, h: string, locked: set<nat>, x: string, i: nat)
    requires |posts| == |h| == fmt.Length() == |x| && SeededBy(fmt, posts, h, locked, x, i)
    requires fmt.ok(x) && LegalEdit(fmt, h, locked, x) && |Edited(h, x)| == 2 && ExactlyR1(fmt, h, locked, [])
    ensures Narrowing.IsSeed(posts, h, locked, i) && FromPosition(fmt, h, locked, x, i, AltsAt(fmt, posts, h, i))
  {
    SeedsByDoubt(posts, h, locked, i);
    Narrowing.CloserByOne(fmt, h, locked, i, x[i], x);
    var k :| 0 <= k < |fmt.alpha[i]| && fmt.alpha[i][k] == x[i];
    assert SingleEdit(fmt, h, locked, h[i := x[i]], i, k);
    assert !fmt.ok(h[i := x[i]]);
    assert FromSeed(fmt, h, locked, x, i, x[i]);
  }

  /** Single edits are tried position by position, and at one in the order of its
      alphabet. */
  lemma TrialOrderExactly(fmt: Fmt, h: string, locked: set<nat>, x: string, i: int, k: int, y: string, j: int, l: int)
    requires WellFormed(fmt) && |h| == fmt.Length()
    requires SingleEdit(fmt, h, locked, x, i, k) && SingleEdit(fmt, h, locked, y, j, l)
    ensures TriedFirst(fmt, h, locked, x, y) <==> i < j || (i == j && k < l)
  {
    if TriedFirst(fmt, h, locked, x, y) {
      var j', l' :| SingleEdit(fmt, h, locked, y, j', l') && EditBefore(fmt, h, locked, x, j', l');
      var i', k' :| SingleEdit(fmt, h, locked, x, i', k') && (i' < j' || (i' == j' && k' < l'));
      SingleEditsDiffer(fmt, h, locked, x, i, k, i', k');
      SingleEditsDiffer(fmt, h, locked, y, j, l, j', l');
    }
  }

  // ------------------------------------------------- the characters not heard

  lemma RawFollowsWeights(alphabet: string, heard: char, conf: real, w: Weights, x: char, y: char)
    requires x != heard && y != heard
    ensures Times(Raw(alphabet, heard, conf, w, x), w(y, heard)) == Times(Raw(alphabet, heard, conf, w, y), w(x, heard))
  {
    var rest := OrOne(Sum(Rest(alphabet, heard, w)));
    if heard in alphabet {
      assert Raw(alphabet, heard, conf, w, x) == (1.0 - conf) * w(x, heard) / rest;
      assert Raw(alphabet, heard, conf, w, y) == (1.0 - conf) * w(y, heard) / rest;
      hide Raw, Sum, Rest, OrOne;
      InProportion(1.0 - conf, w(x, heard), w(y, heard), rest);
    } else {
      Commute(w(x, heard), w(y, heard));
    }
  }

  lemma InProportion(c: real, a: real, b: real, d: real)
    requires d != 0.0
    ensures Times(c * a / d, b) == Times(c * b / d, a)
  {
    var k := c / d;
    assert c * a / d == k * a && c * b / d == k * b;
  }

  lemma Divide(r: real, r': real, a: real, b: real, z: real)
    requires z != 0.0 && Times(r, b) == Times(r', a)
    ensures r / z * b == r' / z * a
  {
    assert r / z * b == r * b / z;
    assert r' / z * a == r' * a / z;
  }

  lemma NeverZero(s: real)
    ensures OrOne(s) != 0.0
  {
  }

  lemma MassIsQuotient(alphabet: string, heard: char, conf: real, w: Weights, x: char)
    requires x in alphabet
    ensures OrOne(Sum(Raws(alphabet, heard, conf, w))) != 0.0
    ensures Mass(PosPost(alphabet, heard, conf, false, w), x) ==
      Raw(alphabet, heard, conf, w, x) / OrOne(Sum(Raws(alphabet, heard, conf, w)))
  {
    hide Raw, Raws, Sum;
  }

  /** What the heard character leaves is shared out in proportion to the confusion
      weights; with an illegal character heard, so is everything. */
  lemma SharesFollowWeights(alphabet: string, heard: char, conf: real, w: Weights, x: char, y: char)
    requires x in alphabet && y in alphabet && x != heard && y != heard
    ensures var p := PosPost(alphabet, heard, conf, false, w);
      Mass(p, x) * w(y, heard) == Mass(p, y) * w(x, heard)
  {
    var p, z := PosPost(alphabet, heard, conf, false, w), OrOne(Sum(Raws(alphabet, heard, conf, w)));
    hide Raw, Raws, Sum, PosPost, Mass, Times, OrOne;
    MassIsQuotient(alphabet, heard, conf, w, x);
    MassIsQuotient(alphabet, heard, conf, w, y);
    NeverZero(Sum(Raws(alphabet, heard, conf, w)));
    RawFollowsWeights(alphabet, heard, conf, w, x, y);
    Divide(Raw(alphabet, heard, conf, w, x), Raw(alphabet, heard, conf, w, y), w(x, heard), w(y, heard), z);
  }

  // ------------------------------------------------- blind alternatives

  /** In an ISO 6346 string, the blind alternatives at a position left of the check digit
      are the other allowed characters the confusion table knows that leave the
      remainder as it is; no other format has any. */
  lemma BlindExactly(fmt: Fmt, w: Weights, s: string, i: nat, c: char)
    requires fmt.alpha == ISO_ALPHA && i < 10 && Iso6346.InIsoAlphabet(s)
    ensures fmt.name == "ISO6346" ==>
      (c in BlindAlternatives(fmt, w, i, s[i]) <==>
        c in ISO_ALPHA[i] && c != s[i] && w(c, s[i]) > 0.004
        && Iso6346.InIsoAlphabet(s[i := c]) && Iso6346.Residual(s[i := c]) == Iso6346.Residual(s))
    ensures fmt.name != "ISO6346" ==> BlindAlternatives(fmt, w, i, s[i]) == {}
  {
    Iso6346.AlphabetMeansClasses(s);
    if c in ISO_ALPHA[i] {
      Iso6346.RemainderAfterSubstitution(s, i, c);
      Iso6346.AlphabetMeansClasses(s[i := c]);
      assert s[i := c][i] == c;
    }
  }

  /** At the check digit there are none. */
  lemma NoneAtTheCheckDigit(fmt: Fmt, w: Weights, heard: char)
    requires fmt.alpha == ISO_ALPHA && IsDigit(heard)
    ensures BlindAlternatives(fmt, w, 10, heard) == {}
  {
    Classes(heard);
    assert ISO_ALPHA[10] == DIGITS;
    hide ISO_ALPHA;
    forall c | c in DIGITS && c != heard ensures Residue(c) != Residue(heard) {
      Classes(c);
      Iso6346.DigitsDiffer(c, heard);
      hide Iso6346.IsoVal;
    }
  }
}
