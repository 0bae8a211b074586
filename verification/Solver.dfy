/** The solver's decision: candidates, their likelihoods, the guards between a likely
    candidate and a silent accept, and where to ask. */
module Solver {
  import opened Common
  import opened Marginals
  import opened Posterior
  import opened Ranking
  import opened RealSums
  import opened Repairs
  import opened SetBounds
  import Iso6346

  const ACCEPT_P := 0.90
  const ACCEPT_R := 8.0
  const MIN_PLAUS := 0.05
  const DOUBT_T := 0.40
  const MIN_EDGE := 0.15
  const H_T := 0.5
  const TINY := 0.000000000001

  datatype Action = Accept | AskLowPlaus | Ask | AskUnexplained | AskBlind | FlagImplausible | FailNoCand

  /** `ranked` holds every candidate with its likelihood, likeliest first; `ambiguous`
      counts the unlocked positions whose entropy is worth a question. */
  datatype Result = Result(action: Action, ranked: seq<(real, string)>, top: Option<string>, askPos: Option<nat>,
                           doubtful: set<nat>, unexplained: nat, ambiguous: nat, radius: nat, calls: nat)

  // ------------------------------------------------- candidates

  /** What the candidate list is, by radius. */
  ghost predicate IsCandidateList(fmt: Fmt, posts: seq<map<char, real>>, h: string, locked: set<nat>,
                                  cands: seq<string>, radius: nat)
    requires |posts| == |h| == fmt.Length()
  {
    && NoDuplicates(cands)
    && match radius
       case 0 => fmt.ok(h) && cands == [h]
       case 1 => !fmt.ok(h) && cands != [] && ExactlyR1(fmt, h, locked, cands)
       case 2 => !fmt.ok(h) && ExactlyR1(fmt, h, locked, [])
         && forall x :: x in cands <==>
              FromSearch(fmt, posts, h, locked, x, FirstOf(DoubtOrder(posts, h, locked), TOP_POSITIONS))
       case _ => false
  }

  /** The order in which candidates are generated: as tried within one edit, in string
      order within two. */
  ghost predicate GeneratedFirst(fmt: Fmt, h: string, locked: set<nat>, radius: nat, x: string, y: string) {
    match radius
    case 1 => TriedFirst(fmt, h, locked, x, y)
    case 2 => Less(x, y)
    case _ => false
  }

  ghost predicate InGenerationOrder(fmt: Fmt, h: string, locked: set<nat>, radius: nat, cands: seq<string>) {
    forall i, j :: 0 <= i < j < |cands| ==> GeneratedFirst(fmt, h, locked, radius, cands[i], cands[j])
  }

  /** The first half of `decide`. */
  method Candidates(fmt: Fmt, posts: seq<map<char, real>>, h: string, locked: set<nat>, ghost a: nat)
    returns (cands: seq<string>, radius: nat, calls: nat)
    requires WellFormed(fmt) && |posts| == |h| == fmt.Length() && AlphabetsWithin(fmt, a)
    ensures IsCandidateList(fmt, posts, h, locked, cands, radius)
    ensures InGenerationOrder(fmt, h, locked, radius, cands)
    ensures calls <= |h| * a + TOP_POSITIONS * (TOP_ALTERNATES * (1 + |h| * a))
  {
    calls := 0;
    assert |h| * a >= 0;
    if fmt.ok(h) {
      return [h], 0, 0;
    }
    cands, calls := RepairsR1(fmt, h, locked);
    CallsR1Bound(fmt, h, locked, |h|, a);
    radius := 1;
    if cands == [] {
      radius := 2;
      var found, c2 := RepairsR2(fmt, posts, h, locked, a);
      cands := Listed(found);
      calls := calls + c2;
    }
  }

  /** Each candidate is valid, differs from the heard string in exactly `radius`
      positions, all of them unlocked and edited to a legal character. */
  lemma CandidatesAreLegal(fmt: Fmt, posts: seq<map<char, real>>, h: string, locked: set<nat>,
                           cands: seq<string>, radius: nat, x: string)
    requires |posts| == |h| == fmt.Length()
    requires IsCandidateList(fmt, posts, h, locked, cands, radius) && x in cands
    ensures fmt.ok(x) && LegalEdit(fmt, h, locked, x) && |Edited(h, x)| == radius
  {
    match radius
    case 0 => assert Edited(h, x) == {};
    case 1 =>
      var i, k :| SingleEdit(fmt, h, locked, x, i, k);
      var n: nat := i;
      assert Edited(h, x) == {n};
    case _ => TwoEditsAway(fmt, posts, h, locked, x);
  }

  lemma TwoEditsAway(fmt: Fmt, posts: seq<map<char, real>>, h: string, locked: set<nat>, x: string)
    requires |posts| == |h| == fmt.Length() && ExactlyR1(fmt, h, locked, [])
    requires FromSearch(fmt, posts, h, locked, x, FirstOf(DoubtOrder(posts, h, locked), TOP_POSITIONS))
    ensures fmt.ok(x) && LegalEdit(fmt, h, locked, x) && |Edited(h, x)| == 2
  {
    var order := FirstOf(DoubtOrder(posts, h, locked), TOP_POSITIONS);
    var i: nat :| i in order && i < |h| && FromPosition(fmt, h, locked, x, i, AltsAt(fmt, posts, h, i));
    DoubtOrderRanks(posts, h, locked);
    assert i in DoubtOrder(posts, h, locked);
    var c :| c in AltsAt(fmt, posts, h, i) && FromSeed(fmt, h, locked, x, i, c);
    AlternatesAreLegal(posts[i], fmt.alpha[i], h[i]);
    SearchFindsLegalEdits(fmt, h, locked, x, i, c);
    assert Edited(h, x) != {i} by {
      if Edited(h, x) == {i} {
        OneEditIsSingle(fmt, h, locked, x, i);
      }
    }
  }

  /** No valid string needs fewer legal edits than the candidates offered, also when
      none is offered. */
  lemma NoFewerEdits(fmt: Fmt, posts: seq<map<char, real>>, h: string, locked: set<nat>,
                     cands: seq<string>, radius: nat, y: string)
    requires |posts| == |h| == fmt.Length()
    requires IsCandidateList(fmt, posts, h, locked, cands, radius)
    requires fmt.ok(y) && LegalEdit(fmt, h, locked, y)
    ensures |Edited(h, y)| >= radius
  {
    if Edited(h, y) == {} {
      forall i: nat | i < |h| ensures y[i] == h[i] {
        assert i !in Edited(h, y);
      }
      assert y == h;
    } else if |Edited(h, y)| == 1 && radius == 2 {
      var i := Member(Edited(h, y));
      SingletonOf(Edited(h, y), i);
      OneEditIsSingle(fmt, h, locked, y, i);
    }
  }

  lemma SingletonOf(s: set<nat>, i: nat)
    requires i in s && |s| == 1
    ensures s == {i}
  {
    assert |s - {i}| == 0;
  }

  // ------------------------------------------------- how likely

  function OrTiny(m: real): real {
    if m > TINY then m else TINY
  }

  /** The product whose logarithm the source sums. */
  function Likelihood(posts: seq<map<char, real>>, x: string, n: nat): real
    requires n <= |posts| == |x|
  {
    if n == 0 then 1.0 else Likelihood(posts, x, n - 1) * OrTiny(Mass(posts[n - 1], x[n - 1]))
  }

  function Power(b: real, n: nat): real {
    if n == 0 then 1.0 else Power(b, n - 1) * b
  }

  predicate Likelier(a: (real, string), b: (real, string)) { a.0 > b.0 }

  function Scored(posts: seq<map<char, real>>, cands: seq<string>): (t: seq<(real, string)>)
    requires forall x :: x in cands ==> |x| == |posts|
    ensures |t| == |cands|
  {
    seq(|cands|, k requires 0 <= k < |cands| => (Likelihood(posts, cands[k], |posts|), cands[k]))
  }

  /** Every entry carries its own likelihood and no later entry is likelier. */
  ghost predicate Descending(posts: seq<map<char, real>>, ranked: seq<(real, string)>) {
    && (forall k :: 0 <= k < |ranked| ==>
         |ranked[k].1| == |posts| && ranked[k].0 == Likelihood(posts, ranked[k].1, |posts|))
    && (forall j, k :: 0 <= j < k < |ranked| ==> ranked[j].0 >= ranked[k].0)
  }

  lemma {:induction false} LikelihoodIsPositive(posts: seq<map<char, real>>, x: string, n: nat)
    requires n <= |posts| == |x|
    ensures Likelihood(posts, x, n) > 0.0
  {
    if n > 0 {
      LikelihoodIsPositive(posts, x, n - 1);
      PositiveProduct(Likelihood(posts, x, n - 1), OrTiny(Mass(posts[n - 1], x[n - 1])));
    }
  }

  lemma PositiveProduct(a: real, b: real)
    requires a > 0.0 && b > 0.0
    ensures a * b > 0.0
  {
  }

  lemma TotalCovers(posts: seq<map<char, real>>, ranked: seq<(real, string)>)
    requires Descending(posts, ranked) && ranked != []
    ensures Total(ranked) >= ranked[0].0 > 0.0
  {
    forall k | 0 <= k < |ranked| ensures Likelihoods(ranked)[k] > 0.0 {
      LikelihoodIsPositive(posts, ranked[k].1, |posts|);
    }
    NonNegativeSum(Likelihoods(ranked), 0);
  }

  /** Being the candidate list is a matter of which strings it lists, once each. */
  lemma OrderDoesNotMatter(fmt: Fmt, posts: seq<map<char, real>>, h: string, locked: set<nat>, cands: seq<string>,
                           radius: nat, names: seq<string>)
    requires |posts| == |h| == fmt.Length() && IsCandidateList(fmt, posts, h, locked, cands, radius)
    requires |names| == |cands| && NoDuplicates(names) && forall x :: x in names <==> x in cands
    ensures IsCandidateList(fmt, posts, h, locked, names, radius)
  {
    if radius == 0 {
      assert names[0] in names;
    }
  }

  /** Sorting the scored candidates keeps them the same candidates. */
  lemma RankingKeeps(posts: seq<map<char, real>>, cands: seq<string>, ranked: seq<(real, string)>)
    requires NoDuplicates(cands) && forall x :: x in cands ==> |x| == |posts|
    requires ranked == Sorted(Scored(posts, cands), Likelier)
    ensures NoDuplicates(Seconds(ranked)) && forall x :: x in Seconds(ranked) <==> x in cands
    ensures Descending(posts, ranked) && |ranked| == |cands|
  {
    var scored := Scored(posts, cands);
    assert Strict(Likelier);
    SortedSorts(scored, Likelier);
    forall k | 0 <= k < |ranked|
      ensures |ranked[k].1| == |posts| && ranked[k].0 == Likelihood(posts, ranked[k].1, |posts|)
    {
      assert ranked[k] in scored;
    }
    SameNames(scored, ranked, cands);
    NamesStayDistinct(scored, ranked, cands);
  }

  /** Equally likely candidates stay in the order in which they were generated. */
  ghost predicate TiesInOrder(fmt: Fmt, h: string, locked: set<nat>, radius: nat, ranked: seq<(real, string)>) {
    forall i, j :: 0 <= i < j < |ranked| && ranked[i].0 == ranked[j].0 ==>
      GeneratedFirst(fmt, h, locked, radius, ranked[i].1, ranked[j].1)
  }

  lemma RankingIsStable(fmt: Fmt, h: string, locked: set<nat>, radius: nat, posts: seq<map<char, real>>,
                        cands: seq<string>)
    requires forall x :: x in cands ==> |x| == |posts|
    requires InGenerationOrder(fmt, h, locked, radius, cands)
    ensures TiesInOrder(fmt, h, locked, radius, Sorted(Scored(posts, cands), Likelier))
  {
    var precedes := (a: (real, string), b: (real, string)) => GeneratedFirst(fmt, h, locked, radius, a.1, b.1);
    assert Strict(Likelier);
    SortedIsStable(Scored(posts, cands), Likelier, precedes);
  }

  /** What ranks first: the likelier, and among equals the one generated first. */
  ghost predicate RanksFirst(fmt: Fmt, h: string, locked: set<nat>, radius: nat, a: (real, string), b: (real, string)) {
    a.0 > b.0 || (a.0 == b.0 && GeneratedFirst(fmt, h, locked, radius, a.1, b.1))
  }

  lemma GenerationIsAsymmetric(fmt: Fmt, h: string, locked: set<nat>, radius: nat, x: string, y: string)
    requires WellFormed(fmt) && GeneratedFirst(fmt, h, locked, radius, x, y)
    ensures !GeneratedFirst(fmt, h, locked, radius, y, x)
  {
    if radius == 1 {
      TriedFirstIsAsymmetric(fmt, h, locked, x, y);
    } else if radius == 2 {
      LessIsAsymmetric(x, y);
    }
  }

  /** The radius says whether the string stands, or some single edit of it does. */
  lemma RadiusMeans(fmt: Fmt, posts: seq<map<char, real>>, h: string, locked: set<nat>, xs: seq<string>, m: nat)
    requires |posts| == |h| == fmt.Length() && IsCandidateList(fmt, posts, h, locked, xs, m)
    ensures m <= 2 && (m == 0 <==> fmt.ok(h)) && (m == 2 ==> ExactlyR1(fmt, h, locked, []))
    ensures m == 1 ==> !ExactlyR1(fmt, h, locked, [])
  {
    if m == 1 {
      assert xs[0] in xs;
    }
  }

  lemma SameStrings(fmt: Fmt, posts: seq<map<char, real>>, h: string, locked: set<nat>, xs: seq<string>, m: nat,
                    ys: seq<string>, n: nat)
    requires |posts| == |h| == fmt.Length()
    requires IsCandidateList(fmt, posts, h, locked, xs, m) && IsCandidateList(fmt, posts, h, locked, ys, n)
    ensures m == n && forall x :: x in xs <==> x in ys
  {
    RadiusMeans(fmt, posts, h, locked, xs, m);
    RadiusMeans(fmt, posts, h, locked, ys, n);
  }

  lemma SameEntries(posts: seq<map<char, real>>, xs: seq<(real, string)>, ys: seq<(real, string)>)
    requires Descending(posts, xs) && Descending(posts, ys)
    requires forall x :: x in Seconds(xs) ==> x in Seconds(ys)
    ensures forall d :: d in xs ==> d in ys
  {
    forall d | d in xs ensures d in ys {
      var i :| 0 <= i < |xs| && xs[i] == d;
      assert Seconds(xs)[i] in Seconds(ys);
      var j :| 0 <= j < |ys| && Seconds(ys)[j] == d.1;
      assert ys[j] == d;
    }
  }

  /** The ranked list is determined by what was heard and how sure the recogniser was. */
  lemma RankingIsDetermined(fmt: Fmt, posts: seq<map<char, real>>, h: string, locked: set<nat>,
                            xs: seq<(real, string)>, m: nat, ys: seq<(real, string)>, n: nat)
    requires WellFormed(fmt) && |posts| == |h| == fmt.Length()
    requires IsCandidateList(fmt, posts, h, locked, Seconds(xs), m) && Descending(posts, xs)
    requires IsCandidateList(fmt, posts, h, locked, Seconds(ys), n) && Descending(posts, ys)
    requires TiesInOrder(fmt, h, locked, m, xs) && TiesInOrder(fmt, h, locked, n, ys)
    ensures m == n && xs == ys
  {
    SameStrings(fmt, posts, h, locked, Seconds(xs), m, Seconds(ys), n);
    hide IsCandidateList, GeneratedFirst;
    SameEntries(posts, xs, ys);
    SameEntries(posts, ys, xs);
    var precedes := (a: (real, string), b: (real, string)) => RanksFirst(fmt, h, locked, m, a, b);
    forall a, b | precedes(a, b) ensures !precedes(b, a) {
      if a.0 == b.0 {
        GenerationIsAsymmetric(fmt, h, locked, m, a.1, b.1);
      }
    }
    OrderDetermines(xs, ys, precedes);
  }

  lemma SameNames(scored: seq<(real, string)>, ranked: seq<(real, string)>, cands: seq<string>)
    requires |scored| == |cands| && forall k :: 0 <= k < |cands| ==> scored[k].1 == cands[k]
    requires forall d :: d in ranked <==> d in scored
    ensures forall x :: x in Seconds(ranked) <==> x in cands
  {
    var names := Seconds(ranked);
    forall x | x in cands ensures x in names {
      var k :| 0 <= k < |cands| && cands[k] == x;
      assert scored[k] in ranked;
      var j :| 0 <= j < |ranked| && ranked[j] == scored[k];
      assert names[j] == x;
    }
    forall x | x in names ensures x in cands {
      var j :| 0 <= j < |names| && names[j] == x;
      assert ranked[j] in scored;
    }
  }

  lemma NamesStayDistinct(scored: seq<(real, string)>, ranked: seq<(real, string)>, cands: seq<string>)
    requires NoDuplicates(cands) && |scored| == |cands| && forall k :: 0 <= k < |cands| ==> scored[k].1 == cands[k]
    requires multiset(ranked) == multiset(scored)
    requires forall j, k :: 0 <= j < k < |ranked| && ranked[j].1 == ranked[k].1 ==> ranked[j].0 == ranked[k].0
    ensures NoDuplicates(Seconds(ranked))
  {
    SameMultisetNoDuplicates(scored, ranked);
    var names := Seconds(ranked);
    forall a, b | 0 <= a < b < |names| ensures names[a] != names[b] {
      assert ranked[a] != ranked[b];
    }
  }

  // ------------------------------------------------- a clear winner

  /** One candidate must be plausible by itself; several need a likeliest one with
      nine tenths of the mass that is eight times as likely as the next. */
  ghost predicate Clear(ranked: seq<(real, string)>, length: nat)
    requires ranked != []
  {
    if |ranked| == 1 then ranked[0].0 >= Power(MIN_PLAUS, length)
    else ranked[0].0 >= ACCEPT_P * Total(ranked) && ranked[0].0 >= ACCEPT_R * ranked[1].0
  }

  lemma Fraction(a: real, z: real, q: real)
    requires z > 0.0
    ensures a / z >= q <==> a >= q * z
  {
    assert a == a / z * z;
    if a / z >= q {
      Scale(a / z, q, z);
    } else {
      StrictScale(q, a / z, z);
    }
  }

  lemma Scale(a: real, b: real, z: real)
    requires z > 0.0 && a >= b
    ensures a * z >= b * z
  {
  }

  lemma StrictScale(a: real, b: real, z: real)
    requires z > 0.0 && a > b
    ensures a * z > b * z
  {
  }

  lemma RatioOfShares(a: real, b: real, z: real)
    requires z > 0.0
    ensures a / z >= ACCEPT_R * (b / z) <==> a >= ACCEPT_R * b
  {
    assert ACCEPT_R * (b / z) * z == ACCEPT_R * b by {
      assert b / z * z == b;
    }
    Fraction(a, z, ACCEPT_R * (b / z));
  }

  /** The test on normalised shares, with its floor under the runner-up, is the test on
      likelihoods: a share of nine tenths is far above eight times the floor. */
  lemma SharesDecide(a: real, b: real, z: real)
    requires z > 0.0
    ensures a / z >= ACCEPT_P && a / z / OrTiny(b / z) >= ACCEPT_R <==> a >= ACCEPT_P * z && a >= ACCEPT_R * b
  {
    Fraction(a, z, ACCEPT_P);
    Fraction(a / z, OrTiny(b / z), ACCEPT_R);
    RatioOfShares(a, b, z);
  }

  // ------------------------------------------------- doubt

  function Doubtful(posts: seq<map<char, real>>, h: string, locked: set<nat>): set<nat>
    requires |posts| == |h|
  {
    set i: nat | i < |h| && i !in locked && Doubt(posts, h, i) > DOUBT_T
  }

  ghost predicate WeakEditAt(w: Weights, h: string, top: string, i: nat)
    requires |top| == |h|
  {
    i < |h| && top[i] != h[i] && w(top[i], h[i]) < MIN_EDGE
  }

  method HasWeakEdit(w: Weights, h: string, top: string) returns (weak: bool)
    requires |top| == |h|
    ensures weak <==> exists i: nat :: WeakEditAt(w, h, top, i)
  {
    weak := false;
    for i := 0 to |h|
      invariant weak <==> exists j: nat :: j < i && WeakEditAt(w, h, top, j)
    {
      if top[i] != h[i] && w(top[i], h[i]) < MIN_EDGE {
        assert WeakEditAt(w, h, top, i);
        weak := true;
      }
    }
  }

  /** Residue classes of the check digit, for the format that has them. */
  function Residue(c: char): Option<int> {
    if IsDigit(c) || IsUpper(c) then Some(Iso6346.IsoVal(c) % 11) else None
  }

  /** `blind_alternatives`: confusable characters the check digit cannot tell apart. */
  function BlindAlternatives(fmt: Fmt, w: Weights, i: nat, heard: char): set<char>
    requires i < fmt.Length()
  {
    if fmt.name != "ISO6346" || Residue(heard) == None then {} else
    set c | c in fmt.alpha[i] && c != heard && Residue(c) == Residue(heard) && w(c, heard) > FLOOR
  }

  /** Putting a blind alternative into a valid number leaves it valid, and only owner
      letters have one. */
  lemma BlindAlternativesStayValid(fmt: Fmt, w: Weights, s: string, i: nat, c: char)
    requires fmt.alpha == ISO_ALPHA && i < |s| == 11
    ensures Iso6346.IsoOk(s) && c in BlindAlternatives(fmt, w, i, s[i]) ==>
      Iso6346.IsoOk(s[i := c]) && s[i := c] != s && i < 3
  {
    if Iso6346.IsoOk(s) && c in BlindAlternatives(fmt, w, i, s[i]) {
      Iso6346.AlphabetMeansClasses(s);
      Iso6346.LenientIsReference(s);
      if i >= 3 {
        Iso6346.OnlyOwnerLettersCollide(i, s[i], c);
      }
      Iso6346.LenientBlindSpot(s, i, c);
      Iso6346.AlphabetMeansClasses(s[i := c]);
      Iso6346.LenientIsReference(s[i := c]);
    }
  }

  // ------------------------------------------------- the verdict

  /** The action for a non-empty ranking. */
  ghost function Verdict(w: Weights, posts: seq<map<char, real>>, h: string, locked: set<nat>,
                         ranked: seq<(real, string)>): Action
    requires |posts| == |h| && ranked != [] && |ranked[0].1| == |h|
  {
    var top := ranked[0].1;
    if !Clear(ranked, |h|) then (if |ranked| == 1 then AskLowPlaus else Ask)
    else if !(Doubtful(posts, h, locked) <= Edited(h, top)) then AskUnexplained
    else if exists i: nat :: WeakEditAt(w, h, top, i) then FlagImplausible
    else Accept
  }

  /** What the source computes with a logarithm from a marginal. */
  type Entropy = map<char, real> -> real

  function Spread(entropy: Entropy, ranked: seq<(real, string)>, i: nat): real {
    entropy(Marginal(ranked, i))
  }

  ghost function Ambiguous(entropy: Entropy, ranked: seq<(real, string)>, h: string, locked: set<nat>): set<nat> {
    set i: nat | i < |h| && i !in locked && Spread(entropy, ranked, i) > H_T
  }

  /** Unexplained doubt is asked about where the posterior distrusts the heard character
      most; otherwise the question goes where the candidates disagree most. */
  ghost predicate AsksAt(posts: seq<map<char, real>>, h: string, locked: set<nat>, unexplained: set<nat>,
                         entropy: Entropy, ranked: seq<(real, string)>, p: nat)
    requires |posts| == |h| && forall j :: j in unexplained ==> j < |h|
  {
    && p < |h| && p !in locked
    && (unexplained != {} ==>
         p in unexplained && forall j :: j in unexplained ==> Doubt(posts, h, j) <= Doubt(posts, h, p))
    && (unexplained == {} ==> forall j: nat :: j < |h| && j !in locked ==>
         Spread(entropy, ranked, j) < Spread(entropy, ranked, p) || (Spread(entropy, ranked, j) == Spread(entropy, ranked, p) && j <= p))
  }

  /** Everything `decide` promises about its result. */
  ghost predicate Decided(fmt: Fmt, w: Weights, entropy: Entropy, h: string, confs: seq<real>,
                          locked: set<nat>, r: Result)
    requires |h| == |confs| == fmt.Length()
  {
    var posts := Posts(fmt, h, confs, locked, w);
    && IsCandidateList(fmt, posts, h, locked, Seconds(r.ranked), r.radius)
    && Descending(posts, r.ranked) && TiesInOrder(fmt, h, locked, r.radius, r.ranked)
    && if r.ranked == [] then
         && r.action == FailNoCand && r.top == None && r.askPos == None
         && r.doubtful == {} && r.unexplained == 99 && r.ambiguous == 99
       else DecidedAmong(w, entropy, posts, h, locked, r)
  }

  /** What it promises when there is a candidate. */
  ghost predicate DecidedAmong(w: Weights, entropy: Entropy, posts: seq<map<char, real>>, h: string, locked: set<nat>,
                               r: Result)
    requires |posts| == |h| && r.ranked != [] && |r.ranked[0].1| == |h|
  {
    && r.top == Some(r.ranked[0].1)
    && r.action == Verdict(w, posts, h, locked, r.ranked)
    && r.doubtful == Doubtful(posts, h, locked)
    && r.unexplained == |r.doubtful - Edited(h, r.top.value)|
    && r.ambiguous == |Ambiguous(entropy, r.ranked, h, locked)|
    && r.askPos.Some?
    && AsksAt(posts, h, locked, r.doubtful - Edited(h, r.top.value), entropy, r.ranked, r.askPos.value)
  }

  method MostDoubted(posts: seq<map<char, real>>, h: string, among: set<nat>) returns (p: nat)
    requires |posts| == |h| && among != {} && forall j :: j in among ==> j < |h|
    ensures p in among && forall j :: j in among ==> Doubt(posts, h, j) <= Doubt(posts, h, p)
  {
    ghost var some := Member(among);
    var best: Option<nat> := None;
    for i := 0 to |h|
      invariant best.Some? <==> exists j: nat :: j < i && j in among
      invariant best.Some? ==> best.value < i && best.value in among
      invariant best.Some? ==> forall j: nat :: j < i && j in among ==> Doubt(posts, h, j) <= Doubt(posts, h, best.value)
    {
      if i in among && (best == None || Doubt(posts, h, i) > Doubt(posts, h, best.value)) {
        best := Some(i);
      }
    }
    assert some < |h|;
    p := best.value;
  }

  /** The greatest value at an unlocked position, the last of equals, and how many exceed
      the threshold. */
  method Greatest(spreads: seq<real>, locked: set<nat>, ghost some: nat) returns (p: nat, above: nat)
    requires some < |spreads| && some !in locked
    ensures p < |spreads| && p !in locked
    ensures forall j: nat :: j < |spreads| && j !in locked ==>
      spreads[j] < spreads[p] || (spreads[j] == spreads[p] && j <= p)
    ensures above == |set i: nat | i < |spreads| && i !in locked && spreads[i] > H_T|
  {
    ghost var seen: set<nat> := {};
    var best: Option<nat> := None;
    above := 0;
    for i := 0 to |spreads|
      invariant best.Some? <==> exists j: nat :: j < i && j !in locked
      invariant best.Some? ==> best.value < i && best.value !in locked
      invariant best.Some? ==> forall j: nat :: j < i && j !in locked ==>
        spreads[j] < spreads[best.value] || (spreads[j] == spreads[best.value] && j <= best.value)
      invariant forall j: nat :: j in seen <==> j < i && j !in locked && spreads[j] > H_T
      invariant above == |seen|
    {
      if i !in locked {
        if best == None || spreads[i] >= spreads[best.value] {
          best := Some(i);
        }
        if spreads[i] > H_T {
          seen := seen + {i};
          above := above + 1;
        }
      }
    }
    assert seen == set i: nat | i < |spreads| && i !in locked && spreads[i] > H_T;
    p := best.value;
  }

  /** The most uncertain unlocked position, and how many are uncertain enough. */
  method MostUncertain(entropy: Entropy, ranked: seq<(real, string)>, h: string, locked: set<nat>, ghost some: nat)
    returns (p: nat, ambiguous: nat)
    requires some < |h| && some !in locked && forall k :: 0 <= k < |ranked| ==> |ranked[k].1| == |h|
    ensures p < |h| && p !in locked
    ensures forall j: nat :: j < |h| && j !in locked ==>
      Spread(entropy, ranked, j) < Spread(entropy, ranked, p)
      || (Spread(entropy, ranked, j) == Spread(entropy, ranked, p) && j <= p)
    ensures ambiguous == |Ambiguous(entropy, ranked, h, locked)|
  {
    var m := Tally(ranked, |h|);
    var spreads := seq(|h|, i requires 0 <= i < |h| => entropy(m[i]));
    assert forall i :: 0 <= i < |h| ==> spreads[i] == Spread(entropy, ranked, i);
    hide Spread;
    p, ambiguous := Greatest(spreads, locked, some);
    assert (set i: nat | i < |spreads| && i !in locked && spreads[i] > H_T) == Ambiguous(entropy, ranked, h, locked);
  }

  /** The first verdict, before the guards. */
  method FirstAction(posts: seq<map<char, real>>, ranked: seq<(real, string)>) returns (act: Action)
    requires Descending(posts, ranked) && ranked != []
    ensures act == if Clear(ranked, |posts|) then Accept else if |ranked| == 1 then AskLowPlaus else Ask
  {
    if |ranked| == 1 {
      act := if ranked[0].0 >= Power(MIN_PLAUS, |posts|) then Accept else AskLowPlaus;
    } else {
      TotalCovers(posts, ranked);
      var z := Total(ranked);
      var p0, p1 := ranked[0].0 / z, ranked[1].0 / z;
      act := if p0 >= ACCEPT_P && p0 / OrTiny(p1) >= ACCEPT_R then Accept else Ask;
      SharesDecide(ranked[0].0, ranked[1].0, z);
    }
  }

  lemma NothingLeft(a: set<nat>, b: set<nat>)
    ensures |a - b| == 0 <==> a <= b
  {
    assert a == (a - b) + a * b;
  }

  /** The guards between a clear winner and a silent accept. The blind guard comes after
      the one on unexplained doubt and asks for a subset of it, so it never fires. */
  method GuardedAction(fmt: Fmt, w: Weights, posts: seq<map<char, real>>, h: string, locked: set<nat>,
                       ranked: seq<(real, string)>)
    returns (act: Action, unexplained: set<nat>)
    requires |posts| == |h| == fmt.Length() && Descending(posts, ranked) && ranked != []
    ensures act == Verdict(w, posts, h, locked, ranked) && act != AskBlind
    ensures unexplained == Doubtful(posts, h, locked) - Edited(h, ranked[0].1)
  {
    var top := ranked[0].1;
    assert |top| == |h|;
    hide Clear, BlindAlternatives, Descending;
    act := FirstAction(posts, ranked);
    var edited := Edited(h, top);
    unexplained := Doubtful(posts, h, locked) - edited;
    NothingLeft(Doubtful(posts, h, locked), edited);
    if act == Accept && |unexplained| > 0 {
      act := AskUnexplained;
    }
    var blind := set i | i in unexplained && BlindAlternatives(fmt, w, i, h[i]) != {};
    if act == Accept && blind != {} {
      act := AskBlind;
      unexplained := unexplained + blind;
    }
    if act == Accept && edited != {} {
      var weak := HasWeakEdit(w, h, top);
      if weak {
        act := FlagImplausible;
      }
    }
  }

  ghost predicate AllLocked(h: string, locked: set<nat>) {
    forall i: nat :: i < |h| ==> i in locked
  }

  /** Where to ask, if anywhere, and how many positions are uncertain enough. */
  method AskWhere(entropy: Entropy, posts: seq<map<char, real>>, h: string, locked: set<nat>,
                  ranked: seq<(real, string)>, unexplained: set<nat>)
    returns (askPos: Option<nat>, ambiguous: nat)
    requires |posts| == |h| && forall j :: j in unexplained ==> j < |h| && j !in locked
    requires forall k :: 0 <= k < |ranked| ==> |ranked[k].1| == |h|
    ensures askPos == None <==> AllLocked(h, locked)
    ensures askPos.Some? ==> AsksAt(posts, h, locked, unexplained, entropy, ranked, askPos.value)
    ensures askPos.Some? ==> ambiguous == |Ambiguous(entropy, ranked, h, locked)|
  {
    if forall i: nat | i < |h| :: i in locked {
      return None, 0;
    }
    ghost var some: nat :| some < |h| && some !in locked;
    var p;
    p, ambiguous := MostUncertain(entropy, ranked, h, locked, some);
    if unexplained != {} {
      p := MostDoubted(posts, h, unexplained);
    }
    askPos := Some(p);
  }

  lemma HaveTheLength(fmt: Fmt, posts: seq<map<char, real>>, h: string, locked: set<nat>, cands: seq<string>,
                      radius: nat)
    requires |posts| == |h| == fmt.Length() && IsCandidateList(fmt, posts, h, locked, cands, radius)
    ensures forall x :: x in cands ==> |x| == |posts|
  {
    forall x | x in cands ensures |x| == |posts| {
      CandidatesAreLegal(fmt, posts, h, locked, cands, radius, x);
    }
  }

  /** The sorted candidates are the candidates, likeliest first and ties as generated. */
  lemma RankingIsSound(fmt: Fmt, posts: seq<map<char, real>>, h: string, locked: set<nat>, cands: seq<string>,
                       radius: nat)
    requires |posts| == |h| == fmt.Length() && IsCandidateList(fmt, posts, h, locked, cands, radius)
    requires InGenerationOrder(fmt, h, locked, radius, cands) && forall x :: x in cands ==> |x| == |posts|
    ensures var ranked := Sorted(Scored(posts, cands), Likelier);
      && IsCandidateList(fmt, posts, h, locked, Seconds(ranked), radius) && |ranked| == |cands|
      && Descending(posts, ranked) && TiesInOrder(fmt, h, locked, radius, ranked)
  {
    var ranked := Sorted(Scored(posts, cands), Likelier);
    RankingIsStable(fmt, h, locked, radius, posts, cands);
    hide TiesInOrder, InGenerationOrder;
    RankingKeeps(posts, cands, ranked);
    OrderDoesNotMatter(fmt, posts, h, locked, cands, radius, Seconds(ranked));
  }

  /** With every position locked the only candidate is the string itself. */
  lemma NothingToEdit(fmt: Fmt, posts: seq<map<char, real>>, h: string, locked: set<nat>, cands: seq<string>,
                      radius: nat)
    requires |posts| == |h| == fmt.Length() && IsCandidateList(fmt, posts, h, locked, cands, radius)
    requires AllLocked(h, locked) && cands != []
    ensures fmt.ok(h)
  {
    CandidatesAreLegal(fmt, posts, h, locked, cands, radius, cands[0]);
    hide IsCandidateList;
    assert cands[0] == h;
  }

  lemma NothingIsDecided(fmt: Fmt, posts: seq<map<char, real>>, h: string, locked: set<nat>, radius: nat)
    requires |posts| == |h| == fmt.Length() && IsCandidateList(fmt, posts, h, locked, [], radius)
    ensures !fmt.ok(h) && IsCandidateList(fmt, posts, h, locked, Seconds([]), radius)
    ensures Descending(posts, []) && TiesInOrder(fmt, h, locked, radius, [])
  {
    assert Seconds<string>([]) == [];
  }

  /** `decide`. With every position locked and a string that is valid as it stands there
      is nowhere to ask, and the source raises: no result. */
  method Decide(fmt: Fmt, w: Weights, entropy: Entropy, h: string, confs: seq<real>, locked: set<nat>,
                ghost a: nat)
    returns (found: Option<Result>)
    requires WellFormed(fmt) && AlphabetsWithin(fmt, a) && |h| == |confs| == fmt.Length()
    ensures found == None <==> fmt.ok(h) && AllLocked(h, locked)
    ensures found.Some? ==> Decided(fmt, w, entropy, h, confs, locked, found.value)
    ensures found.Some? ==> found.value.action != AskBlind
    ensures found.Some? ==> found.value.calls <= |h| * a + TOP_POSITIONS * (TOP_ALTERNATES * (1 + |h| * a))
  {
    var posts := Posts(fmt, h, confs, locked, w);
    var cands, radius, calls := Candidates(fmt, posts, h, locked, a);
    hide IsCandidateList, InGenerationOrder;
    if cands == [] {
      NothingIsDecided(fmt, posts, h, locked, radius);
      return Some(Result(FailNoCand, [], None, None, {}, 99, 99, radius, calls));
    }
    HaveTheLength(fmt, posts, h, locked, cands, radius);
    var ranked := Sorted(Scored(posts, cands), Likelier);
    RankingIsSound(fmt, posts, h, locked, cands, radius);
    hide TiesInOrder, Sorted, Scored, Posts, AllLocked, DecidedAmong;
    found := DecideAmong(fmt, w, entropy, posts, h, locked, ranked, radius, calls);
    if found == None {
      NothingToEdit(fmt, posts, h, locked, cands, radius);
    }
  }

  /** The verdict on the ranked candidates and where to ask. */
  method DecideAmong(fmt: Fmt, w: Weights, entropy: Entropy, posts: seq<map<char, real>>, h: string, locked: set<nat>,
                     ranked: seq<(real, string)>, radius: nat, calls: nat)
    returns (found: Option<Result>)
    requires |posts| == |h| == fmt.Length() && Descending(posts, ranked) && ranked != []
    ensures found == None <==> AllLocked(h, locked)
    ensures found.Some? ==> var r := found.value;
      && r.ranked == ranked && r.radius == radius && r.calls == calls && r.action != AskBlind
      && DecidedAmong(w, entropy, posts, h, locked, r)
  {
    var act, unexplained := GuardedAction(fmt, w, posts, h, locked, ranked);
    var askPos, ambiguous := AskWhere(entropy, posts, h, locked, ranked, unexplained);
    if askPos == None {
      return None;
    }
    hide AllLocked, AsksAt, Ambiguous, Doubtful, Verdict, Edited;
    found := Some(Result(act, ranked, Some(ranked[0].1), askPos, Doubtful(posts, h, locked), |unexplained|,
                         ambiguous, radius, calls));
  }

  lemma AskIsDetermined(posts: seq<map<char, real>>, h: string, locked: set<nat>, entropy: Entropy,
                        ranked: seq<(real, string)>, p: nat, q: nat)
    requires |posts| == |h|
    requires AsksAt(posts, h, locked, {}, entropy, ranked, p) && AsksAt(posts, h, locked, {}, entropy, ranked, q)
    ensures p == q
  {
    hide Spread;
  }

  /** `decide` is a function of its inputs: two results agree on everything but where
      to ask among positions of equal doubt, and how many calls it took. */
  lemma ResultIsDetermined(fmt: Fmt, w: Weights, entropy: Entropy, h: string, confs: seq<real>, locked: set<nat>,
                           r: Result, r': Result)
    requires WellFormed(fmt) && |h| == |confs| == fmt.Length()
    requires Decided(fmt, w, entropy, h, confs, locked, r) && Decided(fmt, w, entropy, h, confs, locked, r')
    ensures r'.(askPos := r.askPos, calls := r.calls) == r
    ensures r.unexplained == 0 ==> r'.askPos == r.askPos
  {
    RankingIsDetermined(fmt, Posts(fmt, h, confs, locked, w), h, locked, r.ranked, r.radius, r'.ranked, r'.radius);
    hide IsCandidateList, Descending, TiesInOrder, Verdict, Doubtful, Ambiguous, Posts, AsksAt, Edited, WellFormed;
    if r.ranked != [] && r.unexplained == 0 {
      var posts, unexplained := Posts(fmt, h, confs, locked, w), r.doubtful - Edited(h, r.top.value);
      assert unexplained == {};
      AskIsDetermined(posts, h, locked, entropy, r.ranked, r.askPos.value, r'.askPos.value);
    }
  }

  // ------------------------------------------------- what an accept means

  /** The top candidate is valid, reached by legal edits of unlocked positions, at least
      as likely as every other, first generated of those as likely, and no valid string needs
      fewer edits. */
  lemma TopIsBest(fmt: Fmt, posts: seq<map<char, real>>, h: string, locked: set<nat>,
                  ranked: seq<(real, string)>, radius: nat)
    requires |posts| == |h| == fmt.Length() && ranked != [] && Descending(posts, ranked)
    requires IsCandidateList(fmt, posts, h, locked, Seconds(ranked), radius)
    requires TiesInOrder(fmt, h, locked, radius, ranked)
    ensures var top := ranked[0].1;
      fmt.ok(top) && LegalEdit(fmt, h, locked, top)
      && (forall y :: fmt.ok(y) && LegalEdit(fmt, h, locked, y) ==> |Edited(h, y)| >= |Edited(h, top)|)
      && (forall d :: d in ranked ==> |d.1| == |h| && Likelihood(posts, d.1, |h|) <= Likelihood(posts, top, |h|))
      && (forall d :: d in ranked && d.0 == ranked[0].0 && d.1 != top ==>
           GeneratedFirst(fmt, h, locked, radius, top, d.1))
  {
    var top, names := ranked[0].1, Seconds(ranked);
    assert names[0] == top;
    CandidatesAreLegal(fmt, posts, h, locked, names, radius, top);
    forall y | fmt.ok(y) && LegalEdit(fmt, h, locked, y) ensures |Edited(h, y)| >= |Edited(h, top)| {
      NoFewerEdits(fmt, posts, h, locked, names, radius, y);
    }
  }

  /** A silent accept explains every doubtful position by an edit the confusion table
      knows, and leaves every rival far behind. */
  lemma AcceptMeans(w: Weights, posts: seq<map<char, real>>, h: string, locked: set<nat>, ranked: seq<(real, string)>)
    requires |posts| == |h| && ranked != [] && |ranked[0].1| == |h| && Descending(posts, ranked)
    requires Verdict(w, posts, h, locked, ranked) == Accept
    ensures forall i: nat :: i < |h| && i !in locked && ranked[0].1[i] == h[i] ==> Mass(posts[i], h[i]) >= 1.0 - DOUBT_T
    ensures forall i: nat :: i < |h| && ranked[0].1[i] != h[i] ==> w(ranked[0].1[i], h[i]) >= MIN_EDGE
    ensures forall k :: 0 < k < |ranked| ==> ranked[0].0 >= ACCEPT_R * ranked[k].0
  {
    var top := ranked[0].1;
    assert Doubtful(posts, h, locked) <= Edited(h, top);
    forall i: nat | i < |h| && i !in locked && top[i] == h[i] ensures Mass(posts[i], h[i]) >= 1.0 - DOUBT_T {
      assert i !in Edited(h, top);
      assert i !in Doubtful(posts, h, locked);
    }
    forall i: nat | i < |h| && top[i] != h[i] ensures w(top[i], h[i]) >= MIN_EDGE {
      assert !WeakEditAt(w, h, top, i);
    }
  }

  /** Accepting what was heard, unchanged, takes a legal character with confidence of at
      least 0.6 at every unlocked position. */
  lemma UnchangedAcceptNeedsConfidence(fmt: Fmt, w: Weights, entropy: Entropy, h: string, confs: seq<real>,
                                       locked: set<nat>, r: Result, i: nat)
    requires WellFormed(fmt) && Floored(w)
    requires |h| == |confs| == fmt.Length() && Decided(fmt, w, entropy, h, confs, locked, r)
    requires r.action == Accept && r.top == Some(h) && i < |h| && i !in locked
    ensures h[i] in fmt.alpha[i] && confs[i] >= 0.6
  {
    AcceptMeans(w, Posts(fmt, h, confs, locked, w), h, locked, r.ranked);
    HeardMass(fmt.alpha[i], h[i], confs[i], w);
  }
}
