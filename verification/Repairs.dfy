/** Candidate generation: every valid string one legal edit away, and the bounded search
    two edits away, under positions a human has locked. */
module Repairs {
  import opened Common
  import opened Posterior
  import opened Ranking

  const TOP_POSITIONS := 5
  const TOP_ALTERNATES := 6

  /** Alphabets repeat nothing and offer a choice at every position. */
  ghost predicate WellFormed(fmt: Fmt) {
    fmt.Length() >= 3 && forall i :: 0 <= i < fmt.Length() ==> NoRepeats(fmt.alpha[i]) && |fmt.alpha[i]| >= 2
  }

  /** Positions at which `x` differs from what was heard. */
  function Edited(h: string, x: string): set<nat>
    requires |h| == |x|
  {
    set i: nat | i < |h| && x[i] != h[i]
  }

  /** Reached by changing only unlocked positions, to characters allowed there. */
  ghost predicate LegalEdit(fmt: Fmt, h: string, locked: set<nat>, x: string) {
    && |x| == |h| == fmt.Length()
    && forall i :: 0 <= i < |h| && x[i] != h[i] ==> i !in locked && x[i] in fmt.alpha[i]
  }

  /** One edit, at position `i`, to the `k`-th character of its alphabet. */
  ghost predicate SingleEdit(fmt: Fmt, h: string, locked: set<nat>, x: string, i: int, k: int)
    requires |h| == fmt.Length()
  {
    && 0 <= i < |h| && i !in locked && 0 <= k < |fmt.alpha[i]|
    && fmt.alpha[i][k] != h[i] && x == h[i := fmt.alpha[i][k]]
  }

  /** What `repairs_r1` must return. */
  ghost predicate ExactlyR1(fmt: Fmt, h: string, locked: set<nat>, out: seq<string>)
    requires |h| == fmt.Length()
  {
    && (forall x :: x in out <==> fmt.ok(x) && exists i, k :: SingleEdit(fmt, h, locked, x, i, k))
    && (forall a, b :: 0 <= a < b < |out| ==> out[a] != out[b])
  }

  /** `x` is an edit before position `i`, or before character `k` at position `i`. */
  ghost predicate EditBefore(fmt: Fmt, h: string, locked: set<nat>, x: string, i: int, k: int)
    requires |h| == fmt.Length()
  {
    exists j, m :: SingleEdit(fmt, h, locked, x, j, m) && (j < i || (j == i && m < k))
  }

  /** `x` is tried before `y`. */
  ghost predicate TriedFirst(fmt: Fmt, h: string, locked: set<nat>, x: string, y: string) {
    |h| == fmt.Length() && exists i, k :: SingleEdit(fmt, h, locked, y, i, k) && EditBefore(fmt, h, locked, x, i, k)
  }

  ghost predicate InTrialOrder(fmt: Fmt, h: string, locked: set<nat>, out: seq<string>) {
    forall a, b :: 0 <= a < b < |out| ==> TriedFirst(fmt, h, locked, out[a], out[b])
  }

  ghost predicate PartOfR1(fmt: Fmt, h: string, locked: set<nat>, out: seq<string>, i: int, k: int)
    requires |h| == fmt.Length()
  {
    && (forall x :: x in out <==> fmt.ok(x) && EditBefore(fmt, h, locked, x, i, k))
    && (forall a, b :: 0 <= a < b < |out| ==> out[a] != out[b])
    && InTrialOrder(fmt, h, locked, out)
  }

  lemma SingleEditsDiffer(fmt: Fmt, h: string, locked: set<nat>, x: string, i: int, k: int, j: int, m: int)
    requires WellFormed(fmt) && |h| == fmt.Length()
    requires SingleEdit(fmt, h, locked, x, i, k) && SingleEdit(fmt, h, locked, x, j, m)
    ensures i == j && k == m
  {
    assert x[i] != h[i] && x[j] != h[j];
  }

  /** How many characters of one alphabet are not the heard one. */
  function Alternatives(alphabet: string, heard: char): nat {
    if |alphabet| == 0 then 0 else
    Alternatives(alphabet[..|alphabet| - 1], heard) + if alphabet[|alphabet| - 1] == heard then 0 else 1
  }

  /** Validator calls spent on the first `n` positions. */
  function CallsR1(fmt: Fmt, h: string, locked: set<nat>, n: nat): nat
    requires |h| == fmt.Length() && n <= |h|
  {
    if n == 0 then 0 else
    CallsR1(fmt, h, locked, n - 1) + if n - 1 in locked then 0 else Alternatives(fmt.alpha[n - 1], h[n - 1])
  }

  ghost predicate AlphabetsWithin(fmt: Fmt, a: nat) {
    forall i :: 0 <= i < fmt.Length() ==> |fmt.alpha[i]| <= a
  }

  lemma {:induction false} AlternativesBound(alphabet: string, heard: char)
    ensures Alternatives(alphabet, heard) <= |alphabet|
  {
    if |alphabet| > 0 {
      AlternativesBound(alphabet[..|alphabet| - 1], heard);
    }
  }

  lemma {:induction false} CallsR1Bound(fmt: Fmt, h: string, locked: set<nat>, n: nat, a: nat)
    requires |h| == fmt.Length() && n <= |h| && AlphabetsWithin(fmt, a)
    ensures CallsR1(fmt, h, locked, n) <= n * a
  {
    if n > 0 {
      CallsR1Bound(fmt, h, locked, n - 1, a);
      AlternativesBound(fmt.alpha[n - 1], h[n - 1]);
      assert n * a == (n - 1) * a + a;
    }
  }

  lemma StaysInTrialOrder(fmt: Fmt, h: string, locked: set<nat>, out: seq<string>, i: nat, k: nat)
    requires |h| == fmt.Length() && i < |h| && i !in locked && k < |fmt.alpha[i]| && fmt.alpha[i][k] != h[i]
    requires PartOfR1(fmt, h, locked, out, i, k)
    ensures InTrialOrder(fmt, h, locked, out + [h[i := fmt.alpha[i][k]]])
  {
    var cand := h[i := fmt.alpha[i][k]];
    hide EditBefore;
    assert SingleEdit(fmt, h, locked, cand, i, k);
    forall a | 0 <= a < |out| ensures TriedFirst(fmt, h, locked, out[a], cand) {
      assert out[a] in out;
    }
  }

  lemma NextCharacter(fmt: Fmt, h: string, locked: set<nat>, out: seq<string>, i: nat, k: nat)
    requires WellFormed(fmt) && |h| == fmt.Length() && i < |h| && i !in locked && k < |fmt.alpha[i]|
    requires PartOfR1(fmt, h, locked, out, i, k)
    ensures var c := fmt.alpha[i][k];
            PartOfR1(fmt, h, locked, if c != h[i] && fmt.ok(h[i := c]) then out + [h[i := c]] else out, i, k + 1)
  {
    var c := fmt.alpha[i][k];
    var cand := h[i := c];
    var out' := if c != h[i] && fmt.ok(cand) then out + [cand] else out;
    if c != h[i] {
      StaysInTrialOrder(fmt, h, locked, out, i, k);
    }
    hide InTrialOrder;
    forall x ensures EditBefore(fmt, h, locked, x, i, k + 1) <==>
      EditBefore(fmt, h, locked, x, i, k) || (c != h[i] && x == cand)
    {
      if x == cand && c != h[i] {
        assert SingleEdit(fmt, h, locked, x, i, k);
      }
    }
    if c != h[i] && fmt.ok(cand) && cand in out {
      var j, m :| SingleEdit(fmt, h, locked, cand, j, m) && (j < i || (j == i && m < k));
      SingleEditsDiffer(fmt, h, locked, cand, i, k, j, m);
    }
  }

  lemma TriedFirstIsAsymmetric(fmt: Fmt, h: string, locked: set<nat>, x: string, y: string)
    requires WellFormed(fmt) && TriedFirst(fmt, h, locked, x, y)
    ensures !TriedFirst(fmt, h, locked, y, x)
  {
    var i, k :| SingleEdit(fmt, h, locked, y, i, k) && EditBefore(fmt, h, locked, x, i, k);
    var j, m :| SingleEdit(fmt, h, locked, x, j, m) && (j < i || (j == i && m < k));
    if TriedFirst(fmt, h, locked, y, x) {
      var j', m' :| SingleEdit(fmt, h, locked, x, j', m') && EditBefore(fmt, h, locked, y, j', m');
      var i', k' :| SingleEdit(fmt, h, locked, y, i', k') && (i' < j' || (i' == j' && k' < m'));
      SingleEditsDiffer(fmt, h, locked, x, j, m, j', m');
      SingleEditsDiffer(fmt, h, locked, y, i, k, i', k');
    }
  }

  lemma NextPosition(fmt: Fmt, h: string, locked: set<nat>, out: seq<string>, i: nat)
    requires |h| == fmt.Length() && i < |h|
    requires PartOfR1(fmt, h, locked, out, i, if i in locked then 0 else |fmt.alpha[i]|)
    ensures PartOfR1(fmt, h, locked, out, i + 1, 0)
  {
    var k := if i in locked then 0 else |fmt.alpha[i]|;
    assert forall x :: EditBefore(fmt, h, locked, x, i + 1, 0) <==> EditBefore(fmt, h, locked, x, i, k);
  }

  lemma NoEditsYet(fmt: Fmt, h: string, locked: set<nat>)
    requires |h| == fmt.Length()
    ensures PartOfR1(fmt, h, locked, [], 0, 0)
  {
  }

  lemma AllEdits(fmt: Fmt, h: string, locked: set<nat>, out: seq<string>)
    requires |h| == fmt.Length() && PartOfR1(fmt, h, locked, out, |h|, 0)
    ensures ExactlyR1(fmt, h, locked, out) && InTrialOrder(fmt, h, locked, out)
  {
    assert forall x :: EditBefore(fmt, h, locked, x, |h|, 0) <==> exists i, k :: SingleEdit(fmt, h, locked, x, i, k);
  }

  lemma NoCallsYet(fmt: Fmt, h: string, locked: set<nat>)
    requires |h| == fmt.Length()
    ensures CallsR1(fmt, h, locked, 0) == 0
    ensures forall heard :: Alternatives([], heard) == 0
  {
  }

  lemma CallsAfter(fmt: Fmt, h: string, locked: set<nat>, n: nat)
    requires |h| == fmt.Length() && n < |h|
    ensures CallsR1(fmt, h, locked, n + 1) ==
      CallsR1(fmt, h, locked, n) + if n in locked then 0 else Alternatives(fmt.alpha[n], h[n])
  {
  }

  lemma OneMoreAlternative(alphabet: string, heard: char, k: nat)
    requires k < |alphabet|
    ensures Alternatives(alphabet[..k + 1], heard) ==
      Alternatives(alphabet[..k], heard) + if alphabet[k] == heard then 0 else 1
  {
    assert alphabet[..k + 1][..k] == alphabet[..k];
  }

  /** `repairs_r1`: exactly the valid strings one legal, unlocked edit away, each once
      and in the order in which they are tried, and one validator call per edit. */
  method RepairsR1(fmt: Fmt, h: string, locked: set<nat>) returns (out: seq<string>, calls: nat)
    requires WellFormed(fmt) && |h| == fmt.Length()
    ensures ExactlyR1(fmt, h, locked, out) && InTrialOrder(fmt, h, locked, out)
    ensures calls == CallsR1(fmt, h, locked, |h|)
  {
    out, calls := [], 0;
    NoEditsYet(fmt, h, locked);
    NoCallsYet(fmt, h, locked);
    hide PartOfR1, ExactlyR1, InTrialOrder, CallsR1, Alternatives;
    for i := 0 to |h|
      invariant PartOfR1(fmt, h, locked, out, i, 0)
      invariant calls == CallsR1(fmt, h, locked, i)
    {
      CallsAfter(fmt, h, locked, i);
      if i in locked {
        NextPosition(fmt, h, locked, out, i);
        continue;
      }
      var alphabet := fmt.alpha[i];
      for k := 0 to |alphabet|
        invariant PartOfR1(fmt, h, locked, out, i, k)
        invariant calls == CallsR1(fmt, h, locked, i) + Alternatives(alphabet[..k], h[i])
      {
        OneMoreAlternative(alphabet, h[i], k);
        NextCharacter(fmt, h, locked, out, i, k);
        var c := alphabet[k];
        if c == h[i] {
          continue;
        }
        calls := calls + 1;
        var cand := h[i := c];
        if fmt.ok(cand) {
          out := out + [cand];
        }
      }
      assert alphabet[..|alphabet|] == alphabet;
      NextPosition(fmt, h, locked, out, i);
    }
    AllEdits(fmt, h, locked, out);
  }

  // ------------------------------------------------- where the doubt is

  /** Per-position posteriors of a whole string. */
  function Posts(fmt: Fmt, h: string, confs: seq<real>, locked: set<nat>, w: Weights): (ps: seq<map<char, real>>)
    requires |h| == |confs| == fmt.Length()
    ensures |ps| == |h|
  {
    seq(|h|, i requires 0 <= i < |h| => PosPost(fmt.alpha[i], h[i], confs[i], i in locked, w))
  }

  /** Probability mass off the heard character. */
  function Doubt(posts: seq<map<char, real>>, h: string, i: nat): real
    requires i < |posts| == |h|
  {
    1.0 - Mass(posts[i], h[i])
  }

  function Doubts(posts: seq<map<char, real>>, h: string, locked: set<nat>, n: nat): seq<(real, nat)>
    requires n <= |posts| == |h|
  {
    if n == 0 then [] else
    Doubts(posts, h, locked, n - 1) + if n - 1 in locked then [] else [(Doubt(posts, h, n - 1), n - 1)]
  }

  /** Tuples in descending order. */
  predicate Greater(a: (real, nat), b: (real, nat)) {
    a.0 > b.0 || (a.0 == b.0 && a.1 > b.1)
  }

  function Seconds<A>(xs: seq<(real, A)>): (ys: seq<A>)
    ensures |ys| == |xs|
  {
    seq(|xs|, i requires 0 <= i < |xs| => xs[i].1)
  }

  /** `doubt_order`. */
  function DoubtOrder(posts: seq<map<char, real>>, h: string, locked: set<nat>): seq<nat>
    requires |posts| == |h|
  {
    Seconds(Sorted(Doubts(posts, h, locked, |h|), Greater))
  }

  lemma {:induction false} DoubtsAre(posts: seq<map<char, real>>, h: string, locked: set<nat>, n: nat)
    requires n <= |posts| == |h|
    ensures forall d :: d in Doubts(posts, h, locked, n) <==>
      d.1 < n && d.1 !in locked && d.0 == Doubt(posts, h, d.1)
  {
    if n > 0 {
      DoubtsAre(posts, h, locked, n - 1);
    }
  }

  lemma SortedDoubts(posts: seq<map<char, real>>, h: string, locked: set<nat>) returns (sorted: seq<(real, nat)>)
    requires |posts| == |h|
    ensures sorted == Sorted(Doubts(posts, h, locked, |h|), Greater) && Ordered(sorted, Greater)
    ensures forall d :: d in sorted <==> d.1 < |h| && d.1 !in locked && d.0 == Doubt(posts, h, d.1)
  {
    var ds := Doubts(posts, h, locked, |h|);
    sorted := Sorted(ds, Greater);
    DoubtsAre(posts, h, locked, |h|);
    assert Strict(Greater);
    SortedSorts(ds, Greater);
  }

  /** The order lists exactly the unlocked positions, the most doubted first, and of equal
      doubt the last. */
  lemma DoubtOrderRanks(posts: seq<map<char, real>>, h: string, locked: set<nat>)
    requires |posts| == |h|
    ensures var order := DoubtOrder(posts, h, locked);
      (forall i: nat :: i in order <==> i < |h| && i !in locked)
      && forall a, b :: 0 <= a < b < |order| ==>
           order[a] < |h| && order[b] < |h| && Doubt(posts, h, order[a]) >= Doubt(posts, h, order[b])
           && (Doubt(posts, h, order[a]) == Doubt(posts, h, order[b]) ==> order[a] >= order[b])
  {
    var order := DoubtOrder(posts, h, locked);
    var sorted := SortedDoubts(posts, h, locked);
    forall k | 0 <= k < |sorted|
      ensures order[k] == sorted[k].1 < |h| && order[k] !in locked && sorted[k].0 == Doubt(posts, h, order[k])
    {
      assert sorted[k] in sorted;
    }
    forall i: nat | i < |h| && i !in locked ensures i in order {
      var d := (Doubt(posts, h, i), i);
      assert d in sorted;
      var k :| 0 <= k < |sorted| && sorted[k] == d;
      assert order[k] == i;
    }
  }

  // ------------------------------------------------- two edits

  function Pairs(p: map<char, real>, alphabet: string, heard: char): seq<(real, char)> {
    if |alphabet| == 0 then [] else
    var x := alphabet[|alphabet| - 1];
    Pairs(p, alphabet[..|alphabet| - 1], heard) + if x == heard then [] else [(Mass(p, x), x)]
  }

  predicate GreaterPair(a: (real, char), b: (real, char)) {
    a.0 > b.0 || (a.0 == b.0 && a.1 > b.1)
  }

  function FirstOf<T>(xs: seq<T>, n: nat): seq<T> {
    if |xs| > n then xs[..n] else xs
  }

  /** The likeliest other characters at a position, at most six. */
  function Alternates(p: map<char, real>, alphabet: string, heard: char): seq<char> {
    FirstOf(Seconds(Sorted(Pairs(p, alphabet, heard), GreaterPair)), TOP_ALTERNATES)
  }

  lemma {:induction false} PairsAre(p: map<char, real>, alphabet: string, heard: char)
    ensures forall d :: d in Pairs(p, alphabet, heard) <==> d.1 in alphabet && d.1 != heard && d.0 == Mass(p, d.1)
  {
    if |alphabet| > 0 {
      PairsAre(p, alphabet[..|alphabet| - 1], heard);
      assert alphabet == alphabet[..|alphabet| - 1] + [alphabet[|alphabet| - 1]];
    }
  }

  lemma AlternatesAreLegal(p: map<char, real>, alphabet: string, heard: char)
    ensures |Alternates(p, alphabet, heard)| <= TOP_ALTERNATES
    ensures forall c :: c in Alternates(p, alphabet, heard) ==> c in alphabet && c != heard
  {
    var pairs := Pairs(p, alphabet, heard);
    var sorted := Sorted(pairs, GreaterPair);
    PairsAre(p, alphabet, heard);
    assert Strict(GreaterPair);
    SortedSorts(pairs, GreaterPair);
    forall c | c in Alternates(p, alphabet, heard) ensures c in alphabet && c != heard {
      var k :| 0 <= k < |Alternates(p, alphabet, heard)| && Alternates(p, alphabet, heard)[k] == c;
      assert sorted[k].1 == c && sorted[k] in sorted;
    }
  }

  lemma {:induction false} PairsCount(p: map<char, real>, alphabet: string, heard: char)
    ensures |Pairs(p, alphabet, heard)| == Alternatives(alphabet, heard)
  {
    if |alphabet| > 0 {
      PairsCount(p, alphabet[..|alphabet| - 1], heard);
    }
  }

  /** Six are kept, or all if there are fewer. */
  lemma AlternatesCount(p: map<char, real>, alphabet: string, heard: char)
    ensures var others := Alternatives(alphabet, heard);
      |Alternates(p, alphabet, heard)| == if others > 6 then 6 else others
  {
    PairsCount(p, alphabet, heard);
    assert Strict(GreaterPair);
    SortedSorts(Pairs(p, alphabet, heard), GreaterPair);
  }

  /** What is left out is never likelier than what is kept, nor equally likely and later in
      code-point order. */
  lemma AlternatesAreLikeliest(p: map<char, real>, alphabet: string, heard: char, c: char, d: char)
    requires c in Alternates(p, alphabet, heard) && d !in Alternates(p, alphabet, heard)
    requires d in alphabet && d != heard
    ensures Mass(p, c) > Mass(p, d) || (Mass(p, c) == Mass(p, d) && c >= d)
  {
    var pairs := Pairs(p, alphabet, heard);
    var sorted, alternates := Sorted(pairs, GreaterPair), Alternates(p, alphabet, heard);
    PairsAre(p, alphabet, heard);
    assert Strict(GreaterPair);
    SortedSorts(pairs, GreaterPair);
    var k :| 0 <= k < |alternates| && alternates[k] == c;
    assert (Mass(p, d), d) in sorted;
    var j :| 0 <= j < |sorted| && sorted[j] == (Mass(p, d), d);
    assert forall i :: 0 <= i < |alternates| ==> alternates[i] == sorted[i].1 && alternates[i] in alternates;
    assert sorted[k].1 == c && sorted[k] in sorted;
  }

  /** A valid string found by seeding character `c` at position `i`: the seed itself, or
      when that is not valid, one more legal edit away from it. */
  ghost predicate FromSeed(fmt: Fmt, h: string, locked: set<nat>, x: string, i: nat, c: char)
    requires |h| == fmt.Length() && i < |h|
  {
    var seed := h[i := c];
    fmt.ok(x) && if fmt.ok(seed) then x == seed else exists j, k :: SingleEdit(fmt, seed, locked + {i}, x, j, k)
  }

  ghost predicate FromPosition(fmt: Fmt, h: string, locked: set<nat>, x: string, i: nat, alts: seq<char>)
    requires |h| == fmt.Length() && i < |h|
  {
    exists c :: c in alts && FromSeed(fmt, h, locked, x, i, c)
  }

  function AltsAt(fmt: Fmt, posts: seq<map<char, real>>, h: string, i: nat): seq<char>
    requires i < |posts| == |h| == fmt.Length()
  {
    Alternates(posts[i], fmt.alpha[i], h[i])
  }

  /** What `repairs_r2` searches: the five most doubted positions. */
  ghost predicate FromSearch(fmt: Fmt, posts: seq<map<char, real>>, h: string, locked: set<nat>, x: string, order: seq<nat>)
    requires |posts| == |h| == fmt.Length()
  {
    exists i: nat :: i in order && i < |h| && FromPosition(fmt, h, locked, x, i, AltsAt(fmt, posts, h, i))
  }

  /** Everything the search finds from legal seeds is a legal edit of one or two
      positions. */
  lemma SearchFindsLegalEdits(fmt: Fmt, h: string, locked: set<nat>, x: string, i: nat, c: char)
    requires |h| == fmt.Length() && i < |h| && i !in locked && c in fmt.alpha[i] && c != h[i]
    requires FromSeed(fmt, h, locked, x, i, c)
    ensures fmt.ok(x) && LegalEdit(fmt, h, locked, x)
    ensures Edited(h, x) == {i} || exists j :: j != i && Edited(h, x) == {i, j}
  {
    var seed := h[i := c];
    if fmt.ok(seed) {
      assert Edited(h, x) == {i};
    } else {
      var j, k :| SingleEdit(fmt, seed, locked + {i}, x, j, k);
      var n: nat := j;
      assert Edited(h, x) == {i, n};
    }
  }

  /** A legal edit of exactly one position is one `repairs_r1` would have found. */
  lemma OneEditIsSingle(fmt: Fmt, h: string, locked: set<nat>, x: string, i: nat)
    requires LegalEdit(fmt, h, locked, x) && Edited(h, x) == {i}
    ensures exists j, k :: SingleEdit(fmt, h, locked, x, j, k)
  {
    assert i in Edited(h, x);
    var k :| 0 <= k < |fmt.alpha[i]| && fmt.alpha[i][k] == x[i];
    forall j: nat | j < |h| && j != i ensures x[j] == h[j] {
      assert j !in Edited(h, x);
    }
    assert x == h[i := x[i]];
    assert SingleEdit(fmt, h, locked, x, i, k);
  }

  lemma OneMore(k: nat, unit: nat)
    ensures (k + 1) * unit == k * unit + unit
  {
  }

  /** Everything seeded at one position; at most 1 + L*A validator calls per seed. */
  method SeedPosition(fmt: Fmt, h: string, locked: set<nat>, i: nat, alts: seq<char>, ghost a: nat)
    returns (out: set<string>, calls: nat)
    requires WellFormed(fmt) && |h| == fmt.Length() && i < |h| && AlphabetsWithin(fmt, a)
    ensures forall x :: x in out <==> FromPosition(fmt, h, locked, x, i, alts)
    ensures calls <= |alts| * (1 + |h| * a)
  {
    out, calls := {}, 0;
    for m := 0 to |alts|
      invariant forall x :: x in out <==> FromPosition(fmt, h, locked, x, i, alts[..m])
      invariant calls <= m * (1 + |h| * a)
    {
      ghost var before := out;
      OneMore(m, 1 + |h| * a);
      var seed := h[i := alts[m]];
      calls := calls + 1;
      if fmt.ok(seed) {
        out := out + {seed};
      } else {
        CallsR1Bound(fmt, seed, locked + {i}, |seed|, a);
        var r, cc := RepairsR1(fmt, seed, locked + {i});
        calls := calls + cc;
        out := out + set x | x in r;
      }
      assert forall x :: x in out <==> x in before || FromSeed(fmt, h, locked, x, i, alts[m]);
      assert alts[..m + 1] == alts[..m] + [alts[m]];
    }
    assert alts[..|alts|] == alts;
  }

  /** `repairs_r2`: exactly what seeding one likely edit at each of the most doubted
      positions and repairing once more finds, within M*K*(1 + L*A) calls. */
  method RepairsR2(fmt: Fmt, posts: seq<map<char, real>>, h: string, locked: set<nat>, ghost a: nat)
    returns (out: set<string>, calls: nat)
    requires WellFormed(fmt) && |posts| == |h| == fmt.Length() && AlphabetsWithin(fmt, a)
    ensures forall x :: x in out <==>
      FromSearch(fmt, posts, h, locked, x, FirstOf(DoubtOrder(posts, h, locked), TOP_POSITIONS))
    ensures calls <= TOP_POSITIONS * (TOP_ALTERNATES * (1 + |h| * a))
  {
    var order := FirstOf(DoubtOrder(posts, h, locked), TOP_POSITIONS);
    ghost var unit := TOP_ALTERNATES * (1 + |h| * a);
    DoubtOrderRanks(posts, h, locked);
    out, calls := {}, 0;
    for n := 0 to |order|
      invariant forall x :: x in out <==> FromSearch(fmt, posts, h, locked, x, order[..n])
      invariant calls <= n * unit
    {
      var i := order[n];
      ghost var before := out;
      assert i in DoubtOrder(posts, h, locked);
      OneMore(n, unit);
      AlternatesAreLegal(posts[i], fmt.alpha[i], h[i]);
      var alts := AltsAt(fmt, posts, h, i);
      var found, cc := SeedPosition(fmt, h, locked, i, alts, a);
      WithinUnit(|alts|, 1 + |h| * a);
      out, calls := out + found, calls + cc;
      SearchGrows(fmt, posts, h, locked, order, n);
    }
    assert order[..|order|] == order;
    AtMostFive(|order|, unit);
  }

  lemma WithinUnit(k: nat, unit: nat)
    requires k <= TOP_ALTERNATES
    ensures k * unit <= TOP_ALTERNATES * unit
  {
  }

  lemma AtMostFive(k: nat, unit: nat)
    requires k <= TOP_POSITIONS
    ensures k * unit <= TOP_POSITIONS * unit
  {
  }

  lemma SearchGrows(fmt: Fmt, posts: seq<map<char, real>>, h: string, locked: set<nat>, order: seq<nat>, n: nat)
    requires |posts| == |h| == fmt.Length() && n < |order| && order[n] < |h|
    ensures forall x :: FromSearch(fmt, posts, h, locked, x, order[..n + 1]) <==>
      FromSearch(fmt, posts, h, locked, x, order[..n])
      || FromPosition(fmt, h, locked, x, order[n], AltsAt(fmt, posts, h, order[n]))
  {
    assert order[..n + 1] == order[..n] + [order[n]];
  }

  // ------------------------------------------------- the candidate list

  /** Code-point order of strings. */
  predicate Less(a: string, b: string) {
    |b| > 0 && (|a| == 0 || a[0] < b[0] || (a[0] == b[0] && Less(a[1..], b[1..])))
  }

  lemma {:induction false} LessIsAsymmetric(a: string, b: string)
    ensures !(Less(a, b) && Less(b, a))
  {
    if |a| > 0 && |b| > 0 {
      LessIsAsymmetric(a[1..], b[1..]);
    }
  }

  lemma {:induction false} LessIsNegativelyTransitive(a: string, b: string, c: string)
    requires !Less(b, a) && !Less(c, b)
    ensures !Less(c, a)
  {
    if |a| > 0 && |c| > 0 && |b| > 0 && a[0] == b[0] == c[0] {
      LessIsNegativelyTransitive(a[1..], b[1..], c[1..]);
    }
  }

  lemma LessIsStrict()
    ensures Strict(Less)
  {
    forall a, b | Less(a, b) ensures !Less(b, a) {
      LessIsAsymmetric(a, b);
    }
    forall a, b, c | !Less(b, a) && !Less(c, b) ensures !Less(c, a) {
      LessIsNegativelyTransitive(a, b, c);
    }
  }

  lemma {:induction false} LessIsTotal(a: string, b: string)
    requires a != b
    ensures Less(a, b) || Less(b, a)
  {
    if |a| > 0 && |b| > 0 && a[0] == b[0] {
      assert a == [a[0]] + a[1..] && b == [b[0]] + b[1..];
      LessIsTotal(a[1..], b[1..]);
    }
  }

  /** Code-point order: at the first difference the smaller character comes first, and a
      beginning comes before what continues it. */
  lemma {:induction false} LessExactly(a: string, b: string)
    ensures Less(a, b) <==> exists n :: FirstDifference(a, b, n) && n < |b| && (n == |a| || a[n] < b[n])
  {
    if |a| > 0 && |b| > 0 && a[0] == b[0] {
      LessExactly(a[1..], b[1..]);
      if n :| FirstDifference(a[1..], b[1..], n) && n < |b[1..]| && (n == |a[1..]| || a[1..][n] < b[1..][n]) {
        assert a[..n + 1] == [a[0]] + a[1..][..n] && b[..n + 1] == [b[0]] + b[1..][..n];
        assert FirstDifference(a, b, n + 1);
      }
      if n :| FirstDifference(a, b, n) && n < |b| && (n == |a| || a[n] < b[n]) {
        assert n > 0;
        assert a[1..][..n - 1] == a[..n][1..] && b[1..][..n - 1] == b[..n][1..];
        assert FirstDifference(a[1..], b[1..], n - 1);
      }
    } else {
      assert FirstDifference(a, b, 0);
      StartAlike(a, b);
    }
  }

  lemma StartAlike(a: string, b: string)
    ensures forall n :: FirstDifference(a, b, n) && n > 0 ==> a[0] == b[0]
  {
    forall n | FirstDifference(a, b, n) && n > 0 ensures a[0] == b[0] {
      assert a[..n][0] == a[0] && b[..n][0] == b[0];
    }
  }

  /** The strings agree on `n` characters and one of them ends there or they differ. */
  ghost predicate FirstDifference(a: string, b: string, n: int) {
    0 <= n <= |a| && n <= |b| && a[..n] == b[..n] && (n < |a| && n < |b| ==> a[n] != b[n])
  }

  ghost predicate NoDuplicates<T>(xs: seq<T>) {
    forall a, b :: 0 <= a < b < |xs| ==> xs[a] != xs[b]
  }

  /** `sorted(set)`. */
  method Listed(s: set<string>) returns (xs: seq<string>)
    ensures forall x :: x in xs <==> x in s
    ensures NoDuplicates(xs) && InTurn(xs, Less)
  {
    var ys: seq<string> := [];
    var rest := s;
    while rest != {}
      invariant rest <= s && NoDuplicates(ys)
      invariant forall x :: x in ys <==> x in s && x !in rest
      decreases rest
    {
      var x :| x in rest;
      rest := rest - {x};
      ys := ys + [x];
    }
    LessIsStrict();
    SortedSorts(ys, Less);
    xs := Sorted(ys, Less);
    SameMultisetNoDuplicates(ys, xs);
    forall i, j | 0 <= i < j < |xs| ensures Less(xs[i], xs[j]) {
      LessIsTotal(xs[i], xs[j]);
    }
  }

  lemma SameMultisetNoDuplicates<T>(ys: seq<T>, xs: seq<T>)
    requires NoDuplicates(ys) && multiset(ys) == multiset(xs)
    ensures NoDuplicates(xs)
  {
    forall a, b | 0 <= a < b < |xs| ensures xs[a] != xs[b] {
      if xs[a] == xs[b] {
        TwiceInMultiset(xs, a, b);
        OnceInMultiset(ys, xs[a]);
      }
    }
  }

  lemma TwiceInMultiset<T>(xs: seq<T>, a: int, b: int)
    requires 0 <= a < b < |xs| && xs[a] == xs[b]
    ensures multiset(xs)[xs[a]] >= 2
  {
    assert xs == xs[..a] + [xs[a]] + xs[a + 1..b] + [xs[b]] + xs[b + 1..];
  }

  lemma {:induction false} OnceInMultiset<T>(ys: seq<T>, x: T)
    requires NoDuplicates(ys)
    ensures multiset(ys)[x] <= 1
  {
    if |ys| > 0 {
      var n := |ys| - 1;
      OnceInMultiset(ys[..n], x);
      assert ys == ys[..n] + [ys[n]];
      if ys[n] == x {
        assert x !in ys[..n];
      }
    }
  }
}
