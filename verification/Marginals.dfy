/** What the candidates together say about one position: how their shares spread over
    the characters they have there. */
module Marginals {
  import opened Posterior
  import opened RealSums

  function Likelihoods(ranked: seq<(real, string)>): (t: seq<real>)
    ensures |t| == |ranked|
  {
    seq(|ranked|, k requires 0 <= k < |ranked| => ranked[k].0)
  }

  function Total(ranked: seq<(real, string)>): real {
    Sum(Likelihoods(ranked))
  }

  /** A candidate's part of the whole. */
  function Share(ranked: seq<(real, string)>, k: nat): real
    requires k < |ranked|
  {
    ranked[k].0 / OrOne(Total(ranked))
  }

  predicate HasAt(x: string, i: nat, c: char) {
    i < |x| && x[i] == c
  }

  /** The shares of those of the first `n` candidates that have `c` at `i`. */
  function MassAt(ranked: seq<(real, string)>, i: nat, c: char, n: nat): real
    requires n <= |ranked|
  {
    if n == 0 then 0.0
    else MassAt(ranked, i, c, n - 1) + if HasAt(ranked[n - 1].1, i, c) then Share(ranked, n - 1) else 0.0
  }

  function CharsAt(ranked: seq<(real, string)>, i: nat, n: nat): set<char>
    requires n <= |ranked|
  {
    set k: nat | k < n && i < |ranked[k].1| :: ranked[k].1[i]
  }

  function MarginalUpTo(ranked: seq<(real, string)>, i: nat, n: nat): map<char, real>
    requires n <= |ranked|
  {
    map c | c in CharsAt(ranked, i, n) :: MassAt(ranked, i, c, n)
  }

  function Marginal(ranked: seq<(real, string)>, i: nat): map<char, real> {
    MarginalUpTo(ranked, i, |ranked|)
  }

  lemma {:induction false} NoMass(ranked: seq<(real, string)>, i: nat, c: char, n: nat)
    requires n <= |ranked| && c !in CharsAt(ranked, i, n)
    ensures MassAt(ranked, i, c, n) == 0.0
  {
    if n > 0 {
      assert CharsAt(ranked, i, n - 1) <= CharsAt(ranked, i, n);
      assert i < |ranked[n - 1].1| ==> ranked[n - 1].1[i] in CharsAt(ranked, i, n);
      NoMass(ranked, i, c, n - 1);
    }
  }

  lemma OneMoreCharacter(ranked: seq<(real, string)>, i: nat, n: nat)
    requires n < |ranked| && i < |ranked[n].1|
    ensures CharsAt(ranked, i, n + 1) == CharsAt(ranked, i, n) + {ranked[n].1[i]}
  {
    assert ranked[n].1[i] in CharsAt(ranked, i, n + 1);
  }

  /** One more candidate adds its share to one character. */
  lemma OneMoreCandidate(ranked: seq<(real, string)>, i: nat, n: nat)
    requires n < |ranked| && i < |ranked[n].1|
    ensures var before, c := MarginalUpTo(ranked, i, n), ranked[n].1[i];
      MarginalUpTo(ranked, i, n + 1) == before[c := Mass(before, c) + Share(ranked, n)]
  {
    OneMoreCharacter(ranked, i, n);
    var c := ranked[n].1[i];
    if c !in CharsAt(ranked, i, n) {
      NoMass(ranked, i, c, n);
    }
  }

  /** `marginals`, candidate by candidate and position by position. */
  method Tally(ranked: seq<(real, string)>, length: nat) returns (m: seq<map<char, real>>)
    requires forall k :: 0 <= k < |ranked| ==> |ranked[k].1| == length
    ensures |m| == length && forall i :: 0 <= i < length ==> m[i] == Marginal(ranked, i)
  {
    m := seq(length, _ => map[]);
    assert forall i: nat :: MarginalUpTo(ranked, i, 0) == map[];
    hide MarginalUpTo, Share;
    for k := 0 to |ranked|
      invariant |m| == length && forall i :: 0 <= i < length ==> m[i] == MarginalUpTo(ranked, i, k)
    {
      var x, p := ranked[k].1, Share(ranked, k);
      for i := 0 to length
        invariant |m| == length
        invariant forall j :: 0 <= j < length ==> m[j] == MarginalUpTo(ranked, j, if j < i then k + 1 else k)
      {
        OneMoreCandidate(ranked, i, k);
        m := m[i := m[i][x[i] := Mass(m[i], x[i]) + p]];
      }
    }
  }

  // ------------------------------------------------- what a marginal tells

  lemma {:induction false} SharesAddUp(ranked: seq<(real, string)>, shares: seq<real>)
    requires |shares| == |ranked| && forall k :: 0 <= k < |ranked| ==> shares[k] == Share(ranked, k)
    requires Total(ranked) != 0.0
    ensures Sum(shares) == 1.0
  {
    Divided(shares, Likelihoods(ranked), OrOne(Total(ranked)));
    NormalisedIsOne(Total(ranked));
  }

  lemma {:induction false} UnanimousMass(ranked: seq<(real, string)>, shares: seq<real>, i: nat, c: char, n: nat)
    requires |shares| == |ranked| && forall k :: 0 <= k < |ranked| ==> shares[k] == Share(ranked, k)
    requires n <= |ranked| && forall k :: 0 <= k < n ==> HasAt(ranked[k].1, i, c)
    ensures MassAt(ranked, i, c, n) == Sum(shares[..n])
  {
    if n > 0 {
      UnanimousMass(ranked, shares, i, c, n - 1);
      assert shares[..n][..n - 1] == shares[..n - 1];
    }
  }

  /** A part of the whole `z`. */
  function Portion(m: real, z: real): real { m * z }

  lemma PartOf(m: real, x: real, z: real)
    requires z != 0.0
    ensures Portion(m + x / z, z) == Portion(m, z) + x
  {
    assert x / z * z == x;
  }

  lemma {:induction false} MassTimesTotal(ranked: seq<(real, string)>, parts: seq<real>, i: nat, c: char, n: nat)
    requires n <= |ranked| == |parts| && Total(ranked) != 0.0
    requires forall k :: 0 <= k < |ranked| ==> parts[k] == if HasAt(ranked[k].1, i, c) then ranked[k].0 else 0.0
    ensures Portion(MassAt(ranked, i, c, n), Total(ranked)) == Sum(parts[..n])
  {
    if n > 0 {
      hide Portion;
      MassTimesTotal(ranked, parts, i, c, n - 1);
      assert parts[..n][..n - 1] == parts[..n - 1];
      PartOf(MassAt(ranked, i, c, n - 1), parts[n - 1], Total(ranked));
    }
  }

  lemma MassIs(ranked: seq<(real, string)>, i: nat, c: char)
    ensures Mass(Marginal(ranked, i), c) == MassAt(ranked, i, c, |ranked|)
  {
    if c !in CharsAt(ranked, i, |ranked|) {
      NoMass(ranked, i, c, |ranked|);
    }
  }

  /** The mass of a character is to one as the likelihoods of the candidates that have it
      there are to those of all. */
  lemma MarginalExactly(ranked: seq<(real, string)>, all: seq<real>, parts: seq<real>, i: nat, c: char)
    requires |all| == |parts| == |ranked| && Sum(all) != 0.0
    requires forall k :: 0 <= k < |ranked| ==> i < |ranked[k].1| && all[k] == ranked[k].0
    requires forall k :: 0 <= k < |ranked| ==> parts[k] == if ranked[k].1[i] == c then ranked[k].0 else 0.0
    ensures Portion(Mass(Marginal(ranked, i), c), Sum(all)) == Sum(parts)
  {
    assert all == Likelihoods(ranked) && parts[..|parts|] == parts;
    MassIs(ranked, i, c);
    assert Total(ranked) == Sum(all);
    hide Sum, Likelihoods, Mass, Marginal, MassAt, Total, Portion;
    MassTimesTotal(ranked, parts, i, c, |ranked|);
  }

  /** A position is certain exactly when all candidates agree on it, which a single one
      always does. */
  lemma CertainExactlyWhen(ranked: seq<(real, string)>, i: nat, c: char)
    requires ranked != [] && Total(ranked) != 0.0 && forall k :: 0 <= k < |ranked| ==> i < |ranked[k].1|
    ensures Marginal(ranked, i) == map[c := 1.0] <==> forall k :: 0 <= k < |ranked| ==> ranked[k].1[i] == c
  {
    var chars := CharsAt(ranked, i, |ranked|);
    assert forall k: nat :: k < |ranked| ==> ranked[k].1[i] in chars;
    if forall k :: 0 <= k < |ranked| ==> ranked[k].1[i] == c {
      var shares := seq(|ranked|, k requires 0 <= k < |ranked| => Share(ranked, k));
      SharesAddUp(ranked, shares);
      UnanimousMass(ranked, shares, i, c, |ranked|);
      assert shares[..|ranked|] == shares;
      assert chars == {c} by {
        assert ranked[0].1[i] in chars;
      }
    } else {
      assert Marginal(ranked, i).Keys == chars;
    }
  }

  ghost function MassesUpTo(ranked: seq<(real, string)>, i: nat, alphabet: string, n: nat): (t: seq<real>)
    requires n <= |ranked|
    ensures |t| == |alphabet|
  {
    seq(|alphabet|, a requires 0 <= a < |alphabet| => MassAt(ranked, i, alphabet[a], n))
  }

  lemma {:induction false} SumOfZeros(xs: seq<real>)
    requires forall a :: 0 <= a < |xs| ==> xs[a] == 0.0
    ensures Sum(xs) == 0.0
  {
    if |xs| > 0 {
      SumOfZeros(xs[..|xs| - 1]);
    }
  }

  lemma {:induction false} SumWithOneMore(xs: seq<real>, ys: seq<real>, at: nat, v: real)
    requires at < |xs| == |ys| && ys == xs[at := xs[at] + v]
    ensures Sum(ys) == Sum(xs) + v
  {
    var n := |xs| - 1;
    if at < n {
      assert ys[..n] == xs[..n][at := xs[at] + v];
      SumWithOneMore(xs[..n], ys[..n], at, v);
    } else {
      assert ys[..n] == xs[..n];
    }
  }

  lemma SumOfFront(xs: seq<real>, n: nat)
    requires n < |xs|
    ensures Sum(xs[..n + 1]) == Sum(xs[..n]) + xs[n]
  {
    assert xs[..n + 1][..n] == xs[..n];
  }

  lemma {:induction false} MassIsSpread(ranked: seq<(real, string)>, shares: seq<real>, i: nat, alphabet: string, n: nat)
    requires |shares| == |ranked| && forall k :: 0 <= k < |ranked| ==> shares[k] == Share(ranked, k)
    requires NoRepeats(alphabet) && n <= |ranked|
    requires forall k :: 0 <= k < |ranked| ==> i < |ranked[k].1| && ranked[k].1[i] in alphabet
    ensures Sum(MassesUpTo(ranked, i, alphabet, n)) == Sum(shares[..n])
  {
    if n == 0 {
      SumOfZeros(MassesUpTo(ranked, i, alphabet, 0));
    } else {
      MassIsSpread(ranked, shares, i, alphabet, n - 1);
      SumOfFront(shares, n - 1);
      hide Sum, Share;
      var at :| 0 <= at < |alphabet| && alphabet[at] == ranked[n - 1].1[i];
      var before, after := MassesUpTo(ranked, i, alphabet, n - 1), MassesUpTo(ranked, i, alphabet, n);
      assert after == before[at := before[at] + shares[n - 1]];
      SumWithOneMore(before, after, at, shares[n - 1]);
    }
  }

  /** Over any alphabet the candidates stay within, a marginal sums to one. */
  lemma MarginalIsDistribution(ranked: seq<(real, string)>, i: nat, alphabet: string)
    requires Total(ranked) != 0.0 && NoRepeats(alphabet)
    requires forall k :: 0 <= k < |ranked| ==> i < |ranked[k].1| && ranked[k].1[i] in alphabet
    ensures Sum(Masses(Marginal(ranked, i), alphabet)) == 1.0
  {
    var shares := seq(|ranked|, k requires 0 <= k < |ranked| => Share(ranked, k));
    SharesAddUp(ranked, shares);
    assert shares[..|ranked|] == shares;
    MassIsSpread(ranked, shares, i, alphabet, |ranked|);
    forall a | 0 <= a < |alphabet|
      ensures Masses(Marginal(ranked, i), alphabet)[a] == MassesUpTo(ranked, i, alphabet, |ranked|)[a]
    {
      if alphabet[a] !in CharsAt(ranked, i, |ranked|) {
        NoMass(ranked, i, alphabet[a], |ranked|);
      }
    }
    assert Masses(Marginal(ranked, i), alphabet) == MassesUpTo(ranked, i, alphabet, |ranked|);
  }
}
