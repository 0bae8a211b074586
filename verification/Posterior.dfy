/** Per-position posteriors: what the confidence and the confusion table say about the
    character at one position. */
module Posterior {
  import opened RealSums

  /** `w_of(true, heard)`: never below a positive floor. */
  type Weights = (char, char) -> real

  const FLOOR := 0.004

  ghost predicate Floored(w: Weights) {
    forall a, b :: w(a, b) >= FLOOR
  }

  ghost predicate NoRepeats(alphabet: string) {
    forall i, j :: 0 <= i < j < |alphabet| ==> alphabet[i] != alphabet[j]
  }

  /** The weights of every character of the alphabet but the heard one. */
  function Rest(alphabet: string, heard: char, w: Weights): (t: seq<real>)
    ensures |t| == |alphabet|
  {
    seq(|alphabet|, i requires 0 <= i < |alphabet| => if alphabet[i] == heard then 0.0 else w(alphabet[i], heard))
  }

  function OrOne(s: real): real {
    if s == 0.0 then 1.0 else s
  }

  /** The mass before normalisation. */
  function Raw(alphabet: string, heard: char, conf: real, w: Weights, x: char): real {
    if heard !in alphabet then w(x, heard)
    else if x == heard then conf
    else (1.0 - conf) * w(x, heard) / OrOne(Sum(Rest(alphabet, heard, w)))
  }

  function Raws(alphabet: string, heard: char, conf: real, w: Weights): (t: seq<real>)
    ensures |t| == |alphabet|
  {
    seq(|alphabet|, i requires 0 <= i < |alphabet| => Raw(alphabet, heard, conf, w, alphabet[i]))
  }

  /** `pos_post`. */
  function PosPost(alphabet: string, heard: char, conf: real, locked: bool, w: Weights): map<char, real> {
    if locked then map[heard := 1.0] else
    map x | x in alphabet ::
      Raw(alphabet, heard, conf, w, x) / OrOne(Sum(Raws(alphabet, heard, conf, w)))
  }

  /** `p.get(c, 0.0)`. */
  function Mass(p: map<char, real>, c: char): real {
    if c in p then p[c] else 0.0
  }

  function Masses(p: map<char, real>, alphabet: string): (t: seq<real>)
    ensures |t| == |alphabet|
  {
    seq(|alphabet|, i requires 0 <= i < |alphabet| => Mass(p, alphabet[i]))
  }

  // ------------------------------------------------- sums of reals

  lemma Distribute(q: real, r: real, v: real)
    ensures q * r + q * v == q * (r + v)
  {
  }

  lemma AddFractions(a: real, b: real, z: real)
    requires z != 0.0
    ensures a / z + b / z == (a + b) / z
  {
  }

  lemma Extended(a: real, b: real, x: real, y: real, q: real, here: bool, before: bool, v: real)
    requires a == q * b + (if before then v else 0.0) && !(here && before)
    requires ScaledAt(x, y, q, here, v)
    ensures a + x == q * (b + y) + if here || before then v else 0.0
  {
    Distribute(q, b, y);
  }

  ghost predicate ScaledAt(x: real, y: real, q: real, here: bool, v: real) {
    if here then y == 0.0 && x == v else x == q * y
  }

  /** `xs` is `ys` scaled by `q`, except for one position where `ys` has nothing. */
  lemma {:induction false} ScaledBut(xs: seq<real>, ys: seq<real>, q: real, at: int, v: real)
    requires |xs| == |ys|
    requires forall i :: 0 <= i < |xs| ==> ScaledAt(xs[i], ys[i], q, i == at, v)
    ensures Sum(xs) == q * Sum(ys) + if 0 <= at < |xs| then v else 0.0
  {
    hide ScaledAt;
    if |xs| > 0 {
      var n := |xs| - 1;
      assert ScaledAt(xs[n], ys[n], q, n == at, v);
      ScaledBut(xs[..n], ys[..n], q, at, v);
      Extended(Sum(xs[..n]), Sum(ys[..n]), xs[n], ys[n], q, at == n, at < n && at >= 0, v);
    }
  }

  lemma {:induction false} Divided(xs: seq<real>, ys: seq<real>, z: real)
    requires |xs| == |ys| && z != 0.0 && forall i :: 0 <= i < |xs| ==> xs[i] == ys[i] / z
    ensures Sum(xs) == Sum(ys) / z
  {
    if |xs| > 0 {
      var n := |xs| - 1;
      Divided(xs[..n], ys[..n], z);
      AddFractions(Sum(ys[..n]), ys[n], z);
    }
  }

  lemma {:induction false} NonNegativeSum(xs: seq<real>, at: int)
    requires forall i :: 0 <= i < |xs| ==> xs[i] >= 0.0
    ensures Sum(xs) >= 0.0 && (0 <= at < |xs| ==> Sum(xs) >= xs[at])
  {
    if |xs| > 0 {
      NonNegativeSum(xs[..|xs| - 1], at);
    }
  }

  // ------------------------------------------------- what the raw masses sum to

  lemma Share(c: real, s: real, v: real)
    requires s != 0.0
    ensures c * v / s == c / s * v
  {
  }

  lemma Whole(c: real, s: real)
    requires s != 0.0
    ensures c / s * s == c
  {
  }

  lemma RestIsPositive(alphabet: string, heard: char, w: Weights, other: int)
    requires Floored(w) && 0 <= other < |alphabet| && alphabet[other] != heard
    ensures Sum(Rest(alphabet, heard, w)) >= FLOOR
  {
    forall i | 0 <= i < |alphabet| ensures Rest(alphabet, heard, w)[i] >= 0.0 {
      assert w(alphabet[i], heard) >= FLOOR;
    }
    assert w(alphabet[other], heard) >= FLOOR;
    NonNegativeSum(Rest(alphabet, heard, w), other);
  }

  lemma RawIsShare(alphabet: string, heard: char, conf: real, w: Weights, rest: real, i: nat)
    requires i < |alphabet| && heard in alphabet && alphabet[i] != heard && rest == Sum(Rest(alphabet, heard, w))
    ensures Raws(alphabet, heard, conf, w)[i] == (1.0 - conf) / OrOne(rest) * Rest(alphabet, heard, w)[i]
  {
    Share(1.0 - conf, OrOne(rest), w(alphabet[i], heard));
  }

  /** The heard character's confidence plus the others' shares of what is left. */
  lemma SharesSum(alphabet: string, heard: char, conf: real, w: Weights, rest: real, at: nat)
    requires at < |alphabet| && alphabet[at] == heard && NoRepeats(alphabet) && rest == Sum(Rest(alphabet, heard, w))
    ensures Sum(Raws(alphabet, heard, conf, w)) == (1.0 - conf) / OrOne(rest) * rest + conf
  {
    var raws, rests, q := Raws(alphabet, heard, conf, w), Rest(alphabet, heard, w), (1.0 - conf) / OrOne(rest);
    forall i | 0 <= i < |alphabet| ensures ScaledAt(raws[i], rests[i], q, i == at, conf) {
      if i != at {
        RawIsShare(alphabet, heard, conf, w, rest, i);
      }
    }
    hide Raws, Rest;
    ScaledBut(raws, rests, q, at, conf);
  }

  lemma AloneHasNoRest(alphabet: string, heard: char, w: Weights)
    requires alphabet == [heard]
    ensures Sum(Rest(alphabet, heard, w)) == 0.0
  {
    assert Rest(alphabet, heard, w) == [0.0] && [0.0][..0] == [];
  }

  /** A legal heard character with company: the raw masses already sum to one. */
  lemma LegalRawSum(alphabet: string, heard: char, conf: real, w: Weights)
    requires Floored(w) && NoRepeats(alphabet) && heard in alphabet
    ensures Sum(Raws(alphabet, heard, conf, w)) == if |alphabet| >= 2 then 1.0 else conf
  {
    var at :| 0 <= at < |alphabet| && alphabet[at] == heard;
    var rest := Sum(Rest(alphabet, heard, w));
    SharesSum(alphabet, heard, conf, w, rest, at);
    if |alphabet| >= 2 {
      RestIsPositive(alphabet, heard, w, if at == 0 then 1 else 0);
      Whole(1.0 - conf, rest);
    } else {
      AloneHasNoRest(alphabet, heard, w);
    }
  }

  lemma IllegalRawSum(alphabet: string, heard: char, conf: real, w: Weights)
    requires Floored(w) && heard !in alphabet && |alphabet| > 0
    ensures Sum(Raws(alphabet, heard, conf, w)) >= FLOOR
  {
    forall i | 0 <= i < |alphabet| ensures Raws(alphabet, heard, conf, w)[i] >= FLOOR {
      assert w(alphabet[i], heard) >= FLOOR;
    }
    NonNegativeSum(Raws(alphabet, heard, conf, w), 0);
  }

  // ------------------------------------------------- the posterior is a distribution

  lemma NormalisedIsOne(z: real)
    ensures z / OrOne(z) == if z == 0.0 then 0.0 else 1.0
  {
  }

  lemma RawIsNonNegative(alphabet: string, heard: char, conf: real, w: Weights, i: nat)
    requires Floored(w) && 0.0 <= conf <= 1.0 && i < |alphabet|
    ensures Raw(alphabet, heard, conf, w, alphabet[i]) >= 0.0
  {
    assert w(alphabet[i], heard) >= FLOOR;
    if alphabet[i] != heard {
      RestIsPositive(alphabet, heard, w, i);
      assert (1.0 - conf) * w(alphabet[i], heard) >= 0.0;
    }
  }

  lemma RawSumSign(alphabet: string, heard: char, conf: real, w: Weights)
    requires Floored(w) && NoRepeats(alphabet) && |alphabet| > 0 && 0.0 <= conf <= 1.0
    ensures Sum(Raws(alphabet, heard, conf, w)) >= 0.0
    ensures Sum(Raws(alphabet, heard, conf, w)) == 0.0 <==> alphabet == [heard] && conf == 0.0
  {
    if heard in alphabet {
      LegalRawSum(alphabet, heard, conf, w);
    } else {
      IllegalRawSum(alphabet, heard, conf, w);
    }
  }

  /** The posterior is a probability distribution over the alphabet, except for a
      single-character alphabet heard with confidence zero. */
  lemma IsDistribution(alphabet: string, heard: char, conf: real, w: Weights)
    requires Floored(w) && NoRepeats(alphabet) && |alphabet| > 0 && 0.0 <= conf <= 1.0
    ensures var p := PosPost(alphabet, heard, conf, false, w);
            (forall x :: x in p ==> p[x] >= 0.0)
            && (Sum(Masses(p, alphabet)) == 1.0 <==> !(alphabet == [heard] && conf == 0.0))
  {
    var raws, p := Raws(alphabet, heard, conf, w), PosPost(alphabet, heard, conf, false, w);
    MassesAreQuotients(alphabet, heard, conf, w);
    RawSumSign(alphabet, heard, conf, w);
    forall x | x in alphabet ensures p[x] >= 0.0 {
      var i :| 0 <= i < |alphabet| && alphabet[i] == x;
      RawIsNonNegative(alphabet, heard, conf, w, i);
    }
    hide Sum, Raw, Raws, Masses, OrOne, Floored, NoRepeats;
    NormalisedIsOne(Sum(raws));
    Divided(Masses(p, alphabet), raws, OrOne(Sum(raws)));
  }

  lemma MassesAreQuotients(alphabet: string, heard: char, conf: real, w: Weights)
    requires NoRepeats(alphabet)
    ensures var raws := Raws(alphabet, heard, conf, w);
      forall i :: 0 <= i < |alphabet| ==>
        Masses(PosPost(alphabet, heard, conf, false, w), alphabet)[i] == raws[i] / OrOne(Sum(raws))
  {
    var p := PosPost(alphabet, heard, conf, false, w);
    var raws := Raws(alphabet, heard, conf, w);
    hide Sum;
    forall i | 0 <= i < |alphabet| ensures Masses(p, alphabet)[i] == raws[i] / OrOne(Sum(raws)) {
      assert alphabet[i] in alphabet;
    }
  }

  /** A legal heard character gets exactly its confidence, whatever the other weights
      are, as soon as the position has another character to offer; a heard character
      outside the alphabet gets nothing. */
  lemma HeardMass(alphabet: string, heard: char, conf: real, w: Weights)
    requires Floored(w) && NoRepeats(alphabet)
    ensures heard in alphabet && |alphabet| >= 2 ==>
      Mass(PosPost(alphabet, heard, conf, false, w), heard) == conf
    ensures heard !in alphabet ==> Mass(PosPost(alphabet, heard, conf, false, w), heard) == 0.0
    ensures Mass(PosPost(alphabet, heard, conf, true, w), heard) == 1.0
  {
    if heard in alphabet {
      LegalRawSum(alphabet, heard, conf, w);
    }
  }
}
