/** ISO 6346 container numbers: the reference check, the residue-table check, and
    exactly which errors each of them cannot see (ISO 6346 Annex A). */
module Iso6346 {
  import opened Common
  import opened Sums

  // ------------------------------------------------------------ letter values

  /** Annex A: letters count from 10, skipping the multiples of 11. */
  function LetterValue(c: char): int {
    NthValue(c as int - 'A' as int)
  }

  function NthValue(k: int): int {
    10 + k + (k + 9) / 10
  }

  /** The table the source fills by advancing past multiples of 11. */
  method BuildIsoLetters() returns (table: map<char, int>)
    ensures table.Keys == set c | c in LETTERS
    ensures forall c :: c in table ==> table[c] == LetterValue(c)
  {
    table := map[];
    var v := 10;
    for k := 0 to |LETTERS|
      invariant v == if k == 0 then 10 else LetterValue(LETTERS[k - 1]) + 1
      invariant table.Keys == set i | 0 <= i < k :: LETTERS[i]
      invariant forall c :: c in table ==> table[c] == LetterValue(c)
    {
      LetterStep(k);
      if v % 11 == 0 {
        v := v + 1;
      }
      table := table[LETTERS[k] := v];
      v := v + 1;
    }
  }

  lemma NextValue(k: nat)
    requires k < 26
    ensures NthValue(k) % 11 != 0
    ensures var next := if k == 0 then 10 else NthValue(k - 1) + 1;
            NthValue(k) == if next % 11 == 0 then next + 1 else next
  {
  }

  lemma NthLetter(k: nat)
    requires k < |LETTERS|
    ensures LETTERS[k] as int == 'A' as int + k
  {
  }

  /** Each letter's value is the next number that is not a multiple of 11. */
  lemma LetterStep(k: nat)
    requires k < |LETTERS|
    ensures LetterValue(LETTERS[k]) % 11 != 0
    ensures var next := if k == 0 then 10 else LetterValue(LETTERS[k - 1]) + 1;
            LetterValue(LETTERS[k]) == if next % 11 == 0 then next + 1 else next
  {
    NextValue(k);
    NthLetter(k);
    if k > 0 {
      NthLetter(k - 1);
    }
  }

  /** `iso_val`, for the characters it is defined on. */
  function IsoVal(c: char): int {
    if IsDigit(c) then c as int - '0' as int else LetterValue(c)
  }

  function Pow2(i: nat): nat {
    if i == 0 then 1 else 2 * Pow2(i - 1)
  }

  function Weighted(c: char, i: nat): int {
    IsoVal(c) * Pow2(i)
  }

  function Terms(s: string): (t: seq<int>)
    requires |s| == 11
    ensures |t| == 10
  {
    seq(10, i requires 0 <= i < 10 => Weighted(s[i], i))
  }

  /** The weighted sum over everything but the check digit. */
  function Body(s: string): int
    requires |s| == 11
  {
    Sum(Terms(s))
  }

  // ------------------------------------------------------------ the two checks

  /** A lower-case owner letter passes the source's tests and then has no value. */
  datatype Outcome = Passes | Refused | NoSuchLetter

  /** `iso_ok`, branch by branch. */
  function IsoOutcome(s: string): Outcome {
    if |s| != 11 || !(forall i :: 0 <= i < 4 ==> IsLetter(s[i])) || s[3] !in "UJZ"
       || !(forall i :: 4 <= i < 11 ==> IsDigit(s[i])) then Refused
    else if !(forall i :: 0 <= i < 4 ==> IsUpper(s[i])) then NoSuchLetter
    else if Body(s) % 11 % 10 == IsoVal(s[10]) then Passes else Refused
  }

  predicate IsoOk(s: string) { IsoOutcome(s) == Passes }

  predicate InIsoAlphabet(s: string) {
    |s| == 11 && forall i :: 0 <= i < 11 ==> s[i] in ISO_ALPHA[i]
  }

  /** `ISO.contrib`: per position, each allowed character's residue. */
  function Contrib(i: nat): map<char, int>
    requires i < 11
  {
    map c | c in ISO_ALPHA[i] :: Weighted(c, i) % 11
  }

  function Contributions(s: string): (t: seq<int>)
    requires InIsoAlphabet(s)
    ensures |t| == 10
  {
    seq(10, i requires 0 <= i < 10 => Contrib(i)[s[i]])
  }

  /** `ISO.residual`. */
  function Residual(s: string): int
    requires InIsoAlphabet(s)
  {
    Sum(Contributions(s)) % 11
  }

  predicate Strict(s: string) {
    InIsoAlphabet(s) && Residual(s) != 10 && Residual(s) == IsoVal(s[10])
  }

  predicate Lenient(s: string) {
    InIsoAlphabet(s) && Residual(s) % 10 == IsoVal(s[10])
  }

  predicate AllowedUpTo(s: string, n: nat)
    requires |s| == 11 && n <= 11
  {
    forall i :: 0 <= i < n ==> s[i] in ISO_ALPHA[i]
  }

  lemma NextAllowed(s: string, n: nat)
    requires |s| == 11 && n < 11
    ensures AllowedUpTo(s, n + 1) <==> AllowedUpTo(s, n) && s[n] in ISO_ALPHA[n]
    ensures !AllowedUpTo(s, n + 1) ==> !AllowedUpTo(s, 11)
  {
    hide ISO_ALPHA;
  }

  /** The early-return scan both table checks share. */
  method Scan(s: string) returns (legal: bool)
    ensures legal == InIsoAlphabet(s)
  {
    assert |ISO_ALPHA| == 11;
    hide ISO_ALPHA;
    if |s| != 11 {
      return false;
    }
    assert InIsoAlphabet(s) <==> AllowedUpTo(s, 11);
    hide InIsoAlphabet;
    for i := 0 to 11
      invariant AllowedUpTo(s, i)
    {
      NextAllowed(s, i);
      if s[i] !in ISO_ALPHA[i] {
        return false;
      }
    }
    return true;
  }

  /** `ISO.ok`: accepts exactly what the reference accepts with a remainder below 10. */
  method IsoTableOk(s: string) returns (ok: bool)
    ensures ok == Strict(s)
    ensures ok <==> IsoOk(s) && |s| == 11 && Body(s) % 11 != 10
  {
    StrictIsReferenceBelowTen(s);
    var legal := Scan(s);
    if !legal {
      return false;
    }
    var r := Residual(s);
    ok := r != 10 && r == IsoVal(s[10]);
  }

  /** `ISO.ok_lenient`: agrees with the reference on every string. */
  method IsoTableOkLenient(s: string) returns (ok: bool)
    ensures ok == IsoOk(s)
  {
    LenientIsReference(s);
    var legal := Scan(s);
    if !legal {
      return false;
    }
    ok := Residual(s) % 10 == IsoVal(s[10]);
  }

  // ------------------------------------------------------------ agreement

  /** The residue tables compute the weighted sum modulo 11. */
  lemma TableResidual(s: string)
    requires InIsoAlphabet(s)
    ensures Residual(s) == Body(s) % 11
  {
    SumOfResidues(11, Terms(s), Contributions(s));
  }

  lemma AlphabetMeansClasses(s: string)
    requires |s| == 11
    ensures InIsoAlphabet(s) <==>
      (forall i :: 0 <= i < 4 ==> IsUpper(s[i])) && s[3] in "UJZ" && (forall i :: 4 <= i < 11 ==> IsDigit(s[i]))
  {
    forall i | 0 <= i < 11
      ensures i < 3 ==> (s[i] in ISO_ALPHA[i] <==> IsUpper(s[i]))
      ensures i > 3 ==> (s[i] in ISO_ALPHA[i] <==> IsDigit(s[i]))
    {
      Classes(s[i]);
    }
  }

  lemma LenientIsReference(s: string)
    ensures Lenient(s) <==> IsoOk(s)
  {
    if |s| == 11 {
      AlphabetMeansClasses(s);
      if InIsoAlphabet(s) {
        TableResidual(s);
      }
    }
  }

  lemma FoldedRemainder(x: int)
    ensures 0 <= x % 11 < 11
    ensures x % 11 % 10 == if x % 11 == 10 then 0 else x % 11
  {
  }

  /** Both checks as statements about one remainder. */
  lemma ChecksByRemainder(s: string)
    requires InIsoAlphabet(s)
    ensures 0 <= Residual(s) < 11
    ensures Lenient(s) <==> IsoVal(s[10]) == if Residual(s) == 10 then 0 else Residual(s)
    ensures Strict(s) <==> Residual(s) != 10 && IsoVal(s[10]) == Residual(s)
  {
    FoldedRemainder(Sum(Contributions(s)));
  }

  lemma StrictIsReferenceBelowTen(s: string)
    ensures Strict(s) <==> IsoOk(s) && |s| == 11 && Body(s) % 11 != 10
  {
    LenientIsReference(s);
    if InIsoAlphabet(s) {
      TableResidual(s);
      ChecksByRemainder(s);
    }
  }

  // ------------------------------------------------------------ blind spots

  lemma BodyAfterSubstitution(s: string, i: nat, c: char)
    requires |s| == 11 && i < 11
    ensures Body(s[i := c]) == Body(s) + if i < 10 then Weighted(c, i) - Weighted(s[i], i) else 0
  {
    if i < 10 {
      assert Terms(s[i := c]) == Terms(s)[i := Weighted(c, i)];
      SumAfterUpdate(Terms(s), i, Weighted(c, i));
    } else {
      assert Terms(s[i := c]) == Terms(s);
    }
  }

  lemma DoublingIsInvertible(x: int)
    ensures 2 * x % 11 == 0 <==> x % 11 == 0
  {
  }

  lemma MoveFactor(d: int, p: int)
    ensures d * (2 * p) == 2 * (d * p)
  {
  }

  lemma {:induction false} DifferenceIsInvertible(d: int, i: nat)
    ensures d * Pow2(i) % 11 == 0 <==> d % 11 == 0
  {
    if i > 0 {
      DifferenceIsInvertible(d, i - 1);
      MoveFactor(d, Pow2(i - 1));
      DoublingIsInvertible(d * Pow2(i - 1));
    }
  }

  /** 2 is invertible modulo 11, so a weight never hides a difference. */
  lemma WeightIsInvertible(a: int, b: int, i: nat)
    ensures (a * Pow2(i) - b * Pow2(i)) % 11 == 0 <==> a % 11 == b % 11
  {
    assert a * Pow2(i) - b * Pow2(i) == (a - b) * Pow2(i);
    DifferenceIsInvertible(a - b, i);
    SameClass(a, b);
  }

  predicate Vanishes(x: int) { x % 11 == 0 }

  lemma WeightedIsInvertible(a: char, b: char, i: nat)
    ensures Vanishes(Weighted(a, i) - Weighted(b, i)) <==> IsoVal(a) % 11 == IsoVal(b) % 11
  {
    WeightIsInvertible(IsoVal(a), IsoVal(b), i);
  }

  /** Two sums agree modulo 11 exactly when their difference vanishes. */
  lemma SameRemainder(a: int, b: int, x: int)
    requires b == a + x
    ensures a % 11 == b % 11 <==> x % 11 == 0
  {
  }

  lemma SameClass(a: int, b: int)
    ensures (a - b) % 11 == 0 <==> a % 11 == b % 11
  {
    SameRemainder(b, a, a - b);
  }

  lemma LegalSubstitution(s: string, i: nat, c: char)
    requires InIsoAlphabet(s) && i < 11 && c in ISO_ALPHA[i]
    ensures |s| == 11 && InIsoAlphabet(s[i := c])
  {
  }

  lemma ResidualsByBodies(s: string, t: string)
    requires InIsoAlphabet(s) && InIsoAlphabet(t)
    ensures Residual(t) == Residual(s) <==> Vanishes(Body(t) - Body(s))
  {
    TableResidual(s);
    TableResidual(t);
    hide Residual, Body, InIsoAlphabet;
    SameRemainder(Body(s), Body(t), Body(t) - Body(s));
  }

  lemma ResidualAfter(s: string, t: string, i: nat, c: char)
    requires |s| == 11 && InIsoAlphabet(s) && InIsoAlphabet(t) && i < 10 && t == s[i := c]
    ensures Residual(t) == Residual(s) <==> Vanishes(Weighted(c, i) - Weighted(s[i], i))
  {
    hide Residual, Body, InIsoAlphabet, Weighted, Vanishes;
    ResidualsByBodies(s, t);
    BodyAfterSubstitution(s, i, c);
  }

  /** The remainder before and after a substitution left of the check digit. */
  lemma RemainderAfterSubstitution(s: string, i: nat, c: char)
    requires InIsoAlphabet(s) && i < 10 && c in ISO_ALPHA[i]
    ensures InIsoAlphabet(s[i := c])
    ensures Residual(s[i := c]) == Residual(s) <==> IsoVal(c) % 11 == IsoVal(s[i]) % 11
  {
    hide Residual, IsoVal, Weighted, Vanishes, InIsoAlphabet, ISO_ALPHA;
    LegalSubstitution(s, i, c);
    ResidualAfter(s, s[i := c], i, c);
    WeightedIsInvertible(c, s[i], i);
  }

  lemma CategoriesDiffer(a: char, b: char)
    requires a in "UJZ" && b in "UJZ" && a != b
    ensures IsoVal(a) % 11 != IsoVal(b) % 11
  {
    assert NthValue(20) % 11 == 10 && NthValue(9) % 11 == 9 && NthValue(25) % 11 == 5;
  }

  lemma DigitsDiffer(a: char, b: char)
    requires a in DIGITS && b in DIGITS && a != b
    ensures IsoVal(a) % 11 != IsoVal(b) % 11
  {
    Classes(a);
    Classes(b);
  }

  lemma OnlyOwnerLettersCollide(i: nat, a: char, b: char)
    requires 3 <= i < 11 && a in ISO_ALPHA[i] && b in ISO_ALPHA[i] && a != b
    ensures IsoVal(a) % 11 != IsoVal(b) % 11
  {
    if i == 3 {
      CategoriesDiffer(a, b);
    } else {
      assert ISO_ALPHA[i] == DIGITS;
      DigitsDiffer(a, b);
    }
  }

  /** The strict check misses a substitution exactly when the two characters are
      congruent modulo 11, which only two different owner letters can be. */
  lemma StrictBlindSpot(s: string, i: nat, c: char)
    requires Strict(s) && i < 11 && c in ISO_ALPHA[i] && c != s[i]
    ensures Strict(s[i := c]) <==> i < 10 && IsoVal(c) % 11 == IsoVal(s[i]) % 11
    ensures Strict(s[i := c]) ==> i < 3
  {
    if i < 10 {
      RemainderAfterSubstitution(s, i, c);
    } else {
      CheckDigitSubstitution(s, c);
    }
    if i >= 3 {
      OnlyOwnerLettersCollide(i, s[i], c);
    }
  }

  lemma CheckDigitSubstitution(s: string, c: char)
    requires InIsoAlphabet(s) && c in ISO_ALPHA[10] && c != s[10]
    ensures InIsoAlphabet(s[10 := c]) && Residual(s[10 := c]) == Residual(s)
    ensures IsoVal(c) != IsoVal(s[10])
  {
    TableResidual(s);
    TableResidual(s[10 := c]);
    BodyAfterSubstitution(s, 10, c);
    Classes(c);
    Classes(s[10]);
  }

  /** The lenient check additionally misses the fold of remainder 10 onto 0, and
      nothing else. */
  lemma LenientBlindSpot(s: string, i: nat, c: char)
    requires Lenient(s) && i < 11 && c in ISO_ALPHA[i] && c != s[i]
    ensures InIsoAlphabet(s[i := c])
    ensures Lenient(s[i := c]) <==>
      i < 10 && (IsoVal(c) % 11 == IsoVal(s[i]) % 11
                 || (Residual(s) == 0 && Residual(s[i := c]) == 10)
                 || (Residual(s) == 10 && Residual(s[i := c]) == 0))
  {
    LegalSubstitution(s, i, c);
    ChecksByRemainder(s);
    ChecksByRemainder(s[i := c]);
    if i < 10 {
      RemainderAfterSubstitution(s, i, c);
    } else {
      CheckDigitSubstitution(s, c);
    }
  }

  function Swapped(s: string, i: nat): string
    requires i + 1 < |s|
  {
    s[i := s[i + 1]][i + 1 := s[i]]
  }

  lemma SwappedBody(s: string, i: nat)
    requires InIsoAlphabet(s) && 4 <= i < 10
    ensures var t := Swapped(s, i);
            InIsoAlphabet(t) && Residual(t) == Body(t) % 11 && Residual(s) == Body(s) % 11
    ensures Body(Swapped(s, i)) == Body(s) + (Weighted(s[i + 1], i) - Weighted(s[i], i))
              + if i < 9 then Weighted(s[i], i + 1) - Weighted(s[i + 1], i + 1) else 0
  {
    var t := s[i := s[i + 1]];
    LegalSubstitution(s, i, s[i + 1]);
    LegalSubstitution(t, i + 1, s[i]);
    TableResidual(s);
    TableResidual(Swapped(s, i));
    BodyAfterSubstitution(s, i, s[i + 1]);
    BodyAfterSubstitution(t, i + 1, s[i]);
  }

  /** The strict check sees every swap of two different adjacent digits, the last of
      which may be the check digit itself. */
  lemma StrictSeesSwaps(s: string, i: nat)
    requires Strict(s) && 4 <= i < 10 && s[i] != s[i + 1]
    ensures !Strict(Swapped(s, i))
  {
    hide Residual, Body;
    var a, b, t := s[i], s[i + 1], Swapped(s, i);
    SwappedBody(s, i);
    assert ISO_ALPHA[i] == ISO_ALPHA[i + 1] == DIGITS;
    DigitsDiffer(a, b);
    if i < 9 {
      var x := Weighted(a, i) - Weighted(b, i);
      assert Body(t) == Body(s) + x by {
        SwappedSum(IsoVal(a), IsoVal(b), i);
      }
      assert x % 11 != 0 by {
        WeightIsInvertible(IsoVal(a), IsoVal(b), i);
      }
      SameRemainder(Body(s), Body(t), x);
    } else {
      assert Pow2(9) == 512;
      CheckDigitSwap(IsoVal(a), IsoVal(b), Body(s), Body(t));
    }
  }

  lemma SwappedSum(a: int, b: int, i: nat)
    ensures b * Pow2(i) - a * Pow2(i) + (a * Pow2(i + 1) - b * Pow2(i + 1)) == a * Pow2(i) - b * Pow2(i)
  {
    MoveFactor(a, Pow2(i));
    MoveFactor(b, Pow2(i));
  }

  /** Swapping the last serial digit with the check digit: the weight 512 is 6 modulo 11. */
  lemma CheckDigitSwap(a: int, b: int, before: int, after: int)
    requires 0 <= a < 10 && 0 <= b < 10 && a != b
    requires before % 11 == b && after == before + b * 512 - a * 512
    ensures after % 11 != a
  {
  }
}
