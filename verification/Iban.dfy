/** IBAN (ISO 13616-1, ISO/IEC 7064 MOD 97-10): the big-integer reference check, the
    per-position residue table, their agreement, and what the check detects. */
module Iban {
  import opened Common
  import opened Sums

  predicate IsAlnum(c: char) { IsDigit(c) || IsLetter(c) }

  /** A letter counts 10 more than its place after 'A', a digit itself. */
  function Val(c: char): int {
    if IsLetter(c) then c as int - 55 else c as int - '0' as int
  }

  /** The decimal digits a character contributes: two for a letter, else one. */
  function Width(c: char): nat {
    if IsLetter(c) then 2 else 1
  }

  function Pow10(e: nat): nat {
    if e == 0 then 1 else 10 * Pow10(e - 1)
  }

  // ------------------------------------------------------------ the reference

  /** The decimal digits of the expanded string. */
  function Digits(r: string): seq<int> {
    if |r| == 0 then [] else
    Digits(r[..|r| - 1]) +
      (var c := r[|r| - 1]; if IsLetter(c) then [Val(c) / 10, Val(c) % 10] else [Val(c)])
  }

  /** The integer those digits spell. */
  function IntOf(ds: seq<int>): int {
    if |ds| == 0 then 0 else IntOf(ds[..|ds| - 1]) * 10 + ds[|ds| - 1]
  }

  function WithoutSpaces(s: string): string {
    if |s| == 0 then [] else
    WithoutSpaces(s[..|s| - 1]) + (if s[|s| - 1] == ' ' then [] else [s[|s| - 1]])
  }

  const COUNTRY_LENGTH: map<string, nat> := map[
    "GB" := 22, "DE" := 22, "FR" := 27, "NL" := 18, "ES" := 24,
    "IT" := 27, "CH" := 21, "BE" := 16, "AT" := 20, "PL" := 28]

  const MAX_LENGTH := 34   // the longest IBAN ISO 13616-1 admits

  function Prefix(s: string, n: nat): string {
    if |s| < n then s else s[..n]
  }

  /** The first four characters moved to the end. */
  function Rearranged(s: string): string {
    if |s| < 4 then s else s[4..] + s[..4]
  }

  /** The big integer modulo 97. */
  function Remainder(s: string): int {
    IntOf(Digits(Rearranged(s))) % 97
  }

  /** The country code is listed, with a length other than this string's. */
  predicate ListedElsewhere(s: string) {
    Prefix(s, 2) in COUNTRY_LENGTH && COUNTRY_LENGTH[Prefix(s, 2)] != |s|
  }

  /** `iban_ok` once the spaces are gone. */
  predicate CompactOk(s: string) {
    && !ListedElsewhere(s)
    && |s| > 0 && (forall i :: 0 <= i < |s| ==> IsAlnum(s[i]))
    && Remainder(s) == 1
  }

  predicate IbanOk(s: string) {
    CompactOk(WithoutSpaces(s))
  }

  lemma {:induction false} SpacesOfConcat(a: string, b: string)
    ensures WithoutSpaces(a + b) == WithoutSpaces(a) + WithoutSpaces(b)
  {
    if |b| == 0 {
      assert a + b == a;
    } else {
      assert (a + b)[..|a + b| - 1] == a + b[..|b| - 1];
      SpacesOfConcat(a, b[..|b| - 1]);
    }
  }

  /** Spaces do not count, wherever they stand; every other character does. */
  lemma SpacesDoNotCount(a: string, c: char, b: string)
    ensures WithoutSpaces(a + [c] + b) == WithoutSpaces(a) + (if c == ' ' then [] else [c]) + WithoutSpaces(b)
    ensures c == ' ' ==> (IbanOk(a + [c] + b) <==> IbanOk(a + b))
  {
    SpacesOfConcat(a + [c], b);
    SpacesOfConcat(a, [c]);
    SpacesOfConcat(a, b);
    assert [c][..0] == [];
    hide CompactOk;
    if c == ' ' {
      assert WithoutSpaces(a + [c] + b) == WithoutSpaces(a + b);
    }
  }

  // ------------------------------------------------------------ weighted sums

  function TotalWidth(r: string): nat {
    if |r| == 0 then 0 else TotalWidth(r[..|r| - 1]) + Width(r[|r| - 1])
  }

  lemma {:induction false} WidthOfConcat(a: string, b: string)
    ensures TotalWidth(a + b) == TotalWidth(a) + TotalWidth(b)
  {
    if |b| == 0 {
      assert a + b == a;
    } else {
      assert (a + b)[..|a + b| - 1] == a + b[..|b| - 1];
      WidthOfConcat(a, b[..|b| - 1]);
    }
  }

  /** The value of a string: each character shifted left past what follows it. */
  function Value(r: string): int {
    if |r| == 0 then 0 else Value(r[..|r| - 1]) * Pow10(Width(r[|r| - 1])) + Val(r[|r| - 1])
  }

  lemma {:induction false} ValueIsTheInteger(r: string)
    ensures Value(r) == IntOf(Digits(r))
  {
    if |r| > 0 {
      var p, c := r[..|r| - 1], r[|r| - 1];
      ValueIsTheInteger(p);
      if IsLetter(c) {
        TwoDigits(Digits(p), Val(c));
      } else {
        OneDigit(Digits(p), Val(c));
      }
      SmallPowers(Width(c));
    }
  }

  lemma SmallPowers(w: nat)
    requires w == 1 || w == 2
    ensures Pow10(w) == if w == 1 then 10 else 100
  {
    assert Pow10(1) == 10;
  }

  lemma OneDigit(ds: seq<int>, v: int)
    ensures IntOf(ds + [v]) == IntOf(ds) * 10 + v
  {
    assert (ds + [v])[..|ds|] == ds;
  }

  lemma TwoDigits(ds: seq<int>, v: int)
    ensures IntOf(ds + [v / 10, v % 10]) == IntOf(ds) * 100 + v
  {
    var e := ds + [v / 10, v % 10];
    assert e[..|e| - 1] == ds + [v / 10];
    assert (ds + [v / 10])[..|ds|] == ds;
  }

  lemma {:induction false} PowAdds(a: nat, b: nat)
    ensures Pow10(a + b) == Pow10(a) * Pow10(b)
  {
    if a > 0 {
      PowAdds(a - 1, b);
      assert Pow10(a + b) == 10 * Pow10(a - 1 + b);
      TenTimes(Pow10(a - 1), Pow10(b));
    }
  }

  lemma TenTimes(p: int, q: int)
    ensures (10 * p) * q == 10 * (p * q)
  {
  }

  lemma {:induction false} ValueOfConcat(a: string, b: string)
    ensures Value(a + b) == Value(a) * Pow10(TotalWidth(b)) + Value(b)
  {
    if |b| == 0 {
      assert a + b == a;
    } else {
      var p, c := b[..|b| - 1], b[|b| - 1];
      assert (a + b)[..|a + b| - 1] == a + p;
      ValueOfConcat(a, p);
      PowAdds(TotalWidth(p), Width(c));
      ShiftTwice(Value(a), Pow10(TotalWidth(p)), Value(p), Pow10(Width(c)));
    }
  }

  lemma ShiftTwice(x: int, p: int, y: int, q: int)
    ensures (x * p + y) * q == x * (p * q) + y * q
  {
  }

  /** One more character of a remainder computed from left to right. */
  lemma PrefixRemainder(r: string, k: nat, m: int)
    requires k < |r| && Value(r[..k]) % 97 == m
    ensures Value(r[..k + 1]) % 97 == (if IsLetter(r[k]) then 100 * m + Val(r[k]) else 10 * m + Val(r[k])) % 97
  {
    assert r[..k + 1][..k] == r[..k];
    SmallPowers(Width(r[k]));
    var q := Value(r[..k]) / 97;
    AddMultiple97(100 * m + Val(r[k]), 100 * q);
    AddMultiple97(10 * m + Val(r[k]), 10 * q);
  }

  const EXAMPLE := "GB82WEST12345698765432"
  const EXAMPLE_REARRANGED := "WEST12345698765432GB82"

  lemma ExampleTo4()
    requires Value(EXAMPLE_REARRANGED[..0]) % 97 == 0
    ensures Value(EXAMPLE_REARRANGED[..4]) % 97 == 36
  {
    hide Value;
    PrefixRemainder(EXAMPLE_REARRANGED, 0, 0);
    PrefixRemainder(EXAMPLE_REARRANGED, 1, 32);
    PrefixRemainder(EXAMPLE_REARRANGED, 2, 13);
    PrefixRemainder(EXAMPLE_REARRANGED, 3, 67);
  }

  lemma ExampleTo8()
    requires Value(EXAMPLE_REARRANGED[..4]) % 97 == 36
    ensures Value(EXAMPLE_REARRANGED[..8]) % 97 == 6
  {
    hide Value;
    PrefixRemainder(EXAMPLE_REARRANGED, 4, 36);
    PrefixRemainder(EXAMPLE_REARRANGED, 5, 70);
    PrefixRemainder(EXAMPLE_REARRANGED, 6, 23);
    PrefixRemainder(EXAMPLE_REARRANGED, 7, 39);
  }

  lemma ExampleTo12()
    requires Value(EXAMPLE_REARRANGED[..8]) % 97 == 6
    ensures Value(EXAMPLE_REARRANGED[..12]) % 97 == 29
  {
    hide Value;
    PrefixRemainder(EXAMPLE_REARRANGED, 8, 6);
    PrefixRemainder(EXAMPLE_REARRANGED, 9, 65);
    PrefixRemainder(EXAMPLE_REARRANGED, 10, 74);
    PrefixRemainder(EXAMPLE_REARRANGED, 11, 70);
  }

  lemma ExampleTo16()
    requires Value(EXAMPLE_REARRANGED[..12]) % 97 == 29
    ensures Value(EXAMPLE_REARRANGED[..16]) % 97 == 58
  {
    hide Value;
    PrefixRemainder(EXAMPLE_REARRANGED, 12, 29);
    PrefixRemainder(EXAMPLE_REARRANGED, 13, 6);
    PrefixRemainder(EXAMPLE_REARRANGED, 14, 66);
    PrefixRemainder(EXAMPLE_REARRANGED, 15, 83);
  }

  lemma ExampleTo19()
    requires Value(EXAMPLE_REARRANGED[..16]) % 97 == 58
    ensures Value(EXAMPLE_REARRANGED[..19]) % 97 == 52
  {
    hide Value;
    PrefixRemainder(EXAMPLE_REARRANGED, 16, 58);
    PrefixRemainder(EXAMPLE_REARRANGED, 17, 1);
    PrefixRemainder(EXAMPLE_REARRANGED, 18, 12);
  }

  lemma ExampleTo22()
    requires Value(EXAMPLE_REARRANGED[..19]) % 97 == 52
    ensures Value(EXAMPLE_REARRANGED[..22]) % 97 == 1
  {
    hide Value;
    PrefixRemainder(EXAMPLE_REARRANGED, 19, 52);
    PrefixRemainder(EXAMPLE_REARRANGED, 20, 70);
    PrefixRemainder(EXAMPLE_REARRANGED, 21, 29);
  }

  lemma ExampleRemainder()
    ensures IntOf(Digits(EXAMPLE_REARRANGED)) % 97 == 1
  {
    NothingIsZero();
    hide Value;
    assert EXAMPLE_REARRANGED[..0] == [];
    ExampleTo4();
    ExampleTo8();
    ExampleTo12();
    ExampleTo16();
    ExampleTo19();
    ExampleTo22();
    assert EXAMPLE_REARRANGED[..22] == EXAMPLE_REARRANGED;
    ValueIsTheInteger(EXAMPLE_REARRANGED);
  }

  lemma ExampleRearranges()
    ensures Rearranged(EXAMPLE) == EXAMPLE_REARRANGED && Prefix(EXAMPLE, 2) == "GB" && |EXAMPLE| == 22
  {
  }

  lemma ExampleIsAlnum()
    ensures forall i :: 0 <= i < |EXAMPLE| ==> IsAlnum(EXAMPLE[i])
  {
  }

  lemma AlnumIsCompact(s: string)
    requires forall i :: 0 <= i < |s| ==> IsAlnum(s[i])
    ensures WithoutSpaces(s) == s
  {
    NoSpacesToDrop(s);
  }

  /** A well-known example for Great Britain is an IBAN. */
  lemma ExampleIsIban()
    ensures IbanOk("GB82WEST12345698765432")
  {
    ExampleRemainder();
    ExampleRearranges();
    ExampleIsAlnum();
    assert EXAMPLE == "GB82WEST12345698765432";
    hide EXAMPLE, EXAMPLE_REARRANGED, Rearranged, WithoutSpaces, IntOf, Digits, Prefix, IsAlnum;
    AlnumIsCompact(EXAMPLE);
    assert !ListedElsewhere(EXAMPLE);
    assert CompactOk(EXAMPLE);
  }

  lemma NothingIsZero()
    ensures Value([]) == 0
  {
  }

  // ------------------------------------------------------------ detection

  /** 68 is the inverse of 10 modulo 97. */
  lemma TenIsInvertible(x: int)
    ensures 10 * x % 97 == 0 <==> x % 97 == 0
  {
    if 10 * x % 97 == 0 {
      var q := 10 * x / 97;
      assert x == 97 * (68 * q - 7 * x);
      AddMultiple97(0, 68 * q - 7 * x);
    } else if x % 97 == 0 {
      AddMultiple97(0, 10 * (x / 97));
    }
  }

  lemma {:induction false} WeightIsInvertible(x: int, e: nat)
    ensures x * Pow10(e) % 97 == 0 <==> x % 97 == 0
  {
    if e > 0 {
      WeightIsInvertible(x, e - 1);
      TenTimesRight(x, Pow10(e - 1));
      TenIsInvertible(x * Pow10(e - 1));
    }
  }

  lemma TenTimesRight(x: int, p: int)
    ensures x * (10 * p) == 10 * (x * p)
  {
  }

  lemma ValueOfChar(c: char)
    ensures Value([c]) == Val(c) && TotalWidth([c]) == Width(c)
  {
    assert [c][..0] == [];
  }

  /** A character in the middle weighs as much as what follows it is wide. */
  lemma ValueAround(p: string, c: char, q: string)
    ensures Value(p + [c] + q) == (Value(p) * Pow10(Width(c)) + Val(c)) * Pow10(TotalWidth(q)) + Value(q)
  {
    ValueOfConcat(p + [c], q);
    ValueOfConcat(p, [c]);
    ValueOfChar(c);
  }

  lemma Difference(x: int, v: int, w: int, p: int)
    ensures (x + w) * p - (x + v) * p == (w - v) * p
  {
  }

  predicate SameKind(a: char, b: char) {
    (IsDigit(a) && IsDigit(b)) || (IsLetter(a) && IsLetter(b))
  }

  lemma KindRange(a: char, b: char)
    requires SameKind(a, b)
    ensures Width(a) == Width(b)
    ensures -57 <= Val(a) - Val(b) <= 57 && (Val(a) == Val(b) ==> a == b)
    ensures IsDigit(a) ==> -9 <= Val(a) - Val(b) <= 9
  {
  }

  lemma NotCongruent(before: int, after: int, x: int, e: nat)
    requires after - before == x * Pow10(e) && x % 97 != 0
    ensures after % 97 != before % 97
  {
    WeightIsInvertible(x, e);
    SameRemainder(before, after);
  }

  lemma SameRemainder(a: int, b: int)
    ensures a % 97 == b % 97 ==> (b - a) % 97 == 0
  {
    AddMultiple97(b % 97 - a % 97, b / 97 - a / 97);
  }

  lemma SubstitutionChangesRemainder(p: string, a: char, b: char, q: string)
    requires SameKind(a, b) && a != b
    ensures Value(p + [b] + q) % 97 != Value(p + [a] + q) % 97
  {
    KindRange(a, b);
    ValueAround(p, a, q);
    ValueAround(p, b, q);
    Difference(Value(p) * Pow10(Width(a)), Val(a), Val(b), Pow10(TotalWidth(q)));
    NotCongruent(Value(p + [a] + q), Value(p + [b] + q), Val(b) - Val(a), TotalWidth(q));
  }

  lemma ValueOfPairAlone(p: string, a: char, b: char)
    ensures Value(p + [a, b]) == (Value(p) * Pow10(Width(a)) + Val(a)) * Pow10(Width(b)) + Val(b)
  {
    assert p + [a, b] == p + [a] + [b];
    ValueAround(p, a, [b]);
    ValueOfChar(b);
  }

  lemma ValueOfPair(p: string, a: char, b: char, q: string)
    ensures Value(p + [a, b] + q) ==
      ((Value(p) * Pow10(Width(a)) + Val(a)) * Pow10(Width(b)) + Val(b)) * Pow10(TotalWidth(q)) + Value(q)
  {
    hide Val, Width, Pow10, TotalWidth, Value;
    assert p + [a, b] == p + [a] + [b];
    ValueOfConcat(p + [a, b], q);
    ValueOfPairAlone(p, a, b);
  }

  /** Two neighbours of the same kind: the weights differ by 9 or by 99, neither of
      which is a multiple of 97, and no difference of values is one either. */
  lemma SwapChangesRemainder(p: string, a: char, b: char, q: string)
    requires SameKind(a, b) && a != b
    ensures Value(p + [b, a] + q) % 97 != Value(p + [a, b] + q) % 97
  {
    KindRange(a, b);
    ValueOfPair(p, a, b, q);
    ValueOfPair(p, b, a, q);
    SmallPowers(Width(a));
    var w, x := Pow10(Width(a)), Value(p) * Pow10(Width(a));
    PairDifference(x, Val(a), Val(b), w, Pow10(TotalWidth(q)));
    var d := (Val(b) - Val(a)) * (w - 1);
    assert d % 97 != 0 by {
      NineOrNinetyNine(Val(b) - Val(a), w);
    }
    NotCongruent(Value(p + [a, b] + q), Value(p + [b, a] + q), d, TotalWidth(q));
  }

  lemma PairDifference(x: int, a: int, b: int, w: int, p: int)
    ensures ((x + b) * w + a) * p - ((x + a) * w + b) * p == ((b - a) * (w - 1)) * p
  {
    assert ((x + b) * w + a) - ((x + a) * w + b) == (b - a) * (w - 1);
    Difference(0, (x + a) * w + b, (x + b) * w + a, p);
  }

  lemma NineOrNinetyNine(d: int, w: int)
    requires d != 0 && (w == 10 || w == 100) && -57 <= d <= 57
    requires w == 10 ==> -9 <= d <= 9
    ensures d * (w - 1) % 97 != 0
  {
    if w == 100 {
      assert d * (w - 1) == 2 * d + 97 * d;
      AddMultiple97(2 * d, d);
      assert 2 * d % 97 != 0;
    }
  }

  /** Where position `i` of a string of length `n` goes when it is rearranged. */
  function Place(n: nat, i: nat): int {
    if n < 4 then i else if i < 4 then n - 4 + i else i - 4
  }

  function Source(n: nat, k: nat): int {
    if n < 4 then k else if k < n - 4 then k + 4 else k - (n - 4)
  }

  lemma RearrangedAt(s: string, k: nat)
    requires k < |s|
    ensures |Rearranged(s)| == |s| && 0 <= Source(|s|, k) < |s|
    ensures Rearranged(s)[k] == s[Source(|s|, k)] && Place(|s|, Source(|s|, k)) == k
  {
  }

  lemma RearrangedUpdate(s: string, i: nat, c: char)
    requires i < |s|
    ensures 0 <= Place(|s|, i) < |s| == |Rearranged(s)| && Rearranged(s)[Place(|s|, i)] == s[i]
    ensures Rearranged(s[i := c]) == Rearranged(s)[Place(|s|, i) := c]
  {
    var r, t := Rearranged(s)[Place(|s|, i) := c], s[i := c];
    forall k | 0 <= k < |s| ensures Rearranged(t)[k] == r[k] {
      RearrangedAt(s, k);
      RearrangedAt(t, k);
    }
    assert |Rearranged(t)| == |r|;
  }

  lemma SplitAt(r: string, k: nat, c: char)
    requires k < |r|
    ensures r == r[..k] + [r[k]] + r[k + 1..]
    ensures r[k := c] == r[..k] + [c] + r[k + 1..]
  {
  }

  lemma SplitPair(r: string, k: nat)
    requires k + 1 < |r|
    ensures r == r[..k] + [r[k], r[k + 1]] + r[k + 2..]
    ensures r[k := r[k + 1]][k + 1 := r[k]] == r[..k] + [r[k + 1], r[k]] + r[k + 2..]
  {
  }

  lemma RearrangedPair(s: string, i: nat) returns (p: string, q: string)
    requires i + 1 < |s| && i != 3
    ensures Rearranged(s) == p + [s[i], s[i + 1]] + q
    ensures Rearranged(s[i := s[i + 1]][i + 1 := s[i]]) == p + [s[i + 1], s[i]] + q
  {
    var r, k := Rearranged(s), Place(|s|, i);
    RearrangedUpdate(s, i, s[i + 1]);
    RearrangedUpdate(s[i := s[i + 1]], i + 1, s[i]);
    RearrangedUpdate(s, i + 1, s[i + 1]);
    SplitPair(r, k);
    p, q := r[..k], r[k + 2..];
  }

  lemma {:induction false} NoSpacesToDrop(s: string)
    requires forall i :: 0 <= i < |s| ==> s[i] != ' '
    ensures WithoutSpaces(s) == s
  {
    if |s| > 0 {
      NoSpacesToDrop(s[..|s| - 1]);
    }
  }

  /** Replacing one character by another of the same kind always changes the
      remainder, in a string of any country and length. */
  lemma SubstitutionChangesCheck(s: string, i: nat, c: char)
    requires i < |s| && SameKind(s[i], c) && c != s[i]
    ensures Remainder(s[i := c]) != Remainder(s)
  {
    RearrangedUpdate(s, i, c);
    var r, k := Rearranged(s), Place(|s|, i);
    SplitAt(r, k, c);
    SubstitutionChangesRemainder(r[..k], s[i], c, r[k + 1..]);
    ValueIsTheInteger(r);
    ValueIsTheInteger(Rearranged(s[i := c]));
  }

  /** So does swapping two different neighbours of the same kind, except across the
      point at which the string is cut for rearrangement. */
  lemma SwapChangesCheck(s: string, i: nat)
    requires i + 1 < |s| && i != 3 && SameKind(s[i], s[i + 1]) && s[i] != s[i + 1]
    ensures Remainder(s[i := s[i + 1]][i + 1 := s[i]]) != Remainder(s)
  {
    var p, q := RearrangedPair(s, i);
    SwapChangesRemainder(p, s[i], s[i + 1], q);
    ValueIsTheInteger(Rearranged(s));
    ValueIsTheInteger(Rearranged(s[i := s[i + 1]][i + 1 := s[i]]));
  }

  // ------------------------------------------------------------ across the cut

  lemma NoSmallDivisor(d: int, q: int)
    requires 2 <= d <= 9
    ensures d * q != 97
  {
    assert d == 2 || d == 3 || d == 4 || d == 5 || d == 6 || d == 7 || d == 8 || d == 9;
  }

  lemma NinetySevenIsPrime(d: nat)
    requires 2 <= d <= 96
    ensures 97 % d != 0
  {
    if d <= 9 {
      NoSmallDivisor(d, 97 / d);
    } else {
      var q := 97 / d;
      assert q * d <= 97;
      assert q < 10;
      if q >= 2 {
        NoSmallDivisor(q, d);
      }
    }
  }

  lemma DescendOnce(d: int, m: int, q: int, r: int, t: int)
    requires 97 == q * d + r && d * m == 97 * t
    ensures r * m == 97 * (m - q * t)
  {
    assert 97 * m == q * (d * m) + r * m;
  }

  /** 97 divides a product only through one of its factors. */
  lemma {:induction false} DividesOneFactor(d: nat, m: int, t: int)
    requires 1 <= d <= 96 && d * m == 97 * t
    ensures m % 97 == 0
    decreases d
  {
    if d > 1 {
      NinetySevenIsPrime(d);
      DescendOnce(d, m, 97 / d, 97 % d, t);
      DividesOneFactor(97 % d, m, m - 97 / d * t);
    }
  }

  lemma MultipleOfFactor(d: int, m: int)
    requires d % 97 != 0 && -96 <= d <= 96
    ensures d * m % 97 == 0 <==> m % 97 == 0
  {
    if d * m % 97 == 0 {
      if d > 0 {
        DividesOneFactor(d, m, d * m / 97);
      } else {
        DividesOneFactor(-d, m, -(d * m / 97));
      }
    } else if m % 97 == 0 {
      ScaledMultiple(d, m / 97);
    }
  }

  lemma ScaledMultiple(d: int, t: int)
    ensures d * (97 * t) % 97 == 0
  {
    assert d * (97 * t) == 97 * (d * t);
    AddMultiple97(0, d * t);
  }

  lemma Ends(x: int, y: int, a: int, b: int, v: int)
    ensures ((b * x + v) * y + a) - ((a * x + v) * y + b) == (b - a) * (x * y - 1)
  {
  }

  lemma ValueOfEnds(a: char, mid: string, b: char)
    ensures Value([a] + mid + [b]) == (Val(a) * Pow10(TotalWidth(mid)) + Value(mid)) * Pow10(Width(b)) + Val(b)
  {
    assert ([a] + mid + [b])[..|mid| + 1] == [a] + mid;
    ValueOfConcat([a], mid);
    ValueOfChar(a);
  }

  /** Swapping the first and the last character of the rearranged string goes unnoticed
      exactly when the digits after the first are a whole number of periods of 1/97. */
  lemma EndsSwapped(a: char, mid: string, b: char)
    requires SameKind(a, b) && a != b
    ensures Value([b] + mid + [a]) % 97 == Value([a] + mid + [b]) % 97 <==>
      (Pow10(TotalWidth(mid) + Width(a)) - 1) % 97 == 0
  {
    KindRange(a, b);
    ValueOfEnds(a, mid, b);
    ValueOfEnds(b, mid, a);
    PowAdds(TotalWidth(mid), Width(a));
    var x: int, y: int, d: int := Pow10(TotalWidth(mid)), Pow10(Width(a)), Val(b) - Val(a);
    Ends(x, y, Val(a), Val(b), Value(mid));
    MultipleOfFactor(d, x * y - 1);
    SameRemainderExactly(Value([a] + mid + [b]), Value([b] + mid + [a]), d * (x * y - 1));
  }

  lemma SameRemainderExactly(before: int, after: int, x: int)
    requires after - before == x
    ensures after % 97 == before % 97 <==> x % 97 == 0
  {
  }

  /** Each ten times the one before, modulo 97, and none after the first is one. */
  ghost predicate TimesTen(xs: seq<int>) {
    forall i :: 0 < i < |xs| ==> xs[i] == xs[i - 1] * 10 % 97 && xs[i] != 1
  }

  lemma {:induction false} PowersFrom(e: nat, xs: seq<int>, k: nat)
    requires k < |xs| && Pow10(e) % 97 == xs[0] && TimesTen(xs)
    ensures Pow10(e + k) % 97 == xs[k]
  {
    if k > 0 {
      PowersFrom(e, xs, k - 1);
      AddMultiple97(xs[k - 1] * 10, Pow10(e + k - 1) / 97 * 10);
    }
  }

  ghost predicate Tenfold(x: int, y: int) { y == x * 10 % 97 && y != 1 }

  ghost predicate ElevenSteps(x: seq<int>) {
    && |x| == 12
    && Tenfold(x[0], x[1]) && Tenfold(x[1], x[2]) && Tenfold(x[2], x[3]) && Tenfold(x[3], x[4])
    && Tenfold(x[4], x[5]) && Tenfold(x[5], x[6]) && Tenfold(x[6], x[7]) && Tenfold(x[7], x[8])
    && Tenfold(x[8], x[9]) && Tenfold(x[9], x[10]) && Tenfold(x[10], x[11])
  }

  lemma Leg(e: nat, xs: seq<int>)
    requires ElevenSteps(xs) && Pow10(e) % 97 == xs[0]
    ensures Pow10(e + 11) % 97 == xs[11]
    ensures forall f :: e < f <= e + 11 ==> Pow10(f) % 97 != 1
  {
    PowersFrom(e, xs, 11);
    forall f | e < f <= e + 11 ensures Pow10(f) % 97 != 1 {
      PowersFrom(e, xs, f - e);
    }
  }

  /** The period of ten modulo 97 is longer than 66. */
  lemma LongPeriod(e: nat)
    requires 1 <= e <= 66
    ensures Pow10(e) % 97 != 1
  {
    ZerothPower();
    hide Pow10;
    Leg(0, [1, 10, 3, 30, 9, 90, 27, 76, 81, 34, 49, 5]);
    Leg(11, [5, 50, 15, 53, 45, 62, 38, 89, 17, 73, 51, 25]);
    Leg(22, [25, 56, 75, 71, 31, 19, 93, 57, 85, 74, 61, 28]);
    Leg(33, [28, 86, 84, 64, 58, 95, 77, 91, 37, 79, 14, 43]);
    Leg(44, [43, 42, 32, 29, 96, 87, 94, 67, 88, 7, 70, 21]);
    Leg(55, [21, 16, 63, 48, 92, 47, 82, 44, 52, 35, 59, 8]);
  }

  lemma ZerothPower()
    ensures Pow10(0) % 97 == 1
  {
  }

  lemma {:induction false} WidthBound(s: string)
    ensures |s| <= TotalWidth(s) <= 2 * |s|
  {
    if |s| > 0 {
      WidthBound(s[..|s| - 1]);
    }
  }

  /** No string of up to 34 characters, the longest an IBAN may be, is that wide. */
  lemma ShortOfAPeriod(mid: string, a: char)
    requires |mid| <= 32
    ensures (Pow10(TotalWidth(mid) + Width(a)) - 1) % 97 != 0
  {
    var e := TotalWidth(mid) + Width(a);
    WidthBound(mid);
    LongPeriod(e);
    SameRemainderExactly(1, Pow10(e), Pow10(e) - 1);
  }

  /** The swap across the cut, of the third and fourth characters counted from zero. */
  lemma CutSwapChangesCheck(s: string)
    requires |s| > 4 && SameKind(s[3], s[4]) && s[3] != s[4]
    ensures Remainder(s[3 := s[4]][4 := s[3]]) == Remainder(s) <==>
      (Pow10(TotalWidth(s[5..] + s[..3]) + Width(s[3])) - 1) % 97 == 0
    ensures |s| <= MAX_LENGTH ==> Remainder(s[3 := s[4]][4 := s[3]]) != Remainder(s)
  {
    hide Pow10, TotalWidth, Value, Width;
    var mid, t := s[5..] + s[..3], s[3 := s[4]][4 := s[3]];
    assert Rearranged(s) == [s[4]] + mid + [s[3]];
    assert Rearranged(t) == [s[3]] + mid + [s[4]];
    KindRange(s[4], s[3]);
    EndsSwapped(s[4], mid, s[3]);
    ValueIsTheInteger(Rearranged(s));
    ValueIsTheInteger(Rearranged(t));
    if |s| <= MAX_LENGTH {
      ShortOfAPeriod(mid, s[3]);
    }
  }

  lemma OtherRemainderRefused(s: string)
    requires (forall i :: 0 <= i < |s| ==> s[i] != ' ') && Remainder(s) != 1
    ensures !IbanOk(s)
  {
    NoSpacesToDrop(s);
  }

  /** Hence the reference refuses every such error in a valid IBAN. */
  lemma ErrorsRefused(s: string, i: nat, c: char)
    requires CompactOk(s) && i < |s|
    ensures SameKind(s[i], c) && c != s[i] ==> !IbanOk(s[i := c])
    ensures i + 1 < |s| && (i != 3 || |s| <= MAX_LENGTH) && SameKind(s[i], s[i + 1]) && s[i] != s[i + 1] ==>
      !IbanOk(s[i := s[i + 1]][i + 1 := s[i]])
  {
    hide Remainder, ListedElsewhere, IbanOk;
    if SameKind(s[i], c) && c != s[i] {
      SubstitutionChangesCheck(s, i, c);
      OtherRemainderRefused(s[i := c]);
    }
    if i + 1 < |s| && (i != 3 || |s| <= MAX_LENGTH) && SameKind(s[i], s[i + 1]) && s[i] != s[i + 1] {
      if i == 3 {
        CutSwapChangesCheck(s);
      } else {
        SwapChangesCheck(s, i);
      }
      OtherRemainderRefused(s[i := s[i + 1]][i + 1 := s[i]]);
    }
  }

  // ------------------------------------------------------------ the residue table

  /** Each character times the weight of what follows it. */
  function Terms(r: string): (t: seq<int>)
    ensures |t| == |r|
  {
    seq(|r|, k requires 0 <= k < |r| => Val(r[k]) * Pow10(TotalWidth(r[k + 1..])))
  }

  lemma FirstTerm(r: string)
    requires |r| > 0
    ensures Terms(r) == [Val(r[0]) * Pow10(TotalWidth(r[1..]))] + Terms(r[1..])
  {
    hide Val, Pow10, TotalWidth;
    forall k | 0 <= k < |r| - 1 ensures Terms(r)[k + 1] == Terms(r[1..])[k] {
      assert r[1..][k + 1..] == r[k + 2..];
    }
  }

  lemma {:induction false} ValueIsSumOfTerms(r: string)
    ensures Value(r) == Sum(Terms(r))
  {
    if |r| > 0 {
      ValueIsSumOfTerms(r[1..]);
      FirstTerm(r);
      assert r == [r[0]] + r[1..];
      ValueOfConcat([r[0]], r[1..]);
      ValueOfChar(r[0]);
      var first := [Val(r[0]) * Pow10(TotalWidth(r[1..]))];
      SumOfConcat(first, Terms(r[1..]));
      assert first[..0] == [];
    }
  }

  lemma SumOfRotation(t: seq<int>, k: nat)
    requires k <= |t|
    ensures Sum(t[k..] + t[..k]) == Sum(t)
  {
    SumOfConcat(t[k..], t[..k]);
    SumOfConcat(t[..k], t[k..]);
    assert t[..k] + t[k..] == t;
  }

  const IBAN_GB_PATTERN := "LLDDLLLLDDDDDDDDDDDDDD"

  /** `alphas` holds letters where the pattern says L, and digits elsewhere. */
  ghost predicate Matches(pattern: string, alphas: seq<string>) {
    && |alphas| == |pattern| >= 4
    && forall i :: 0 <= i < |pattern| ==> OneClass(alphas[i], pattern[i] == 'L')
  }

  ghost predicate Fits(s: string, alphas: seq<string>) {
    |s| == |alphas| && forall i :: 0 <= i < |s| ==> s[i] in alphas[i]
  }

  function PatternWidth(p: char): nat {
    if p == 'L' then 2 else 1
  }

  function Widths(pattern: string): (w: nat) {
    if |pattern| == 0 then 0 else Widths(pattern[..|pattern| - 1]) + PatternWidth(pattern[|pattern| - 1])
  }

  lemma {:induction false} WidthsOfConcat(a: string, b: string)
    ensures Widths(a + b) == Widths(a) + Widths(b)
  {
    if |b| == 0 {
      assert a + b == a;
    } else {
      assert (a + b)[..|a + b| - 1] == a + b[..|b| - 1];
      WidthsOfConcat(a, b[..|b| - 1]);
    }
  }

  /** Digits to the right of position `i` in the rearranged string. */
  function Exponent(pattern: string, i: nat): nat
    requires i < |pattern| && |pattern| >= 4
  {
    Widths(Rearranged(pattern)[Place(|pattern|, i) + 1..])
  }

  /** `v` followed by `e` zeros. */
  function Shifted(v: int, e: nat): int {
    if e == 0 then v else 10 * Shifted(v, e - 1)
  }

  lemma {:induction false} ShiftedIsProduct(v: int, e: nat)
    ensures Shifted(v, e) == v * Pow10(e)
  {
    if e > 0 {
      ShiftedIsProduct(v, e - 1);
      TenTimesRight(v, Pow10(e - 1));
    }
  }

  /** What a row must hold: each character's weighted value modulo 97. */
  ghost predicate IsRow(alpha: string, e: nat, row: map<char, int>) {
    forall c :: c in alpha ==> c in row && row[c] == Shifted(Val(c), e) % 97
  }

  ghost predicate IsTable(pattern: string, alphas: seq<string>, table: seq<map<char, int>>) {
    && Matches(pattern, alphas) && |table| == |pattern|
    && forall i :: 0 <= i < |pattern| ==> IsRow(alphas[i], Exponent(pattern, i), table[i])
  }

  lemma {:induction false} WidthsAgree(pattern: string, s: string)
    requires |pattern| == |s|
    requires forall i :: 0 <= i < |s| ==> (pattern[i] == 'L' <==> IsLetter(s[i]))
    ensures Widths(pattern) == TotalWidth(s)
  {
    if |s| > 0 {
      WidthsAgree(pattern[..|s| - 1], s[..|s| - 1]);
    }
  }

  lemma ExponentIsWidth(pattern: string, alphas: seq<string>, s: string, k: nat)
    requires Matches(pattern, alphas) && Fits(s, alphas) && k < |s|
    ensures 0 <= Source(|s|, k) < |s| == |Rearranged(s)|
    ensures Exponent(pattern, Source(|s|, k)) == TotalWidth(Rearranged(s)[k + 1..])
  {
    RearrangedAt(s, k);
    RearrangedAt(pattern, k);
    var rp, rs := Rearranged(pattern), Rearranged(s);
    forall j | 0 <= j < |s| ensures rp[j] == 'L' <==> IsLetter(rs[j]) {
      RearrangedAt(s, j);
      RearrangedAt(pattern, j);
      var i := Source(|s|, j);
      assert OneClass(alphas[i], pattern[i] == 'L') && s[i] in alphas[i];
    }
    WidthsAgree(rp[k + 1..], rs[k + 1..]);
  }

  function TableRow(table: seq<map<char, int>>, s: string): (t: seq<int>)
    requires |table| == |s| && forall i :: 0 <= i < |s| ==> s[i] in table[i]
    ensures |t| == |s|
  {
    seq(|s|, i requires 0 <= i < |s| => table[i][s[i]])
  }

  lemma EntryIs(alpha: string, e: nat, row: map<char, int>, c: char)
    requires IsRow(alpha, e, row) && c in alpha
    ensures c in row && row[c] == Val(c) * Pow10(e) % 97
  {
    ShiftedIsProduct(Val(c), e);
  }

  lemma TermIs(r: string, k: nat)
    requires k < |r|
    ensures Terms(r)[k] == Val(r[k]) * Pow10(TotalWidth(r[k + 1..]))
  {
  }

  lemma TermAt(pattern: string, alphas: seq<string>, table: seq<map<char, int>>, s: string, k: nat)
    requires IsTable(pattern, alphas, table) && Fits(s, alphas) && k < |s|
    ensures var i := Source(|s|, k);
            0 <= i < |s| && s[i] in table[i] && |Terms(Rearranged(s))| == |s|
            && table[i][s[i]] == Terms(Rearranged(s))[k] % 97
  {
    ExponentIsWidth(pattern, alphas, s, k);
    RearrangedAt(s, k);
    hide Exponent, TotalWidth, Rearranged, Pow10, Val, IsRow, Terms, Source;
    var i := Source(|s|, k);
    EntryIs(alphas[i], Exponent(pattern, i), table[i], s[i]);
    TermIs(Rearranged(s), k);
  }

  lemma RowIsDefined(pattern: string, alphas: seq<string>, table: seq<map<char, int>>, s: string)
    requires IsTable(pattern, alphas, table) && Fits(s, alphas)
    ensures |table| == |s| && forall i :: 0 <= i < |s| ==> s[i] in table[i]
  {
    forall i | 0 <= i < |s| ensures s[i] in table[i] {
      assert IsRow(alphas[i], Exponent(pattern, i), table[i]) && s[i] in alphas[i];
    }
  }

  /** `residual`: the table sum modulo 97 is the big integer modulo 97. */
  lemma TableResidual(pattern: string, alphas: seq<string>, table: seq<map<char, int>>, s: string)
    requires IsTable(pattern, alphas, table) && Fits(s, alphas)
    ensures |table| == |s| && forall i :: 0 <= i < |s| ==> s[i] in table[i]
    ensures Sum(TableRow(table, s)) % 97 == Remainder(s)
  {
    RowIsDefined(pattern, alphas, table, s);
    var row, t := TableRow(table, s), Terms(Rearranged(s));
    var rotated := row[4..] + row[..4];
    RearrangedAt(s, 0);
    forall k | 0 <= k < |s| ensures rotated[k] == t[k] % 97 {
      TermAt(pattern, alphas, table, s, k);
      assert rotated[k] == row[Source(|s|, k)];
    }
    SumOfResidues(97, t, rotated);
    SumOfRotation(row, 4);
    ValueIsSumOfTerms(Rearranged(s));
    ValueIsTheInteger(Rearranged(s));
  }

  lemma ReduceFactor(x: int, y: int)
    ensures x * (y % 97) % 97 == x * y % 97
  {
    var q := y / 97;
    assert x * y == x * (y % 97) + 97 * (x * q);
    AddMultiple97(x * (y % 97), x * q);
  }

  /** A letter's two digits, weighted separately, weigh as its value does. */
  lemma LetterEntry(v: int, p: int)
    ensures (v / 10 * (10 * p % 97) + v % 10 * (p % 97)) % 97 == v * p % 97
  {
    ReduceFactor(v / 10, 10 * p);
    ReduceFactor(v % 10, p);
    var a, b := v / 10 * (10 * p % 97), v % 10 * (p % 97);
    SumOfTwo(a, b, v / 10 * (10 * p), v % 10 * p);
    assert v / 10 * (10 * p) + v % 10 * p == v * p by {
      Recombine(v / 10, v % 10, p);
    }
  }

  lemma Recombine(h: int, l: int, p: int)
    ensures h * (10 * p) + l * p == (10 * h + l) * p
  {
  }

  lemma SumOfTwo(a: int, b: int, x: int, y: int)
    requires a % 97 == x % 97 && b % 97 == y % 97
    ensures (a + b) % 97 == (x + y) % 97
  {
    AddMultiple97(x + y, a / 97 - x / 97 + b / 97 - y / 97);
  }

  ghost predicate ArePowers(wj: seq<int>) {
    forall j :: 0 <= j < |wj| ==> wj[j] == Pow10(|wj| - 1 - j) % 97
  }

  method BuildPowers(n: nat) returns (wj: seq<int>)
    ensures |wj| == n && ArePowers(wj)
  {
    wj := seq(n, j requires 0 <= j < n => Pow10(n - 1 - j) % 97);
  }

  ghost predicate OneClass(alpha: string, letters: bool) {
    forall c :: c in alpha ==> if letters then IsUpper(c) else IsDigit(c)
  }

  /** The innermost loop of `_build_iban`: the entries of one position, whose first
      output digit is number `j0`. */
  method BuildRow(alpha: string, isLetter: bool, wj: seq<int>, j0: nat, ghost e: nat) returns (row: map<char, int>)
    requires OneClass(alpha, isLetter) && ArePowers(wj)
    requires j0 + (if isLetter then 2 else 1) + e == |wj|
    ensures IsRow(alpha, e, row)
  {
    row := map[];
    for k := 0 to |alpha|
      invariant forall j :: 0 <= j < k ==> alpha[j] in row && row[alpha[j]] == Shifted(Val(alpha[j]), e) % 97
    {
      var c := alpha[k];
      ShiftedIsProduct(Val(c), e);
      if IsLetter(c) {
        var v := c as int - 55;
        LetterEntry(v, Pow10(e));
        row := row[c := (v / 10 * wj[j0] + v % 10 * wj[j0 + 1]) % 97];
      } else {
        ReduceFactor(Val(c), Pow10(e));
        row := row[c := (c as int - '0' as int) * wj[j0] % 97];
      }
    }
  }

  ghost predicate StartsAt(pattern: string, i: nat, j0: nat)
    requires i < |pattern| && |pattern| >= 4
  {
    j0 + PatternWidth(pattern[i]) + Exponent(pattern, i) == Widths(pattern)
  }

  /** Where each position's digits start, in rearranged order. */
  method BuildStarts(pattern: string) returns (start: map<int, nat>)
    requires |pattern| >= 4
    ensures forall i :: 0 <= i < |pattern| ==>
      i in start && StartsAt(pattern, i, start[i])
  {
    var n := |pattern|;
    ghost var rp := Rearranged(pattern);
    start := map[];
    var j := 0;
    for k := 0 to n
      invariant j == Widths(rp[..k])
      invariant forall m :: 0 <= m < k ==> Source(n, m) in start && start[Source(n, m)] == Widths(rp[..m])
    {
      var i := Source(n, k);
      RearrangedAt(pattern, k);
      start := start[i := j];
      j := j + PatternWidth(pattern[i]);
      assert rp[..k + 1][..k] == rp[..k];
      forall m | 0 <= m < k ensures Source(n, m) != i {
      }
    }
    forall i | 0 <= i < n
      ensures i in start && StartsAt(pattern, i, start[i])
    {
      var k := Place(n, i);
      assert Source(n, k) == i;
      RearrangedAt(pattern, k);
      WidthsAt(rp, k);
      WidthsOfRearranged(pattern);
    }
  }

  lemma WidthsOfRearranged(pattern: string)
    requires |pattern| >= 4
    ensures Widths(Rearranged(pattern)) == Widths(pattern)
  {
    WidthsOfConcat(pattern[4..], pattern[..4]);
    WidthsOfConcat(pattern[..4], pattern[4..]);
    assert pattern == pattern[..4] + pattern[4..];
  }

  lemma WidthsAt(r: string, k: nat)
    requires k < |r|
    ensures Widths(r[..k]) + PatternWidth(r[k]) + Widths(r[k + 1..]) == Widths(r)
  {
    assert r == r[..k + 1] + r[k + 1..] && r[..k + 1][..k] == r[..k];
    WidthsOfConcat(r[..k + 1], r[k + 1..]);
  }

  /** The outer loop: position `i` has `es[i]` output digits to its right. */
  method BuildRows(pattern: string, alphas: seq<string>, wj: seq<int>, start: map<int, nat>, ghost es: seq<nat>)
    returns (table: seq<map<char, int>>)
    requires |alphas| == |pattern| == |es| && ArePowers(wj)
    requires forall i :: 0 <= i < |pattern| ==> OneClass(alphas[i], pattern[i] == 'L')
    requires forall i :: 0 <= i < |pattern| ==>
      i in start && start[i] + PatternWidth(pattern[i]) + es[i] == |wj|
    ensures |table| == |pattern| && forall i :: 0 <= i < |pattern| ==> IsRow(alphas[i], es[i], table[i])
  {
    table := [];
    for i := 0 to |pattern|
      invariant |table| == i
      invariant forall k :: 0 <= k < i ==> IsRow(alphas[k], es[k], table[k])
    {
      var row := BuildRow(alphas[i], pattern[i] == 'L', wj, start[i], es[i]);
      table := table + [row];
    }
  }

  /** `_build_iban`. */
  method BuildIban(pattern: string, alphas: seq<string>) returns (table: seq<map<char, int>>)
    requires Matches(pattern, alphas)
    ensures IsTable(pattern, alphas, table)
  {
    var wj := BuildPowers(Widths(pattern));
    var start := BuildStarts(pattern);
    ghost var es := seq(|pattern|, i requires 0 <= i < |pattern| => Exponent(pattern, i));
    forall i | 0 <= i < |pattern| ensures i in start && start[i] + PatternWidth(pattern[i]) + es[i] == |wj| {
      assert StartsAt(pattern, i, start[i]);
    }
    table := BuildRows(pattern, alphas, wj, start, es);
    forall i | 0 <= i < |pattern| ensures IsRow(alphas[i], Exponent(pattern, i), table[i]) {
      assert es[i] == Exponent(pattern, i);
    }
  }

  lemma GbMatches()
    ensures Matches(IBAN_GB_PATTERN, IBAN_GB_ALPHA)
  {
    forall i, c | 0 <= i < |IBAN_GB_ALPHA| && c in IBAN_GB_ALPHA[i]
      ensures if IBAN_GB_PATTERN[i] == 'L' then IsUpper(c) else IsDigit(c)
    {
      Classes(c);
    }
  }

  lemma FittingStringsAreCompact(pattern: string, alphas: seq<string>, s: string)
    requires Matches(pattern, alphas) && Fits(s, alphas)
    ensures |s| > 0 && (forall i :: 0 <= i < |s| ==> IsAlnum(s[i])) && WithoutSpaces(s) == s
  {
    forall i | 0 <= i < |s| ensures IsAlnum(s[i]) {
      assert OneClass(alphas[i], pattern[i] == 'L') && s[i] in alphas[i];
    }
    NoSpacesToDrop(s);
  }

  method Scan(s: string, alphas: seq<string>) returns (fits: bool)
    ensures fits == Fits(s, alphas)
  {
    if |s| != |alphas| {
      return false;
    }
    for i := 0 to |s|
      invariant forall j :: 0 <= j < i ==> s[j] in alphas[j]
    {
      if s[i] !in alphas[i] {
        return false;
      }
    }
    return true;
  }

  lemma TableAgrees(pattern: string, alphas: seq<string>, table: seq<map<char, int>>, s: string)
    requires IsTable(pattern, alphas, table) && Fits(s, alphas)
    ensures |table| == |s| && forall i :: 0 <= i < |s| ==> s[i] in table[i]
    ensures Sum(TableRow(table, s)) % 97 == Remainder(s)
    ensures IbanOk(s) <==> Sum(TableRow(table, s)) % 97 == 1 && !ListedElsewhere(s)
  {
    TableResidual(pattern, alphas, table, s);
    FittingStringsAreCompact(pattern, alphas, s);
  }

  /** The check over a residue table: on every string of the alphabet it agrees with
      the big-integer reference, except that the reference also refuses a country
      code listed with another length. */
  method TableOk(ghost pattern: string, alphas: seq<string>, table: seq<map<char, int>>, s: string) returns (ok: bool)
    requires IsTable(pattern, alphas, table)
    ensures ok <==> Fits(s, alphas) && Remainder(s) == 1
    ensures Fits(s, alphas) ==> (IbanOk(s) <==> ok && !ListedElsewhere(s))
  {
    var fits := Scan(s, alphas);
    if !fits {
      return false;
    }
    TableAgrees(pattern, alphas, table, s);
    ok := Sum(TableRow(table, s)) % 97 == 1;
  }

  /** `IBANGB.ok`, over the table `_build_iban` makes for the GB pattern. */
  method IbanGbOk(s: string) returns (ok: bool)
    ensures ok <==> Fits(s, IBAN_GB_ALPHA) && Remainder(s) == 1
    ensures Fits(s, IBAN_GB_ALPHA) ==> (IbanOk(s) <==> ok && !ListedElsewhere(s))
  {
    GbMatches();
    var table := BuildIban(IBAN_GB_PATTERN, IBAN_GB_ALPHA);
    ok := TableOk(IBAN_GB_PATTERN, IBAN_GB_ALPHA, table, s);
  }
}
