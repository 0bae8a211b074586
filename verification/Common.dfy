/** Vocabulary shared by every component: optional values, and the format record
    that the detector, the solver and the runner all pass around. */
module Common {
  datatype Option<+T> = None | Some(value: T)

  const DIGITS := "0123456789"
  const LETTERS := "ABCDEFGHIJKLMNOPQRSTUVWXYZ"

  predicate IsDigit(c: char) { '0' <= c <= '9' }

  predicate IsUpper(c: char) { 'A' <= c <= 'Z' }

  predicate IsLetter(c: char) { IsUpper(c) || 'a' <= c <= 'z' }

  function Upper(c: char): char {
    if 'a' <= c <= 'z' then ((c as int) - 32) as char else c
  }

  lemma Classes(c: char)
    ensures c in DIGITS <==> IsDigit(c)
    ensures c in LETTERS <==> IsUpper(c)
  {
    if IsDigit(c) {
      assert DIGITS[c as int - '0' as int] == c;
    }
    if IsUpper(c) {
      assert LETTERS[c as int - 'A' as int] == c;
    }
  }

  lemma DigitsAreNotLetters()
    ensures forall c :: c in DIGITS ==> c !in LETTERS
  {
    forall c | c in DIGITS ensures c !in LETTERS {
      Classes(c);
    }
  }

  lemma Concatenated<T>(a: seq<T>, b: seq<T>, c: seq<T>)
    ensures a + (b + c) == (a + b) + c
  {
  }

  /** An identifier format: the characters allowed at each position, in the order
      the source enumerates them, and the check the whole string must pass. */
  datatype Fmt = Fmt(name: string, alpha: seq<string>, ok: string -> bool) {
    function Length(): nat { |alpha| }
  }

  // Allowed characters per position, as the format tables enumerate them.
  const VIN_ALPHABET := "0123456789ABCDEFGHJKLMNPRSTUVWXYZ"

  function Repeat(a: string, n: nat): (r: seq<string>)
    ensures |r| == n && forall i :: 0 <= i < n ==> r[i] == a
  {
    if n == 0 then [] else Repeat(a, n - 1) + [a]
  }

  const ISO_ALPHA: seq<string> := [LETTERS, LETTERS, LETTERS, "UJZ"] + Repeat(DIGITS, 7)
  const IBAN_GB_ALPHA: seq<string> :=
    [LETTERS, LETTERS, DIGITS, DIGITS] + Repeat(LETTERS, 4) + Repeat(DIGITS, 14)
  const VIN_ALPHA: seq<string> := Repeat(VIN_ALPHABET, 17)
  const NHS_ALPHA: seq<string> := Repeat(DIGITS, 10)
  const LUHN16_ALPHA: seq<string> := Repeat(DIGITS, 16)

  /** Positions of `win` that hold a character the format does not allow there. */
  function Mismatches(alpha: seq<string>, win: string): set<int>
    requires |win| == |alpha|
  {
    set k | 0 <= k < |win| && win[k] !in alpha[k]
  }
}

/** Cardinalities of finite sets. */
module SetBounds {
  lemma {:induction false} InjectiveMapBound<X, Y>(A: set<X>, f: map<X, Y>, B: set<Y>)
    requires A <= f.Keys && forall x :: x in A ==> f[x] in B
    requires forall x, y :: x in A && y in A && x != y ==> f[x] != f[y]
    ensures |A| <= |B|
  {
    if A != {} {
      var x :| x in A;
      InjectiveMapBound(A - {x}, f, B - {f[x]});
    }
  }

  lemma Member<X>(A: set<X>) returns (x: X)
    requires A != {}
    ensures x in A
  {
    x :| x in A;
  }

  lemma InsideBound<X>(A: set<X>, B: set<X>)
    requires A <= B
    ensures |A| <= |B|
  {
    assert B == A + (B - A);
  }

  lemma DifferenceBound<X>(A: set<X>, B: set<X>)
    ensures |A - B| >= |A| - |B|
  {
    InsideBound(A * B, B);
    assert A == (A - B) + A * B;
  }

  function Below(n: nat): (r: set<int>)
    ensures forall k :: k in r <==> 0 <= k < n
    ensures |r| == n
  {
    if n == 0 then {} else Below(n - 1) + {n - 1}
  }
}

/** Finite sums of reals. */
module RealSums {
  function Sum(xs: seq<real>): real {
    if |xs| == 0 then 0.0 else Sum(xs[..|xs| - 1]) + xs[|xs| - 1]
  }
}

/** Finite sums of integers and their residues. */
module Sums {
  function Sum(xs: seq<int>): int {
    if |xs| == 0 then 0 else Sum(xs[..|xs| - 1]) + xs[|xs| - 1]
  }

  lemma {:induction false} SumAfterUpdate(xs: seq<int>, i: nat, v: int)
    requires i < |xs|
    ensures Sum(xs[i := v]) == Sum(xs) + v - xs[i]
  {
    var n := |xs| - 1;
    if i == n {
      assert xs[i := v][..n] == xs[..n];
    } else {
      assert xs[i := v][..n] == xs[..n][i := v];
      SumAfterUpdate(xs[..n], i, v);
    }
  }

  lemma {:induction false} SumOfConcat(xs: seq<int>, ys: seq<int>)
    ensures Sum(xs + ys) == Sum(xs) + Sum(ys)
  {
    if |ys| == 0 {
      assert xs + ys == xs;
    } else {
      var n := |ys| - 1;
      assert (xs + ys)[..|xs + ys| - 1] == xs + ys[..n];
      SumOfConcat(xs, ys[..n]);
    }
  }

  lemma AddMultiple11(y: int, k: int)
    ensures (y + 11 * k) % 11 == y % 11
  {
  }

  lemma AddMultiple97(y: int, k: int)
    ensures (y + 97 * k) % 97 == y % 97
  {
  }

  lemma ResidueStep(m: int, a: int, b: int, x: int)
    requires m == 11 || m == 97
    requires a % m == b % m
    ensures (a + x % m) % m == (b + x) % m
  {
    if m == 11 {
      AddMultiple11(b + x, a / 11 - b / 11 - x / 11);
    } else {
      AddMultiple97(b + x, a / 97 - b / 97 - x / 97);
    }
  }

  /** Summing residues and reducing is reducing the sum. */
  lemma {:induction false} SumOfResidues(m: int, xs: seq<int>, rs: seq<int>)
    requires m == 11 || m == 97
    requires |xs| == |rs| && forall i :: 0 <= i < |xs| ==> rs[i] == xs[i] % m
    ensures Sum(rs) % m == Sum(xs) % m
  {
    if |xs| > 0 {
      var n := |xs| - 1;
      SumOfResidues(m, xs[..n], rs[..n]);
      ResidueStep(m, Sum(rs[..n]), Sum(xs[..n]), xs[n]);
    }
  }
}
