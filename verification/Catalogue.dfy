/** The part catalogue: a capped edit distance against the cheapest edit script, and
    the unique-nearest lookup built on it. */
module Catalogue {
  import opened Common

  const MAX_DISTANCE := 2

  // ------------------------------------------------------------ edit scripts

  datatype Edit = Keep(c: char) | Insert(c: char) | Delete(c: char) | Replace(old_: char, new_: char)

  function Consumed(e: Edit): string {
    match e
    case Keep(c) => [c]
    case Insert(_) => []
    case Delete(c) => [c]
    case Replace(a, _) => [a]
  }

  function Produced(e: Edit): string {
    match e
    case Keep(c) => [c]
    case Insert(c) => [c]
    case Delete(_) => []
    case Replace(_, b) => [b]
  }

  function EditCost(e: Edit): nat {
    if e.Keep? then 0 else 1
  }

  function From(script: seq<Edit>): string {
    if |script| == 0 then [] else From(script[..|script| - 1]) + Consumed(script[|script| - 1])
  }

  function To(script: seq<Edit>): string {
    if |script| == 0 then [] else To(script[..|script| - 1]) + Produced(script[|script| - 1])
  }

  function Cost(script: seq<Edit>): nat {
    if |script| == 0 then 0 else Cost(script[..|script| - 1]) + EditCost(script[|script| - 1])
  }

  ghost predicate Rewrites(script: seq<Edit>, a: string, b: string) {
    From(script) == a && To(script) == b
  }

  // ------------------------------------------------------------ the recurrence

  function Min(a: int, b: int): int {
    if a < b then a else b
  }

  function Min3(a: int, b: int, c: int): int {
    Min(a, Min(b, c))
  }

  /** Levenshtein's recurrence on the first `i` and `j` characters. */
  function Lev(a: string, b: string, i: nat, j: nat): nat
    requires i <= |a| && j <= |b|
  {
    if i == 0 then j
    else if j == 0 then i
    else Min3(Lev(a, b, i - 1, j) + 1, Lev(a, b, i, j - 1) + 1,
              Lev(a, b, i - 1, j - 1) + if a[i - 1] == b[j - 1] then 0 else 1)
  }

  function Distance(a: string, b: string): nat {
    Lev(a, b, |a|, |b|)
  }

  lemma Append(script: seq<Edit>, e: Edit)
    ensures Cost(script + [e]) == Cost(script) + EditCost(e)
    ensures From(script + [e]) == From(script) + Consumed(e)
    ensures To(script + [e]) == To(script) + Produced(e)
  {
    assert (script + [e])[..|script|] == script;
  }

  /** The last edit of a cheapest script, and the prefixes it leaves. */
  lemma LastEdit(a: string, b: string, i: nat, j: nat) returns (e: Edit, i': nat, j': nat)
    requires i <= |a| && j <= |b| && (i > 0 || j > 0)
    ensures i' <= i && j' <= j && i' + j' < i + j
    ensures Lev(a, b, i, j) == Lev(a, b, i', j') + EditCost(e)
    ensures a[..i] == a[..i'] + Consumed(e) && b[..j] == b[..j'] + Produced(e)
  {
    if i == 0 || (j > 0 && Lev(a, b, i, j) == Lev(a, b, i, j - 1) + 1) {
      e, i', j' := Insert(b[j - 1]), i, j - 1;
    } else if j == 0 || Lev(a, b, i, j) == Lev(a, b, i - 1, j) + 1 {
      e, i', j' := Delete(a[i - 1]), i - 1, j;
    } else {
      e := if a[i - 1] == b[j - 1] then Keep(a[i - 1]) else Replace(a[i - 1], b[j - 1]);
      i', j' := i - 1, j - 1;
    }
  }

  /** Some script costs exactly what the recurrence says. */
  lemma {:induction false} CheapestScript(a: string, b: string, i: nat, j: nat) returns (script: seq<Edit>)
    requires i <= |a| && j <= |b|
    ensures Rewrites(script, a[..i], b[..j]) && Cost(script) == Lev(a, b, i, j)
    decreases i + j
  {
    if i == 0 && j == 0 {
      script := [];
    } else {
      var e, i', j' := LastEdit(a, b, i, j);
      script := CheapestScript(a, b, i', j');
      Append(script, e);
      script := script + [e];
    }
  }

  lemma DropLast(s: string, i: nat, p: string, tail: string)
    requires i <= |s| && p + tail == s[..i]
    ensures |tail| <= i && p == s[..i - |tail|] && tail == s[i - |tail|..i]
  {
    assert p == s[..i][..|p|] && tail == s[..i][|p|..];
  }

  lemma EditIsAllowed(a: string, b: string, i: nat, j: nat, e: Edit)
    requires i <= |a| && j <= |b| && |Consumed(e)| <= i && |Produced(e)| <= j
    requires Consumed(e) == a[i - |Consumed(e)|..i] && Produced(e) == b[j - |Produced(e)|..j]
    ensures Lev(a, b, i, j) <= Lev(a, b, i - |Consumed(e)|, j - |Produced(e)|) + EditCost(e)
  {
    assert e.Keep? ==> a[i - 1] == a[i - 1..i][0] == b[j - 1..j][0] == b[j - 1];
    if i == 0 || j == 0 {
      assert Lev(a, b, i, j) == i + j;
    }
  }

  /** No script is cheaper. */
  lemma {:induction false} NoCheaperScript(a: string, b: string, i: nat, j: nat, script: seq<Edit>)
    requires i <= |a| && j <= |b| && Rewrites(script, a[..i], b[..j])
    ensures Lev(a, b, i, j) <= Cost(script)
    decreases |script|
  {
    if |script| > 0 {
      var p, e := script[..|script| - 1], script[|script| - 1];
      DropLast(a, i, From(p), Consumed(e));
      DropLast(b, j, To(p), Produced(e));
      NoCheaperScript(a, b, i - |Consumed(e)|, j - |Produced(e)|, p);
      EditIsAllowed(a, b, i, j, e);
    }
  }

  /** `d` is the least cost of any insert/delete/replace script from `a` to `b`. */
  ghost predicate IsEditDistance(a: string, b: string, d: nat) {
    && (exists script :: Rewrites(script, a, b) && Cost(script) == d)
    && (forall script :: Rewrites(script, a, b) ==> d <= Cost(script))
  }

  lemma DistanceIsLeastCost(a: string, b: string)
    ensures IsEditDistance(a, b, Distance(a, b))
  {
    assert a[..|a|] == a && b[..|b|] == b;
    var script := CheapestScript(a, b, |a|, |b|);
    forall s | Rewrites(s, a, b) ensures Distance(a, b) <= Cost(s) {
      NoCheaperScript(a, b, |a|, |b|, s);
    }
  }

  // ------------------------------------------------------------ the capped method

  lemma {:induction false} LengthGap(a: string, b: string, i: nat, j: nat)
    requires i <= |a| && j <= |b|
    ensures Lev(a, b, i, j) >= i - j && Lev(a, b, i, j) >= j - i
  {
    if i > 0 && j > 0 {
      LengthGap(a, b, i - 1, j);
      LengthGap(a, b, i, j - 1);
      LengthGap(a, b, i - 1, j - 1);
    }
  }

  /** Once a whole row is at least `m`, everything below it is. */
  lemma {:induction false} RowBound(a: string, b: string, r: nat, m: int, i: nat, j: nat)
    requires r <= i <= |a| && j <= |b|
    requires forall k :: 0 <= k <= |b| ==> Lev(a, b, r, k) >= m
    ensures Lev(a, b, i, j) >= m
  {
    if r < i {
      RowBound(a, b, r, m, i - 1, j);
      if j > 0 {
        RowBound(a, b, r, m, i, j - 1);
        RowBound(a, b, r, m, i - 1, j - 1);
      } else {
        assert Lev(a, b, r, 0) == r;
      }
    }
  }

  ghost predicate IsRow(a: string, b: string, i: nat, row: seq<int>)
    requires i <= |a| && |row| <= |b| + 1
  {
    forall j :: 0 <= j < |row| ==> row[j] == Lev(a, b, i, j)
  }

  /** The inner loop: the next row of the table from the previous one. */
  method NextRow(a: string, b: string, i: nat, prev: seq<int>) returns (cur: seq<int>)
    requires 0 < i <= |a| && |prev| == |b| + 1 && IsRow(a, b, i - 1, prev)
    ensures |cur| == |b| + 1 && IsRow(a, b, i, cur)
  {
    cur := [i];
    for j := 1 to |b| + 1
      invariant |cur| == j && IsRow(a, b, i, cur)
    {
      var replaced := prev[j - 1] + if a[i - 1] != b[j - 1] then 1 else 0;
      cur := cur + [Min3(prev[j] + 1, cur[j - 1] + 1, replaced)];
    }
  }

  method Least(row: seq<int>) returns (m: int)
    requires |row| > 0
    ensures forall j :: 0 <= j < |row| ==> m <= row[j]
    ensures m in row
  {
    m := row[0];
    for j := 1 to |row|
      invariant forall k :: 0 <= k < j ==> m <= row[k]
      invariant m in row
    {
      m := Min(m, row[j]);
    }
  }

  /** `edit_distance`: at most `cap` exactly when the true distance is, and then
      equal to it, in spite of the length cut and the early exit. */
  method EditDistance(a: string, b: string, cap: nat) returns (d: int)
    ensures d <= cap <==> Distance(a, b) <= cap
    ensures d <= cap ==> d == Distance(a, b)
  {
    LengthGap(a, b, |a|, |b|);
    if |a| - |b| > cap || |b| - |a| > cap {
      return cap + 1;
    }
    var prev := seq(|b| + 1, j => j);
    for i := 1 to |a| + 1
      invariant |prev| == |b| + 1 && IsRow(a, b, i - 1, prev)
    {
      var cur := NextRow(a, b, i, prev);
      var least := Least(cur);
      if least > cap {
        forall k | 0 <= k <= |b| ensures Lev(a, b, i, k) >= cap + 1 {
          assert cur[k] >= least;
        }
        RowBound(a, b, i, cap + 1, |a|, |b|);
        return cap + 1;
      }
      prev := cur;
    }
    d := prev[|b|];
  }

  // ------------------------------------------------------------ the index

  /** Upper-case alphanumerics only. */
  function Normalise(s: string): string {
    if |s| == 0 then [] else
    var c := Upper(s[|s| - 1]);
    Normalise(s[..|s| - 1]) + if IsUpper(c) || IsDigit(c) then [c] else []
  }

  predicate IsBlank(c: char) {
    c == ' ' || '\t' <= c <= '\r' || '\U{1c}' <= c <= '\U{1f}'
  }

  function StripRight(s: string): string {
    if |s| > 0 && IsBlank(s[|s| - 1]) then StripRight(s[..|s| - 1]) else s
  }

  function StripLeft(s: string): string {
    if |s| > 0 && IsBlank(s[0]) then StripLeft(s[1..]) else s
  }

  /** `strip`: the code as it is stored. */
  function Strip(s: string): string {
    StripLeft(StripRight(s))
  }

  lemma {:induction false} NormaliseConcat(a: string, b: string)
    ensures Normalise(a + b) == Normalise(a) + Normalise(b)
  {
    if |b| == 0 {
      assert a + b == a;
    } else {
      assert (a + b)[..|a + b| - 1] == a + b[..|b| - 1];
      NormaliseConcat(a, b[..|b| - 1]);
    }
  }

  lemma {:induction false} StrippedRight(s: string)
    ensures Normalise(StripRight(s)) == Normalise(s) && (StripRight(s) == [] || !IsBlank(StripRight(s)[|StripRight(s)| - 1]))
  {
    if |s| > 0 && IsBlank(s[|s| - 1]) {
      StrippedRight(s[..|s| - 1]);
    }
  }

  lemma {:induction false} StrippedLeft(s: string)
    ensures Normalise(StripLeft(s)) == Normalise(s) && (StripLeft(s) == [] || !IsBlank(StripLeft(s)[0]))
    ensures s != [] && !IsBlank(s[|s| - 1]) ==> StripLeft(s) != [] && StripLeft(s)[|StripLeft(s)| - 1] == s[|s| - 1]
  {
    if |s| > 0 && IsBlank(s[0]) {
      StrippedLeft(s[1..]);
      assert s == [s[0]] + s[1..] && [s[0]][..0] == [];
      NormaliseConcat([s[0]], s[1..]);
      assert Normalise([s[0]]) == [];
    }
  }

  /** Stripping takes the blanks off both ends and keeps the normal form. */
  lemma StripKeepsNormalForm(s: string)
    ensures Normalise(Strip(s)) == Normalise(s)
    ensures var t := Strip(s); t == [] || (!IsBlank(t[0]) && !IsBlank(t[|t| - 1]))
  {
    StrippedRight(s);
    StrippedLeft(StripRight(s));
  }

  function CharNorm(c: char): string {
    if 'a' <= c <= 'z' then [c - 'a' + 'A'] else if 'A' <= c <= 'Z' || '0' <= c <= '9' then [c] else []
  }

  /** The normal form is built character by character: letters in upper case, digits, and
      nothing of anything else. */
  lemma NormaliseExactly(a: string, b: string, c: char)
    ensures 'a' <= c <= 'z' ==> Normalise([c]) == [(c as int - 32) as char]
    ensures 'A' <= c <= 'Z' || '0' <= c <= '9' ==> Normalise([c]) == [c]
    ensures !('a' <= c <= 'z') && !('A' <= c <= 'Z') && !('0' <= c <= '9') ==> Normalise([c]) == []
    ensures Normalise([]) == [] && Normalise(a + b) == Normalise(a) + Normalise(b)
  {
    assert [c][..0] == [];
    NormaliseConcat(a, b);
  }

  lemma {:induction false} CutRight(s: string) returns (n: nat)
    ensures n <= |s| && StripRight(s) == s[..n] && forall k :: n <= k < |s| ==> IsBlank(s[k])
  {
    if |s| > 0 && IsBlank(s[|s| - 1]) {
      n := CutRight(s[..|s| - 1]);
      assert s[..|s| - 1][..n] == s[..n];
    } else {
      n := |s|;
    }
  }

  lemma {:induction false} CutLeft(s: string) returns (n: nat)
    ensures n <= |s| && StripLeft(s) == s[n..] && forall k :: 0 <= k < n ==> IsBlank(s[k])
  {
    if |s| > 0 && IsBlank(s[0]) {
      var m := CutLeft(s[1..]);
      n := m + 1;
      assert s[1..][m..] == s[n..];
      assert forall k :: 1 <= k < n ==> s[k] == s[1..][k - 1];
    } else {
      n := 0;
    }
  }

  /** Tabulator to carriage return, the four separators and the space. */
  lemma BlanksExactly(c: char)
    ensures IsBlank(c) <==> 9 <= c as int <= 13 || 28 <= c as int <= 32
  {
  }

  /** Stripping cuts blanks off both ends and nothing else. */
  lemma StripCutsBlanks(s: string) returns (i: nat, j: nat)
    ensures i <= j <= |s| && Strip(s) == s[i..j]
    ensures forall k :: 0 <= k < i || j <= k < |s| ==> IsBlank(s[k])
  {
    j := CutRight(s);
    i := CutLeft(s[..j]);
  }

  datatype Row = Row(sku: string, description: string, norm: string)

  datatype CatalogueMatch = CatalogueMatch(sku: string, description: string, distance: nat, heard: string)

  /** What indexing the first `n` input rows yields: one row per non-empty normal
      form, the first that has it, in input order. */
  ghost function Indexed(input: seq<(string, string)>, n: nat): (rows: seq<Row>)
    requires n <= |input|
  {
    if n == 0 then [] else
    var rows, norm := Indexed(input, n - 1), Normalise(input[n - 1].0);
    if norm == [] || norm in Norms(rows) then rows
    else rows + [Row(Strip(input[n - 1].0), input[n - 1].1, norm)]
  }

  /** Input row `p` is the first with its normal form, which is not empty. */
  ghost predicate First(input: seq<(string, string)>, p: int) {
    && 0 <= p < |input| && Normalise(input[p].0) != []
    && forall q :: 0 <= q < p ==> Normalise(input[q].0) != Normalise(input[p].0)
  }

  lemma FirstMeans(input: seq<(string, string)>, p: nat)
    requires p < |input|
    ensures First(input, p) <==> Normalise(input[p].0) != [] && Normalise(input[p].0) !in InputNorms(input, p)
  {
  }

  ghost function RowOf(input: seq<(string, string)>, p: nat): Row
    requires p < |input|
  {
    Row(Strip(input[p].0), input[p].1, Normalise(input[p].0))
  }

  lemma {:induction false} IndexedNorms(input: seq<(string, string)>, n: nat)
    requires n <= |input|
    ensures Norms(Indexed(input, n)) == InputNorms(input, n)
  {
    if n > 0 {
      IndexedNorms(input, n - 1);
      InputNormsGrow(input, n - 1);
      NormsGrow(Indexed(input, n - 1), RowOf(input, n - 1));
    }
  }

  lemma OneMoreRow(input: seq<(string, string)>, p: nat)
    requires p < |input|
    ensures Indexed(input, p + 1) == Indexed(input, p) + if First(input, p) then [RowOf(input, p)] else []
  {
    IndexedNorms(input, p);
    FirstMeans(input, p);
    hide First, Norms, InputNorms, Normalise;
  }

  /** The rows are the first input rows of their normal forms, all of them, in order. */
  lemma {:induction false} IndexedAreFirst(input: seq<(string, string)>, n: nat) returns (picks: seq<nat>)
    requires n <= |input|
    ensures |picks| == |Indexed(input, n)| && forall k, l :: 0 <= k < l < |picks| ==> picks[k] < picks[l]
    ensures forall k :: 0 <= k < |picks| ==> picks[k] < n && Indexed(input, n)[k] == RowOf(input, picks[k])
    ensures forall p: nat :: p in picks <==> p < n && First(input, p)
  {
    if n == 0 {
      picks := [];
    } else {
      var p: nat := n - 1;
      var before := IndexedAreFirst(input, p);
      OneMoreRow(input, p);
      picks := before + if First(input, p) then [p] else [];
      hide First, RowOf, Indexed, InputNorms, Norms, Normalise;
      forall q: nat ensures q in picks <==> q < n && First(input, q) {
        assert q in before <==> q < p && First(input, q);
      }
    }
  }

  ghost function Norms(rows: seq<Row>): set<string> {
    set k | 0 <= k < |rows| :: rows[k].norm
  }

  ghost predicate Distinct(rows: seq<Row>) {
    forall j, k :: 0 <= j < k < |rows| ==> rows[j].norm != rows[k].norm
  }

  /** `r` is strictly nearer to `cand` than every other row, and within reach. */
  ghost predicate UniqueNearest(rows: seq<Row>, cand: string, r: Row) {
    && r in rows && Distance(cand, r.norm) <= MAX_DISTANCE
    && forall other :: other in rows && other != r ==> Distance(cand, r.norm) < Distance(cand, other.norm)
  }

  lemma {:induction false} FreeScriptsKeep(script: seq<Edit>)
    requires Cost(script) == 0
    ensures From(script) == To(script)
  {
    if |script| > 0 {
      FreeScriptsKeep(script[..|script| - 1]);
    }
  }

  lemma {:induction false} SelfDistance(a: string, i: nat)
    requires i <= |a|
    ensures Lev(a, a, i, i) == 0
  {
    if i > 0 {
      SelfDistance(a, i - 1);
    }
  }

  lemma ZeroMeansEqual(a: string, b: string)
    requires Distance(a, b) == 0
    ensures a == b
  {
    var script := CheapestScript(a, b, |a|, |b|);
    FreeScriptsKeep(script);
    assert a[..|a|] == a && b[..|b|] == b;
  }

  lemma NormsGrow(rows: seq<Row>, row: Row)
    ensures Norms(rows + [row]) == Norms(rows) + {row.norm}
  {
    var all := rows + [row];
    forall x | x in Norms(rows) + {row.norm} ensures x in Norms(all) {
      if x in Norms(rows) {
        var k :| 0 <= k < |rows| && rows[k].norm == x;
        assert all[k].norm == x;
      } else {
        assert all[|rows|].norm == x;
      }
    }
  }

  /** Some script of at most `n` edits leads from one string to the other. */
  ghost predicate Reached(a: string, b: string, n: int) {
    exists script :: Rewrites(script, a, b) && Cost(script) <= n
  }

  lemma ReachedExactly(a: string, b: string, n: int)
    ensures Reached(a, b, n) <==> Distance(a, b) <= n
  {
    DistanceIsLeastCost(a, b);
  }

  /** The row found is reached by some number of edits, at most two, that reaches no other
      row. */
  lemma NearestByScripts(rows: seq<Row>, cand: string, r: Row)
    ensures UniqueNearest(rows, cand, r) <==>
      r in rows && exists n :: n <= 2 && Reached(cand, r.norm, n) && forall other :: other in rows && Reached(cand, other.norm, n) ==> other == r
  {
    forall b: string, n: int ensures Reached(cand, b, n) <==> Distance(cand, b) <= n {
      ReachedExactly(cand, b, n);
    }
    hide Reached, Distance;
    if UniqueNearest(rows, cand, r) {
      assert Reached(cand, r.norm, Distance(cand, r.norm));
    }
  }

  /** The dictionary is the row list keyed by normal form. */
  ghost predicate Consistent(rows: seq<Row>, byNorm: map<string, Row>) {
    && Distinct(rows) && byNorm.Keys == Norms(rows) && [] !in Norms(rows)
    && forall k :: 0 <= k < |rows| ==> rows[k].norm in byNorm && byNorm[rows[k].norm] == rows[k]
  }

  lemma IndexGrows(rows: seq<Row>, byNorm: map<string, Row>, row: Row)
    requires Consistent(rows, byNorm) && row.norm != [] && row.norm !in byNorm
    ensures Consistent(rows + [row], byNorm[row.norm := row])
    ensures Norms(rows + [row]) == Norms(rows) + {row.norm}
  {
    NormsGrow(rows, row);
    assert forall k :: 0 <= k < |rows| ==> rows[k].norm in Norms(rows);
  }

  /** The non-empty normal forms among the first `n` input rows. */
  ghost function InputNorms(input: seq<(string, string)>, n: nat): set<string>
    requires n <= |input|
  {
    (set i | 0 <= i < n :: Normalise(input[i].0)) - {[]}
  }

  lemma InputNormsGrow(input: seq<(string, string)>, n: nat)
    requires n < |input|
    ensures InputNorms(input, n + 1) == InputNorms(input, n) + ({Normalise(input[n].0)} - {[]})
  {
  }

  class CatalogueIndex {
    var rows: seq<Row>
    var byNorm: map<string, Row>

    ghost predicate Valid()
      reads this
    {
      Consistent(rows, byNorm)
    }

    constructor (input: seq<(string, string)>)
      ensures Valid()
      ensures rows == Indexed(input, |input|)
      ensures Norms(rows) == InputNorms(input, |input|)
      ensures forall row :: row in rows ==> row.norm == Normalise(row.sku)
    {
      var kept: seq<Row> := [];
      var seen: map<string, Row> := map[];
      for n := 0 to |input|
        invariant kept == Indexed(input, n)
        invariant Consistent(kept, seen)
        invariant Norms(kept) == InputNorms(input, n)
        invariant forall row :: row in kept ==> row.norm == Normalise(row.sku)
      {
        var norm := Normalise(input[n].0);
        InputNormsGrow(input, n);
        if norm == [] || norm in seen {
          continue;
        }
        StripKeepsNormalForm(input[n].0);
        var row := Row(Strip(input[n].0), input[n].1, norm);
        IndexGrows(kept, seen, row);
        kept := kept + [row];
        seen := seen[norm := row];
      }
      rows, byNorm := kept, seen;
    }

    /** `match`: the unique nearest row within two edits, or nothing. */
    method Match(candidate: string) returns (found: Option<CatalogueMatch>)
      requires Valid()
      ensures found.Some? <==>
        Normalise(candidate) != [] && exists r :: UniqueNearest(rows, Normalise(candidate), r)
      ensures found.Some? ==> exists r :: Found(rows, Normalise(candidate), r, found.value)
    {
      var cand := Normalise(candidate);
      if cand == [] {
        return None;
      }
      if cand in byNorm {
        var row := byNorm[cand];
        ExactIsNearest(rows, cand, row);
        found := Some(CatalogueMatch(row.sku, row.description, 0, cand));
        assert Found(rows, cand, row, found.value);
        return;
      }
      var scored := Score(rows, cand);
      if |scored| == 0 {
        return None;
      }
      var best := LeastScore(scored);
      var ties := Ties(scored, best);
      ScoredTies(rows, cand, scored, best, ties);
      SingleTieIsUnique(rows, cand, best, ties);
      if |ties| != 1 {
        return None;
      }
      found := Some(CatalogueMatch(ties[0].sku, ties[0].description, best, cand));
      assert Found(rows, cand, ties[0], found.value);
    }
  }

  ghost predicate Found(rows: seq<Row>, cand: string, r: Row, m: CatalogueMatch) {
    UniqueNearest(rows, cand, r) && m == CatalogueMatch(r.sku, r.description, Distance(cand, r.norm), cand)
  }

  lemma ExactIsNearest(rows: seq<Row>, cand: string, r: Row)
    requires Distinct(rows) && r in rows && r.norm == cand
    ensures UniqueNearest(rows, cand, r) && Distance(cand, r.norm) == 0
  {
    SelfDistance(cand, |cand|);
    forall other | other in rows && other != r ensures Distance(cand, other.norm) > 0 {
      if Distance(cand, other.norm) == 0 {
        ZeroMeansEqual(cand, other.norm);
      }
    }
  }

  /** `ties` are the rows at the least distance, if any row is within reach. */
  ghost predicate AtLeast(rows: seq<Row>, cand: string, best: int, ties: seq<Row>) {
    && Distinct(ties)
    && (forall t :: t in ties ==> t in rows && Distance(cand, t.norm) == best <= MAX_DISTANCE)
    && (forall r :: r in rows && Distance(cand, r.norm) <= MAX_DISTANCE ==>
          ties != [] && best <= Distance(cand, r.norm) && (best == Distance(cand, r.norm) ==> r in ties))
  }

  lemma SingleTieIsUnique(rows: seq<Row>, cand: string, best: int, ties: seq<Row>)
    requires AtLeast(rows, cand, best, ties)
    ensures |ties| == 1 ==> UniqueNearest(rows, cand, ties[0])
    ensures (exists r :: UniqueNearest(rows, cand, r)) ==> |ties| == 1
  {
    if |ties| == 1 {
      assert ties[0] in ties;
    }
    assert |ties| > 1 ==> ties[0].norm != ties[1].norm;
    if r :| UniqueNearest(rows, cand, r) {
      forall k | 0 <= k < |ties| ensures ties[k] == r {
        assert ties[k] in ties;
      }
    }
  }

  ghost predicate Scored(rows: seq<Row>, cand: string, scored: seq<(int, Row)>) {
    && (forall j, k :: 0 <= j < k < |scored| ==> scored[j].1.norm != scored[k].1.norm)
    && (forall k :: 0 <= k < |scored| ==>
          scored[k].1 in rows && scored[k].0 == Distance(cand, scored[k].1.norm) <= MAX_DISTANCE)
    && (forall r :: r in rows && Distance(cand, r.norm) <= MAX_DISTANCE ==>
          exists k :: 0 <= k < |scored| && scored[k].1 == r)
  }

  lemma ScoredTies(rows: seq<Row>, cand: string, scored: seq<(int, Row)>, best: int, ties: seq<Row>)
    requires Scored(rows, cand, scored) && Distinct(ties)
    requires forall j :: 0 <= j < |scored| ==> best <= scored[j].0
    requires exists j :: 0 <= j < |scored| && scored[j].0 == best
    requires forall t :: t in ties ==> (best, t) in scored
    requires forall j :: 0 <= j < |scored| && scored[j].0 == best ==> scored[j].1 in ties
    ensures AtLeast(rows, cand, best, ties)
  {
  }

  method Score(rows: seq<Row>, cand: string) returns (scored: seq<(int, Row)>)
    requires Distinct(rows)
    ensures Scored(rows, cand, scored)
  {
    scored := [];
    for n := 0 to |rows|
      invariant Scored(rows[..n], cand, scored)
    {
      assert rows[..n + 1] == rows[..n] + [rows[n]];
      assert forall k :: 0 <= k < |scored| ==> scored[k].1 in rows[..n];
      var d := EditDistance(cand, rows[n].norm, MAX_DISTANCE);
      ghost var before := scored;
      if d <= MAX_DISTANCE {
        scored := scored + [(d, rows[n])];
        assert scored[|before|].1 == rows[n];
      }
      assert forall k :: 0 <= k < |before| ==> scored[k] == before[k];
    }
    assert rows[..|rows|] == rows;
  }

  method LeastScore(scored: seq<(int, Row)>) returns (best: int)
    requires |scored| > 0
    ensures forall j :: 0 <= j < |scored| ==> best <= scored[j].0
    ensures exists j :: 0 <= j < |scored| && scored[j].0 == best
  {
    best := scored[0].0;
    ghost var w := 0;
    for k := 1 to |scored|
      invariant forall j :: 0 <= j < k ==> best <= scored[j].0
      invariant w < |scored| && scored[w].0 == best
    {
      if scored[k].0 < best {
        best, w := scored[k].0, k;
      }
    }
  }

  /** The rows with score `best`, in row order. */
  method Ties(scored: seq<(int, Row)>, best: int) returns (ties: seq<Row>)
    requires forall j, k :: 0 <= j < k < |scored| ==> scored[j].1.norm != scored[k].1.norm
    ensures Distinct(ties)
    ensures forall t :: t in ties ==> (best, t) in scored
    ensures forall j :: 0 <= j < |scored| && scored[j].0 == best ==> scored[j].1 in ties
  {
    ties := [];
    ghost var at: seq<int> := [];
    for k := 0 to |scored|
      invariant |at| == |ties|
      invariant forall t :: 0 <= t < |at| ==> 0 <= at[t] < k && scored[at[t]] == (best, ties[t])
      invariant forall t, u :: 0 <= t < u < |at| ==> at[t] < at[u]
      invariant forall j :: 0 <= j < k && scored[j].0 == best ==> scored[j].1 in ties
    {
      if scored[k].0 == best {
        ties := ties + [scored[k].1];
        at := at + [k];
      }
    }
  }

  /** The row order of the input decides neither which normal forms are in the index
      nor which of them a lookup returns. */
  lemma LookupIgnoresOrder(a: seq<Row>, b: seq<Row>, cand: string, r: Row)
    requires Distinct(a) && Distinct(b) && Norms(a) == Norms(b) && UniqueNearest(a, cand, r)
    ensures exists s :: UniqueNearest(b, cand, s) && s.norm == r.norm
  {
    assert r.norm in Norms(b);
    var k :| 0 <= k < |b| && b[k].norm == r.norm;
    forall other | other in b && other != b[k] ensures Distance(cand, r.norm) < Distance(cand, other.norm) {
      assert other.norm in Norms(a);
    }
    assert UniqueNearest(b, cand, b[k]);
  }
}
