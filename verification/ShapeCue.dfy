/** The shape cue, the test of whether a shape hit could ever have failed, and the
    commit gate that test drives. */
module ShapeCue {
  import opened Common
  import opened SetBounds
  import opened Matching

  const SHAPE_MAX_DIST := 2
  const COMMIT_MIN_CUES := 2

  // ------------------------------------------------- arrangements of a window

  ghost predicate IsPermutation(p: seq<int>) {
    && (forall i :: 0 <= i < |p| ==> 0 <= p[i] < |p|)
    && (forall i, j :: 0 <= i < j < |p| ==> p[i] != p[j])
  }

  /** The characters of `win`, with slot `p[i]` standing at position `i`. */
  ghost function Arranged(win: string, p: seq<int>): (a: string)
    requires |p| == |win| && IsPermutation(p)
    ensures |a| == |win|
  {
    seq(|win|, i requires 0 <= i < |win| => win[p[i]])
  }

  function Legality(alpha: seq<string>, win: string): (legal: seq<seq<bool>>)
    ensures |legal| == |win| && Rectangular(legal, |alpha|)
    ensures forall c, i :: Illegal(legal, c, i) <==> 0 <= c < |win| && 0 <= i < |alpha| && win[c] !in alpha[i]
  {
    seq(|win|, c requires 0 <= c < |win| =>
      seq(|alpha|, i requires 0 <= i < |alpha| => win[c] in alpha[i]))
  }

  /** `k` is the largest number of positions any arrangement of `win` gets wrong. */
  ghost predicate WorstArrangement(alpha: seq<string>, win: string, k: int)
    requires |win| == |alpha|
  {
    && (exists p: seq<int> :: |p| == |win| && IsPermutation(p) && |Mismatches(alpha, Arranged(win, p))| == k)
    && (forall p: seq<int> :: |p| == |win| && IsPermutation(p) ==> |Mismatches(alpha, Arranged(win, p))| <= k)
  }

  /** The illegal positions of an arrangement are themselves a matching. */
  lemma ArrangementIsMatching(alpha: seq<string>, win: string, p: seq<int>) returns (m: seq<int>)
    requires |p| == |win| == |alpha| && IsPermutation(p)
    ensures |m| == |alpha| && IsMatching(Legality(alpha, win), m)
    ensures Matched(m) == Mismatches(alpha, Arranged(win, p))
  {
    m := seq(|alpha|, i requires 0 <= i < |alpha| => if win[p[i]] !in alpha[i] then p[i] else -1);
  }

  /** Any injective partial placement of `|m|` slots extends to a permutation:
      fill the free positions from left to right. */
  lemma {:induction false} PlacementExtends(m: seq<int>, from: nat) returns (p: seq<int>)
    requires from <= |m| && forall i :: 0 <= i < |m| ==> -1 <= m[i] < |m|
    requires Injective(m) && forall i :: 0 <= i < from ==> m[i] != -1
    ensures |p| == |m| && IsPermutation(p)
    ensures forall i :: 0 <= i < |m| && m[i] != -1 ==> p[i] == m[i]
    decreases |m| - from
  {
    if from == |m| {
      p := m;
    } else if m[from] != -1 {
      p := PlacementExtends(m, from + 1);
    } else {
      var x := FreeSlot(m, from);
      p := PlacementExtends(m[from := x], from + 1);
    }
  }

  lemma UsedBound(m: seq<int>, i: int, used: set<int>)
    requires 0 <= i < |m| && m[i] == -1
    requires forall y :: y in used ==> y in m && y != -1
    ensures |used| < |m|
  {
    var f := map y | y in used :: Place(m, y);
    var B := Below(|m|) - {i};
    assert i in Below(|m|) && |B| == |m| - 1;
    forall y | y in used ensures f[y] in B {
      assert m[f[y]] == y;
    }
    InjectiveMapBound(used, f, B);
  }

  lemma FreeSlot(m: seq<int>, i: int) returns (x: int)
    requires 0 <= i < |m| && m[i] == -1
    ensures 0 <= x < |m| && x !in m
  {
    var used := set y | y in Below(|m|) && y in m;
    UsedBound(m, i, used);
    if Below(|m|) <= used {
      InsideBound(Below(|m|), used);
    }
    x :| x in Below(|m|) && x !in used;
  }

  /** A maximum matching on illegal pairs IS the worst arrangement. */
  lemma MaximumIsWorst(alpha: seq<string>, win: string, k: int)
    requires |win| == |alpha| && Maximum(Legality(alpha, win), |alpha|, k)
    ensures WorstArrangement(alpha, win, k)
  {
    var legal := Legality(alpha, win);
    forall p: seq<int> | |p| == |win| && IsPermutation(p)
      ensures |Mismatches(alpha, Arranged(win, p))| <= k
    {
      var m := ArrangementIsMatching(alpha, win, p);
    }
    var m: seq<int> :| |m| == |alpha| && IsMatching(legal, m) && |Matched(m)| == k;
    forall i | 0 <= i < |m| ensures -1 <= m[i] < |m| {
      assert m[i] != -1 ==> Illegal(legal, m[i], i);
    }
    var p := PlacementExtends(m, 0);
    forall i | i in Matched(m) ensures i in Mismatches(alpha, Arranged(win, p)) {
      assert Illegal(legal, m[i], i);
    }
    InsideBound(Matched(m), Mismatches(alpha, Arranged(win, p)));
  }

  /** `max_illegal`: for a window of the format's length, exactly the largest number
      of illegal positions over all arrangements of its characters. */
  method MaxIllegalOf(fmt: Fmt, win: string) returns (total: nat)
    ensures Maximum(Legality(fmt.alpha, win), |fmt.alpha|, total)
    ensures |win| == |fmt.alpha| ==> WorstArrangement(fmt.alpha, win, total)
  {
    total := MaxIllegal(Legality(fmt.alpha, win), |fmt.alpha|);
    if |win| == |fmt.alpha| {
      MaximumIsWorst(fmt.alpha, win, total);
    }
  }

  /** Could the mask have rejected this window: does some arrangement of the very
      characters it holds exceed the forgiveness budget? */
  ghost predicate IsEvidence(alpha: seq<string>, win: string)
    requires |win| == |alpha|
  {
    exists p: seq<int> :: |p| == |win| && IsPermutation(p) && |Mismatches(alpha, Arranged(win, p))| > SHAPE_MAX_DIST
  }

  method ShapeIsEvidence(fmt: Fmt, win: string) returns (evidence: bool)
    requires |win| == |fmt.alpha|
    ensures evidence <==> IsEvidence(fmt.alpha, win)
  {
    var total := MaxIllegalOf(fmt, win);
    evidence := total > SHAPE_MAX_DIST;
  }

  // ------------------------------------- masks that can and cannot say no

  ghost predicate Uniform(alpha: seq<string>) {
    forall i, j :: 0 <= i < j < |alpha| ==> forall c :: c in alpha[i] <==> c in alpha[j]
  }

  /** Under a uniform alphabet every arrangement has the same number of mismatches. */
  lemma UniformMismatches(alpha: seq<string>, win: string, p: seq<int>)
    requires |win| == |alpha| == |p| && Uniform(alpha) && IsPermutation(p)
    ensures |Mismatches(alpha, Arranged(win, p))| <= |Mismatches(alpha, win)|
  {
    var bad := Mismatches(alpha, Arranged(win, p));
    var f := map k | k in bad :: p[k];
    forall k | k in bad ensures f[k] in Mismatches(alpha, win) {
      assert Arranged(win, p)[k] == win[p[k]];
    }
    InjectiveMapBound(bad, f, Mismatches(alpha, win));
  }

  /** NHS, Luhn-16 and VIN: the worst arrangement is the one that was heard, so a
      window the cue accepted could never have been rejected. */
  lemma UniformHitIsNoEvidence(alpha: seq<string>, win: string)
    requires |win| == |alpha| && Uniform(alpha)
    ensures WorstArrangement(alpha, win, |Mismatches(alpha, win)|)
    ensures IsEvidence(alpha, win) <==> |Mismatches(alpha, win)| > SHAPE_MAX_DIST
  {
    forall p: seq<int> | |p| == |win| && IsPermutation(p)
      ensures |Mismatches(alpha, Arranged(win, p))| <= |Mismatches(alpha, win)|
    {
      UniformMismatches(alpha, win, p);
    }
    var id := seq(|win|, i => i);
    assert IsPermutation(id) && Arranged(win, id) == win;
  }

  lemma OneMoreMatch(legal: seq<seq<bool>>, m: seq<int>, a: int, b: int)
    requires IsMatching(legal, m) && 0 <= b < |m| && m[b] == -1 && a != -1 && Illegal(legal, a, b)
    requires forall i :: 0 <= i < |m| ==> m[i] != a
    ensures IsMatching(legal, m[b := a]) && Matched(m[b := a]) == Matched(m) + {b}
    ensures |Matched(m[b := a])| == |Matched(m)| + 1
  {
  }

  /** `k` slots that are illegal at each of `k` positions can be matched there. */
  lemma {:induction false} BlockMatching(legal: seq<seq<bool>>, width: nat, A: set<int>, B: set<int>, k: nat)
    returns (m: seq<int>)
    requires forall a, b :: a in A && b in B ==> Illegal(legal, a, b)
    requires forall b :: b in B ==> 0 <= b < width
    requires |A| >= k && |B| >= k && -1 !in A
    ensures |m| == width && IsMatching(legal, m) && |Matched(m)| == k
    ensures forall i :: 0 <= i < width && m[i] != -1 ==> i in B && m[i] in A
  {
    if k == 0 {
      m := seq(width, _ => -1);
      assert Matched(m) == {};
    } else {
      var a := Member(A);
      var b := Member(B);
      var m' := BlockMatching(legal, width, A - {a}, B - {b}, k - 1);
      OneMoreMatch(legal, m', a, b);
      m := m'[b := a];
    }
  }

  /** Enough slots that are illegal at enough positions make a hit evidence. */
  lemma BlockIsEvidence(alpha: seq<string>, win: string, A: set<int>, B: set<int>)
    requires |win| == |alpha|
    requires forall a :: a in A ==> 0 <= a < |win|
    requires forall b :: b in B ==> 0 <= b < |alpha|
    requires forall a, b :: a in A && b in B ==> win[a] !in alpha[b]
    requires |A| > SHAPE_MAX_DIST && |B| > SHAPE_MAX_DIST
    ensures IsEvidence(alpha, win)
  {
    var m := BlockMatching(Legality(alpha, win), |alpha|, A, B, SHAPE_MAX_DIST + 1);
    forall i | 0 <= i < |m| ensures -1 <= m[i] < |m| {
      assert m[i] != -1 ==> m[i] in A;
    }
    var p := PlacementExtends(m, 0);
    forall i | i in Matched(m) ensures i in Mismatches(alpha, Arranged(win, p)) {
      assert m[i] in A && i in B;
    }
    InsideBound(Matched(m), Mismatches(alpha, Arranged(win, p)));
  }

  /** Among digit-only positions longer than the forgiveness budget by three, a hit
      holds at least three digits. */
  lemma TailDigits(alpha: seq<string>, win: string, tail: nat) returns (A: set<int>)
    requires |win| == |alpha| && tail + 2 * SHAPE_MAX_DIST < |alpha|
    requires forall k :: tail <= k < |alpha| ==> alpha[k] == DIGITS
    requires |Mismatches(alpha, win)| <= SHAPE_MAX_DIST
    ensures |A| > SHAPE_MAX_DIST && forall a :: a in A ==> 0 <= a < |win| && win[a] in DIGITS
  {
    var bad, low := Mismatches(alpha, win), Below(tail);
    A := Below(|alpha|) - low - bad;
    DifferenceBound(Below(|alpha|), low);
    DifferenceBound(Below(|alpha|) - low, bad);
  }

  /** ISO 6346 and IBAN: digit-only positions at the tail and three positions that
      admit no digit make every hit within the forgiveness budget evidence. */
  lemma DigitTailIsEvidence(alpha: seq<string>, win: string, tail: nat, B: set<int>)
    requires |win| == |alpha| && tail + 2 * SHAPE_MAX_DIST < |alpha|
    requires forall k :: tail <= k < |alpha| ==> alpha[k] == DIGITS
    requires forall b :: b in B ==> 0 <= b < |alpha| && forall c :: c in DIGITS ==> c !in alpha[b]
    requires |B| > SHAPE_MAX_DIST
    requires |Mismatches(alpha, win)| <= SHAPE_MAX_DIST
    ensures IsEvidence(alpha, win)
  {
    var A := TailDigits(alpha, win, tail);
    BlockIsEvidence(alpha, win, A, B);
  }

  // ------------------------------------------------------------ the cue itself

  /** A readable stretch of the tape: its characters and the index of its last word. */
  datatype Run = Run(chars: string, last: nat)

  datatype ShapeHit = ShapeHit(fmt: string, text: string, at: nat, distance: nat,
                               checksumOk: bool, complete: bool, wordLast: nat)

  datatype Registered = Registered(fmt: Fmt, name: string)

  /** The five checks, which this component only calls. */
  datatype Checks = Checks(iban: string -> bool, vin: string -> bool, luhn: string -> bool,
                           iso: string -> bool, nhs: string -> bool)

  /** The formats in the order the cue tries them. */
  function ShapeFormats(k: Checks): seq<Registered> {
    [Registered(Fmt("IBAN-GB", IBAN_GB_ALPHA, k.iban), "iban"),
     Registered(Fmt("VIN", VIN_ALPHA, k.vin), "vin"),
     Registered(Fmt("Luhn16", LUHN16_ALPHA, k.luhn), "luhn16"),
     Registered(Fmt("ISO6346", ISO_ALPHA, k.iso), "iso6346"),
     Registered(Fmt("NHS", NHS_ALPHA, k.nhs), "nhs")]
  }

  /** A place to look: run, format and offset, in scanning order. */
  datatype Spot = Spot(run: int, fmt: int, at: int)

  ghost predicate Precedes(p: Spot, q: Spot) {
    p.run < q.run || (p.run == q.run && (p.fmt < q.fmt || (p.fmt == q.fmt && p.at < q.at)))
  }

  /** The format's window fits into the run there. */
  ghost predicate Fits(runs: seq<Run>, fs: seq<Registered>, p: Spot) {
    && 0 <= p.run < |runs| && 0 <= p.fmt < |fs|
    && 0 <= p.at && p.at + fs[p.fmt].fmt.Length() <= |runs[p.run].chars|
  }

  ghost function WindowAt(runs: seq<Run>, fs: seq<Registered>, p: Spot): (win: string)
    requires Fits(runs, fs, p)
    ensures |win| == fs[p.fmt].fmt.Length()
  {
    runs[p.run].chars[p.at..p.at + fs[p.fmt].fmt.Length()]
  }

  /** The window is within the forgiveness budget. */
  ghost predicate Near(runs: seq<Run>, fs: seq<Registered>, p: Spot) {
    Fits(runs, fs, p) && |Mismatches(fs[p.fmt].fmt.alpha, WindowAt(runs, fs, p))| <= SHAPE_MAX_DIST
  }

  ghost function HitFrom(runs: seq<Run>, fs: seq<Registered>, p: Spot): ShapeHit
    requires Fits(runs, fs, p)
  {
    var f, win := fs[p.fmt], WindowAt(runs, fs, p);
    var d := |Mismatches(f.fmt.alpha, win)|;
    ShapeHit(f.name, win, p.at, d, d == 0 && f.fmt.ok(win),
             p.run == |runs| - 1 && p.at + f.fmt.Length() == |runs[p.run].chars|, runs[p.run].last)
  }

  /** A passing checksum first, then fewer mismatches, then a longer window. */
  predicate Beats(a: ShapeHit, b: ShapeHit) {
    || (a.checksumOk && !b.checksumOk)
    || (a.checksumOk == b.checksumOk && a.distance < b.distance)
    || (a.checksumOk == b.checksumOk && a.distance == b.distance && |a.text| > |b.text|)
  }

  /** The hit at `p` beats every earlier one, and no later one before `end` beats it. */
  ghost predicate Leads(runs: seq<Run>, fs: seq<Registered>, p: Spot, end: Spot)
    requires Near(runs, fs, p)
  {
    forall q :: Near(runs, fs, q) && Precedes(q, end) && q != p ==>
      if Precedes(q, p) then Beats(HitFrom(runs, fs, p), HitFrom(runs, fs, q))
      else !Beats(HitFrom(runs, fs, q), HitFrom(runs, fs, p))
  }

  /** `best` is the earliest hit before `end` that none before `end` beats. */
  ghost predicate BestBefore(runs: seq<Run>, fs: seq<Registered>, end: Spot, best: Option<ShapeHit>) {
    match best
    case None => forall q :: Near(runs, fs, q) ==> !Precedes(q, end)
    case Some(h) => exists p :: Near(runs, fs, p) && Precedes(p, end) && HitFrom(runs, fs, p) == h && Leads(runs, fs, p, end)
  }

  ghost predicate BestOf(runs: seq<Run>, fs: seq<Registered>, best: Option<ShapeHit>) {
    BestBefore(runs, fs, Spot(|runs|, 0, 0), best)
  }

  lemma BeatsAlso(a: ShapeHit, b: ShapeHit, c: ShapeHit)
    requires Beats(a, b) && (b == c || Beats(b, c) || !Beats(c, b))
    ensures Beats(a, c)
  {
  }

  /** Nothing to look at lies between `end` and `end'`. */
  ghost predicate NothingBetween(runs: seq<Run>, fs: seq<Registered>, end: Spot, end': Spot) {
    forall q :: Near(runs, fs, q) ==> (Precedes(q, end) <==> Precedes(q, end'))
  }

  lemma BestStays(runs: seq<Run>, fs: seq<Registered>, end: Spot, end': Spot, best: Option<ShapeHit>)
    requires BestBefore(runs, fs, end, best) && NothingBetween(runs, fs, end, end')
    ensures BestBefore(runs, fs, end', best)
  {
    hide Precedes, Beats;
    if best.Some? {
      var p :| Near(runs, fs, p) && Precedes(p, end) && HitFrom(runs, fs, p) == best.value && Leads(runs, fs, p, end);
      assert Leads(runs, fs, p, end');
    }
  }

  /** Only `end` itself lies between it and the next offset. */
  lemma NextOffset(q: Spot, end: Spot)
    ensures Precedes(q, end.(at := end.at + 1)) <==> Precedes(q, end) || q == end
    ensures !Precedes(end, end)
  {
  }

  lemma Trichotomy(p: Spot, q: Spot)
    ensures p == q || Precedes(p, q) || Precedes(q, p)
    ensures !(Precedes(p, q) && Precedes(q, p))
  {
  }

  lemma NewLeads(runs: seq<Run>, fs: seq<Registered>, end: Spot, best: Option<ShapeHit>)
    requires BestBefore(runs, fs, end, best) && Near(runs, fs, end)
    requires best.None? || Beats(HitFrom(runs, fs, end), best.value)
    ensures BestBefore(runs, fs, end.(at := end.at + 1), Some(HitFrom(runs, fs, end)))
  {
    var end', h := end.(at := end.at + 1), HitFrom(runs, fs, end);
    NextOffset(end, end);
    forall q | Near(runs, fs, q) && Precedes(q, end') && q != end
      ensures Precedes(q, end) && Beats(h, HitFrom(runs, fs, q))
    {
      NextOffset(q, end);
      if best.Some? {
        var p :| Near(runs, fs, p) && Precedes(p, end) && HitFrom(runs, fs, p) == best.value && Leads(runs, fs, p, end);
        BeatsAlso(h, best.value, HitFrom(runs, fs, q));
      }
    }
    assert Leads(runs, fs, end, end');
  }

  lemma OldLeads(runs: seq<Run>, fs: seq<Registered>, end: Spot, best: ShapeHit)
    requires BestBefore(runs, fs, end, Some(best)) && Near(runs, fs, end) && !Beats(HitFrom(runs, fs, end), best)
    ensures BestBefore(runs, fs, end.(at := end.at + 1), Some(best))
  {
    var end' := end.(at := end.at + 1);
    var p :| Near(runs, fs, p) && Precedes(p, end) && HitFrom(runs, fs, p) == best && Leads(runs, fs, p, end);
    NextOffset(p, end);
    Trichotomy(p, end);
    hide Beats, HitFrom, Near;
    forall q | Near(runs, fs, q) && Precedes(q, end') && q != p
      ensures if Precedes(q, p) then Beats(HitFrom(runs, fs, p), HitFrom(runs, fs, q))
              else !Beats(HitFrom(runs, fs, q), HitFrom(runs, fs, p))
    {
      NextOffset(q, end);
    }
    assert Leads(runs, fs, p, end');
  }

  lemma NotNear(runs: seq<Run>, fs: seq<Registered>, end: Spot)
    requires !Near(runs, fs, end)
    ensures NothingBetween(runs, fs, end, end.(at := end.at + 1))
  {
    forall q ensures Precedes(q, end.(at := end.at + 1)) <==> Precedes(q, end) || q == end {
      NextOffset(q, end);
    }
  }

  lemma NoMoreOffsets(runs: seq<Run>, fs: seq<Registered>, end: Spot)
    requires 0 <= end.run < |runs| && 0 <= end.fmt < |fs| && end.at >= 0
    requires end.at + fs[end.fmt].fmt.Length() > |runs[end.run].chars|
    ensures NothingBetween(runs, fs, end, Spot(end.run, end.fmt + 1, 0))
  {
  }

  lemma NoMoreFormats(runs: seq<Run>, fs: seq<Registered>, run: int)
    ensures NothingBetween(runs, fs, Spot(run, |fs|, 0), Spot(run + 1, 0, 0))
  {
  }

  /** The number of characters the format does not allow where they stand. */
  method Distance(alpha: seq<string>, win: string) returns (d: nat)
    requires |win| == |alpha|
    ensures d == |Mismatches(alpha, win)|
  {
    d := 0;
    ghost var bad: set<int> := {};
    for k := 0 to |win|
      invariant forall j :: j in bad <==> 0 <= j < k && win[j] !in alpha[j]
      invariant d == |bad|
    {
      if win[k] !in alpha[k] {
        bad := bad + {k};
        d := d + 1;
      }
    }
    assert bad == Mismatches(alpha, win);
  }

  /** The innermost loop: slide one format along one run. */
  method BestWindow(runs: seq<Run>, fs: seq<Registered>, r: nat, j: nat, before: Option<ShapeHit>)
    returns (best: Option<ShapeHit>)
    requires r < |runs| && j < |fs| && BestBefore(runs, fs, Spot(r, j, 0), before)
    ensures BestBefore(runs, fs, Spot(r, j + 1, 0), best)
  {
    hide BestBefore, NothingBetween, Beats;
    best := before;
    var s, f := runs[r].chars, fs[j];
    var length := f.fmt.Length();
    if |s| < length {
      NoMoreOffsets(runs, fs, Spot(r, j, 0));
      BestStays(runs, fs, Spot(r, j, 0), Spot(r, j + 1, 0), best);
      return;
    }
    for i := 0 to |s| - length + 1
      invariant BestBefore(runs, fs, Spot(r, j, i), best)
    {
      ghost var here := Spot(r, j, i);
      var win := s[i..i + length];
      var d := Distance(f.fmt.alpha, win);
      if d > SHAPE_MAX_DIST {
        NotNear(runs, fs, here);
        BestStays(runs, fs, here, Spot(r, j, i + 1), best);
        continue;
      }
      var hit := ShapeHit(f.name, win, i, d, d == 0 && f.fmt.ok(win), r == |runs| - 1 && i + length == |s|, runs[r].last);
      assert hit == HitFrom(runs, fs, here);
      if best.None? || Beats(hit, best.value) {
        NewLeads(runs, fs, here, best);
        best := Some(hit);
      } else {
        OldLeads(runs, fs, here, best.value);
      }
    }
    NoMoreOffsets(runs, fs, Spot(r, j, |s| - length + 1));
    BestStays(runs, fs, Spot(r, j, |s| - length + 1), Spot(r, j + 1, 0), best);
  }

  /** `shape_cue`: the earliest best hit over all runs, formats and offsets. */
  method ShapeCueBest(runs: seq<Run>, fs: seq<Registered>) returns (best: Option<ShapeHit>)
    ensures BestOf(runs, fs, best)
  {
    best := None;
    for r := 0 to |runs|
      invariant BestBefore(runs, fs, Spot(r, 0, 0), best)
    {
      for j := 0 to |fs|
        invariant BestBefore(runs, fs, Spot(r, j, 0), best)
      {
        best := BestWindow(runs, fs, r, j, best);
      }
      NoMoreFormats(runs, fs, r);
      BestStays(runs, fs, Spot(r, |fs|, 0), Spot(r + 1, 0, 0), best);
    }
  }

  // ------------------------------------------------- what the best hit means

  /** Offset `i` of run `r` holds a window of format `j` with at most two characters the
      format does not allow there. */
  ghost predicate HitsAt(runs: seq<Run>, fs: seq<Registered>, r: int, j: int, i: int) {
    && 0 <= r < |runs| && 0 <= j < |fs| && 0 <= i && i + |fs[j].fmt.alpha| <= |runs[r].chars|
    && |Mismatches(fs[j].fmt.alpha, runs[r].chars[i..i + |fs[j].fmt.alpha|])| <= 2
  }

  lemma NoneMeans(runs: seq<Run>, fs: seq<Registered>, best: Option<ShapeHit>)
    requires BestOf(runs, fs, best)
    ensures best == None <==> forall r, j, i :: !HitsAt(runs, fs, r, j, i)
  {
    forall r, j, i ensures HitsAt(runs, fs, r, j, i) <==> Near(runs, fs, Spot(r, j, i)) {
    }
    if best.Some? {
      var p :| Near(runs, fs, p);
      assert HitsAt(runs, fs, p.run, p.fmt, p.at);
    }
  }

  /** Of two windows with so many mismatches and a check that passes or not, `h` is not
      the worse. */
  ghost predicate NoWorse(h: ShapeHit, alpha: seq<string>, ok: string -> bool, win: string)
    requires |win| == |alpha|
  {
    var d := |Mismatches(alpha, win)|;
    var passes := d == 0 && ok(win);
    && (passes ==> h.checksumOk)
    && (passes == h.checksumOk ==> h.distance <= d && (h.distance == d ==> |h.text| >= |win|))
  }

  ghost predicate AsGood(h: ShapeHit, alpha: seq<string>, ok: string -> bool, win: string)
    requires |win| == |alpha|
  {
    var d := |Mismatches(alpha, win)|;
    h.checksumOk == (d == 0 && ok(win)) && h.distance == d && |h.text| == |win|
  }

  lemma NotBeatenMeans(runs: seq<Run>, fs: seq<Registered>, r: int, j: int, i: int, h: ShapeHit)
    requires HitsAt(runs, fs, r, j, i)
    requires !Beats(HitFrom(runs, fs, Spot(r, j, i)), h) || Beats(h, HitFrom(runs, fs, Spot(r, j, i)))
    ensures NoWorse(h, fs[j].fmt.alpha, fs[j].fmt.ok, runs[r].chars[i..i + |fs[j].fmt.alpha|])
    ensures Beats(h, HitFrom(runs, fs, Spot(r, j, i))) ==>
      !AsGood(h, fs[j].fmt.alpha, fs[j].fmt.ok, runs[r].chars[i..i + |fs[j].fmt.alpha|])
  {
  }

  lemma HitsAreNear(runs: seq<Run>, fs: seq<Registered>, r: int, j: int, i: int)
    ensures HitsAt(runs, fs, r, j, i) <==> Near(runs, fs, Spot(r, j, i))
    ensures HitsAt(runs, fs, r, j, i) ==> Precedes(Spot(r, j, i), Spot(|runs|, 0, 0))
  {
  }

  /** The hit is one of the windows, no window is better by check, then by mismatches,
      then by length, and an earlier one is no equal. */
  lemma BestMeans(runs: seq<Run>, fs: seq<Registered>, h: ShapeHit) returns (r: int, j: int)
    requires BestOf(runs, fs, Some(h))
    ensures HitsAt(runs, fs, r, j, h.at) && h.fmt == fs[j].name
    ensures h.text == runs[r].chars[h.at..h.at + |fs[j].fmt.alpha|]
    ensures h.distance == |Mismatches(fs[j].fmt.alpha, h.text)| && h.checksumOk == (h.distance == 0 && fs[j].fmt.ok(h.text))
    ensures h.complete <==> r + 1 == |runs| && h.at + |h.text| == |runs[r].chars|
    ensures h.wordLast == runs[r].last
    ensures forall r', j', i' :: HitsAt(runs, fs, r', j', i') ==>
      NoWorse(h, fs[j'].fmt.alpha, fs[j'].fmt.ok, runs[r'].chars[i'..i' + |fs[j'].fmt.alpha|])
    ensures forall r', j', i' :: HitsAt(runs, fs, r', j', i') ==>
      (r' < r || (r' == r && (j' < j || (j' == j && i' < h.at)))) ==>
        !AsGood(h, fs[j'].fmt.alpha, fs[j'].fmt.ok, runs[r'].chars[i'..i' + |fs[j'].fmt.alpha|])
  {
    var end := Spot(|runs|, 0, 0);
    var p :| Near(runs, fs, p) && Precedes(p, end) && HitFrom(runs, fs, p) == h && Leads(runs, fs, p, end);
    r, j := p.run, p.fmt;
    hide Beats, NoWorse, AsGood;
    forall r', j', i' | HitsAt(runs, fs, r', j', i')
      ensures NoWorse(h, fs[j'].fmt.alpha, fs[j'].fmt.ok, runs[r'].chars[i'..i' + |fs[j'].fmt.alpha|])
      ensures r' < r || (r' == r && (j' < j || (j' == j && i' < h.at))) ==>
        !AsGood(h, fs[j'].fmt.alpha, fs[j'].fmt.ok, runs[r'].chars[i'..i' + |fs[j'].fmt.alpha|])
    {
      HitsAreNear(runs, fs, r', j', i');
      BeatsNothingAlike(h);
      NotBeatenMeans(runs, fs, r', j', i', h);
    }
  }

  lemma BeatsNothingAlike(h: ShapeHit)
    ensures !Beats(h, h)
  {
  }

  // ------------------------------------------------- the distance

  /** Every character is allowed where it stands. */
  ghost predicate Fitting(alpha: seq<string>, y: string) {
    |y| == |alpha| && forall k :: 0 <= k < |y| ==> y[k] in alpha[k]
  }

  ghost function Changes(x: string, y: string): set<int>
    requires |x| == |y|
  {
    set k | 0 <= k < |x| && x[k] != y[k]
  }

  /** The distance of a window is the least number of characters to change before every
      one is allowed where it stands. */
  lemma DistanceIsLeastChange(alpha: seq<string>, win: string)
    requires |win| == |alpha| && forall k :: 0 <= k < |alpha| ==> alpha[k] != []
    ensures exists y :: Fitting(alpha, y) && |Changes(win, y)| == |Mismatches(alpha, win)|
    ensures forall y :: Fitting(alpha, y) ==> |Changes(win, y)| >= |Mismatches(alpha, win)|
  {
    var y := seq(|win|, k requires 0 <= k < |win| => if win[k] in alpha[k] then win[k] else alpha[k][0]);
    assert Fitting(alpha, y) && Changes(win, y) == Mismatches(alpha, win);
    forall y | Fitting(alpha, y) ensures |Changes(win, y)| >= |Mismatches(alpha, win)| {
      InsideBound(Mismatches(alpha, win), Changes(win, y));
    }
  }

  // ------------------------------------------------------------ the commit gate

  /** A window of format `f` within the forgiveness budget. */
  ghost predicate HitOf(f: Registered, h: ShapeHit) {
    && h.fmt == f.name && |h.text| == f.fmt.Length()
    && h.distance == |Mismatches(f.fmt.alpha, h.text)| <= SHAPE_MAX_DIST
    && h.checksumOk == (h.distance == 0 && f.fmt.ok(h.text))
  }

  ghost predicate KnownHit(fs: seq<Registered>, h: ShapeHit) {
    exists i :: 0 <= i < |fs| && HitOf(fs[i], h)
  }

  /** The five formats: name, length and which check. */
  lemma FormatsExactly(k: Checks, j: nat)
    requires j < |ShapeFormats(k)|
    ensures |ShapeFormats(k)| == 5
    ensures var f := ShapeFormats(k)[j];
      f.name == ["iban", "vin", "luhn16", "iso6346", "nhs"][j]
      && f.fmt.Length() == [22, 17, 16, 11, 10][j]
      && f.fmt.ok == [k.iban, k.vin, k.luhn, k.iso, k.nhs][j]
  {
  }

  /** What may stand at a position: letters, digits, and for VIN both but I, O and Q. */
  lemma AlphabetsExactly(k: Checks, j: nat, i: nat, c: char)
    requires j < |ShapeFormats(k)| && i < ShapeFormats(k)[j].fmt.Length()
    ensures c in ShapeFormats(k)[j].fmt.alpha[i] <==>
      (if j == 0 then (if i < 2 || 4 <= i < 8 then 'A' <= c <= 'Z' else '0' <= c <= '9')
       else if j == 1 then '0' <= c <= '9' || ('A' <= c <= 'Z' && c != 'I' && c != 'O' && c != 'Q')
       else if j == 3 then
         (if i < 3 then 'A' <= c <= 'Z' else if i == 3 then c == 'U' || c == 'J' || c == 'Z' else '0' <= c <= '9')
       else '0' <= c <= '9')
  {
    Classes(c);
    VinCharacters(c);
    hide DIGITS, LETTERS, VIN_ALPHABET;
    match j
    case 0 => assert ShapeFormats(k)[0].fmt.alpha == IBAN_GB_ALPHA;
    case 1 => assert ShapeFormats(k)[1].fmt.alpha == VIN_ALPHA;
    case 2 => assert ShapeFormats(k)[2].fmt.alpha == LUHN16_ALPHA;
    case 3 => assert ShapeFormats(k)[3].fmt.alpha == ISO_ALPHA;
    case _ => assert ShapeFormats(k)[4].fmt.alpha == NHS_ALPHA;
  }

  lemma ConsecutiveCharacters(s: string, lo: char, c: char)
    requires |s| > 0 && forall i :: 0 <= i < |s| ==> s[i] as int == lo as int + i
    ensures c in s <==> lo as int <= c as int < lo as int + |s|
  {
    if lo as int <= c as int < lo as int + |s| {
      assert s[c as int - lo as int] == c;
    }
  }

  lemma VinLetters(c: char)
    ensures c in "ABCDEFGH" <==> 'A' <= c <= 'H'
    ensures c in "JKLMN" <==> 'J' <= c <= 'N'
    ensures c in "RSTUVWXYZ" <==> 'R' <= c <= 'Z'
  {
    ConsecutiveCharacters("ABCDEFGH", 'A', c);
    ConsecutiveCharacters("JKLMN", 'J', c);
    ConsecutiveCharacters("RSTUVWXYZ", 'R', c);
  }

  lemma VinParts()
    ensures VIN_ALPHABET == DIGITS + "ABCDEFGH" + "JKLMN" + ['P'] + "RSTUVWXYZ"
  {
  }

  lemma InOneOf(s: string, a: string, b: string, d: string, p: char, e: string, c: char)
    requires s == a + b + d + [p] + e
    ensures c in s <==> c in a || c in b || c in d || c == p || c in e
  {
  }

  lemma VinCharacters(c: char)
    ensures c in VIN_ALPHABET <==> '0' <= c <= '9' || ('A' <= c <= 'Z' && c != 'I' && c != 'O' && c != 'Q')
  {
    Classes(c);
    VinLetters(c);
    VinParts();
    hide VIN_ALPHABET, DIGITS;
    InOneOf(VIN_ALPHABET, DIGITS, "ABCDEFGH", "JKLMN", 'P', "RSTUVWXYZ", c);
  }

  const BARE_LENGTH_FORMATS := {"nhs", "luhn16", "vin"}

  lemma IsoHitIsEvidence(win: string)
    requires |win| == |ISO_ALPHA| && |Mismatches(ISO_ALPHA, win)| <= SHAPE_MAX_DIST
    ensures IsEvidence(ISO_ALPHA, win)
  {
    var B := {0, 1, 2};
    DigitsAreNotLetters();
    assert forall b :: b in B ==> ISO_ALPHA[b] == LETTERS;
    DigitTailIsEvidence(ISO_ALPHA, win, 4, B);
  }

  lemma IbanHitIsEvidence(win: string)
    requires |win| == |IBAN_GB_ALPHA| && |Mismatches(IBAN_GB_ALPHA, win)| <= SHAPE_MAX_DIST
    ensures IsEvidence(IBAN_GB_ALPHA, win)
  {
    var B := {0, 1, 4};
    DigitsAreNotLetters();
    assert forall b :: b in B ==> IBAN_GB_ALPHA[b] == LETTERS;
    DigitTailIsEvidence(IBAN_GB_ALPHA, win, 8, B);
  }

  lemma UniformAlphabets()
    ensures Uniform(VIN_ALPHA) && Uniform(LUHN16_ALPHA) && Uniform(NHS_ALPHA)
  {
  }

  /** For the five formats: a hit of NHS, Luhn-16 or VIN says nothing but the length
      of the run; a hit of ISO 6346 or IBAN always could have been refused. */
  lemma EvidenceByFormat(k: Checks, i: nat, h: ShapeHit)
    requires i < |ShapeFormats(k)| && HitOf(ShapeFormats(k)[i], h)
    ensures IsEvidence(ShapeFormats(k)[i].fmt.alpha, h.text) <==> h.fmt !in BARE_LENGTH_FORMATS
  {
    UniformAlphabets();
    hide IsEvidence, Mismatches, WorstArrangement, Uniform;
    match i
    case 0 => IbanHitIsEvidence(h.text);
    case 1 => UniformHitIsNoEvidence(VIN_ALPHA, h.text);
    case 2 => UniformHitIsNoEvidence(LUHN16_ALPHA, h.text);
    case 3 => IsoHitIsEvidence(h.text);
    case _ => UniformHitIsNoEvidence(NHS_ALPHA, h.text);
  }

  /** `_FMT_BY_NAME.get`. */
  method FormatIndex(fs: seq<Registered>, name: string) returns (i: nat)
    ensures i <= |fs| && (i < |fs| ==> fs[i].name == name)
    ensures forall j :: 0 <= j < i ==> fs[j].name != name
  {
    i := 0;
    while i < |fs| && fs[i].name != name
      invariant 0 <= i <= |fs| && forall j :: 0 <= j < i ==> fs[j].name != name
    {
      i := i + 1;
    }
  }

  lemma NamesAreDistinct(k: Checks, i: nat, j: nat)
    requires i < |ShapeFormats(k)| && j < |ShapeFormats(k)|
    requires ShapeFormats(k)[i].name == ShapeFormats(k)[j].name
    ensures i == j
  {
    NameShape(k, i);
    NameShape(k, j);
    hide ShapeFormats;
  }

  /** Length and first letter tell the names apart. */
  lemma NameShape(k: Checks, i: nat)
    requires i < |ShapeFormats(k)| && i < 5
    ensures var name := ShapeFormats(k)[i].name;
      |name| == [4, 3, 6, 7, 3][i] && name[0] == "ivlin"[i]
  {
  }

  lemma BestIsKnown(runs: seq<Run>, fs: seq<Registered>, best: Option<ShapeHit>)
    requires BestOf(runs, fs, best)
    ensures best.Some? ==> KnownHit(fs, best.value)
  {
    if best.Some? {
      var r, j := BestMeans(runs, fs, best.value);
      assert HitOf(fs[j], best.value);
    }
  }

  datatype Cue = Carrier | Spelling | Rhythm | Shape

  function Cues(carrier: bool, spelling: bool, rhythm: bool, shape: bool): set<Cue> {
    (if carrier then {Carrier} else {}) + (if spelling then {Spelling} else {})
      + (if rhythm then {Rhythm} else {}) + (if shape then {Shape} else {})
  }

  /** The independence test on a hit: does it count beside the rhythm cue? */
  method CountsBesideRhythm(k: Checks, hit: ShapeHit) returns (counts: bool)
    requires KnownHit(ShapeFormats(k), hit)
    ensures counts <==> hit.fmt !in BARE_LENGTH_FORMATS
  {
    var fs := ShapeFormats(k);
    ghost var i :| 0 <= i < |fs| && HitOf(fs[i], hit);
    EvidenceByFormat(k, i, hit);
    var j := FormatIndex(fs, hit.fmt);
    NamesAreDistinct(k, i, j);
    counts := ShapeIsEvidence(fs[j].fmt, hit.text);
  }

  /** COMMIT counts the cues that fired independently: rhythm and an unfalsifiable
      shape are one observation. */
  method CommitCues(cues: set<Cue>, k: Checks, shape: Option<ShapeHit>) returns (commit: set<Cue>)
    requires shape.Some? ==> KnownHit(ShapeFormats(k), shape.value)
    ensures commit == if Rhythm in cues && shape.Some? && shape.value.fmt in BARE_LENGTH_FORMATS
                      then cues - {Shape} else cues
  {
    commit := cues;
    if Rhythm in cues && shape.Some? {
      var counts := CountsBesideRhythm(k, shape.value);
      if !counts {
        commit := commit - {Shape};
      }
    }
  }

  method Collect(carrier: bool, spelling: bool, rhythm: bool, shape: bool) returns (cues: set<Cue>)
    ensures cues == Cues(carrier, spelling, rhythm, shape)
  {
    cues := {};
    if carrier { cues := cues + {Carrier}; }
    if spelling { cues := cues + {Spelling}; }
    if rhythm { cues := cues + {Rhythm}; }
    if shape { cues := cues + {Shape}; }
  }

  /** Two independent cues: rhythm and a shape hit of bare length are one. */
  ghost predicate GateOpen(carrier: bool, spelling: bool, rhythm: bool, shape: bool, bare: bool) {
    if carrier then spelling || rhythm || shape
    else if spelling then rhythm || shape
    else rhythm && shape && !bare
  }

  lemma BothLexicalCues(rhythm: bool, shape: bool, bare: bool)
    ensures var cues := Cues(true, true, rhythm, shape);
            |if rhythm && shape && bare then cues - {Shape} else cues| >= 2
  {
    var cues := Cues(true, true, rhythm, shape);
    InsideBound({Carrier, Spelling}, if rhythm && shape && bare then cues - {Shape} else cues);
  }

  lemma NoLexicalCue(rhythm: bool, shape: bool, bare: bool)
    ensures var cues := Cues(false, false, rhythm, shape);
            var commit := if rhythm && shape && bare then cues - {Shape} else cues;
            |commit| >= 2 <==> rhythm && shape && !bare
  {
    var cues := Cues(false, false, rhythm, shape);
    var commit := if rhythm && shape && bare then cues - {Shape} else cues;
    assert commit == if rhythm then (if shape && !bare then {Rhythm, Shape} else {Rhythm})
                     else if shape then {Shape} else {};
  }

  lemma OneLexicalCue(carrier: bool, rhythm: bool, shape: bool, bare: bool)
    ensures var cues := Cues(carrier, !carrier, rhythm, shape);
            var commit := if rhythm && shape && bare then cues - {Shape} else cues;
            |commit| >= 2 <==> rhythm || shape
  {
    var cues := Cues(carrier, !carrier, rhythm, shape);
    var commit := if rhythm && shape && bare then cues - {Shape} else cues;
    var lexical := if carrier then Carrier else Spelling;
    if rhythm || shape {
      InsideBound({lexical, if rhythm then Rhythm else Shape}, commit);
    } else {
      assert commit == {lexical};
    }
  }

  /** The commit gate by its cues: on a bare-length hit it takes a carrier or a spelling
      cue, while on ISO 6346 and IBAN rhythm and shape together suffice. */
  lemma GateOpensExactlyWhen(carrier: bool, spelling: bool, rhythm: bool, shape: bool, bare: bool)
    ensures var cues := Cues(carrier, spelling, rhythm, shape);
            var commit := if rhythm && shape && bare then cues - {Shape} else cues;
            |commit| >= COMMIT_MIN_CUES <==> GateOpen(carrier, spelling, rhythm, shape, bare)
  {
    var cues := Cues(carrier, spelling, rhythm, shape);
    var commit := if rhythm && shape && bare then cues - {Shape} else cues;
    hide Cues;
    if carrier && spelling {
      BothLexicalCues(rhythm, shape, bare);
    } else if carrier || spelling {
      OneLexicalCue(carrier, rhythm, shape, bare);
    } else {
      NoLexicalCue(rhythm, shape, bare);
    }
  }

  /** The cue and commit parts of `evaluate`. */
  method Evaluate(carrier: bool, spelling: bool, rhythm: bool, runs: seq<Run>, k: Checks)
    returns (cues: set<Cue>, commit: set<Cue>, shape: Option<ShapeHit>)
    ensures BestOf(runs, ShapeFormats(k), shape)
    ensures cues == Cues(carrier, spelling, rhythm, shape.Some?)
    ensures commit == if rhythm && shape.Some? && shape.value.fmt in BARE_LENGTH_FORMATS
                      then cues - {Shape} else cues
    ensures |commit| >= COMMIT_MIN_CUES <==>
      GateOpen(carrier, spelling, rhythm, shape.Some?, shape.Some? && shape.value.fmt in BARE_LENGTH_FORMATS)
  {
    hide ShapeFormats, BestOf, KnownHit;
    var fs := ShapeFormats(k);
    shape := ShapeCueBest(runs, fs);
    cues := Collect(carrier, spelling, rhythm, shape.Some?);
    BestIsKnown(runs, fs, shape);
    commit := CommitCues(cues, k, shape);
    GateOpensExactlyWhen(carrier, spelling, rhythm, shape.Some?,
                         shape.Some? && shape.value.fmt in BARE_LENGTH_FORMATS);
  }
}
