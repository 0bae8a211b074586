/** A run in which a human names a character and the next frame, with another value,
    loses it. A container number of a registered owner is heard, its first letter B with
    confidence one half; the check digit cannot tell that letter from V, and V is what
    the human says. No registry knows the owner so corrected, so the loop waits for
    another signal; before it comes, the recogniser has another number. */
module Abandonment {
  import opened Common
  import opened Decider
  import opened Journal
  import opened Posterior
  import opened Runner
  import opened SessionLoop
  import Iso6346
  import Repairs
  import ShapeCue
  import Solver
  import Sums

  const HEARD := "BMOU1234561"
  const NEXT := "BMOU1234577"

  function Container(): Fmt {
    Fmt("ISO6346", ISO_ALPHA, Iso6346.IsoOk)
  }

  function Confidence(i: int): real {
    if i == 0 then 0.5 else 1.0
  }

  function Confidences(): (confs: seq<real>)
    ensures |confs| == 11 && forall i :: 0 <= i < 11 ==> confs[i] == Confidence(i)
  {
    seq(11, i => Confidence(i))
  }

  /** The last word ended at time zero, and its turn is over. */
  function Uncertain(value: string): Window {
    Window(Container(), "iso6346", value, Confidences(), true, 0, 0, false)
  }

  /** One registered owner. */
  function Registered(name: string, value: string): bool {
    name == "iso6346" && |value| >= 3 && value[..3] == "BMO"
  }

  /** A single candidate disagrees with nothing. */
  function NoEntropy(marginal: map<char, real>): real { 0.0 }

  /** Silence since the last word, and whoever is asked says it is a V. */
  function Quiet(now: int): Around {
    Around(now, now, true, PerChar, None, Named('V'), None)
  }

  // ------------------------------------------------- the number heard

  lemma ContainerIsWellFormed()
    ensures Repairs.WellFormed(Container())
  {
    var k := ShapeCue.Checks(s => true, s => true, s => true, Iso6346.IsoOk, s => true);
    RegisteredFormatsAreWellFormed(k, 3);
  }

  lemma Appended(xs: seq<int>, v: int, ys: seq<int>)
    requires ys == xs + [v]
    ensures Sums.Sum(ys) == Sums.Sum(xs) + v
  {
    assert ys[..|ys| - 1] == xs;
  }

  lemma SumOfTen(t: seq<int>)
    requires |t| == 10
    ensures Sums.Sum(t) == t[0] + t[1] + t[2] + t[3] + t[4] + t[5] + t[6] + t[7] + t[8] + t[9]
  {
    hide Sums.Sum;
    Appended(t[..9], t[9], t);
    Appended(t[..8], t[8], t[..9]);
    Appended(t[..7], t[7], t[..8]);
    Appended(t[..6], t[6], t[..7]);
    Appended(t[..5], t[5], t[..6]);
    Appended(t[..4], t[4], t[..5]);
    Appended(t[..3], t[3], t[..4]);
    Appended(t[..2], t[2], t[..3]);
    Appended(t[..1], t[1], t[..2]);
    Appended([], t[0], t[..1]);
    EmptySum();
  }

  lemma EmptySum()
    ensures Sums.Sum([]) == 0
  {
  }

  lemma TermsOfHeard()
    ensures Iso6346.Terms(HEARD) == [12, 48, 104, 256, 16, 64, 192, 512, 1280, 3072]
  {
    assert Iso6346.Pow2(3) == 8 && Iso6346.Pow2(6) == 64 && Iso6346.Pow2(9) == 512;
  }

  lemma HeardIsValid()
    ensures Iso6346.IsoOk(HEARD)
  {
    TermsOfHeard();
    SumOfTen(Iso6346.Terms(HEARD));
  }
  // ------------------------------------------------- what the solver and the decider say

  ghost function HeardPosts(w: Weights): (posts: seq<map<char, real>>)
    ensures |posts| == 11
  {
    Repairs.Posts(Container(), HEARD, Confidences(), {}, w)
  }

  lemma HeardFits(i: nat)
    requires i < 11
    ensures HEARD[i] in ISO_ALPHA[i]
  {
    Classes(HEARD[i]);
  }

  lemma HeardMasses(w: Weights, i: nat)
    requires Floored(w) && i < 11
    ensures Mass(HeardPosts(w)[i], HEARD[i]) == Confidence(i)
  {
    ContainerIsWellFormed();
    HeardFits(i);
    HeardMass(ISO_ALPHA[i], HEARD[i], Confidence(i), w);
  }

  lemma {:induction false} HalfLikely(w: Weights, n: nat)
    requires Floored(w) && 0 < n <= 11
    ensures Solver.Likelihood(HeardPosts(w), HEARD, n) == 0.5
  {
    HeardMasses(w, n - 1);
    hide HeardPosts;
    if n > 1 {
      HalfLikely(w, n - 1);
    } else {
      assert Solver.Likelihood(HeardPosts(w), HEARD, 0) == 1.0;
    }
  }

  lemma {:induction false} LowBar(n: nat)
    requires n > 0
    ensures 0.0 < Solver.Power(Solver.MIN_PLAUS, n) <= Solver.MIN_PLAUS
  {
    if n == 1 {
      assert Solver.Power(Solver.MIN_PLAUS, 0) == 1.0;
    } else {
      LowBar(n - 1);
    }
  }

  /** It is the only candidate, and likely enough to stand. */
  lemma HeardIsClear(w: Weights, ranked: seq<(real, string)>, radius: nat)
    requires Floored(w) && Solver.Descending(HeardPosts(w), ranked)
    requires Solver.IsCandidateList(Container(), HeardPosts(w), HEARD, {}, Repairs.Seconds(ranked), radius)
    ensures |ranked| == 1 && ranked[0].1 == HEARD && Solver.Clear(ranked, 11)
  {
    HeardIsValid();
    Solver.RadiusMeans(Container(), HeardPosts(w), HEARD, {}, Repairs.Seconds(ranked), radius);
    hide HeardPosts, Iso6346.IsoOk;
    HalfLikely(w, 11);
    LowBar(11);
    assert ranked[0].1 == Repairs.Seconds(ranked)[0];
  }

  lemma HeardDoubt(w: Weights)
    requires Floored(w)
    ensures var zero: nat := 0; Solver.Doubtful(HeardPosts(w), HEARD, {}) == {zero}
    ensures Repairs.Edited(HEARD, HEARD) == {}
  {
    var zero: nat := 0;
    forall i: nat | i < 11 ensures Repairs.Doubt(HeardPosts(w), HEARD, i) == 1.0 - Confidence(i) {
      HeardMasses(w, i);
    }
    hide HeardPosts;
    assert Solver.Doubtful(HeardPosts(w), HEARD, {}) == {zero};
  }

  /** What the solver must say about it: valid, but the first letter is doubtful. */
  lemma HeardIsUnexplained(w: Weights, r: Solver.Result)
    requires Floored(w) && Solver.Decided(Container(), w, NoEntropy, HEARD, Confidences(), {}, r)
    ensures r.action == Solver.AskUnexplained && r.top == Some(HEARD)
    ensures r.unexplained == 1 && r.ambiguous == 0 && r.askPos == Some(0)
  {
    HeardIsClear(w, r.ranked, r.radius);
    HeardDoubt(w);
    hide Solver.Clear, Solver.IsCandidateList, Solver.Descending, Solver.Doubtful, Repairs.Edited, Repairs.Posts;
    hide Solver.TiesInOrder;
    var zero: nat := 0;
    assert zero in Solver.Doubtful(HeardPosts(w), HEARD, {}) && zero !in Repairs.Edited(HEARD, HEARD);
    assert r.doubtful - Repairs.Edited(HEARD, HEARD) == {zero};
    assert Solver.Ambiguous(NoEntropy, r.ranked, HEARD, {}) == {};
  }

  /** One doubtful position, a closed turn and a quiet line: it is asked about aloud. */
  lemma AskedAloud(w: Weights, r: Solver.Result, m: Moment)
    requires Shaped(Container(), HEARD, r) && m == Moment(2000, 0, 2000, true, true, 0, Prefix, true, true, PerChar)
    requires r.action == Solver.AskUnexplained && r.unexplained == 1 && r.ambiguous == 0 && r.askPos == Some(0)
    ensures Choice(Container(), w, HEARD, r, m, Unspent(), Speech([], false)) == Ask(0, None, Speak)
  {
    assert m.Age() == 2000;
  }

  lemma HeardIsAskedAbout(w: Weights, c: Candidate, r: Solver.Result, m: Moment, o: Outcome, top: string)
    requires Floored(w) && CandidateOk(c) && c == Opened(Uncertain(HEARD))
    requires Judgement(c, w, NoEntropy, Quiet(2000), r, m, Speech([], false), o, top) && m.signal == Prefix
    ensures o == Decided(Ask(0, None, Speak))
  {
    HeardIsValid();
    HeardIsUnexplained(w, r);
    hide Solver.Decided, Iso6346.IsoOk;
    AskedAloud(w, r, m);
  }

  /** Without a second signal the loop waits, whatever the solver says. */
  lemma WaitsForASignal(w: Weights, c: Candidate, e: Around, r: Solver.Result, m: Moment, s: Speech, o: Outcome,
                        top: string)
    requires CandidateOk(c) && c.window.lastWordEnd == 0 && c.budget.deferrals == 0
    requires Judgement(c, w, NoEntropy, e, r, m, s, o, top) && m.signal == NoSignal
    ensures o == Decided(Hold(NeedsSecondSignal, None)) && m.Age() == if e.now > 0 then e.now else 0
  {
  }

  lemma OwnerKnown(llm: Option<string>)
    ensures SecondSignal(Uncertain(HEARD), HEARD, None, None, Registered, llm) == Prefix
  {
  }

  lemma OwnerUnknown(corrected: string)
    requires corrected == HEARD[0 := 'V']
    ensures SecondSignal(Uncertain(HEARD), corrected, None, None, Registered, None) == NoSignal
  {
    assert corrected[..3][0] == 'V';
  }

  /** The check digit accepts the correction too, and the question offers it wherever
      the confusion table knows it. */
  lemma TheCheckIsBlind(w: Weights)
    requires w('V', 'B') > FLOOR
    ensures 'V' in Solver.BlindAlternatives(Container(), w, 0, 'B')
  {
    Classes('V');
    assert Container().alpha[0] == LETTERS;
    hide ISO_ALPHA, Iso6346.IsoOk;
    assert Solver.Residue('V') == Some(1) && Solver.Residue('B') == Some(1);
  }

  // ------------------------------------------------- the run

  ghost predicate Configured(s: Session) {
    Floored(s.w) && s.entropy == NoEntropy && s.registered == Registered && !s.identifies
  }

  /** The candidate of the first frame: no phrase names it, nothing identified it. */
  ghost predicate Plain(p: Pending)
    reads p
  {
    p.carrier == None && p.carrierFmt == None && p.llm == None && p.window == Uncertain(HEARD)
  }

  /** The first pass: a question, answered. */
  method FirstPass(s: Session)
    requires s.Valid() && s.pending != null && Configured(s) && s.speech.View() == Speech([], false)
    requires Plain(s.pending) && s.pending.View() == Opened(Uncertain(HEARD)) && s.log == [Opening(HEARD)]
    modifies s, s.speech, s.pending, s.pending.attempt
    ensures s.Valid() && s.pending == old(s.pending) && Plain(s.pending) && !s.over
    ensures s.pending.heard == HEARD[0 := 'V'] && s.pending.attempt.deferrals == 0
    ensures s.log == [Opening(HEARD), Asked(0, Named('V'))]
  {
    hide OpenIn, NamedIn, AsksIn, RereadsIn, RowsIn, DecidedIn, LogOk, Judgement, SecondSignal;
    hide Kept, WindowOk, Spaced, Linked;
    ghost var c, p := s.pending.View(), s.pending;
    var again, r, m, o, top := s.OnePass(Quiet(2000));
    OwnerKnown(p.llm);
    HeardIsAskedAbout(s.w, c, r, m, o, top);
    assert s.log == [Opening(HEARD)] + s.log[1..];
  }

  /** The second, four seconds on: the owner is unknown now, so the loop waits. */
  method SecondPass(s: Session)
    requires s.Valid() && s.pending != null && Configured(s) && Plain(s.pending)
    requires s.pending.heard == HEARD[0 := 'V'] && s.pending.attempt.deferrals == 0
    modifies s, s.speech, s.pending, s.pending.attempt
    ensures s.Valid() && s.pending == old(s.pending) && !s.over && s.log == old(s.log)
  {
    hide OpenIn, NamedIn, AsksIn, RereadsIn, RowsIn, DecidedIn, LogOk, Judgement, SecondSignal;
    ghost var c, p, speech := s.pending.View(), s.pending, s.speech.View();
    var again, r, m, o, top := s.OnePass(Quiet(6000));
    OwnerUnknown(c.heard);
    WaitsForASignal(s.w, c, Quiet(6000), r, m, speech, o, top);
    assert s.log == old(s.log) + s.log[|old(s.log)|..];
  }

  lemma WindowsAreOk()
    ensures WindowOk(Uncertain(HEARD)) && WindowOk(Uncertain(NEXT))
  {
    ContainerIsWellFormed();
  }

  /** The first frame with its two passes, and then one with another value: the named
      character is gone. */
  method NamedCanBeLost(w: Weights, suppress: bool) returns (s: Session, ghost before: seq<Note>)
    requires Floored(w)
    ensures before == [Opening(HEARD), Asked(0, Named('V'))]
    ensures s.Valid() && Heard(suppress, before, NEXT, s.log) && Abandons(before, s.log)
  {
    hide OpenIn, NamedIn, AsksIn, RereadsIn, RowsIn, DecidedIn, LogOk;
    WindowsAreOk();
    hide WindowOk, Kept, Linked, Spaced;
    s := new Session(w, NoEntropy, Registered, false, suppress);
    NothingYetOpen();
    s.Consider(Uncertain(HEARD), None, None);
    FirstPass(s);
    SecondPass(s);
    before := s.log;
    s.Hear(Uncertain(NEXT), None, None, k => Quiet(8000));
    HeardIsNamed();
    AbandonsExactlyWhen(suppress, before, NEXT, s.log);
  }

  lemma NothingYetOpen()
    ensures OpenIn([]) == None
  {
  }

  lemma HeardIsNamed()
    ensures var log := [Opening(HEARD), Asked(0, Named('V'))];
      OpenIn(log) == Some(HEARD) && NamedIn(log) != map[] && DecidedIn(log) == {}
  {
    var log := [Opening(HEARD), Asked(0, Named('V'))];
    assert log[..1] == [Opening(HEARD)] && log[..1][..0] == [];
    assert 0 in NamedIn(log) && DecidedIn(log[..1]) == {};
  }
}
