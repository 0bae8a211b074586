/** What to do about a solver result: write it, hold it, ask one character, re-read the
    span, flag it or hand it over, under per-identifier and per-session budgets. */
module Decider {
  import opened Common
  import opened Posterior
  import Repairs
  import Solver

  const BUDGET_QUESTIONS: nat := 2
  const BUDGET_SPANS: nat := 1
  const MAX_ITERATIONS: nat := BUDGET_QUESTIONS + BUDGET_SPANS + 1
  const SPOKEN_PER_IDENTIFIER: nat := 1
  const SPOKEN_PER_WINDOW: nat := 2
  const SPEECH_WINDOW_MS := 300000
  const SPEECH_COOLDOWN_MS := 20000
  const QUIET_MS := 700
  const POLITENESS_MS := 1500
  const TOO_LATE_MS := 10000
  const MAX_DEFERRALS: nat := 400

  datatype Rung = Write | Amber | Earcon | Speak
  datatype Regime = PerChar | Flat | Block | Unknown
  datatype Signal = Carrier | Prefix | Llm | NoSignal

  datatype Gate =
    | NeedsSecondSignal | TurnBoundary
    | TooLate | NotKnownWrong | TurnOpen | Incomplete | StillArriving | NotRequired
    | NotQuiet | Politeness | AlreadySpoke | Cooldown | Exhausted

  datatype Reason = LateHandover | NoCandidate | ImplausibleRepair | RegimeFlat | BudgetExhausted | StreamEnded

  datatype Moment = Moment(now: int, lastWordEnd: int, silence: int, turnEnded: bool, lengthComplete: bool,
                           trailing: nat, signal: Signal, required: bool, validAsHeard: bool, regime: Regime)
  {
    function Age(): nat { if now > lastWordEnd then now - lastWordEnd else 0 }
  }

  /** An `Ask` is spoken when no gate refused it, a `Span` always. */
  datatype Decision =
    | Hold(gate: Gate, about: Option<nat>)
    | Commit
    | Flag
    | Handover(why: Reason)
    | Span(spoken: bool)
    | Ask(position: nat, refusal: Option<Gate>, rung: Rung)
  {
    predicate SpokenAsk() { Ask? && refusal.None? }

    /** The agent opens its mouth. */
    predicate Spoken() { SpokenAsk() || (Span? && spoken) }

    /** The identifier stays open after an answer or a wait. */
    predicate Open() { Hold? || Span? || Ask? }
  }

  datatype Outcome = Raised | Decided(decision: Decision)

  // ------------------------------------------------- speech, per session

  datatype Speech = Speech(spokenAt: seq<int>, latched: bool)

  function Recent(times: seq<int>, now: int): nat {
    if |times| == 0 then 0 else
    Recent(times[..|times| - 1], now) + if now - times[|times| - 1] <= SPEECH_WINDOW_MS then 1 else 0
  }

  function CoolingDown(times: seq<int>, now: int): bool {
    |times| > 0 && now - times[|times| - 1] < SPEECH_COOLDOWN_MS
  }

  function Blocking(s: Speech, now: int): Option<Gate> {
    if s.latched then Some(Exhausted)
    else if CoolingDown(s.spokenAt, now) then Some(Cooldown)
    else if Recent(s.spokenAt, now) >= SPOKEN_PER_WINDOW then Some(Exhausted)
    else None
  }

  /** Asking leaves the session latched once the five-minute allowance is gone. */
  function AfterBlocking(s: Speech, now: int): Speech {
    s.(latched := Blocking(s, now) == Some(Exhausted))
  }

  class SpeechBudget {
    var spokenAt: seq<int>
    var latched: bool

    ghost function View(): Speech
      reads this
    {
      Speech(spokenAt, latched)
    }

    constructor ()
      ensures View() == Speech([], false)
    {
      spokenAt, latched := [], false;
    }

    method BlockingReason(now: int) returns (g: Option<Gate>)
      modifies this`latched
      ensures g == Blocking(old(View()), now) && View() == AfterBlocking(old(View()), now)
    {
      if latched {
        return Some(Exhausted);
      }
      if |spokenAt| > 0 && now - spokenAt[|spokenAt| - 1] < SPEECH_COOLDOWN_MS {
        return Some(Cooldown);
      }
      var recent := 0;
      for k := 0 to |spokenAt|
        invariant recent == Recent(spokenAt[..k], now)
      {
        assert spokenAt[..k + 1][..k] == spokenAt[..k];
        if now - spokenAt[k] <= SPEECH_WINDOW_MS {
          recent := recent + 1;
        }
      }
      assert spokenAt[..|spokenAt|] == spokenAt;
      if recent >= SPOKEN_PER_WINDOW {
        latched := true;
        return Some(Exhausted);
      }
      return None;
    }

    method NoteSpoken(now: int)
      modifies this`spokenAt
      ensures View() == old(View()).(spokenAt := old(spokenAt) + [now])
    {
      spokenAt := spokenAt + [now];
    }
  }

  // ------------------------------------------------- budgets, per identifier

  datatype Budget = Budget(questions: nat, spans: nat, spoken: nat, iterations: int, deferrals: nat,
                           locked: set<nat>, flagged: bool)
  {
    function QuestionsLeft(): int { BUDGET_QUESTIONS - questions }
    function SpansLeft(): int { BUDGET_SPANS - spans }
  }

  function Unspent(): Budget { Budget(0, 0, 0, 0, 0, {}, false) }

  class Attempt {
    var questions: nat
    var spans: nat
    var spoken: nat
    var iterations: int
    var deferrals: nat
    var locked: set<nat>
    var flagged: bool

    ghost function View(): Budget
      reads this
    {
      Budget(questions, spans, spoken, iterations, deferrals, locked, flagged)
    }

    constructor ()
      ensures View() == Unspent()
    {
      questions, spans, spoken, iterations, deferrals := 0, 0, 0, 0, 0;
      locked, flagged := {}, false;
    }

    /** One more pass, or an exception when the budgets cannot account for it. */
    method Step() returns (raised: bool)
      modifies this`iterations
      ensures View() == old(View()).(iterations := old(iterations) + 1)
      ensures raised <==> old(iterations) >= MAX_ITERATIONS
    {
      iterations := iterations + 1;
      raised := iterations > MAX_ITERATIONS;
    }

    method Defer() returns (raised: bool)
      modifies this`iterations, this`deferrals
      ensures View() == old(View()).(iterations := old(iterations) - 1, deferrals := old(deferrals) + 1)
      ensures raised <==> old(deferrals) >= MAX_DEFERRALS
    {
      iterations := iterations - 1;
      deferrals := deferrals + 1;
      raised := deferrals > MAX_DEFERRALS;
    }

    method SpendQuestion(aloud: bool)
      modifies this`questions, this`spoken
      ensures View() == old(View()).(questions := old(questions) + 1, spoken := old(spoken) + if aloud then 1 else 0)
    {
      questions := questions + 1;
      if aloud {
        spoken := spoken + 1;
      }
    }

    method Lock(position: nat)
      modifies this`locked
      ensures View() == old(View()).(locked := old(locked) + {position})
    {
      locked := locked + {position};
    }

    method SpendSpan()
      modifies this`spans, this`locked
      ensures View() == old(View()).(spans := old(spans) + 1, locked := {})
    {
      spans := spans + 1;
      locked := {};
    }
  }

  // ------------------------------------------------- may it be written silently

  datatype Refusal = FlatLetters | BlockRegime | NeedsBban

  predicate HasLetter(alphabet: string) {
    exists c :: c in alphabet && IsLetter(c)
  }

  function LetterPositions(fmt: Fmt): set<nat> {
    set i: nat | i < fmt.Length() && HasLetter(fmt.alpha[i])
  }

  predicate NamedIban(fmt: Fmt) { |fmt.name| >= 4 && fmt.name[..4] == "IBAN" }

  function SilentAcceptBlocked(fmt: Fmt, heard: string, top: string, m: Moment): Option<Refusal>
    requires |heard| == |top| == fmt.Length()
  {
    var edited := Repairs.Edited(heard, top);
    if edited == {} then None
    else if m.regime == Flat && edited * LetterPositions(fmt) != {} then Some(FlatLetters)
    else if m.regime == Block then Some(BlockRegime)
    else if NamedIban(fmt) then Some(NeedsBban)
    else None
  }

  // ------------------------------------------------- may it be said aloud

  /** Wrong, not merely unsure. */
  function KnowsItIsWrong(fmt: Fmt, w: Weights, heard: string, r: Solver.Result, m: Moment): bool
    requires |heard| == fmt.Length() && forall i :: i in r.doubtful ==> i < |heard|
  {
    || !m.validAsHeard
    || r.unexplained > 0
    || exists i :: i in r.doubtful && Solver.BlindAlternatives(fmt, w, i, heard[i]) != {}
  }

  /** The gates that concern the moment and the identifier, in the order they are tried;
      the session's own gate comes last. */
  function MomentGate(m: Moment, spoken: nat, knows: bool): Option<Gate> {
    if m.Age() > TOO_LATE_MS then Some(TooLate)
    else if !knows then Some(NotKnownWrong)
    else if !m.turnEnded then Some(TurnOpen)
    else if !m.lengthComplete then Some(Incomplete)
    else if m.trailing > 0 then Some(StillArriving)
    else if !m.required then Some(NotRequired)
    else if m.silence < QUIET_MS then Some(NotQuiet)
    else if m.silence < POLITENESS_MS then Some(Politeness)
    else if spoken >= SPOKEN_PER_IDENTIFIER then Some(AlreadySpoke)
    else None
  }

  function FirstGate(m: Moment, spoken: nat, s: Speech, knows: bool): Option<Gate> {
    var g := MomentGate(m, spoken, knows);
    if g.Some? then g else Blocking(s, m.now)
  }

  function AfterGates(m: Moment, spoken: nat, s: Speech, knows: bool): Speech {
    if MomentGate(m, spoken, knows).Some? then s else AfterBlocking(s, m.now)
  }

  method MaySpeak(m: Moment, attempt: Attempt, speech: SpeechBudget, knows: bool) returns (g: Option<Gate>)
    modifies speech`latched
    ensures g == FirstGate(m, attempt.spoken, old(speech.View()), knows)
    ensures speech.View() == AfterGates(m, attempt.spoken, old(speech.View()), knows)
  {
    if m.Age() > TOO_LATE_MS { return Some(TooLate); }
    if !knows { return Some(NotKnownWrong); }
    if !m.turnEnded { return Some(TurnOpen); }
    if !m.lengthComplete { return Some(Incomplete); }
    if m.trailing > 0 { return Some(StillArriving); }
    if !m.required { return Some(NotRequired); }
    if m.silence < QUIET_MS { return Some(NotQuiet); }
    if m.silence < POLITENESS_MS { return Some(Politeness); }
    if attempt.spoken >= SPOKEN_PER_IDENTIFIER { return Some(AlreadySpoke); }
    g := speech.BlockingReason(m.now);
  }

  // ------------------------------------------------- the decision

  /** What the solver hands over about a string of the format's length. */
  ghost predicate Shaped(fmt: Fmt, heard: string, r: Solver.Result) {
    && |heard| == fmt.Length()
    && (r.top.Some? ==> |r.top.value| == fmt.Length())
    && (forall i :: i in r.doubtful ==> i < |heard|)
    && (r.action == Solver.FailNoCand <==> r.ranked == [])
    && (r.top == None <==> r.ranked == [])
    && (r.askPos == None <==> r.ranked == [])
  }

  function TopOr(r: Solver.Result, heard: string): string {
    if r.top.Some? then r.top.value else heard
  }

  /** Positions still in play: more than the questions left calls for a re-read. */
  function Need(r: Solver.Result): nat {
    if r.ambiguous > r.unexplained + 1 then r.ambiguous else r.unexplained + 1
  }

  function Refused(fmt: Fmt, heard: string, r: Solver.Result, m: Moment): Option<Refusal>
    requires |heard| == |TopOr(r, heard)| == fmt.Length()
  {
    if r.action == Solver.Accept then SilentAcceptBlocked(fmt, heard, TopOr(r, heard), m) else None
  }

  predicate Degraded(why: Option<Refusal>) { why == Some(FlatLetters) || why == Some(BlockRegime) }

  /** Asking about one character: aloud, later, or on the screen. */
  function Question(position: nat, m: Moment, spoken: nat, s: Speech, knows: bool): Decision {
    var gate := FirstGate(m, spoken, s, knows);
    if gate == None then Ask(position, None, Speak)
    else if m.Age() <= TOO_LATE_MS && m.silence < POLITENESS_MS then Hold(gate.value, Some(position))
    else
      var tone := (spoken >= SPOKEN_PER_IDENTIFIER || AfterGates(m, spoken, s, knows).latched)
                  && m.Age() <= TOO_LATE_MS;
      Ask(position, gate, if tone then Earcon else Amber)
  }

  /** Too much ambiguity for the questions left, or confidence that cannot localise it,
      calls for a re-read of the span. */
  function Escalation(r: Solver.Result, m: Moment, b: Budget, s: Speech, degraded: bool, knows: bool): Decision
    requires r.askPos.Some?
  {
    if Need(r) > b.QuestionsLeft() || degraded then
      if b.SpansLeft() > 0 then Span(true) else Handover(if degraded then RegimeFlat else BudgetExhausted)
    else Question(r.askPos.value, m, b.spoken, s, knows)
  }

  /** Everything decided without escalating. */
  function Settled(r: Solver.Result, m: Moment, b: Budget, why: Option<Refusal>): Option<Decision> {
    if m.signal == NoSignal then Some(Hold(NeedsSecondSignal, None))
    else if !m.turnEnded || m.trailing > 0 then
      Some(if m.Age() > TOO_LATE_MS then Handover(LateHandover) else Hold(TurnBoundary, None))
    else if r.action == Solver.FailNoCand then Some(if b.SpansLeft() > 0 then Span(true) else Handover(NoCandidate))
    else if r.action == Solver.FlagImplausible then Some(if b.flagged then Handover(ImplausibleRepair) else Flag)
    else if r.action == Solver.Accept && why == None then Some(Commit)
    else if r.action == Solver.Accept && b.QuestionsLeft() <= 0 then
      Some(Handover(if Degraded(why) then RegimeFlat else BudgetExhausted))
    else None
  }

  function Choice(fmt: Fmt, w: Weights, heard: string, r: Solver.Result, m: Moment, b: Budget, s: Speech): Decision
    requires |heard| == |TopOr(r, heard)| == fmt.Length() && forall i :: i in r.doubtful ==> i < |heard|
    requires r.askPos.None? ==> r.action == Solver.FailNoCand
  {
    var why := Refused(fmt, heard, r, m);
    var d := Settled(r, m, b, why);
    if d.Some? then d.value else Escalation(r, m, b, s, Degraded(why), KnowsItIsWrong(fmt, w, heard, r, m))
  }

  /** The bookkeeping depends on the decision alone. */
  function Charged(b: Budget, d: Decision): Budget {
    match d
    case Hold(_, _) => b.(deferrals := b.deferrals + 1)
    case Flag => b.(iterations := b.iterations + 1, flagged := true)
    case Span(_) => b.(iterations := b.iterations + 1, spans := b.spans + 1, locked := {})
    case Ask(_, g, _) =>
      b.(iterations := b.iterations + 1, questions := b.questions + 1,
         spoken := b.spoken + if g == None then 1 else 0)
    case _ => b.(iterations := b.iterations + 1)
  }

  /** Speech is only spent on a spoken question, and may latch when one is refused. */
  ghost predicate SpeechStep(s: Speech, now: int, d: Decision, s': Speech) {
    if d.SpokenAsk() then Blocking(s, now) == None && s' == s.(spokenAt := s.spokenAt + [now])
    else s' == s || s' == AfterBlocking(s, now)
  }

  /** The session's speech after the decision: a spoken question is noted; one that was
      weighed and not spoken may have shown that speech is spent. */
  ghost function SpeechAfter(s: Speech, m: Moment, spoken: nat, knows: bool, d: Decision): Speech {
    if d.SpokenAsk() then s.(spokenAt := s.spokenAt + [m.now])
    else if d.Ask? || (d.Hold? && d.about.Some?) then AfterGates(m, spoken, s, knows)
    else s
  }

  ghost predicate WouldRaise(b: Budget, d: Decision) {
    b.iterations >= MAX_ITERATIONS || (d.Hold? && b.deferrals >= MAX_DEFERRALS)
  }

  /** This pass has been counted against the budget `b`, and nothing else has. */
  ghost predicate Stepped(b: Budget, now: Budget) {
    now == b.(iterations := b.iterations + 1)
  }

  /** Un-charges the pass that only waited. */
  method Wait(attempt: Attempt, d: Decision, ghost b: Budget) returns (o: Outcome)
    requires d.Hold? && Stepped(b, attempt.View())
    modifies attempt`iterations, attempt`deferrals
    ensures attempt.View() == Charged(b, d) && o == if b.deferrals >= MAX_DEFERRALS then Raised else Decided(d)
  {
    var raised := attempt.Defer();
    o := if raised then Raised else Decided(d);
  }

  /** The spoken question, the wait for the politeness delay, or the one on the screen. */
  method AskOrWait(position: nat, m: Moment, attempt: Attempt, speech: SpeechBudget, knows: bool,
                   ghost b: Budget, ghost s: Speech)
    returns (o: Outcome)
    requires Stepped(b, attempt.View()) && speech.View() == s
    modifies attempt, speech
    ensures var d := Question(position, m, b.spoken, s, knows);
      attempt.View() == Charged(b, d) && SpeechStep(s, m.now, d, speech.View())
      && speech.View() == SpeechAfter(s, m, b.spoken, knows, d)
      && o == if d.Hold? && b.deferrals >= MAX_DEFERRALS then Raised else Decided(d)
  {
    var gate := MaySpeak(m, attempt, speech, knows);
    var tone := (attempt.spoken >= SPOKEN_PER_IDENTIFIER || speech.latched) && m.Age() <= TOO_LATE_MS;
    var d := if gate == None then Ask(position, None, Speak)
             else if m.Age() <= TOO_LATE_MS && m.silence < POLITENESS_MS then Hold(gate.value, Some(position))
             else Ask(position, gate, if tone then Earcon else Amber);
    assert d == Question(position, m, b.spoken, s, knows);
    if d.Hold? {
      o := Wait(attempt, d, b);
      return;
    }
    if gate == None {
      speech.NoteSpoken(m.now);
    }
    attempt.SpendQuestion(gate == None);
    o := Decided(d);
  }

  /** The part of `decide` that ends or waits without escalating. */
  method Settle(r: Solver.Result, m: Moment, attempt: Attempt, why: Option<Refusal>, ghost b: Budget)
    returns (o: Option<Outcome>)
    requires r.action == Solver.FailNoCand <==> r.ranked == []
    requires Stepped(b, attempt.View())
    modifies attempt
    ensures var d := Settled(r, m, b, why);
      if d == None then o == None && Stepped(b, attempt.View())
      else attempt.View() == Charged(b, d.value)
           && o == Some(if d.value.Hold? && b.deferrals >= MAX_DEFERRALS then Raised else Decided(d.value))
  {
    if m.signal == NoSignal {
      var waited := Wait(attempt, Hold(NeedsSecondSignal, None), b);
      return Some(waited);
    }
    if !m.turnEnded || m.trailing > 0 {
      if m.Age() > TOO_LATE_MS {
        return Some(Decided(Handover(LateHandover)));
      }
      var waited := Wait(attempt, Hold(TurnBoundary, None), b);
      return Some(waited);
    }
    if r.action == Solver.FailNoCand || |r.ranked| == 0 {
      if attempt.spans < BUDGET_SPANS {
        attempt.SpendSpan();
        return Some(Decided(Span(true)));
      }
      return Some(Decided(Handover(NoCandidate)));
    }
    if r.action == Solver.FlagImplausible {
      if attempt.flagged {
        return Some(Decided(Handover(ImplausibleRepair)));
      }
      attempt.flagged := true;
      return Some(Decided(Flag));
    }
    if r.action == Solver.Accept {
      if why == None {
        return Some(Decided(Commit));
      }
      if BUDGET_QUESTIONS - attempt.questions <= 0 {
        return Some(Decided(Handover(if Degraded(why) then RegimeFlat else BudgetExhausted)));
      }
    }
    return None;
  }

  method Escalate(r: Solver.Result, m: Moment, attempt: Attempt, speech: SpeechBudget, degraded: bool, knows: bool,
                  ghost b: Budget, ghost s: Speech)
    returns (o: Outcome)
    requires r.askPos.Some? && Stepped(b, attempt.View()) && speech.View() == s
    modifies attempt, speech
    ensures var d := Escalation(r, m, b, s, degraded, knows);
      attempt.View() == Charged(b, d) && SpeechStep(s, m.now, d, speech.View())
      && speech.View() == SpeechAfter(s, m, b.spoken, knows, d)
      && o == if d.Hold? && b.deferrals >= MAX_DEFERRALS then Raised else Decided(d)
  {
    if Need(r) > BUDGET_QUESTIONS - attempt.questions || degraded {
      if attempt.spans < BUDGET_SPANS {
        attempt.SpendSpan();
        return Decided(Span(true));
      }
      return Decided(Handover(if degraded then RegimeFlat else BudgetExhausted));
    }
    // The source tests once more for spent questions; Need is at least one, so they are not.
    o := AskOrWait(r.askPos.value, m, attempt, speech, knows, b, s);
  }

  /** `decide`: the choice, its charge, and what it costs the session's speech. */
  method Decide(fmt: Fmt, w: Weights, heard: string, r: Solver.Result, m: Moment, attempt: Attempt,
                speech: SpeechBudget)
    returns (o: Outcome)
    requires Shaped(fmt, heard, r)
    modifies attempt, speech
    ensures var b, s := old(attempt.View()), old(speech.View());
      var d := Choice(fmt, w, heard, r, m, b, s);
      (o == if WouldRaise(b, d) then Raised else Decided(d))
      && (o.Decided? ==> attempt.View() == Charged(b, d) && SpeechStep(s, m.now, d, speech.View()))
      && speech.View() == (if b.iterations >= MAX_ITERATIONS then s
                           else SpeechAfter(s, m, b.spoken, KnowsItIsWrong(fmt, w, heard, r, m), d))
    ensures o.Raised? ==>
      speech.View() == old(speech.View()) || speech.View() == AfterBlocking(old(speech.View()), m.now)
    ensures o.Raised? ==>
      attempt.View() == old(attempt.View()).(iterations := attempt.iterations, deferrals := attempt.deferrals)
  {
    ghost var b, s := attempt.View(), speech.View();
    var raised := attempt.Step();
    if raised {
      return Raised;
    }
    var why := Refused(fmt, heard, r, m);
    var settled := Settle(r, m, attempt, why, b);
    if settled.Some? {
      return settled.value;
    }
    o := Escalate(r, m, attempt, speech, Degraded(why), KnowsItIsWrong(fmt, w, heard, r, m), b, s);
  }

  // ------------------------------------------------- what the decision means

  /** A commit is an accept with a second signal on a closed turn, whose edits, if any,
      the confidence regime can localise and a second constraint does not forbid. */
  lemma CommitMeans(fmt: Fmt, w: Weights, heard: string, r: Solver.Result, m: Moment, b: Budget, s: Speech)
    requires Shaped(fmt, heard, r)
    ensures Choice(fmt, w, heard, r, m, b, s) == Commit <==>
      && r.action == Solver.Accept && m.signal != NoSignal && m.turnEnded && m.trailing == 0
      && (TopOr(r, heard) != heard ==>
           && !NamedIban(fmt) && m.regime != Block
           && (m.regime == Flat ==> forall i: nat :: i < |heard| && TopOr(r, heard)[i] != heard[i] ==>
                !HasLetter(fmt.alpha[i])))
  {
    var top := TopOr(r, heard);
    var edited := Repairs.Edited(heard, top);
    assert edited == {} <==> top == heard by {
      if edited == {} {
        forall i: nat | i < |heard| ensures top[i] == heard[i] {
          assert i !in edited;
        }
      }
    }
    var letters := edited * LetterPositions(fmt);
    assert letters == {} <==> forall i: nat :: i < |heard| && top[i] != heard[i] ==> !HasLetter(fmt.alpha[i]) by {
      if letters == {} {
        forall i: nat | i < |heard| && top[i] != heard[i] ensures !HasLetter(fmt.alpha[i]) {
          assert i in edited && i !in letters;
        }
      }
    }
  }

  /** The seven gates of speech, as one conjunction. */
  ghost predicate MayBeSaid(m: Moment, b: Budget, s: Speech, knows: bool) {
    && m.Age() <= TOO_LATE_MS
    && knows
    && m.turnEnded && m.lengthComplete && m.trailing == 0
    && m.required
    && m.silence >= QUIET_MS
    && m.silence >= POLITENESS_MS
    && b.spoken < SPOKEN_PER_IDENTIFIER && !s.latched
    && !CoolingDown(s.spokenAt, m.now) && Recent(s.spokenAt, m.now) < SPOKEN_PER_WINDOW
  }

  /** No gate refuses exactly when every one of them is open. */
  lemma EveryGateCounts(m: Moment, b: Budget, s: Speech, knows: bool)
    ensures FirstGate(m, b.spoken, s, knows) == None <==> MayBeSaid(m, b, s, knows)
  {
  }

  /** A question that is asked is asked aloud exactly when every gate is open. */
  lemma SpokenExactlyWhen(fmt: Fmt, w: Weights, heard: string, r: Solver.Result, m: Moment, b: Budget, s: Speech)
    requires Shaped(fmt, heard, r) && Choice(fmt, w, heard, r, m, b, s).Ask?
    ensures Choice(fmt, w, heard, r, m, b, s).SpokenAsk() <==>
      MayBeSaid(m, b, s, KnowsItIsWrong(fmt, w, heard, r, m))
    ensures m.signal != NoSignal && Need(r) <= b.QuestionsLeft()
  {
    EveryGateCounts(m, b, s, KnowsItIsWrong(fmt, w, heard, r, m));
  }

  /** A span is spoken, and yet no speech is charged for it, neither to the identifier
      nor to the session. */
  lemma SpanIsSpokenUncharged(fmt: Fmt, w: Weights, heard: string, r: Solver.Result, m: Moment, b: Budget, s: Speech,
                              s': Speech)
    requires Shaped(fmt, heard, r) && Choice(fmt, w, heard, r, m, b, s).Span?
    requires SpeechStep(s, m.now, Choice(fmt, w, heard, r, m, b, s), s')
    ensures Choice(fmt, w, heard, r, m, b, s).Spoken()
    ensures Charged(b, Choice(fmt, w, heard, r, m, b, s)).spoken == b.spoken && s'.spokenAt == s.spokenAt
  {
  }

  ghost predicate Within(b: Budget) {
    && b.questions <= BUDGET_QUESTIONS && b.spans <= BUDGET_SPANS
    && b.spoken <= SPOKEN_PER_IDENTIFIER && b.spoken <= b.questions
    && b.iterations == b.questions + b.spans
  }

  /** The budgets hold after every decision that leaves the identifier open; each of
      those either waits or spends, so a fifth iteration is never reached. */
  lemma BudgetsHold(fmt: Fmt, w: Weights, heard: string, r: Solver.Result, m: Moment, b: Budget, s: Speech)
    requires Shaped(fmt, heard, r) && Within(b)
    ensures b.iterations < MAX_ITERATIONS
    ensures var d := Choice(fmt, w, heard, r, m, b, s);
      var b' := Charged(b, d);
      (d.Open() ==> Within(b'))
      && (!d.Open() ==> b'.questions == b.questions && b'.spans == b.spans && b'.iterations <= MAX_ITERATIONS)
      && (d.Ask? || d.Span? ==> b'.QuestionsLeft() + b'.SpansLeft() == b.QuestionsLeft() + b.SpansLeft() - 1)
  {
  }

  // ------------------------------------------------- speech over a session

  /** Twenty seconds between any two, and never three in five minutes. */
  ghost predicate Spaced(times: seq<int>) {
    && (forall j, k :: 0 <= j < k < |times| ==> times[k] - times[j] >= SPEECH_COOLDOWN_MS)
    && (forall j, k :: 0 <= j && j + 2 <= k < |times| ==> times[k] - times[j] > SPEECH_WINDOW_MS)
  }

  /** Speech is only ever added, and to a latched session not even that. */
  ghost predicate Later(s: Speech, s': Speech) {
    s.spokenAt <= s'.spokenAt && (s.latched ==> s' == s)
  }

  lemma LaterChains(s: Speech, s': Speech, s'': Speech)
    requires Later(s, s') && Later(s', s'')
    ensures Later(s, s'')
  {
  }

  lemma {:induction false} RecentCounts(times: seq<int>, now: int, j: nat, k: nat)
    requires j < k < |times| && now - times[j] <= SPEECH_WINDOW_MS && now - times[k] <= SPEECH_WINDOW_MS
    ensures Recent(times, now) >= 2
  {
    var n := |times| - 1;
    if k < n {
      RecentCounts(times[..n], now, j, k);
    } else {
      RecentHasOne(times[..n], now, j);
    }
  }

  lemma {:induction false} RecentHasOne(times: seq<int>, now: int, j: nat)
    requires j < |times| && now - times[j] <= SPEECH_WINDOW_MS
    ensures Recent(times, now) >= 1
  {
    var n := |times| - 1;
    if j < n {
      RecentHasOne(times[..n], now, j);
    }
  }

  /** Whatever the clock does, speaking keeps the spacing, and a latched session never
      speaks again. */
  lemma SpeechStaysSpaced(s: Speech, now: int, d: Decision, s': Speech)
    requires Spaced(s.spokenAt) && SpeechStep(s, now, d, s')
    ensures Spaced(s'.spokenAt) && Later(s, s')
    ensures s.latched ==> !d.SpokenAsk()
  {
    if d.SpokenAsk() {
      var times, n := s.spokenAt, |s.spokenAt|;
      forall j | 0 <= j < n ensures now - times[j] >= SPEECH_COOLDOWN_MS {
        assert times[n - 1] - times[j] >= 0 by {
          assert j < n - 1 ==> times[n - 1] - times[j] >= SPEECH_COOLDOWN_MS;
        }
      }
      forall j | 0 <= j < n - 1 ensures now - times[j] > SPEECH_WINDOW_MS {
        if now - times[j] <= SPEECH_WINDOW_MS {
          assert times[n - 1] - times[j] >= SPEECH_COOLDOWN_MS;
          RecentCounts(times, now, j, n - 1);
        }
      }
    }
  }
}
