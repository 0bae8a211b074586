/** The session loop over its mutable state: at most one open candidate, the strings
    already decided, and the rows written, all tied to the session's journal. */
module SessionLoop {
  import opened Common
  import opened Posterior
  import opened Decider
  import opened Journal
  import opened Runner
  import ShapeCue
  import Solver

  /** One identifier under consideration. `named` remembers what a human said since the
      last re-read. */
  class Pending {
    const attempt: Attempt
    const carrier: Option<Phrase>
    const carrierFmt: Option<string>
    var window: Window
    var heard: string
    var confs: seq<real>
    var lockedAny: bool
    var llmAsked: bool
    var llm: Option<string>
    ghost var named: map<nat, char>

    ghost function View(): Candidate
      reads this, attempt
    {
      Candidate(window, heard, confs, attempt.View(), lockedAny, named)
    }

    constructor (win: Window, carrier: Option<Phrase>, carrierFmt: Option<string>)
      ensures View() == Opened(win) && fresh(attempt)
      ensures this.carrier == carrier && this.carrierFmt == carrierFmt && !llmAsked && llm == None
    {
      attempt := new Attempt();
      this.carrier, this.carrierFmt := carrier, carrierFmt;
      window, heard, confs := win, win.value, win.confs;
      lockedAny, llmAsked, llm, named := false, false, None, map[];
    }

    method Refresh(win: Window)
      modifies this`window, this`heard, this`confs
      ensures View() == Refreshed(old(View()), win)
    {
      window := win;
      if !lockedAny {
        heard, confs := win.value, win.confs;
      }
    }

    method TakeAnswer(position: nat, reply: Reply)
      requires position < |heard| == |confs|
      modifies this`heard, this`confs, this`lockedAny, this`named, attempt`locked
      ensures View() == Answered(old(View()), position, reply)
    {
      match reply {
        case Named(x) =>
          heard, confs := heard[position := x], confs[position := ANSWER_CONF];
          attempt.Lock(position);
          lockedAny, named := true, named[position := x];
        case No =>
          confs := confs[position := NO_CONF];
        case _ =>
      }
    }

    method TakeReread(value: string, weights: seq<real>)
      modifies this`heard, this`confs, this`lockedAny, this`named
      ensures View() == Reread(old(View()), value, weights)
    {
      heard, confs, lockedAny, named := value, weights, false, map[];
    }
  }

  /** Whether the identification has been asked for, and what it named, once a pass has
      begun: it is asked for once, and only while nothing else gives a signal. */
  ghost function Identification(win: Window, heard: string, carrier: Option<Phrase>, carrierFmt: Option<string>,
                                registered: Registry, identifies: bool, asked: bool, llm: Option<string>,
                                e: Around): (bool, Option<string>)
    requires |heard| == win.fmt.Length()
  {
    if identifies && !asked && win.complete && SecondSignal(win, heard, carrier, carrierFmt, registered, llm) == NoSignal
    then (true, e.identified) else (asked, llm)
  }

  /** The open candidate is the one in the journal. */
  ghost predicate Linked(log: seq<Note>, c: Candidate) {
    && OpenIn(log) == Some(c.window.value) && NamedIn(log) == c.named
    && AsksIn(log) == c.budget.questions && RereadsIn(log) == c.budget.spans
  }

  /** Enough to hand the candidate over. */
  ghost predicate Presentable(log: seq<Note>, c: Candidate) {
    && |c.heard| == c.window.fmt.Length() && Linked(log, c)
    && c.budget.questions <= BUDGET_QUESTIONS && c.budget.spans <= BUDGET_SPANS
    && |c.named.Keys| <= c.budget.questions
  }

  /** What a decision may charge the candidate. */
  ghost predicate Charges(c: Candidate, d: Decision) {
    && (d.Open() ==> Within(Charged(c.budget, d)))
    && (d.Ask? ==> d.position < |c.heard| && d.position !in c.budget.locked)
  }

  /** An exception has only touched the pass and deferral counters. */
  ghost predicate RaisedFrom(c: Candidate, c': Candidate) {
    c' == c.(budget := c.budget.(iterations := c'.budget.iterations, deferrals := c'.budget.deferrals))
  }

  /** `_moment`, given the second signal. */
  ghost function MomentOf(c: Candidate, e: Around, signal: Signal): Moment {
    Moment(e.now, c.window.lastWordEnd, e.silence, e.turnEnded, |c.heard| == c.window.fmt.Length(), c.window.trailing,
           signal, signal != NoSignal, c.window.fmt.ok(c.heard),
           if c.window.blockConfidence then Block else e.measured)
  }

  /** The solver looked at the candidate and the decider at what it found. */
  ghost predicate Judgement(c: Candidate, w: Weights, entropy: Solver.Entropy, e: Around, r: Solver.Result, m: Moment,
                            s: Speech, o: Outcome, top: string)
    requires CandidateOk(c)
  {
    && m == MomentOf(c, e, m.signal)
    && Solver.Decided(c.window.fmt, w, entropy, c.heard, c.confs, c.budget.locked, r)
    && Shaped(c.window.fmt, c.heard, r) && top == TopOr(r, c.heard)
    && (o.Decided? ==> o.decision == Choice(c.window.fmt, w, c.heard, r, m, c.budget, s))
    && (o.Raised? <==>
         Choice(c.window.fmt, w, c.heard, r, m, c.budget, s).Hold? && c.budget.deferrals >= MAX_DEFERRALS)
  }

  ghost predicate CommitReady(c: Candidate, top: string, signal: Signal) {
    |top| == |c.window.value|
    && RowOk(CommittedRow(c.window, top, signal, c.budget.questions, c.budget.spans), c.named)
  }

  /** The row of a terminal decision. */
  ghost function RowFor(d: Decision, c: Candidate, top: string, signal: Signal): Row
    requires !d.Open() && (d == Commit ==> |top| == |c.window.value|)
  {
    match d
    case Commit => CommittedRow(c.window, top, signal, c.budget.questions, c.budget.spans)
    case Flag => FlaggedRow(c.window, signal, c.budget.questions, c.budget.spans)
    case Handover(why) => HandoverRow(c.window, signal, c.budget.questions, c.budget.spans, why)
  }

  /** The re-read came back and fits the format. */
  ghost predicate Refits(c: Candidate, e: Around) {
    e.reread.Some? && |e.reread.value.0| == c.window.fmt.Length()
  }

  /** Why an identifier still open at the end is handed over: it had grown too old, or the
      stream ended. */
  function WhyEnded(now: int, win: Window): Reason {
    if now - win.lastWordEnd > 10000 then LateHandover else StreamEnded
  }

  /** One row, unverified. */
  ghost predicate IsHandover(notes: seq<Note>) {
    |notes| == 1 && notes[0].Written? && notes[0].row.status == Unverified
  }

  /** What the loop does about each decision, and notes in its journal. */
  ghost predicate Obeys(o: Outcome, c: Candidate, e: Around, top: string, m: Moment, again: bool, open: bool,
                        c': Candidate, notes: seq<Note>)
    requires o == Decided(Commit) ==> |top| == |c.window.value|
  {
    match o
    case Raised => !again && !open && IsHandover(notes) && notes[0].row.why == Some(WhyEnded(e.now, c.window))
    case Decided(d) =>
      if d.Hold? then
        !again && (open <==> m.Age() <= TOO_LATE_MS) && if open then notes == [] else IsHandover(notes) && notes[0].row.why == Some(LateHandover)
      else if d.Ask? then again && Continues(c, d, e, c') && notes == [Asked(d.position, e.reply)]
      else if d.Span? && Refits(c, e) then again && Continues(c, d, e, c') && notes == [Rereading(true)]
      else if d.Span? then
        !again && !open && |notes| == 2 && notes[0] == Rereading(false)
        && notes[1].Written? && notes[1].row.why == Some(BudgetExhausted)
      else !again && !open && notes == [Written(RowFor(d, c, top, m.signal))]
  }

  lemma OpeningIsOk(win: Window, c: Candidate)
    requires WindowOk(win) && c == Opened(win)
    ensures CandidateOk(c)
  {
    assert c.budget.locked == {} && c.named.Keys == {};
  }

  ghost predicate Spent(c: Candidate, c': Candidate) {
    c'.budget.questions + c'.budget.spans == c.budget.questions + c.budget.spans + 1
  }

  ghost predicate Waited(c: Candidate, c': Candidate) {
    c' == c.(budget := c.budget.(deferrals := c.budget.deferrals + 1))
  }

  lemma AskIsOk(suppress: bool, log: seq<Note>, c: Candidate, d: Decision, reply: Reply)
    requires CandidateOk(c) && Linked(log, c) && d.Ask? && Charges(c, d)
    ensures NoteOk(suppress, log, Asked(d.position, reply))
  {
    hide OpenIn, NamedIn, AsksIn, RereadsIn, RowsIn, DecidedIn, LogOk, RowOk, WindowOk;
  }

  /** A question may be noted, and leaves candidate and journal agreeing. */
  lemma AskIsNoted(suppress: bool, log: seq<Note>, c: Candidate, d: Decision, reply: Reply, c': Candidate)
    requires LogOk(suppress, log) && CandidateOk(c) && Linked(log, c) && d.Ask? && Charges(c, d)
    requires c' == Answered(c.(budget := Charged(c.budget, d)), d.position, reply)
    ensures var log' := log + [Asked(d.position, reply)];
      LogOk(suppress, log') && Linked(log', c')
      && RowsIn(log') == RowsIn(log) && DecidedIn(log') == DecidedIn(log)
  {
    AskIsOk(suppress, log, c, d, reply);
    hide OpenIn, NamedIn, AsksIn, RereadsIn, RowsIn, DecidedIn, LogOk, NoteOk, CandidateOk;
    LogGrows(suppress, log, Asked(d.position, reply));
    AfterNote(log, Asked(d.position, reply));
  }

  /** So may a re-read, after which nothing is named. */
  lemma RereadIsNoted(suppress: bool, log: seq<Note>, c: Candidate, d: Decision, fits: bool)
    requires LogOk(suppress, log) && CandidateOk(c) && Linked(log, c) && d.Span? && Charges(c, d)
    ensures var log' := log + [Rereading(fits)];
      LogOk(suppress, log') && Linked(log', c.(budget := Charged(c.budget, d), named := map[]))
      && RowsIn(log') == RowsIn(log) && DecidedIn(log') == DecidedIn(log)
  {
    hide OpenIn, NamedIn, AsksIn, RereadsIn, RowsIn, DecidedIn, LogOk, RowOk;
    LogGrows(suppress, log, Rereading(fits));
    AfterNote(log, Rereading(fits));
  }

  /** Nothing a decision leads to opens another candidate. */
  lemma OpensNothing(o: Outcome, c: Candidate, e: Around, top: string, m: Moment, again: bool, open: bool,
                     c': Candidate, log: seq<Note>, log': seq<Note>)
    requires (o == Decided(Commit) ==> |top| == |c.window.value|) && log <= log'
    requires Obeys(o, c, e, top, m, again, open, c', log'[|log|..])
    ensures Continued(log, log')
  {
    forall k | |log| <= k < |log'| ensures !log'[k].Opening? {
      assert log'[k] == log'[|log|..][k - |log|];
    }
  }

  lemma ContinuedChains(a: seq<Note>, b: seq<Note>, c: seq<Note>)
    requires Continued(a, b) && Continued(b, c)
    ensures Continued(a, c)
  {
  }

  lemma NothingYet(log: seq<Note>, s: Speech)
    ensures Continued(log, log) && Later(s, s)
  {
  }

  /** What the solver returns has the shape the decider reads. */
  lemma DecidedIsShaped(fmt: Fmt, w: Weights, entropy: Solver.Entropy, h: string, confs: seq<real>,
                        locked: set<nat>, r: Solver.Result)
    requires |h| == |confs| == fmt.Length() && Solver.Decided(fmt, w, entropy, h, confs, locked, r)
    ensures Shaped(fmt, h, r)
    ensures r.askPos.Some? ==> r.askPos.value < |h| && r.askPos.value !in locked
  {
  }

  /** A question is always about the position the solver asked for. */
  lemma AsksWhereTheSolverSays(fmt: Fmt, w: Weights, h: string, r: Solver.Result, m: Moment, b: Budget, s: Speech)
    requires Shaped(fmt, h, r) && Choice(fmt, w, h, r, m, b, s).Ask?
    ensures r.askPos == Some(Choice(fmt, w, h, r, m, b, s).position)
  {
  }

  /** Everything a decision costs, within what the budgets allow. */
  lemma ChargesAndSpeech(c: Candidate, w: Weights, r: Solver.Result, m: Moment, s: Speech, d: Decision, s': Speech)
    requires CandidateOk(c) && Shaped(c.window.fmt, c.heard, r) && Spaced(s.spokenAt)
    requires r.askPos.Some? ==> r.askPos.value < |c.heard| && r.askPos.value !in c.budget.locked
    requires d == Choice(c.window.fmt, w, c.heard, r, m, c.budget, s) && SpeechStep(s, m.now, d, s')
    ensures Charges(c, d)
    ensures Spaced(s'.spokenAt) && Later(s, s')
    ensures |s'.spokenAt| == |s.spokenAt| + if d.SpokenAsk() then 1 else 0
  {
    BudgetsHold(c.window.fmt, w, c.heard, r, m, c.budget, s);
    SpeechStaysSpaced(s, m.now, d, s');
    if d.Ask? {
      AsksWhereTheSolverSays(c.window.fmt, w, c.heard, r, m, c.budget, s);
    }
  }

  /** What arrives: a window on the tape, the passing of time or a frame without one, or
      the end. */
  datatype Event =
    | Seen(win: Window, carrier: Option<Phrase>, carrierFmt: Option<string>, passes: nat -> Around)
    | Elapsed(passes: nat -> Around)
    | Ended(now: int)

  /** What one event leaves in the journal. */
  ghost predicate EventStep(suppress: bool, log: seq<Note>, ev: Event, log': seq<Note>) {
    match ev
    case Seen(win, _, _, _) => Heard(suppress, log, win.value, log')
    case Elapsed(_) => Continued(log, log') && (OpenIn(log) == None ==> log' == log)
    case Ended(_) => HandedOver(log, log')
  }

  /** `marks` are the lengths of the journal after each event handled. */
  ghost predicate Traced(suppress: bool, log: seq<Note>, events: seq<Event>, marks: seq<nat>) {
    && 1 <= |marks| <= |events| + 1 && marks[0] == 0
    && (forall k :: 0 <= k < |marks| ==> marks[k] <= |log|)
    && (forall k :: 0 < k < |marks| ==>
         EventStep(suppress, log[..marks[k - 1]], events[k - 1], log[..marks[k]]))
  }

  lemma TraceGrows(suppress: bool, log: seq<Note>, events: seq<Event>, marks: seq<nat>, log': seq<Note>)
    requires Traced(suppress, log, events, marks) && |marks| <= |events| && marks[|marks| - 1] == |log|
    requires log <= log' && EventStep(suppress, log, events[|marks| - 1], log')
    ensures Traced(suppress, log', events, marks + [|log'|])
  {
    var marks' := marks + [|log'|];
    forall k | 0 < k < |marks'|
      ensures EventStep(suppress, log'[..marks'[k - 1]], events[k - 1], log'[..marks'[k]])
    {
      assert log'[..marks'[k - 1]] == log[..marks'[k - 1]];
      if k < |marks| {
        assert log'[..marks'[k]] == log[..marks[k]];
      } else {
        assert log[..|log|] == log && log'[..|log'|] == log';
      }
    }
  }

  lemma TraceEnds(suppress: bool, log: seq<Note>, events: seq<Event>, marks: seq<nat>, log': seq<Note>)
    requires Traced(suppress, log, events, marks) && marks[|marks| - 1] == |log| && HandedOver(log, log')
    ensures Traced(suppress, log', events, marks) && HandedOver(log'[..marks[|marks| - 1]], log')
  {
    assert forall k :: 0 <= k < |marks| ==> log'[..marks[k]] == log[..marks[k]];
    assert log'[..|log|] == log;
  }

  lemma StepsExtend(suppress: bool, log: seq<Note>, ev: Event, log': seq<Note>)
    requires EventStep(suppress, log, ev, log')
    ensures log <= log'
  {
  }

  ghost predicate EventOk(ev: Event) {
    match ev
    case Seen(win, _, _, passes) => WindowOk(win) && forall k: nat :: AroundOk(passes(k))
    case Elapsed(passes) => forall k: nat :: AroundOk(passes(k))
    case Ended(_) => true
  }

  class Session {
    const w: Weights
    const entropy: Solver.Entropy
    const registered: Registry
    const identifies: bool
    const suppress: bool
    const speech: SpeechBudget
    var pending: Pending?
    var decided: set<string>
    var rows: seq<Row>
    var questionsAsked: nat
    var spokenQuestions: nat
    var over: bool
    ghost var log: seq<Note>

    ghost function Repr(): set<object>
      reads this, pending
    {
      {this, speech} + if pending == null then {} else {pending, pending.attempt}
    }

    ghost predicate RowsSound()
      reads this
    {
      LogOk(suppress, log) && rows == RowsIn(log) && (!over ==> decided == DecidedIn(log))
    }

    /** Everything but the open candidate. */
    ghost predicate Sound()
      reads this, speech
    {
      RowsSound() && Spaced(speech.spokenAt) && |speech.spokenAt| == spokenQuestions <= questionsAsked
    }

    ghost predicate Valid()
      reads Repr()
    {
      && Sound()
      && if pending == null then OpenIn(log) == None
         else !over && CandidateOk(pending.View()) && Linked(log, pending.View())
    }

    constructor (w: Weights, entropy: Solver.Entropy, registered: Registry, identifies: bool, suppress: bool)
      ensures Valid() && fresh(speech) && pending == null && !over && rows == [] && log == [] && decided == {}
      ensures speech.View() == Speech([], false)
      ensures this.w == w && this.entropy == entropy && this.registered == registered
      ensures this.identifies == identifies && this.suppress == suppress
    {
      this.w, this.entropy, this.registered, this.identifies, this.suppress :=
        w, entropy, registered, identifies, suppress;
      speech := new SpeechBudget();
      pending, decided, rows, questionsAsked, spokenQuestions, over, log := null, {}, [], 0, 0, false, [];
    }

    /** `_second_signal`. */
    method SignalOf(p: Pending) returns (signal: Signal)
      requires |p.heard| == p.window.fmt.Length()
      ensures signal == SecondSignal(p.window, p.heard, p.carrier, p.carrierFmt, registered, p.llm)
    {
      if p.carrier.Some? && (p.carrierFmt == None || p.carrierFmt == Some(p.window.fmtName)) {
        var evidence := ShapeCue.ShapeIsEvidence(p.window.fmt, p.heard);
        if p.carrier.value.names.Some? || evidence {
          return Carrier;
        }
      }
      if registered(p.window.fmtName, p.heard) {
        return Prefix;
      }
      if p.llm == Some(p.window.fmtName) {
        return Llm;
      }
      return NoSignal;
    }

    /** The first half of a pass: the one-off format identification, the solver, and the
        facts of the moment. */
    method Look(p: Pending, e: Around) returns (r: Solver.Result, m: Moment)
      requires CandidateOk(p.View())
      modifies p`llm, p`llmAsked
      ensures p.View() == old(p.View())
      ensures (p.llmAsked, p.llm) == Identification(p.window, p.heard, p.carrier, p.carrierFmt, registered, identifies,
                                                    old(p.llmAsked), old(p.llm), e)
      ensures Solver.Decided(p.window.fmt, w, entropy, p.heard, p.confs, p.attempt.locked, r)
      ensures m == MomentOf(p.View(), e, m.signal)
      ensures m.signal == SecondSignal(p.window, p.heard, p.carrier, p.carrierFmt, registered, p.llm)
    {
      hide Solver.Decided, SecondSignal, Kept;
      var signal := SignalOf(p);
      if identifies && !p.llmAsked && p.window.complete && signal == NoSignal {
        p.llmAsked, p.llm := true, e.identified;
        signal := SignalOf(p);
      }
      var fmt := p.window.fmt;
      ghost var some := SomeUnlocked(p.attempt.locked, |p.heard|);
      ghost var a := AlphabetBound(fmt, fmt.Length());
      var found := Solver.Decide(fmt, w, entropy, p.heard, p.confs, p.attempt.locked, a);
      r := found.value;
      m := Moment(e.now, p.window.lastWordEnd, e.silence, e.turnEnded, |p.heard| == fmt.Length(), p.window.trailing,
                  signal, signal != NoSignal, fmt.ok(p.heard), if p.window.blockConfidence then Block else e.measured);
    }

    /** A terminal row; the string is not looked at again. */
    method Close(row: Row, also: string)
      requires Sound() && !over && NoteOk(suppress, log, Written(row))
      requires also == if row.final.Some? then row.final.value else row.heard
      modifies this`rows, this`decided, this`pending, this`log
      ensures Valid() && pending == null && log == old(log) + [Written(row)]
    {
      hide OpenIn, NamedIn, AsksIn, RereadsIn, RowsIn, DecidedIn, LogOk, NoteOk;
      LogGrows(suppress, log, Written(row));
      AfterNote(log, Written(row));
      rows, log := rows + [row], log + [Written(row)];
      decided := decided + {row.heard, also};
      pending := null;
    }

    /** The end of the session, for whatever reason: an open candidate is handed over. */
    method Finish(now: int)
      requires Sound() && !over && (pending == null ==> OpenIn(log) == None)
      requires pending != null ==> Presentable(log, pending.View())
      modifies this`rows, this`pending, this`over, this`log
      ensures Valid() && over && pending == null && HandedOver(old(log), log)
      ensures old(pending) != null ==> log[|old(log)|].row.why == Some(WhyEnded(now, old(pending.window)))
    {
      hide OpenIn, NamedIn, AsksIn, RereadsIn, RowsIn, DecidedIn, LogOk;
      if pending != null {
        var signal := SignalOf(pending);
        var late := now > pending.window.lastWordEnd && now - pending.window.lastWordEnd > TOO_LATE_MS;
        var row := HandoverRow(pending.window, signal, pending.attempt.questions, pending.attempt.spans,
                               if late then LateHandover else StreamEnded);
        LogGrows(suppress, log, Written(row));
        AfterNote(log, Written(row));
        rows, log := rows + [row], log + [Written(row)];
      }
      pending, over := null, true;
    }

    /** What a terminal decision writes. */
    method Terminate(p: Pending, d: Decision, top: string, signal: Signal, ghost c: Candidate)
      requires Sound() && !over && pending == p && Linked(log, c)
      requires CandidateOk(c) && p.View() == c.(budget := Charged(c.budget, d)) && !d.Open()
      requires d == Commit ==> CommitReady(c, top, signal)
      modifies this`rows, this`decided, this`pending, this`log
      ensures Valid() && pending == null && log == old(log) + [Written(RowFor(d, c, top, signal))]
    {
      hide OpenIn, NamedIn, AsksIn, RereadsIn, RowsIn, DecidedIn, LogOk;
      var win, questions, spans := p.window, p.attempt.questions, p.attempt.spans;
      match d {
        case Commit =>
          Close(CommittedRow(win, top, signal, questions, spans), top);
        case Flag =>
          Close(FlaggedRow(win, signal, questions, spans), win.value);
        case Handover(why) =>
          Close(HandoverRow(win, signal, questions, spans, why), win.value);
      }
    }

    /** Hands the open candidate over and remembers its string. */
    method GiveUp(p: Pending, why: Reason)
      requires Sound() && !over && pending == p && Presentable(log, p.View())
      modifies this`rows, this`decided, this`pending, this`log
      ensures Valid() && pending == null && old(log) <= log && IsHandover(log[|old(log)|..])
      ensures log[|old(log)|].row.why == Some(why)
    {
      hide OpenIn, NamedIn, AsksIn, RereadsIn, RowsIn, DecidedIn, LogOk;
      var signal := SignalOf(p);
      Close(HandoverRow(p.window, signal, p.attempt.questions, p.attempt.spans, why), p.window.value);
    }

    /** The span has been asked for again. */
    method HearAgain(p: Pending, e: Around, ghost c: Candidate, ghost d: Decision) returns (again: bool)
      requires Sound() && !over && pending == p && Linked(log, c) && d.Span?
      requires CandidateOk(c) && AroundOk(e) && p.View() == c.(budget := Charged(c.budget, d)) && Charges(c, d)
      modifies this`rows, this`decided, this`pending, this`log, p`heard, p`confs, p`lockedAny, p`named
      ensures Sound() && !over && (again <==> Refits(c, e))
      ensures again ==> pending == p && Continues(c, d, e, p.View()) && Linked(log, p.View())
      ensures again ==> log == old(log) + [Rereading(true)]
      ensures !again ==> Valid() && pending == null && old(log) + [Rereading(false)] <= log
      ensures !again ==> IsHandover(log[|old(log)| + 1..]) && log[|old(log)| + 1].row.why == Some(BudgetExhausted)
    {
      hide OpenIn, NamedIn, AsksIn, RereadsIn, RowsIn, DecidedIn, LogOk;
      again := e.reread.Some? && |e.reread.value.0| == p.window.fmt.Length();
      RereadIsNoted(suppress, log, c, d, again);
      hide NoteOk;
      log := log + [Rereading(again)];
      if again {
        p.TakeReread(e.reread.value.0, e.reread.value.1);
      } else {
        p.named := map[];
        GiveUp(p, BudgetExhausted);
      }
    }

    /** One question asked, and what came back. */
    method TakeIn(p: Pending, d: Decision, e: Around, ghost c: Candidate)
      requires RowsSound() && !over && pending == p && Linked(log, c) && d.Ask?
      requires CandidateOk(c) && p.View() == c.(budget := Charged(c.budget, d)) && Charges(c, d)
      modifies this`questionsAsked, this`spokenQuestions, this`log
      modifies p`heard, p`confs, p`lockedAny, p`named, p.attempt`locked
      ensures RowsSound() && Continues(c, d, e, p.View()) && Linked(log, p.View())
      ensures log == old(log) + [Asked(d.position, e.reply)] && questionsAsked == old(questionsAsked) + 1
      ensures spokenQuestions == old(spokenQuestions) + if d.SpokenAsk() then 1 else 0
    {
      hide OpenIn, NamedIn, AsksIn, RereadsIn, RowsIn, DecidedIn, LogOk;
      questionsAsked := questionsAsked + 1;
      if d.SpokenAsk() {
        spokenQuestions := spokenQuestions + 1;
      }
      ghost var c' := Answered(c.(budget := Charged(c.budget, d)), d.position, e.reply);
      AskIsNoted(suppress, log, c, d, e.reply, c');
      hide NoteOk, CandidateOk, Linked, Answered, Charged;
      log := log + [Asked(d.position, e.reply)];
      p.TakeAnswer(d.position, e.reply);
    }

    /** Asks, or has the span re-read, and takes in what came back. */
    method GoOn(p: Pending, d: Decision, e: Around, ghost c: Candidate) returns (again: bool)
      requires RowsSound() && !over && pending == p && Linked(log, c)
      requires Spaced(speech.spokenAt) && questionsAsked >= spokenQuestions
      requires |speech.spokenAt| == spokenQuestions + if d.SpokenAsk() then 1 else 0
      requires CandidateOk(c) && AroundOk(e) && p.View() == c.(budget := Charged(c.budget, d))
      requires (d.Span? || d.Ask?) && Charges(c, d)
      modifies this, p`heard, p`confs, p`lockedAny, p`named, p.attempt
      ensures Valid() && !over && (again <==> d.Ask? || Refits(c, e)) && (again <==> pending == p)
      ensures again ==> Continues(c, d, e, p.View()) && Spent(c, p.View())
      ensures again ==> log == old(log) + [if d.Ask? then Asked(d.position, e.reply) else Rereading(true)]
      ensures !again ==> pending == null && old(log) + [Rereading(false)] <= log
      ensures !again ==> IsHandover(log[|old(log)| + 1..]) && log[|old(log)| + 1].row.why == Some(BudgetExhausted)
    {
      hide OpenIn, NamedIn, AsksIn, RereadsIn, RowsIn, DecidedIn, LogOk;
      again := true;
      if d.Span? {
        again := HearAgain(p, e, c, d);
      } else {
        TakeIn(p, d, e, c);
      }
      if again {
        ContinuingKeeps(c, d, e, p.View());
      }
    }

    /** Waits, unless the identifier has grown too old. */
    method Held(p: Pending, m: Moment, ghost c: Candidate)
      requires Sound() && !over && pending == p && Linked(log, c)
      requires CandidateOk(c) && Waited(c, p.View())
      modifies this`rows, this`decided, this`pending, this`log
      ensures Valid() && !over
      ensures pending == if m.Age() > TOO_LATE_MS then null else p
      ensures pending == p ==> log == old(log)
      ensures pending == null ==> old(log) <= log && IsHandover(log[|old(log)|..])
      ensures pending == null ==> log[|old(log)|].row.why == Some(LateHandover)
    {
      hide OpenIn, NamedIn, AsksIn, RereadsIn, RowsIn, DecidedIn, LogOk;
      if m.Age() > TOO_LATE_MS {
        GiveUp(p, LateHandover);
      }
    }

    /** The solver and the decider on the open candidate, before anything is done about it. */
    method Judge(p: Pending, e: Around, ghost c: Candidate) returns (o: Outcome, r: Solver.Result, m: Moment)
      requires p.View() == c && CandidateOk(c) && Spaced(speech.spokenAt)
      modifies p`llm, p`llmAsked, p.attempt, speech
      ensures (p.llmAsked, p.llm) == Identification(c.window, c.heard, p.carrier, p.carrierFmt, registered, identifies,
                                                    old(p.llmAsked), old(p.llm), e)
      ensures Solver.Decided(c.window.fmt, w, entropy, c.heard, c.confs, c.budget.locked, r)
      ensures Shaped(c.window.fmt, c.heard, r) && m == MomentOf(c, e, m.signal)
      ensures m.signal == SecondSignal(c.window, c.heard, p.carrier, p.carrierFmt, registered, p.llm)
      ensures o.Decided? ==> o.decision == Choice(c.window.fmt, w, c.heard, r, m, c.budget, old(speech.View()))
      ensures o.Decided? ==> p.View() == c.(budget := Charged(c.budget, o.decision)) && Charges(c, o.decision)
      ensures o.Raised? ==> RaisedFrom(c, p.View())
      ensures o.Raised? <==>
        Choice(c.window.fmt, w, c.heard, r, m, c.budget, old(speech.View())).Hold? && c.budget.deferrals >= MAX_DEFERRALS
      ensures Spaced(speech.spokenAt) && Later(old(speech.View()), speech.View())
      ensures |speech.spokenAt| == |old(speech.spokenAt)| + if o.Decided? && o.decision.SpokenAsk() then 1 else 0
    {
      ghost var s := speech.View();
      r, m := Look(p, e);
      DecidedIsShaped(p.window.fmt, w, entropy, p.heard, p.confs, p.attempt.locked, r);
      o := Decider.Decide(p.window.fmt, w, p.heard, r, m, p.attempt, speech);
      BudgetsHold(c.window.fmt, w, c.heard, r, m, c.budget, s);
      if o.Decided? {
        ChargesAndSpeech(c, w, r, m, s, o.decision, speech.View());
      }
    }

    /** What acting on the decision relies on. */
    method Consult(p: Pending, e: Around, ghost c: Candidate)
      returns (o: Outcome, top: string, m: Moment, ghost r: Solver.Result)
      requires p.View() == c && CandidateOk(c) && Spaced(speech.spokenAt)
      modifies p`llm, p`llmAsked, p.attempt, speech
      ensures (p.llmAsked, p.llm) == Identification(c.window, c.heard, p.carrier, p.carrierFmt, registered, identifies,
                                                    old(p.llmAsked), old(p.llm), e)
      ensures Judgement(c, w, entropy, e, r, m, old(speech.View()), o, top)
      ensures m.signal == SecondSignal(c.window, c.heard, p.carrier, p.carrierFmt, registered, p.llm)
      ensures o.Decided? ==> p.View() == c.(budget := Charged(c.budget, o.decision)) && Charges(c, o.decision)
      ensures o == Decided(Commit) ==> CommitReady(c, top, m.signal)
      ensures o.Raised? ==> RaisedFrom(c, p.View())
      ensures Spaced(speech.spokenAt) && Later(old(speech.View()), speech.View())
      ensures |speech.spokenAt| == |old(speech.spokenAt)| + if o.Decided? && o.decision.SpokenAsk() then 1 else 0
    {
      ghost var s := speech.View();
      var result;
      o, result, m := Judge(p, e, c);
      r, top := result, TopOr(result, p.heard);
      if o == Decided(Commit) {
        CommitWritesWell(c, w, entropy, r, m, s);
      }
    }

    /** Does what was decided. */
    method Act(p: Pending, o: Outcome, top: string, m: Moment, e: Around, ghost c: Candidate) returns (again: bool)
      requires RowsSound() && !over && pending == p && Linked(log, c)
      requires Spaced(speech.spokenAt) && questionsAsked >= spokenQuestions
      requires |speech.spokenAt| == spokenQuestions + if o.Decided? && o.decision.SpokenAsk() then 1 else 0
      requires CandidateOk(c) && AroundOk(e)
      requires o.Decided? ==> p.View() == c.(budget := Charged(c.budget, o.decision)) && Charges(c, o.decision)
      requires o == Decided(Commit) ==> CommitReady(c, top, m.signal)
      requires o.Raised? ==> RaisedFrom(c, p.View())
      modifies this, p`heard, p`confs, p`lockedAny, p`named, p.attempt
      ensures Valid() && old(log) <= log
      ensures pending == null || pending == p
      ensures Obeys(o, c, e, top, m, again, pending != null, p.View(), log[|old(log)|..])
      ensures again ==> pending != null && Spent(c, p.View())
      ensures !again && pending != null ==> Waited(c, p.View())
    {
      hide OpenIn, NamedIn, AsksIn, RereadsIn, RowsIn, DecidedIn, LogOk;
      again := false;
      if o.Raised? {
        Finish(e.now);
      } else if o.decision.Hold? {
        Held(p, m, c);
      } else if o.decision.Span? || o.decision.Ask? {
        again := GoOn(p, o.decision, e, c);
      } else {
        Terminate(p, o.decision, top, m.signal, c);
      }
    }

    /** One pass of `_resolve`: go round again, wait, or write the row. */
    method OnePass(e: Around)
      returns (again: bool, ghost r: Solver.Result, ghost m: Moment, ghost o: Outcome, ghost top: string)
      requires Valid() && pending != null && AroundOk(e)
      modifies this, speech, pending, pending.attempt
      ensures Valid() && Continued(old(log), log)
      ensures pending == null || pending == old(pending)
      ensures Judgement(old(pending.View()), w, entropy, e, r, m, old(speech.View()), o, top)
      ensures m.signal == SecondSignal(old(pending.window), old(pending.heard), old(pending).carrier,
                                       old(pending).carrierFmt, registered, old(pending).llm)
      ensures (old(pending).llmAsked, old(pending).llm) ==
        Identification(old(pending.window), old(pending.heard), old(pending).carrier, old(pending).carrierFmt,
                       registered, identifies, old(pending.llmAsked), old(pending.llm), e)
      ensures o == Decided(Commit) ==> |top| == |old(pending.window.value)|
      ensures Obeys(o, old(pending.View()), e, top, m, again, pending != null, old(pending).View(), log[|old(log)|..])
      ensures again ==> pending != null && Spent(old(pending.View()), pending.View())
      ensures !again && pending != null ==> Waited(old(pending.View()), pending.View())
      ensures Later(old(speech.View()), speech.View())
    {
      hide Judgement, SecondSignal, OpenIn, NamedIn, AsksIn, RereadsIn, RowsIn, DecidedIn, LogOk;
      var p := pending;
      ghost var c := p.View();
      var outcome, best, moment;
      outcome, best, moment, r := Consult(p, e, c);
      again := Act(p, outcome, best, moment, e, c);
      o, top, m := outcome, best, moment;
      OpensNothing(o, c, e, top, m, again, pending != null, p.View(), old(log), log);
    }

    /** `_resolve`. At most four passes, one budget spent by each that goes round again;
        everything noted is about the open candidate. */
    method Resolve(passes: nat -> Around) returns (used: nat)
      requires Valid() && pending != null && forall k: nat :: AroundOk(passes(k))
      modifies this, speech, pending, pending.attempt
      ensures Valid() && Continued(old(log), log)
      ensures pending == null || pending == old(pending)
      ensures 1 <= used <= MAX_ITERATIONS
      ensures old(pending.llmAsked) || !identifies ==>
        (old(pending).llmAsked, old(pending).llm) == old((pending.llmAsked, pending.llm))
      ensures !old(pending).llmAsked ==> old(pending).llm == old(pending.llm)
      ensures Later(old(speech.View()), speech.View())
    {
      hide Judgement, SecondSignal, Obeys, OpenIn, NamedIn, AsksIn, RereadsIn, RowsIn, DecidedIn, LogOk, Spaced;
      hide Continued, Kept, WindowOk, Linked;
      var p := pending;
      ghost var c0, s0, l0 := p.View(), speech.View(), log;
      NothingYet(l0, s0);
      hide Later;
      used := 0;
      while true
        invariant Valid() && pending == p && p == old(pending)
        invariant Continued(l0, log)
        invariant used + c0.budget.questions + c0.budget.spans == p.attempt.questions + p.attempt.spans
        invariant Later(s0, speech.View())
        invariant old(pending.llmAsked) || !identifies ==> (p.llmAsked, p.llm) == old((pending.llmAsked, pending.llm))
        invariant !p.llmAsked ==> p.llm == old(pending.llm)
        decreases BUDGET_QUESTIONS + BUDGET_SPANS - p.attempt.questions - p.attempt.spans
      {
        ghost var s, l := speech.View(), log;
        ghost var r, m, o, top;
        var again;
        again, r, m, o, top := OnePass(passes(used));
        LaterChains(s0, s, speech.View());
        ContinuedChains(l0, l, log);
        used := used + 1;
        if !again {
          return;
        }
      }
    }

    /** Nothing is touched but what the session already owned or has just made. */
    twostate predicate Owned()
      reads this, pending
    {
      pending == null || pending == old(pending) || (fresh(pending) && fresh(pending.attempt))
    }

    method Open(win: Window, carrier: Option<Phrase>, carrierFmt: Option<string>)
      requires Sound() && !over && WindowOk(win) && NoteOk(suppress, log, Opening(win.value))
      modifies this`pending, this`log
      ensures Valid() && pending != null && fresh(pending) && fresh(pending.attempt)
      ensures pending.View() == Opened(win) && log == old(log) + [Opening(win.value)]
      ensures !pending.llmAsked && pending.llm == None
      ensures pending.carrier == carrier && pending.carrierFmt == carrierFmt
    {
      hide OpenIn, NamedIn, AsksIn, RereadsIn, RowsIn, DecidedIn, LogOk, NoteOk, CandidateOk, Spaced, WindowOk;
      pending := new Pending(win, carrier, carrierFmt);
      LogGrows(suppress, log, Opening(win.value));
      AfterNote(log, Opening(win.value));
      log := log + [Opening(win.value)];
      OpeningIsOk(win, pending.View());
    }

    /** A candidate frame: it opens a candidate, replacing one about another value, or
        refreshes the open one. */
    method Consider(win: Window, carrier: Option<Phrase>, carrierFmt: Option<string>)
      requires Valid() && !over && WindowOk(win) && (suppress ==> win.value !in decided)
      modifies this`pending, this`log, pending
      ensures Valid() && pending != null && Owned()
      ensures OpenIn(old(log)) == Some(win.value) ==>
        pending == old(pending) && pending.View() == Refreshed(old(pending.View()), win) && log == old(log)
        && (pending.llmAsked, pending.llm) == old((pending.llmAsked, pending.llm))
      ensures OpenIn(old(log)) != Some(win.value) ==>
        fresh(pending) && fresh(pending.attempt) && pending.View() == Opened(win)
        && pending.carrier == carrier && pending.carrierFmt == carrierFmt && log == old(log) + [Opening(win.value)]
        && !pending.llmAsked && pending.llm == None
    {
      hide OpenIn, NamedIn, AsksIn, RereadsIn, RowsIn, DecidedIn, LogOk;
      if pending == null || pending.window.value != win.value {
        Open(win, carrier, carrierFmt);
      } else {
        RefreshingKeeps(pending.View(), win);
        pending.Refresh(win);
      }
    }

    /** A frame with a window: one already decided is skipped. */
    method Hear(win: Window, carrier: Option<Phrase>, carrierFmt: Option<string>, passes: nat -> Around)
      requires Valid() && !over && WindowOk(win) && forall k: nat :: AroundOk(passes(k))
      modifies Repr()
      ensures Valid() && Owned() && Heard(suppress, old(log), win.value, log)
      ensures Later(old(speech.View()), speech.View())
    {
      hide OpenIn, NamedIn, AsksIn, RereadsIn, RowsIn, DecidedIn, LogOk, Continued;
      if suppress && win.value in decided {
        return;
      }
      Consider(win, carrier, carrierFmt);
      var _ := Resolve(passes);
    }

    /** One turn of the session loop. */
    method Handle(ev: Event)
      requires Valid() && !over && EventOk(ev)
      modifies Repr()
      ensures Valid() && Owned() && EventStep(suppress, old(log), ev, log)
      ensures Later(old(speech.View()), speech.View())
      ensures ev.Ended? ==> over
    {
      hide OpenIn, NamedIn, AsksIn, RereadsIn, RowsIn, DecidedIn, LogOk;
      match ev {
        case Seen(win, carrier, carrierFmt, passes) =>
          Hear(win, carrier, carrierFmt, passes);
        case Elapsed(passes) =>
          if pending != null {
            var _ := Resolve(passes);
          }
        case Ended(now) =>
          Finish(now);
      }
    }

    /** A whole session: event by event the journal grows as described, the rows are
        those it notes, and spoken questions keep their spacing whatever the clock did. */
    method Run(events: seq<Event>, now: int) returns (ghost marks: seq<nat>)
      requires Valid() && pending == null && !over && log == [] && speech.spokenAt == []
      requires forall ev :: ev in events ==> EventOk(ev)
      modifies this, speech
      ensures over && LogOk(suppress, log) && rows == RowsIn(log) && OpenIn(log) == None
      ensures Traced(suppress, log, events, marks) && HandedOver(log[..marks[|marks| - 1]], log)
      ensures suppress ==> DistinctHeard(rows)
      ensures Spaced(speech.spokenAt) && |speech.spokenAt| == spokenQuestions
    {
      hide OpenIn, NamedIn, AsksIn, RereadsIn, RowsIn, DecidedIn, LogOk, Spaced, EventStep;
      var i := 0;
      marks := [0];
      while i < |events| && !over
        invariant i <= |events| && |marks| == i + 1 && marks[i] == |log|
        invariant Valid() && Traced(suppress, log, events, marks)
        invariant pending != null ==> fresh(pending) && fresh(pending.attempt)
      {
        ghost var before := log;
        Handle(events[i]);
        StepsExtend(suppress, before, events[i], log);
        TraceGrows(suppress, before, events, marks, log);
        marks := marks + [|log|];
        i := i + 1;
      }
      ghost var before := log;
      if !over {
        Finish(now);
      }
      TraceEnds(suppress, before, events, marks, log);
      if suppress {
        RowsAreDistinct(log);
      }
    }
  }
}
