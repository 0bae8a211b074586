/** When each decision is taken, by the fields of the solver's result, the moment and
    the budgets alone. */
module DeciderLaws {
  import opened Common
  import opened Decider
  import opened Posterior
  import Repairs
  import Solver

  // ------------------------------------------------- the conditions

  /** Some character of what was heard would be changed. */
  ghost predicate Edits(heard: string, r: Solver.Result) {
    r.top.Some? && r.top.value != heard
  }

  /** A changed character stands where the format allows a letter. */
  ghost predicate EditsLetter(fmt: Fmt, heard: string, r: Solver.Result)
    requires |heard| == fmt.Length()
  {
    r.top.Some? && |r.top.value| == |heard|
    && exists i: nat :: i < |heard| && r.top.value[i] != heard[i]
         && exists c :: c in fmt.alpha[i] && ('A' <= c <= 'Z' || 'a' <= c <= 'z')
  }

  /** An accept with edits that the confidences of the regime cannot place. */
  ghost predicate Unplaced(fmt: Fmt, heard: string, r: Solver.Result, m: Moment)
    requires |heard| == fmt.Length()
  {
    r.action == Solver.Accept && ((m.regime == Block && Edits(heard, r)) || (m.regime == Flat && EditsLetter(fmt, heard, r)))
  }

  ghost predicate IsIban(fmt: Fmt) {
    |fmt.name| >= 4 && fmt.name[0] == 'I' && fmt.name[1] == 'B' && fmt.name[2] == 'A' && fmt.name[3] == 'N'
  }

  /** An accept that must not be written silently. */
  ghost predicate NotSilent(fmt: Fmt, heard: string, r: Solver.Result, m: Moment)
    requires |heard| == fmt.Length()
  {
    Unplaced(fmt, heard, r, m) || (r.action == Solver.Accept && Edits(heard, r) && IsIban(fmt))
  }

  /** A second signal, a closed turn, nothing arriving. */
  ghost predicate Ready(m: Moment) {
    m.signal != NoSignal && m.turnEnded && m.trailing == 0
  }

  ghost predicate StillOpen(m: Moment) {
    m.signal != NoSignal && (!m.turnEnded || m.trailing > 0)
  }

  /** There is something to ask about: a result that is neither settled nor empty. */
  ghost predicate Unsettled(fmt: Fmt, heard: string, r: Solver.Result, m: Moment)
    requires |heard| == fmt.Length()
  {
    && r.action != Solver.FailNoCand && r.action != Solver.FlagImplausible
    && (r.action == Solver.Accept ==> NotSilent(fmt, heard, r, m))
  }

  /** More positions in play than questions left. */
  ghost predicate TooMany(r: Solver.Result, b: Budget) {
    r.ambiguous + b.questions > 2 || r.unexplained + 1 + b.questions > 2
  }

  /** One character is the subject. */
  ghost predicate AboutOne(fmt: Fmt, heard: string, r: Solver.Result, m: Moment, b: Budget)
    requires |heard| == fmt.Length()
  {
    Ready(m) && Unsettled(fmt, heard, r, m) && !Unplaced(fmt, heard, r, m) && !TooMany(r, b)
  }

  ghost predicate Late(m: Moment) {
    m.now - m.lastWordEnd > 10000
  }

  // ------------------------------------------------- the refusals

  /** What the source's tests for a silent write come to. */
  lemma RefusedExactly(fmt: Fmt, heard: string, r: Solver.Result, m: Moment)
    requires Shaped(fmt, heard, r)
    ensures Degraded(Refused(fmt, heard, r, m)) <==> Unplaced(fmt, heard, r, m)
    ensures r.action == Solver.Accept ==> (Refused(fmt, heard, r, m) == None <==> !NotSilent(fmt, heard, r, m))
  {
    if r.action == Solver.Accept {
      var top := TopOr(r, heard);
      EditsMeans(heard, top);
      LetterEditsMeans(fmt, heard, top);
      assert NamedIban(fmt) <==> IsIban(fmt);
    }
  }

  lemma EditsMeans(heard: string, top: string)
    requires |top| == |heard|
    ensures Repairs.Edited(heard, top) == {} <==> top == heard
  {
    if Repairs.Edited(heard, top) == {} {
      forall i: nat | i < |heard| ensures top[i] == heard[i] {
        assert i !in Repairs.Edited(heard, top);
      }
    }
  }

  lemma LetterEditsMeans(fmt: Fmt, heard: string, top: string)
    requires |top| == |heard| == fmt.Length()
    ensures Repairs.Edited(heard, top) * LetterPositions(fmt) == {} <==>
      !exists i: nat :: i < |heard| && top[i] != heard[i]
        && exists c :: c in fmt.alpha[i] && ('A' <= c <= 'Z' || 'a' <= c <= 'z')
  {
    var both := Repairs.Edited(heard, top) * LetterPositions(fmt);
    forall i: nat | i < |heard| ensures i in both <==>
      top[i] != heard[i] && exists c :: c in fmt.alpha[i] && ('A' <= c <= 'Z' || 'a' <= c <= 'z')
    {
    }
    assert forall i: nat :: i in both ==> i < |heard|;
  }

  // ------------------------------------------------- waiting, writing, flagging, handing over

  /** Without a second signal the loop waits, and so it does while the turn is open,
      until ten seconds have passed. */
  lemma WaitsExactly(fmt: Fmt, w: Weights, heard: string, r: Solver.Result, m: Moment, b: Budget, s: Speech)
    requires Shaped(fmt, heard, r)
    ensures var d := Choice(fmt, w, heard, r, m, b, s);
      && (d == Hold(NeedsSecondSignal, None) <==> m.signal == NoSignal)
      && (d == Hold(TurnBoundary, None) <==> StillOpen(m) && !Late(m))
      && (d == Handover(LateHandover) <==> StillOpen(m) && Late(m))
  {
  }

  /** A data error is flagged once, and the second time handed over. */
  lemma FlagsExactly(fmt: Fmt, w: Weights, heard: string, r: Solver.Result, m: Moment, b: Budget, s: Speech)
    requires Shaped(fmt, heard, r)
    ensures var d := Choice(fmt, w, heard, r, m, b, s);
      && (d == Flag <==> Ready(m) && r.action == Solver.FlagImplausible && !b.flagged)
      && (d == Handover(ImplausibleRepair) <==> Ready(m) && r.action == Solver.FlagImplausible && b.flagged)
  {
  }

  lemma CommitsExactly(fmt: Fmt, w: Weights, heard: string, r: Solver.Result, m: Moment, b: Budget, s: Speech)
    requires Shaped(fmt, heard, r)
    ensures Choice(fmt, w, heard, r, m, b, s) == Commit <==>
      Ready(m) && r.action == Solver.Accept && !NotSilent(fmt, heard, r, m)
  {
    RefusedExactly(fmt, heard, r, m);
    hide Refused;
  }

  /** The span is heard again once, when there is no candidate, when an accept cannot be
      placed, or when more is in play than there are questions. */
  lemma RereadsExactly(fmt: Fmt, w: Weights, heard: string, r: Solver.Result, m: Moment, b: Budget, s: Speech)
    requires Shaped(fmt, heard, r)
    ensures Choice(fmt, w, heard, r, m, b, s) == Span(true) <==>
      && Ready(m) && b.spans == 0
      && (r.action == Solver.FailNoCand
          || (Unplaced(fmt, heard, r, m) && b.questions < 2)
          || (Unsettled(fmt, heard, r, m) && TooMany(r, b) && !(r.action == Solver.Accept && b.questions >= 2)))
    ensures Choice(fmt, w, heard, r, m, b, s) != Span(false)
  {
    RefusedExactly(fmt, heard, r, m);
    hide Refused, Degraded, Question;
  }

  /** What is handed over for want of a candidate, of a place for the edits, of budget. */
  lemma HandsOverExactly(fmt: Fmt, w: Weights, heard: string, r: Solver.Result, m: Moment, b: Budget, s: Speech)
    requires Shaped(fmt, heard, r)
    ensures var d := Choice(fmt, w, heard, r, m, b, s);
      && (d == Handover(NoCandidate) <==> Ready(m) && r.action == Solver.FailNoCand && b.spans > 0)
      && (d == Handover(RegimeFlat) <==> Ready(m) && Unplaced(fmt, heard, r, m) && (b.questions >= 2 || b.spans > 0))
      && (d == Handover(BudgetExhausted) <==>
           Ready(m) && Unsettled(fmt, heard, r, m) && !Unplaced(fmt, heard, r, m)
           && TooMany(r, b) && (b.spans > 0 || (r.action == Solver.Accept && b.questions >= 2)))
      && d != Handover(StreamEnded)
  {
    RefusedExactly(fmt, heard, r, m);
    hide Refused, Degraded, Question;
  }

  // ------------------------------------------------- asking

  /** What the string is known to be: wrong, not merely doubted. */
  ghost predicate Wrong(fmt: Fmt, w: Weights, heard: string, r: Solver.Result, m: Moment)
    requires |heard| == fmt.Length() && forall i :: i in r.doubtful ==> i < |heard|
  {
    !m.validAsHeard || r.unexplained > 0
    || exists i :: i in r.doubtful && exists c :: c in Solver.BlindAlternatives(fmt, w, i, heard[i])
  }

  /** The moment allows speech: not late, known wrong, closed, complete, nothing arriving,
      required, and a second and a half of quiet. */
  ghost predicate Opportune(m: Moment, wrong: bool) {
    && !Late(m) && wrong && m.turnEnded && m.lengthComplete && m.trailing == 0 && m.required && m.silence >= 1500
  }

  /** Two questions were spoken within five minutes, or were once. */
  ghost predicate SpentForGood(m: Moment, s: Speech) {
    s.latched || (!JustSpoke(m, s) && |set k: nat | k < |s.spokenAt| && m.now - s.spokenAt[k] <= 300000| >= 2)
  }

  /** The last spoken question is less than twenty seconds old. */
  ghost predicate JustSpoke(m: Moment, s: Speech) {
    |s.spokenAt| > 0 && m.now - s.spokenAt[|s.spokenAt| - 1] < 20000
  }

  lemma {:induction false} RecentIsCount(times: seq<int>, now: int)
    ensures Recent(times, now) == |set k: nat | k < |times| && now - times[k] <= 300000|
  {
    var here := set k: nat | k < |times| && now - times[k] <= 300000;
    if |times| > 0 {
      var n: nat := |times| - 1;
      var front := times[..n];
      RecentIsCount(front, now);
      var before := set k: nat | k < |front| && now - front[k] <= 300000;
      assert here == before + if now - times[n] <= 300000 then {n} else {};
    } else {
      assert here == {};
    }
  }

  /** The session's own gate. */
  lemma BlockingExactly(m: Moment, s: Speech)
    ensures Blocking(s, m.now) == None <==> !SpentForGood(m, s) && !JustSpoke(m, s)
    ensures Blocking(s, m.now) == Some(Exhausted) <==> SpentForGood(m, s)
    ensures Blocking(s, m.now) == Some(Cooldown) <==> !s.latched && JustSpoke(m, s)
    ensures Blocking(s, m.now).Some? ==> Blocking(s, m.now).value in {Exhausted, Cooldown}
    ensures AfterBlocking(s, m.now) == s.(latched := SpentForGood(m, s))
  {
    RecentIsCount(s.spokenAt, m.now);
    hide Recent;
  }

  /** Which gate refuses: the first, in this order, that is shut. */
  lemma RefusalExactly(m: Moment, spoken: nat, s: Speech, wrong: bool)
    ensures var g := FirstGate(m, spoken, s, wrong);
      && (g == Some(TooLate) <==> Late(m))
      && (g == Some(NotKnownWrong) <==> !Late(m) && !wrong)
      && (g == Some(TurnOpen) <==> !Late(m) && wrong && !m.turnEnded)
      && (g == Some(Incomplete) <==> !Late(m) && wrong && m.turnEnded && !m.lengthComplete)
      && (g == Some(StillArriving) <==> !Late(m) && wrong && m.turnEnded && m.lengthComplete && m.trailing > 0)
      && (g == Some(NotRequired) <==>
           !Late(m) && wrong && m.turnEnded && m.lengthComplete && m.trailing == 0 && !m.required)
      && (g == Some(NotQuiet) <==>
           !Late(m) && wrong && m.turnEnded && m.lengthComplete && m.trailing == 0 && m.required && m.silence < 700)
      && (g == Some(Politeness) <==>
           !Late(m) && wrong && m.turnEnded && m.lengthComplete && m.trailing == 0 && m.required && 700 <= m.silence < 1500)
      && (g == Some(AlreadySpoke) <==> Opportune(m, wrong) && spoken > 0)
      && (g == Some(Exhausted) <==> Opportune(m, wrong) && spoken == 0 && SpentForGood(m, s))
      && (g == Some(Cooldown) <==> Opportune(m, wrong) && spoken == 0 && !s.latched && JustSpoke(m, s))
      && (g == None <==> Opportune(m, wrong) && spoken == 0 && !SpentForGood(m, s) && !JustSpoke(m, s))
  {
    BlockingExactly(m, s);
    hide Blocking, SpentForGood, JustSpoke;
  }

  /** The subject is one character exactly when something is unsettled, can be placed and
      the questions suffice; it is then asked about where the solver says, or, as long as
      the line has not been quiet, waited for. */
  lemma AsksExactly(fmt: Fmt, w: Weights, heard: string, r: Solver.Result, m: Moment, b: Budget, s: Speech)
    requires Shaped(fmt, heard, r)
    ensures var d := Choice(fmt, w, heard, r, m, b, s);
      && (d.Ask? || (d.Hold? && d.about.Some?) <==> AboutOne(fmt, heard, r, m, b))
      && (d.Hold? && d.about.Some? <==> AboutOne(fmt, heard, r, m, b) && !Late(m) && m.silence < 1500)
      && (d.Ask? ==> r.askPos == Some(d.position))
      && (d.Hold? && d.about.Some? ==> r.askPos == d.about)
  {
    RefusedExactly(fmt, heard, r, m);
    FirstGateIsShut(m, b.spoken, s, KnowsItIsWrong(fmt, w, heard, r, m));
    hide Refused, Degraded, FirstGate, AfterGates, KnowsItIsWrong;
  }

  lemma FirstGateIsShut(m: Moment, spoken: nat, s: Speech, wrong: bool)
    ensures !Late(m) && m.silence < 1500 ==> FirstGate(m, spoken, s, wrong) != None
  {
  }

  /** How a question is put: aloud exactly when nothing refuses, with a tone when speech
      is spent and it is not too late, otherwise on the screen alone. */
  lemma AsksHow(fmt: Fmt, w: Weights, heard: string, r: Solver.Result, m: Moment, b: Budget, s: Speech)
    requires Shaped(fmt, heard, r) && Choice(fmt, w, heard, r, m, b, s).Ask?
    ensures var d, wrong := Choice(fmt, w, heard, r, m, b, s), Wrong(fmt, w, heard, r, m);
      && d.refusal == FirstGate(m, b.spoken, s, wrong)
      && (d.rung == Speak <==> Opportune(m, wrong) && b.spoken == 0 && !SpentForGood(m, s) && !JustSpoke(m, s))
      && (d.rung == Earcon <==>
           d.rung != Speak && !Late(m) && (b.spoken > 0 || (if Opportune(m, wrong) then SpentForGood(m, s) else s.latched)))
      && (d.rung == Speak || d.rung == Earcon || d.rung == Amber)
  {
    var wrong := Wrong(fmt, w, heard, r, m);
    WrongExactly(fmt, w, heard, r, m);
    RefusalExactly(m, b.spoken, s, wrong);
    AfterGatesExactly(m, b.spoken, s, wrong);
    hide Refused, Degraded, FirstGate, AfterGates, KnowsItIsWrong, Wrong, SpentForGood, JustSpoke;
  }

  lemma WrongExactly(fmt: Fmt, w: Weights, heard: string, r: Solver.Result, m: Moment)
    requires |heard| == fmt.Length() && forall i :: i in r.doubtful ==> i < |heard|
    ensures KnowsItIsWrong(fmt, w, heard, r, m) <==> Wrong(fmt, w, heard, r, m)
  {
  }

  lemma AfterGatesExactly(m: Moment, spoken: nat, s: Speech, wrong: bool)
    ensures spoken == 0 ==>
      (AfterGates(m, spoken, s, wrong).latched <==> if Opportune(m, wrong) then SpentForGood(m, s) else s.latched)
  {
    BlockingExactly(m, s);
    hide Blocking, SpentForGood, AfterBlocking;
  }

  /** Edits that confidence per block cannot place are never asked about one by one. */
  lemma NeverAsksUnderBlock(fmt: Fmt, w: Weights, heard: string, r: Solver.Result, m: Moment, b: Budget, s: Speech)
    requires Shaped(fmt, heard, r) && m.regime == Block && r.action == Solver.Accept && Edits(heard, r)
    ensures !Choice(fmt, w, heard, r, m, b, s).Ask? && Choice(fmt, w, heard, r, m, b, s) != Commit
  {
    AsksExactly(fmt, w, heard, r, m, b, s);
    CommitsExactly(fmt, w, heard, r, m, b, s);
    hide Choice;
  }

  /** When the bookkeeping raises. */
  lemma RaisesExactly(b: Budget, d: Decision)
    ensures WouldRaise(b, d) <==> b.iterations >= 4 || (d.Hold? && b.deferrals >= 400)
  {
  }

  // ------------------------------------------------- what a decision charges

  /** Of what stays open a question costs one question, a re-read one span and the locks,
      a wait one deferral; a flag can come only once; the rest costs one pass. */
  lemma ChargesExactly(b: Budget, d: Decision)
    ensures var c := Charged(b, d);
      && c.questions == b.questions + (if d.Ask? then 1 else 0)
      && c.spans == b.spans + (if d.Span? then 1 else 0)
      && c.spoken == b.spoken + (if d.Ask? && d.refusal == None then 1 else 0)
      && c.deferrals == b.deferrals + (if d.Hold? then 1 else 0)
      && c.iterations == b.iterations + (if d.Hold? then 0 else 1)
      && c.locked == (if d.Span? then {} else b.locked)
      && (c.flagged <==> b.flagged || d == Flag)
  {
  }

  lemma FlagsOnce(fmt: Fmt, w: Weights, heard: string, r: Solver.Result, m: Moment, b: Budget, s: Speech)
    requires Shaped(fmt, heard, r)
    ensures Choice(fmt, w, heard, r, m, Charged(b, Flag), s) != Flag
  {
  }
}
