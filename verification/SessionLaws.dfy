/** What the session loop's values come to, by their fields alone: candidates, the moment
    a decision is taken in, rows, and what the journal says is decided. */
module SessionLaws {
  import opened Common
  import opened Decider
  import opened DeciderLaws
  import opened Journal
  import opened Posterior
  import opened Runner
  import opened SessionLoop
  import ShapeCue
  import Repairs
  import Solver

  // ------------------------------------------------- candidates

  /** A candidate starts from its window, with nothing spent, locked or named. */
  lemma OpenedExactly(win: Window)
    ensures var c := Opened(win);
      && c.window == win && c.heard == win.value && c.confs == win.confs
      && c.budget.questions == c.budget.spans == c.budget.spoken == c.budget.iterations == c.budget.deferrals == 0
      && c.budget.locked == {} && !c.budget.flagged && !c.lockedAny && c.named == map[]
  {
  }

  /** A fresher window is the working string until a human has answered, and never
      after; budget and names are untouched. */
  lemma RefreshedExactly(c: Candidate, win: Window)
    requires CandidateOk(c)
    ensures var c' := Refreshed(c, win);
      && c'.window == win && c'.budget == c.budget && c'.named == c.named && c'.lockedAny == c.lockedAny
      && (c.named == map[] ==> c'.heard == win.value && c'.confs == win.confs)
      && (c.named != map[] ==> c'.heard == c.heard && c'.confs == c.confs)
  {
    assert c.named == map[] <==> c.named.Keys == {} by {
      if c.named.Keys == {} {
        NothingNamed(c.named);
      }
    }
  }

  /** What is heard again replaces string and confidences, and clears the names. */
  lemma RereadExactly(c: Candidate, value: string, confs: seq<real>)
    ensures var c' := Reread(c, value, confs);
      && c'.heard == value && c'.confs == confs && c'.named == map[] && !c'.lockedAny
      && c'.window == c.window && c'.budget == c.budget
  {
  }

  // ------------------------------------------------- the identification

  /** It is asked for exactly when it can be, has not been, the window is complete and
      nothing else is a signal; its answer then stands in for the one before. */
  lemma IdentifiesExactly(win: Window, heard: string, carrier: Option<Phrase>, carrierFmt: Option<string>,
                          registered: Registry, identifies: bool, asked: bool, llm: Option<string>, e: Around)
    requires |heard| == win.fmt.Length()
    ensures var due := identifies && !asked && win.complete && !PhraseCounts(win, heard, carrier, carrierFmt)
                       && !registered(win.fmtName, heard) && llm != Some(win.fmtName);
      var after := Identification(win, heard, carrier, carrierFmt, registered, identifies, asked, llm, e);
      && (after.0 <==> asked || due)
      && after.1 == if due then e.identified else llm
  {
    SignalExactly(win, heard, carrier, carrierFmt, registered, llm);
    hide PhraseCounts, ShapeCue.IsEvidence;
  }

  // ------------------------------------------------- the moment

  /** A decision is taken on the string as it stands: known valid exactly when the solver
      found nothing to repair, always of full length, and required exactly when there is
      a second signal. */
  lemma MomentExactly(c: Candidate, w: Weights, entropy: Solver.Entropy, e: Around, r: Solver.Result, m: Moment,
                      s: Speech, o: Outcome, top: string)
    requires CandidateOk(c) && Judgement(c, w, entropy, e, r, m, s, o, top)
    ensures m.validAsHeard <==> r.radius == 0
    ensures m.lengthComplete && (m.required <==> m.signal != NoSignal)
    ensures m.now == e.now && m.silence == e.silence && m.turnEnded == e.turnEnded
    ensures m.lastWordEnd == c.window.lastWordEnd && m.trailing == c.window.trailing
    ensures m.regime == (if c.window.blockConfidence then Block else e.measured)
  {
    hide Kept, WindowOk, Shaped, Choice, Solver.Descending, Solver.TiesInOrder, Solver.DecidedAmong;
  }

  /** In a session four of the gates are never what keeps a question from being spoken:
      the turn is closed, nothing is arriving, the length is right and the answer is
      wanted by the time there is a question. */
  lemma GatesNeverShut(c: Candidate, w: Weights, entropy: Solver.Entropy, e: Around, r: Solver.Result, m: Moment,
                       s: Speech, o: Outcome, top: string)
    requires CandidateOk(c) && Judgement(c, w, entropy, e, r, m, s, o, top)
    requires o.Decided? && o.decision.Ask? && o.decision.refusal.Some?
    ensures o.decision.refusal.value !in {TurnOpen, StillArriving, Incomplete, NotRequired}
  {
    var fmt := c.window.fmt;
    MomentExactly(c, w, entropy, e, r, m, s, o, top);
    hide Solver.Decided, CandidateOk, SpentForGood, JustSpoke, Choice, Unsettled, Unplaced, TooMany, FirstGate, Wrong;
    AsksExactly(fmt, w, c.heard, r, m, c.budget, s);
    AsksHow(fmt, w, c.heard, r, m, c.budget, s);
    FirstGateIs(m, c.budget.spoken, s, Wrong(fmt, w, c.heard, r, m));
  }

  lemma FirstGateIs(m: Moment, spoken: nat, s: Speech, wrong: bool)
    requires m.turnEnded && m.trailing == 0 && m.lengthComplete && m.required
    ensures var g := FirstGate(m, spoken, s, wrong);
      g.Some? ==> g.value !in {TurnOpen, StillArriving, Incomplete, NotRequired}
  {
    BlockingExactly(m, s);
    hide Blocking, SpentForGood, JustSpoke;
  }

  // ------------------------------------------------- rows

  /** Every row keeps its format, what was first heard, the signal, what was spent and
      what became of it. */
  lemma RowExactly(d: Decision, c: Candidate, top: string, signal: Signal)
    requires !d.Open() && (d == Commit ==> |top| == |c.window.value|)
    ensures var row := RowFor(d, c, top, signal);
      && row.fmt == c.window.fmt && row.heard == c.window.value && row.signal == signal
      && row.questions == c.budget.questions && row.spans == c.budget.spans
      && (row.status == Committed <==> d == Commit) && (row.status == Flagged <==> d == Flag)
      && (row.status == Unverified <==> d.Handover?)
      && row.final == (if d == Commit then Some(top) else None)
      && row.why == (if d.Handover? then Some(d.why) else None)
  {
  }

  lemma AcceptedIsFirst(fmt: Fmt, w: Weights, entropy: Solver.Entropy, h: string, confs: seq<real>, locked: set<nat>,
                        r: Solver.Result)
    requires |h| == |confs| == fmt.Length() && Solver.Decided(fmt, w, entropy, h, confs, locked, r)
    requires r.action == Solver.Accept
    ensures r.ranked != [] && r.top == Some(r.ranked[0].1)
    ensures forall k :: 0 <= k < |r.ranked| ==> r.ranked[k].0 <= r.ranked[0].0
  {
    hide Solver.IsCandidateList, Solver.TiesInOrder, Solver.Verdict, Solver.AsksAt, Solver.Ambiguous, Repairs.Posts;
  }

  /** What is committed is the solver's first candidate, and no other is likelier. */
  lemma CommitsTheLikeliest(c: Candidate, w: Weights, entropy: Solver.Entropy, e: Around, r: Solver.Result, m: Moment,
                            s: Speech, top: string)
    requires CandidateOk(c) && Judgement(c, w, entropy, e, r, m, s, Decided(Commit), top)
    ensures r.ranked != [] && top == r.ranked[0].1 && r.action == Solver.Accept
    ensures forall k :: 0 <= k < |r.ranked| ==> r.ranked[k].0 <= r.ranked[0].0
  {
    hide Choice, NotSilent, Kept, WindowOk, Solver.Decided;
    CommitsExactly(c.window.fmt, w, c.heard, r, m, c.budget, s);
    AcceptedIsFirst(c.window.fmt, w, entropy, c.heard, c.confs, c.budget.locked, r);
  }

  // ------------------------------------------------- what is decided

  /** The rows of a session are the rows it noted, in order. */
  lemma {:induction false} RowsInOrder(log: seq<Note>) returns (at: seq<nat>)
    ensures |at| == |RowsIn(log)| && forall k, l :: 0 <= k < l < |at| ==> at[k] < at[l]
    ensures forall k :: 0 <= k < |at| ==> at[k] < |log| && log[at[k]] == Written(RowsIn(log)[k])
    ensures forall i: nat :: i in at <==> i < |log| && log[i].Written?
  {
    at := [];
    if |log| > 0 {
      var n: nat := |log| - 1;
      var before := RowsInOrder(log[..n]);
      at := before + if log[n].Written? then [n] else [];
      forall i: nat ensures i in at <==> i < |log| && log[i].Written? {
        assert i in before <==> i < n && log[i].Written?;
      }
    }
  }

  /** The row noted at `i` is about the string, or wrote it. */
  ghost predicate AboutOrWrote(log: seq<Note>, i: int, s: string) {
    0 <= i < |log| && log[i].Written? && (log[i].row.heard == s || log[i].row.final == Some(s))
  }

  /** Decided are exactly the strings some row heard or wrote. */
  lemma {:induction false} DecidedExactly(log: seq<Note>, s: string)
    ensures s in DecidedIn(log) <==> exists i :: AboutOrWrote(log, i, s)
  {
    if |log| > 0 {
      var n := |log| - 1;
      DecidedExactly(log[..n], s);
      assert AboutOrWrote(log, n, s) <==> log[n].Written? && s in Settles(log[n].row);
      forall i | i != n ensures AboutOrWrote(log, i, s) <==> AboutOrWrote(log[..n], i, s) {
      }
      assert !AboutOrWrote(log[..n], n, s);
      hide AboutOrWrote;
    }
  }
}
