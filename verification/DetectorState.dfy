/** The ARM/IDLE state machine around the cues: when it arms, what disarms it, and the
    configuration payloads it pushes. */
module DetectorState {
  import opened Common

  const ARM_MIN_CUES := 1
  const ARM_TTL_MS := 12000
  const TOPIC_CHANGE_FUNCTION_WORDS := 3
  const MAX_KEYTERMS := 100
  const MAX_KEYTERM_CHARS := 50

  datatype State = Idle | Armed

  /** What `evaluate` reports: how many cues fired, the format it suggests, and when
      the newest word supporting a cue ended. */
  datatype CueReport = CueReport(cues: nat, fmt: Option<string>, evidenceMs: int)

  /** A turn on the tape, with what the cues say about it alone. */
  datatype TurnNote = TurnNote(order: nat, endOfTurn: bool, hasWords: bool, cues: nat, functionWords: nat)

  datatype Config = Config(keyterms: seq<string>, maxTurnSilence: nat, threshold: real, prompt: Option<string>)

  /** The word lists the payload is built from. */
  datatype Vocabulary = Vocabulary(carriers: seq<string>, nato: seq<string>, digits: seq<string>,
                                   formatTokens: map<string, seq<string>>, prompts: map<string, string>,
                                   extra: seq<string>)

  // ------------------------------------------------- keyterms

  function Lower(s: string): string {
    seq(|s|, i requires 0 <= i < |s| => if IsUpper(s[i]) then s[i] - 'A' + 'a' else s[i])
  }

  function Groups(v: Vocabulary, state: State, fmt: Option<string>): seq<string> {
    (if state == Idle || fmt.None? then v.carriers + v.nato + v.digits
     else v.nato + v.digits + if fmt.value in v.formatTokens then v.formatTokens[fmt.value] else []) + v.extra
  }

  /** Every term that is short enough and not a repetition, in order. */
  function Distinct(terms: seq<string>): seq<string> {
    if |terms| == 0 then [] else
    var kept, t := Distinct(terms[..|terms| - 1]), terms[|terms| - 1];
    if |t| > MAX_KEYTERM_CHARS || Lower(t) in LowerAll(kept) then kept else kept + [t]
  }

  function LowerAll(terms: seq<string>): seq<string> {
    seq(|terms|, i requires 0 <= i < |terms| => Lower(terms[i]))
  }

  function Keyterms(v: Vocabulary, state: State, fmt: Option<string>): seq<string> {
    var all := Distinct(Groups(v, state, fmt));
    if |all| > MAX_KEYTERMS then all[..MAX_KEYTERMS] else all
  }

  /** The payload respects the recogniser's limits and repeats nothing. */
  lemma {:induction false} DistinctTerms(terms: seq<string>)
    ensures forall i :: 0 <= i < |Distinct(terms)| ==> |Distinct(terms)[i]| <= MAX_KEYTERM_CHARS
    ensures forall i, j :: 0 <= i < j < |Distinct(terms)| ==> Lower(Distinct(terms)[i]) != Lower(Distinct(terms)[j])
  {
    if |terms| > 0 {
      DistinctTerms(terms[..|terms| - 1]);
      var kept := Distinct(terms[..|terms| - 1]);
      assert forall i :: 0 <= i < |kept| ==> LowerAll(kept)[i] == Lower(kept[i]);
    }
  }

  /** Two terms are one up to the case of ASCII letters. */
  ghost predicate SameTerm(a: string, b: string) {
    |a| == |b| && forall i :: 0 <= i < |a| ==> SameLetter(a[i], b[i])
  }

  ghost predicate SameLetter(a: char, b: char) {
    a == b || ('A' <= a <= 'Z' && b == a - 'A' + 'a') || ('A' <= b <= 'Z' && a == b - 'A' + 'a')
  }

  lemma LowerOfSame(a: string, b: string)
    requires SameTerm(a, b)
    ensures Lower(a) == Lower(b)
  {
    forall i | 0 <= i < |a| ensures Lower(a)[i] == Lower(b)[i] {
      assert SameLetter(a[i], b[i]);
    }
  }

  lemma LowerExactly(a: string, b: string)
    ensures Lower(a) == Lower(b) <==> SameTerm(a, b)
  {
    if Lower(a) == Lower(b) {
      assert |a| == |Lower(a)| == |Lower(b)| == |b|;
      forall i | 0 <= i < |a| ensures SameLetter(a[i], b[i]) {
        assert Lower(a)[i] == Lower(b)[i];
      }
    }
    if SameTerm(a, b) {
      LowerOfSame(a, b);
    }
  }

  /** Short, and no earlier short term is the same. */
  ghost predicate FirstOfItsKind(terms: seq<string>, i: int) {
    && 0 <= i < |terms| && |terms[i]| <= 50
    && forall j :: 0 <= j < i && |terms[j]| <= 50 ==> !SameTerm(terms[j], terms[i])
  }

  /** Kept are exactly the first short terms of their kind, in order. */
  lemma {:induction false} KeptExactly(terms: seq<string>) returns (picks: seq<nat>)
    ensures |picks| == |Distinct(terms)| && forall k, l :: 0 <= k < l < |picks| ==> picks[k] < picks[l]
    ensures forall k :: 0 <= k < |picks| ==> picks[k] < |terms| && Distinct(terms)[k] == terms[picks[k]]
    ensures forall i: nat :: i in picks <==> FirstOfItsKind(terms, i)
  {
    if |terms| == 0 {
      picks := [];
    } else {
      var n: nat := |terms| - 1;
      var front, kept := terms[..n], Distinct(terms[..n]);
      var before := KeptExactly(front);
      NewTerm(front, before, kept, terms);
      picks := before + if FirstOfItsKind(terms, n) then [n] else [];
      forall i: nat ensures i in picks <==> FirstOfItsKind(terms, i) {
        EarlierKind(terms, n, i);
        assert i in before <==> FirstOfItsKind(front, i);
      }
    }
  }

  lemma EarlierKind(terms: seq<string>, n: nat, i: nat)
    requires n + 1 == |terms|
    ensures i < n ==> (FirstOfItsKind(terms[..n], i) <==> FirstOfItsKind(terms, i))
    ensures i > n ==> !FirstOfItsKind(terms, i)
    ensures i >= n ==> !FirstOfItsKind(terms[..n], i)
  {
  }

  lemma NewTerm(front: seq<string>, before: seq<nat>, kept: seq<string>, terms: seq<string>)
    requires |terms| == |front| + 1 && terms[..|front|] == front && kept == Distinct(front) && |before| == |kept|
    requires forall k :: 0 <= k < |before| ==> before[k] < |front| && kept[k] == front[before[k]]
    requires forall i: nat :: i in before <==> FirstOfItsKind(front, i)
    ensures var n := |front|;
      Distinct(terms) == kept + if FirstOfItsKind(terms, n) then [terms[n]] else []
  {
    var n := |front|;
    var t := terms[n];
    if |t| <= 50 {
      if Lower(t) in LowerAll(kept) {
        var k :| 0 <= k < |kept| && LowerAll(kept)[k] == Lower(t);
        LowerExactly(kept[k], t);
        assert before[k] in before;
        assert FirstOfItsKind(front, before[k]) && terms[before[k]] == kept[k];
      }
      if j: nat :| j < n && |terms[j]| <= 50 && SameTerm(terms[j], t) {
        LowerExactly(terms[j], t);
        var i := EarliestKind(front, j);
        var k :| 0 <= k < |before| && before[k] == i;
        assert kept[k] == front[i] && LowerAll(kept)[k] == Lower(t);
      }
    }
  }

  /** The first of its kind, for a short term. */
  lemma {:induction false} EarliestKind(terms: seq<string>, j: nat) returns (i: nat)
    requires j < |terms| && |terms[j]| <= 50
    ensures i <= j && FirstOfItsKind(terms, i) && Lower(terms[i]) == Lower(terms[j])
    decreases j
  {
    if k: nat :| k < j && |terms[k]| <= 50 && SameTerm(terms[k], terms[j]) {
      LowerExactly(terms[k], terms[j]);
      i := EarliestKind(terms, k);
    } else {
      i := j;
    }
  }

  lemma {:induction false} DistinctIsMonotone(terms: seq<string>, n: nat)
    requires n <= |terms|
    ensures Distinct(terms[..n]) <= Distinct(terms)
    decreases |terms|
  {
    if n == |terms| {
      assert terms[..n] == terms;
    } else {
      assert terms[..|terms| - 1][..n] == terms[..n];
      DistinctIsMonotone(terms[..|terms| - 1], n);
    }
  }

  lemma NothingDistinct()
    ensures Distinct([]) == []
  {
  }

  lemma DistinctStep(terms: seq<string>, n: nat)
    requires n < |terms|
    ensures var kept, t := Distinct(terms[..n]), terms[n];
      Distinct(terms[..n + 1]) == if |t| > MAX_KEYTERM_CHARS || Lower(t) in LowerAll(kept) then kept else kept + [t]
  {
    assert terms[..n + 1][..n] == terms[..n];
  }

  /** The source's loop, which stops as soon as the budget is full. */
  method BuildKeyterms(v: Vocabulary, state: State, fmt: Option<string>) returns (out: seq<string>)
    ensures out == Keyterms(v, state, fmt)
    ensures |out| <= MAX_KEYTERMS
  {
    var terms := Groups(v, state, fmt);
    NothingDistinct();
    hide Distinct, Groups, Lower;
    out := [];
    assert terms[..0] == [];
    var seen: set<string> := {};
    for n := 0 to |terms|
      invariant out == Distinct(terms[..n]) && |out| < MAX_KEYTERMS
      invariant forall key :: key in seen <==> key in LowerAll(out)
    {
      DistinctStep(terms, n);
      var t := terms[n];
      var key := Lower(t);
      if key in seen || |t| > MAX_KEYTERM_CHARS {
        continue;
      }
      assert LowerAll(out + [t]) == LowerAll(out) + [key];
      seen := seen + {key};
      out := out + [t];
      if |out| == MAX_KEYTERMS {
        DistinctIsMonotone(terms, n + 1);
        return;
      }
    }
    assert terms[..|terms|] == terms;
  }

  function Configuration(v: Vocabulary, state: State, fmt: Option<string>): Config {
    if state == Idle then Config(Keyterms(v, state, fmt), 1536, 0.70, None)
    else Config(Keyterms(v, state, fmt), 2500, 0.50,
                if fmt.Some? && fmt.value in v.prompts then Some(v.prompts[fmt.value]) else None)
  }

  /** The payload of each state: idle, or armed on no format, it biases towards what
      announces a code, with a format in hand towards that format's own terms; armed it
      waits longer and closes on less, and describes the format. */
  lemma PayloadExactly(v: Vocabulary, state: State, fmt: Option<string>)
    ensures var c := Configuration(v, state, fmt);
      var tokens := if fmt.Some? && fmt.value in v.formatTokens then v.formatTokens[fmt.value] else [];
      var terms := Distinct(if state == Armed && fmt.Some? then v.nato + v.digits + tokens + v.extra
                            else v.carriers + v.nato + v.digits + v.extra);
      && c.keyterms == (if |terms| > 100 then terms[..100] else terms)
      && c.maxTurnSilence == (if state == Armed then 2500 else 1536)
      && c.threshold == (if state == Armed then 0.50 else 0.70)
      && c.prompt == (if state == Armed && fmt.Some? && fmt.value in v.prompts then Some(v.prompts[fmt.value]) else None)
  {
    Concatenated(v.nato, v.digits, if fmt.Some? && fmt.value in v.formatTokens then v.formatTokens[fmt.value] else []);
  }

  // ------------------------------------------------- the machine

  class Detector {
    const ttl: nat
    const vocabulary: Vocabulary
    var state: State
    var fmt: Option<string>
    var lastCueMs: int
    var nowMs: int
    var rearmAfterMs: int
    var pushed: Config
    var seenFinals: set<nat>
    ghost var lastDisarmMs: int    // when it last disarmed, -1 before the first time
    ghost var armedOnMs: int       // the evidence the current arm rests on

    /** Between calls: the last payload pushed is the configuration of the current
        state, an idle machine has no format, and an arm rests on evidence newer than
        the last disarm. */
    ghost predicate Valid()
      reads this
    {
      && pushed == Configuration(vocabulary, state, fmt)
      && (state == Idle ==> fmt == None)
      && rearmAfterMs == lastDisarmMs
      && (state == Armed ==> armedOnMs > lastDisarmMs && armedOnMs <= lastCueMs)
    }

    constructor (vocabulary: Vocabulary, ttl: nat := ARM_TTL_MS)
      ensures Valid() && state == Idle && lastDisarmMs == -1 && lastCueMs == 0
      ensures this.ttl == ttl && this.vocabulary == vocabulary
    {
      this.ttl, this.vocabulary := ttl, vocabulary;
      state, fmt, lastCueMs, nowMs, rearmAfterMs := Idle, None, 0, 0, -1;
      pushed := Configuration(vocabulary, Idle, None);
      seenFinals := {};
      lastDisarmMs, armedOnMs := -1, -1;
    }

    method Disarm()
      modifies this`state, this`fmt, this`rearmAfterMs, this`lastDisarmMs
      ensures state == Idle && fmt == None && rearmAfterMs == nowMs == lastDisarmMs
    {
      state, fmt, rearmAfterMs := Idle, None, nowMs;
      lastDisarmMs := nowMs;
    }

    /** Emits only on a real change, and then exactly what is now in force. */
    method ConfigIfChanged() returns (emitted: Option<Config>)
      modifies this`pushed
      ensures pushed == Configuration(vocabulary, state, fmt)
      ensures emitted == if old(pushed) == pushed then None else Some(pushed)
    {
      var cfg := Configuration(vocabulary, state, fmt);
      if cfg == pushed {
        return None;
      }
      pushed := cfg;
      return Some(cfg);
    }

    /** A newly finalised turn of prose with no cue of its own, each turn judged once. */
    method NoteFinals(turns: seq<TurnNote>) returns (changed: bool)
      requires forall i, j :: 0 <= i < j < |turns| ==> turns[i].order < turns[j].order
      modifies this`seenFinals
      ensures changed <==> HasNewProse(turns, old(seenFinals))
      ensures turns != [] ==> seenFinals == (set o | o in FinalOrders(turns, old(seenFinals)) && o >= turns[0].order)
      ensures turns == [] ==> seenFinals == old(seenFinals)
    {
      changed := false;
      for i := 0 to |turns|
        invariant old(seenFinals) <= seenFinals == FinalOrders(turns[..i], old(seenFinals))
        invariant forall o :: o in seenFinals && o !in old(seenFinals) ==> exists j :: 0 <= j < i && turns[j].order == o
        invariant changed <==> HasNewProse(turns[..i], old(seenFinals))
      {
        var t := turns[i];
        NewProseStep(turns, i, old(seenFinals));
        assert turns[..i + 1][..i] == turns[..i];
        if !t.endOfTurn || t.order in seenFinals {
          continue;
        }
        seenFinals := seenFinals + {t.order};
        if !t.hasWords {
          continue;
        }
        if t.cues == 0 && t.functionWords >= TOPIC_CHANGE_FUNCTION_WORDS {
          changed := true;
        }
      }
      assert turns[..|turns|] == turns;
      if turns != [] {
        var floor := turns[0].order;
        seenFinals := set o | o in seenFinals && o >= floor;
      }
    }

    /** `observe`. */
    method Observe(now: int, report: CueReport, turns: seq<TurnNote>) returns (emitted: Option<Config>)
      requires Valid() && forall i, j :: 0 <= i < j < |turns| ==> turns[i].order < turns[j].order
      modifies this
      ensures Valid() && nowMs == now
      ensures emitted == if old(pushed) == pushed then None else Some(pushed)
      ensures state == Armed ==> now - lastCueMs <= ttl
      ensures lastCueMs == if report.cues >= 1 && report.evidenceMs > old(lastCueMs)
                           then report.evidenceMs else old(lastCueMs)
      ensures old(state) == Idle ==> lastDisarmMs == old(lastDisarmMs)
      ensures old(state) == Idle ==> (state == Armed <==>
        report.cues >= 1 && report.evidenceMs > old(lastDisarmMs) && now - report.evidenceMs <= ttl)
      ensures old(state) == Idle && state == Armed ==> fmt == report.fmt && armedOnMs == report.evidenceMs
      ensures old(state) == Armed ==> (state == Idle <==> now - lastCueMs > ttl || HasNewProse(turns, old(seenFinals)))
      ensures old(state) == Armed && state == Idle ==> lastDisarmMs == now
      ensures old(state) == Armed && state == Armed ==>
        fmt == (if report.fmt.Some? then report.fmt else old(fmt)) && lastDisarmMs == old(lastDisarmMs)
    {
      hide Configuration, HasNewProse;
      nowMs := now;
      var prose := NoteFinals(turns);
      if report.cues >= ARM_MIN_CUES && report.evidenceMs > lastCueMs {
        lastCueMs := report.evidenceMs;
      }
      if state == Idle {
        var isNew := report.evidenceMs > rearmAfterMs && now - report.evidenceMs <= ttl;
        if report.cues >= ARM_MIN_CUES && isNew {
          state, fmt := Armed, report.fmt;
          armedOnMs := report.evidenceMs;
        }
      } else {
        if report.fmt.Some? && report.fmt != fmt {
          fmt := report.fmt;
        }
        if now - lastCueMs > ttl {
          Disarm();
        } else if prose {
          Disarm();
        }
      }
      emitted := ConfigIfChanged();
    }

    /** `committed`: a settled identifier disarms and may not arm again by itself. */
    method Committed() returns (emitted: Option<Config>)
      requires Valid()
      modifies this
      ensures Valid() && state == Idle && lastDisarmMs == nowMs == old(nowMs) && lastCueMs == old(lastCueMs)
      ensures emitted == if old(pushed) == pushed then None else Some(pushed)
    {
      Disarm();
      emitted := ConfigIfChanged();
    }

    /** Any session: observations and commits in any order, starting from any state. */
    method Run(inputs: seq<Input>) returns (emitted: seq<Config>)
      requires Valid()
      requires forall k :: 0 <= k < |inputs| && inputs[k].Seen? ==>
        forall i, j :: 0 <= i < j < |inputs[k].turns| ==> inputs[k].turns[i].order < inputs[k].turns[j].order
      modifies this
      ensures Valid()
      ensures pushed == if emitted == [] then old(pushed) else emitted[|emitted| - 1]
      ensures forall i :: 0 < i < |emitted| ==> emitted[i] != emitted[i - 1]
      ensures emitted != [] ==> emitted[0] != old(pushed)
    {
      emitted := [];
      for k := 0 to |inputs|
        invariant Valid()
        invariant pushed == if emitted == [] then old(pushed) else emitted[|emitted| - 1]
        invariant forall i :: 0 < i < |emitted| ==> emitted[i] != emitted[i - 1]
        invariant emitted != [] ==> emitted[0] != old(pushed)
      {
        var e: Option<Config>;
        match inputs[k] {
          case Seen(now, report, turns) => e := Observe(now, report, turns);
          case Settled => e := Committed();
        }
        if e.Some? {
          emitted := emitted + [e.value];
        }
      }
    }
  }

  datatype Input = Seen(now: int, report: CueReport, turns: seq<TurnNote>) | Settled

  predicate IsProse(t: TurnNote) {
    t.endOfTurn && t.hasWords && t.cues == 0 && t.functionWords >= TOPIC_CHANGE_FUNCTION_WORDS
  }

  ghost predicate HasNewProse(turns: seq<TurnNote>, seen: set<nat>) {
    exists i :: 0 <= i < |turns| && IsProse(turns[i]) && turns[i].order !in seen
  }

  /** A closed turn with words, no cue of its own and at least three function words. */
  ghost predicate Prose(t: TurnNote) {
    t.endOfTurn && t.hasWords && t.cues == 0 && t.functionWords >= 3
  }

  /** What counts as a change of topic, and which turns have been judged. */
  lemma TopicExactly(turns: seq<TurnNote>, seen: set<nat>, o: nat)
    ensures HasNewProse(turns, seen) <==> exists i :: 0 <= i < |turns| && turns[i].order !in seen && Prose(turns[i])
    ensures o in FinalOrders(turns, seen) <==>
      o in seen || exists i :: 0 <= i < |turns| && turns[i].endOfTurn && turns[i].order == o
  {
    FinalOrdersExactly(turns, seen, o);
    if i :| 0 <= i < |turns| && turns[i].order !in seen && Prose(turns[i]) {
      assert IsProse(turns[i]);
    }
  }

  lemma {:induction false} FinalOrdersExactly(turns: seq<TurnNote>, seen: set<nat>, o: nat)
    ensures o in FinalOrders(turns, seen) <==>
      o in seen || exists i :: 0 <= i < |turns| && turns[i].endOfTurn && turns[i].order == o
  {
    if |turns| > 0 {
      var n := |turns| - 1;
      FinalOrdersExactly(turns[..n], seen, o);
      if i :| 0 <= i < n && turns[i].endOfTurn && turns[i].order == o {
        assert turns[..n][i] == turns[i];
      }
    }
  }

  lemma NewProseStep(turns: seq<TurnNote>, i: nat, seen: set<nat>)
    requires i < |turns|
    ensures HasNewProse(turns[..i + 1], seen) <==>
      HasNewProse(turns[..i], seen) || (IsProse(turns[i]) && turns[i].order !in seen)
  {
    var before, after := turns[..i], turns[..i + 1];
    if HasNewProse(before, seen) {
      var j :| 0 <= j < |before| && IsProse(before[j]) && before[j].order !in seen;
      assert after[j] == before[j];
    }
    if IsProse(turns[i]) && turns[i].order !in seen {
      assert after[i] == turns[i];
    }
    if HasNewProse(after, seen) {
      var j :| 0 <= j < |after| && IsProse(after[j]) && after[j].order !in seen;
      assert j < i ==> before[j] == after[j];
    }
  }

  ghost function FinalOrders(turns: seq<TurnNote>, seen: set<nat>): set<nat> {
    if |turns| == 0 then seen else
    FinalOrders(turns[..|turns| - 1], seen)
      + if turns[|turns| - 1].endOfTurn then {turns[|turns| - 1].order} else {}
  }
}
