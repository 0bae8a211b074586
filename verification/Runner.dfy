/** A session: windows become candidates, candidates are resolved against the solver, the
    decider and a human, and every one that closes writes a single row. */
module Runner {
  import opened Common
  import opened Posterior
  import opened Decider
  import Repairs
  import ShapeCue
  import Solver

  const ANSWER_CONF := 0.999
  const NO_CONF := 0.02

  /** A string cut from the tape for one format, with per-position confidence. */
  datatype Window = Window(fmt: Fmt, fmtName: string, value: string, confs: seq<real>, complete: bool,
                           lastWordEnd: int, trailing: nat, blockConfidence: bool)

  ghost predicate WindowOk(win: Window) {
    Repairs.WellFormed(win.fmt) && |win.value| == |win.confs| == win.fmt.Length()
  }

  ghost predicate Ascending(a: string) {
    forall i :: 0 < i < |a| ==> a[i - 1] < a[i]
  }

  lemma {:induction false} AscendsFar(a: string, i: nat, j: nat)
    requires Ascending(a) && i < j < |a|
    ensures a[i] < a[j]
  {
    if i < j - 1 {
      AscendsFar(a, i, j - 1);
    }
  }

  lemma AscendingRepeatsNothing(a: string)
    requires Ascending(a)
    ensures NoRepeats(a)
  {
    forall i, j | 0 <= i < j < |a| ensures a[i] != a[j] {
      AscendsFar(a, i, j);
    }
  }

  lemma DigitsRepeatNothing()
    ensures NoRepeats(DIGITS)
  {
    AscendingRepeatsNothing(DIGITS);
  }

  lemma LettersRepeatNothing()
    ensures NoRepeats(LETTERS)
  {
    AscendingRepeatsNothing(LETTERS);
  }

  lemma Joined(a: string, b: string)
    requires Ascending(a) && Ascending(b) && |a| > 0 && |b| > 0 && a[|a| - 1] < b[0]
    ensures Ascending(a + b)
  {
  }

  lemma VinRepeatsNothing()
    ensures NoRepeats(VIN_ALPHABET)
  {
    var a, b := "0123456789ABCDEFGH", "JKLMNPRSTUVWXYZ";
    assert a + b == VIN_ALPHABET;
    Joined(a, b);
    hide Ascending;
    AscendingRepeatsNothing(a + b);
  }

  ghost predicate KnownAlphabets(alpha: seq<string>) {
    forall i :: 0 <= i < |alpha| ==>
      alpha[i] == DIGITS || alpha[i] == LETTERS || alpha[i] == VIN_ALPHABET || alpha[i] == "UJZ"
  }

  lemma KnownAlphabetsOffer(alpha: seq<string>)
    requires KnownAlphabets(alpha)
    ensures forall i :: 0 <= i < |alpha| ==> NoRepeats(alpha[i]) && |alpha[i]| >= 2
  {
    DigitsRepeatNothing();
    LettersRepeatNothing();
    VinRepeatsNothing();
    assert NoRepeats("UJZ");
    hide NoRepeats;
  }

  lemma AlphabetsAreKnown(k: ShapeCue.Checks, n: nat)
    requires n < |ShapeCue.ShapeFormats(k)|
    ensures KnownAlphabets(ShapeCue.ShapeFormats(k)[n].fmt.alpha) && ShapeCue.ShapeFormats(k)[n].fmt.Length() >= 3
  {
    hide DIGITS, LETTERS, VIN_ALPHABET, Repeat;
    match n
    case 0 => assert KnownAlphabets(IBAN_GB_ALPHA);
    case 1 => assert KnownAlphabets(VIN_ALPHA);
    case 2 => assert KnownAlphabets(LUHN16_ALPHA);
    case 3 => assert KnownAlphabets(ISO_ALPHA);
    case _ => assert KnownAlphabets(NHS_ALPHA);
  }

  /** The five registered formats meet what the solver and the loop ask of a format. */
  lemma RegisteredFormatsAreWellFormed(k: ShapeCue.Checks, n: nat)
    requires n < |ShapeCue.ShapeFormats(k)|
    ensures Repairs.WellFormed(ShapeCue.ShapeFormats(k)[n].fmt)
  {
    var alpha := ShapeCue.ShapeFormats(k)[n].fmt.alpha;
    AlphabetsAreKnown(k, n);
    hide NoRepeats, KnownAlphabets, ShapeCue.ShapeFormats;
    KnownAlphabetsOffer(alpha);
  }

  /** What came back from a question. */
  datatype Reply = NoAnswer | OutOfGrammar | No | Named(c: char)

  /** What one pass of the loop finds around it. */
  datatype Around = Around(now: int, silence: int, turnEnded: bool, measured: Regime, identified: Option<string>,
                           reply: Reply, reread: Option<(string, seq<real>)>)

  ghost predicate AroundOk(e: Around) {
    e.reread.Some? ==> |e.reread.value.0| == |e.reread.value.1|
  }

  /** `parse_answer`, from the answer in lower case with its spaces normalised. Every
      character it names was offered. */
  function ParseAnswer(t: Option<string>, confirm: bool, choices: seq<char>, spoken: seq<map<string, char>>): (r: Reply)
    ensures r.Named? ==> exists c :: c in choices && (r.c == c || r.c == Upper(c))
    ensures t == None ==> r == NoAnswer
  {
    if t == None then NoAnswer
    else if t.value == "" then OutOfGrammar
    else if confirm && t.value in ["yes", "yeah", "yep", "correct", "that's right"] then
      if choices == [] then No else assert choices[0] in choices; Named(choices[0])
    else if confirm && t.value in ["no", "nope", "negative"] then No
    else SpokenCharacter(t.value, choices, spoken)
  }

  function SpokenCharacter(t: string, choices: seq<char>, spoken: seq<map<string, char>>): (r: Reply)
    ensures r.Named? ==> exists c :: c in choices && r.c == Upper(c)
    ensures r.Named? || r == OutOfGrammar
  {
    if spoken != [] then
      if t in spoken[0] && (exists c :: c in choices && Upper(c) == spoken[0][t]) then Named(spoken[0][t])
      else SpokenCharacter(t, choices, spoken[1..])
    else if |t| == 1 && exists c :: c in choices && Upper(c) == Upper(t[0]) then Named(Upper(t[0]))
    else OutOfGrammar
  }

  /** Some offered character is `c` up to case. */
  ghost predicate Offered(choices: seq<char>, c: char) {
    exists d :: d in choices && Upper(d) == c
  }

  /** The first table that spells an offered character so. */
  ghost predicate SpelledBy(choices: seq<char>, spoken: seq<map<string, char>>, t: string, k: int) {
    && 0 <= k < |spoken| && t in spoken[k] && Offered(choices, spoken[k][t])
    && forall j :: 0 <= j < k ==> !(t in spoken[j] && Offered(choices, spoken[j][t]))
  }

  lemma {:induction false} SpokenExactly(t: string, choices: seq<char>, spoken: seq<map<string, char>>)
    ensures forall k :: SpelledBy(choices, spoken, t, k) ==> SpokenCharacter(t, choices, spoken) == Named(spoken[k][t])
    ensures (forall k :: 0 <= k < |spoken| ==> !(t in spoken[k] && Offered(choices, spoken[k][t]))) ==>
      SpokenCharacter(t, choices, spoken) ==
        if |t| == 1 && Offered(choices, Upper(t[0])) then Named(Upper(t[0])) else OutOfGrammar
  {
    if spoken != [] {
      SpokenExactly(t, choices, spoken[1..]);
      forall k | SpelledBy(choices, spoken, t, k)
        ensures SpokenCharacter(t, choices, spoken) == Named(spoken[k][t])
      {
        if k > 0 {
          assert forall j :: 0 <= j < k - 1 ==> spoken[1..][j] == spoken[j + 1];
          assert SpelledBy(choices, spoken[1..], t, k - 1);
        }
      }
    }
  }

  lemma FirstSpelling(choices: seq<char>, spoken: seq<map<string, char>>, t: string, k: nat)
    requires k < |spoken| && t in spoken[k] && Offered(choices, spoken[k][t])
    ensures exists j :: SpelledBy(choices, spoken, t, j)
    decreases k
  {
    if j: nat :| j < k && t in spoken[j] && Offered(choices, spoken[j][t]) {
      FirstSpelling(choices, spoken, t, j);
    } else {
      assert SpelledBy(choices, spoken, t, k);
    }
  }

  ghost predicate IsYes(t: string) {
    t == "yes" || t == "yeah" || t == "yep" || t == "correct" || t == "that's right"
  }

  ghost predicate IsNo(t: string) {
    t == "no" || t == "nope" || t == "negative"
  }

  /** Silence and the empty answer name nothing; "no" to a confirmation names nothing and
      "yes" the first choice; any other answer names the character the first table has for
      it that was offered, or the offered one it is itself, or is out of grammar. */
  lemma AnswersExactly(t: Option<string>, confirm: bool, choices: seq<char>, spoken: seq<map<string, char>>)
    ensures var r := ParseAnswer(t, confirm, choices, spoken);
      && (r == NoAnswer <==> t == None)
      && (t == Some("") ==> r == OutOfGrammar)
      && (confirm && t.Some? && IsNo(t.value) ==> r == No)
      && (r == No ==> confirm)
      && (confirm && t.Some? && IsYes(t.value) && choices != [] ==> r == Named(choices[0]))
    ensures t.Some? && t.value != "" && !confirm ==> ParseAnswer(t, confirm, choices, spoken) == SpokenCharacter(t.value, choices, spoken)
    ensures confirm && t.Some? && t.value != "" && !IsYes(t.value) && !IsNo(t.value) ==>
      ParseAnswer(t, confirm, choices, spoken) == SpokenCharacter(t.value, choices, spoken)
  {
  }

  /** A single character that was offered, and that no table spells as another offered
      one, is understood. */
  lemma OfferedIsUnderstood(t: string, choices: seq<char>, spoken: seq<map<string, char>>)
    requires |t| == 1 && Offered(choices, Upper(t[0]))
    requires forall k :: 0 <= k < |spoken| && t in spoken[k] && Offered(choices, spoken[k][t]) ==>
      spoken[k][t] == Upper(t[0])
    ensures SpokenCharacter(t, choices, spoken) == Named(Upper(t[0]))
  {
    SpokenExactly(t, choices, spoken);
    if k: nat :| k < |spoken| && t in spoken[k] && Offered(choices, spoken[k][t]) {
      FirstSpelling(choices, spoken, t, k);
    }
  }

  // ------------------------------------------------- the second signal

  /** A carrier phrase and the format it names, if it names one. */
  datatype Phrase = Phrase(names: Option<string>)

  type Registry = (string, string) -> bool

  ghost function SecondSignal(win: Window, heard: string, carrier: Option<Phrase>, carrierFmt: Option<string>,
                              registered: Registry, identified: Option<string>): Signal
    requires |heard| == win.fmt.Length()
  {
    if carrier.Some? && (carrierFmt == None || carrierFmt == Some(win.fmtName))
       && (carrier.value.names.Some? || ShapeCue.IsEvidence(win.fmt.alpha, heard)) then Carrier
    else if registered(win.fmtName, heard) then Prefix
    else if identified == Some(win.fmtName) then Llm
    else NoSignal
  }

  /** A phrase that names no format is no second signal for a window whose format is
      known from its length alone. */
  lemma UnnamedPhraseIsNotEnough(win: Window, heard: string, carrier: Option<Phrase>, carrierFmt: Option<string>,
                                 registered: Registry, identified: Option<string>)
    requires |heard| == win.fmt.Length() && ShapeCue.Uniform(win.fmt.alpha)
    requires |Mismatches(win.fmt.alpha, heard)| <= ShapeCue.SHAPE_MAX_DIST
    requires carrier.Some? ==> carrier.value.names == None
    requires !registered(win.fmtName, heard) && identified != Some(win.fmtName)
    ensures SecondSignal(win, heard, carrier, carrierFmt, registered, identified) == NoSignal
  {
    ShapeCue.UniformHitIsNoEvidence(win.fmt.alpha, heard);
  }

  /** The phrase speaks for the hypothesis: it names no other format, and either names one
      or stands beside a shape that could have been refused. */
  ghost predicate PhraseCounts(win: Window, heard: string, carrier: Option<Phrase>, carrierFmt: Option<string>)
    requires |heard| == win.fmt.Length()
  {
    && carrier.Some? && (carrierFmt.Some? ==> carrierFmt.value == win.fmtName)
    && (carrier.value.names == None ==> ShapeCue.IsEvidence(win.fmt.alpha, heard))
  }

  /** Which signal it is, in order of strength; a phrase that names another format is
      none. */
  lemma SignalExactly(win: Window, heard: string, carrier: Option<Phrase>, carrierFmt: Option<string>,
                      registered: Registry, identified: Option<string>)
    requires |heard| == win.fmt.Length()
    ensures var s := SecondSignal(win, heard, carrier, carrierFmt, registered, identified);
      var counts := PhraseCounts(win, heard, carrier, carrierFmt);
      && (s == Carrier <==> counts)
      && (s == Prefix <==> !counts && registered(win.fmtName, heard))
      && (s == Llm <==> !counts && !registered(win.fmtName, heard) && identified == Some(win.fmtName))
      && (s == NoSignal <==> !counts && !registered(win.fmtName, heard) && identified != Some(win.fmtName))
      && (carrierFmt.Some? && carrierFmt.value != win.fmtName ==> s != Carrier)
  {
  }

  // ------------------------------------------------- rows

  datatype Status = Committed | Flagged | Unverified
  datatype Validation = CheckDigit | Both | Registered | Nothing

  datatype Row = Row(fmt: Fmt, heard: string, final: Option<string>, validatedBy: Validation, signal: Signal,
                     status: Status, rung: Rung, silent: bool, corrected: bool, position: Option<nat>,
                     questions: nat, spans: nat, why: Option<Reason>)

  function ValidatedBy(fmt: Fmt, top: string, signal: Signal): Validation {
    if fmt.ok(top) then if signal == Prefix then Both else CheckDigit
    else if signal == Prefix then Registered else Nothing
  }

  /** Validated by the check digit exactly when the string is valid, and by the registry
      exactly when its prefix is registered. */
  lemma ValidationExactly(fmt: Fmt, top: string, signal: Signal)
    ensures ValidatedBy(fmt, top, signal) in {CheckDigit, Both} <==> fmt.ok(top)
    ensures ValidatedBy(fmt, top, signal) in {Registered, Both} <==> signal == Prefix
  {
  }

  function FirstDifference(a: string, b: string, i: nat): (p: Option<nat>)
    requires |a| == |b| && i <= |a|
    ensures p.None? ==> a[i..] == b[i..]
    ensures p.Some? ==> i <= p.value < |a| && a[p.value] != b[p.value] && a[i..p.value] == b[i..p.value]
    decreases |a| - i
  {
    if i == |a| then None else if a[i] != b[i] then Some(i) else FirstDifference(a, b, i + 1)
  }

  /** `_commit`. */
  function CommittedRow(win: Window, top: string, signal: Signal, questions: nat, spans: nat): Row
    requires |top| == |win.value|
  {
    var silent := questions == 0 && spans == 0;
    Row(win.fmt, win.value, Some(top), ValidatedBy(win.fmt, top, signal), signal, Committed,
        if silent then Write else Speak, silent, top != win.value, FirstDifference(top, win.value, 0),
        questions, spans, None)
  }

  /** `_flag`. */
  function FlaggedRow(win: Window, signal: Signal, questions: nat, spans: nat): Row {
    Row(win.fmt, win.value, None, Nothing, signal, Flagged, Amber, false, false, None, questions, spans, None)
  }

  /** `_handover`. */
  function HandoverRow(win: Window, signal: Signal, questions: nat, spans: nat, why: Reason): Row {
    Row(win.fmt, win.value, None, Nothing, signal, Unverified, Amber, false, false, None, questions, spans, Some(why))
  }

  ghost predicate DiffersFirstAt(heard: string, final: string, p: nat) {
    p < |heard| == |final| && heard[p] != final[p] && heard[..p] == final[..p]
  }

  /** Valid, and no valid string is fewer legal edits away from what was heard. */
  ghost predicate ClosestRepair(fmt: Fmt, heard: string, final: string) {
    && fmt.ok(final) && Repairs.LegalEdit(fmt, heard, {}, final)
    && forall y :: fmt.ok(y) && Repairs.LegalEdit(fmt, heard, {}, y) ==>
         |Repairs.Edited(heard, y)| >= |Repairs.Edited(heard, final)|
  }

  /** What a committed row promises; `named` holds the characters a human named since the
      identifier was last re-read. */
  ghost predicate CommitOk(row: Row, named: map<nat, char>) {
    && row.final.Some? && |row.final.value| == |row.heard| == row.fmt.Length()
    && row.fmt.ok(row.final.value)
    && row.signal != NoSignal
    && row.validatedBy == (if row.signal == Prefix then Both else CheckDigit)
    && (row.corrected <==> row.final.value != row.heard)
    && (row.corrected <==> row.position.Some?)
    && (row.position.Some? ==> DiffersFirstAt(row.heard, row.final.value, row.position.value))
    && (row.silent <==> row.questions == 0 && row.spans == 0)
    && row.rung == (if row.silent then Write else Speak)
    && (row.silent ==> ClosestRepair(row.fmt, row.heard, row.final.value))
    && (row.silent && row.corrected ==> !NamedIban(row.fmt))
    && (forall i :: i in named ==> i < |row.final.value| && row.final.value[i] == named[i])
  }

  ghost predicate RowOk(row: Row, named: map<nat, char>) {
    && row.questions <= BUDGET_QUESTIONS && row.spans <= BUDGET_SPANS && |named.Keys| <= row.questions
    && (row.status == Committed ==> CommitOk(row, named))
    && (row.status != Committed ==>
         row.final == None && row.validatedBy == Nothing && !row.silent && !row.corrected && row.rung == Amber)
    && (row.status == Unverified <==> row.why.Some?)
  }

  // ------------------------------------------------- a candidate, as a value

  datatype Candidate = Candidate(window: Window, heard: string, confs: seq<real>, budget: Budget, lockedAny: bool,
                                 named: map<nat, char>)

  /** A human's answers are locked in: character, confidence and position. */
  ghost predicate Kept(c: Candidate) {
    && c.named.Keys == c.budget.locked
    && forall i :: i in c.named ==>
         i < |c.heard| == |c.confs| && c.heard[i] == c.named[i] && c.confs[i] == ANSWER_CONF
  }

  ghost predicate CandidateOk(c: Candidate) {
    && WindowOk(c.window)
    && |c.heard| == |c.confs| == c.window.fmt.Length()
    && Within(c.budget) && |c.budget.locked| <= c.budget.questions
    && (c.lockedAny <==> c.budget.locked != {})
    && Kept(c)
    && (c.budget.questions == 0 && c.budget.spans == 0 ==> c.heard == c.window.value)
  }

  ghost function Opened(win: Window): Candidate {
    Candidate(win, win.value, win.confs, Unspent(), false, map[])
  }

  /** A fresher reading of the same value replaces the working string until a human has
      answered about it. */
  ghost function Refreshed(c: Candidate, win: Window): Candidate {
    if c.lockedAny then c.(window := win) else c.(window := win, heard := win.value, confs := win.confs)
  }

  ghost function Answered(c: Candidate, position: nat, reply: Reply): Candidate
    requires position < |c.heard| == |c.confs|
  {
    match reply
    case Named(x) =>
      c.(heard := c.heard[position := x], confs := c.confs[position := ANSWER_CONF],
         budget := c.budget.(locked := c.budget.locked + {position}), lockedAny := true,
         named := c.named[position := x])
    case No => c.(confs := c.confs[position := NO_CONF])
    case _ => c
  }

  ghost function Reread(c: Candidate, value: string, confs: seq<real>): Candidate {
    c.(heard := value, confs := confs, lockedAny := false, named := map[])
  }

  /** What an answer changes: a named character is written, all but certain and locked; a
      "no" makes the position all but worthless as evidence and locks nothing. */
  lemma AnswerExactly(c: Candidate, position: nat, reply: Reply, i: nat)
    requires position < |c.heard| == |c.confs| && i < |c.heard|
    ensures var c' := Answered(c, position, reply);
      && |c'.heard| == |c.heard| && |c'.confs| == |c.confs| && c'.window == c.window
      && c'.heard[i] == (if i == position && reply.Named? then reply.c else c.heard[i])
      && c'.confs[i] == (if i != position then c.confs[i]
                         else if reply.Named? then 0.999 else if reply == No then 0.02 else c.confs[i])
      && c'.budget == c.budget.(locked := if reply.Named? then c.budget.locked + {position} else c.budget.locked)
      && (c'.lockedAny <==> c.lockedAny || reply.Named?)
      && c'.named == if reply.Named? then c.named[position := reply.c] else c.named
  {
  }

  /** A pass that goes round again asked about an unlocked position, or re-read the span. */
  ghost predicate Continues(c: Candidate, d: Decision, e: Around, c': Candidate) {
    && |c.heard| == |c.confs|
    && match d
       case Ask(position, _, _) =>
         && position < |c.heard| && position !in c.budget.locked
         && c' == Answered(c.(budget := Charged(c.budget, d)), position, e.reply)
       case Span(_) =>
         && e.reread.Some? && |e.reread.value.0| == |c.heard|
         && c' == Reread(c.(budget := Charged(c.budget, d)), e.reread.value.0, e.reread.value.1)
       case _ => false
  }

  lemma AddedBound(s: set<nat>, x: nat)
    ensures |s + {x}| <= |s| + 1
  {
    if x in s {
      assert s + {x} == s;
    }
  }

  /** What was named stays in step with the string, the confidences and the locks. */
  lemma NamingKeeps(c: Candidate, position: nat, reply: Reply)
    requires |c.heard| == |c.confs| && position < |c.heard| && position !in c.budget.locked && Kept(c)
    ensures Kept(Answered(c, position, reply))
  {
  }

  lemma AskingKeeps(c: Candidate, position: nat, reply: Reply)
    requires WindowOk(c.window) && |c.heard| == |c.confs| == c.window.fmt.Length() && Within(c.budget)
    requires |c.budget.locked| + 1 <= c.budget.questions && (c.lockedAny <==> c.budget.locked != {}) && Kept(c)
    requires position < |c.heard| && position !in c.budget.locked
    ensures CandidateOk(Answered(c, position, reply))
  {
    AddedBound(c.budget.locked, position);
    NamingKeeps(c, position, reply);
    hide Kept, WindowOk;
  }

  /** Going round again keeps the candidate sound, spends exactly one budget, and unless
      the span was re-read keeps every character a human has named. */
  lemma ContinuingKeeps(c: Candidate, d: Decision, e: Around, c': Candidate)
    requires CandidateOk(c) && AroundOk(e) && Continues(c, d, e, c')
    requires Within(Charged(c.budget, d))
    ensures CandidateOk(c')
    ensures c'.window == c.window
    ensures c'.budget.questions + c'.budget.spans == c.budget.questions + c.budget.spans + 1
    ensures d.Ask? ==> c'.budget.spans == c.budget.spans
    ensures d.Span? ==> c'.budget.spans == c.budget.spans + 1
    ensures d.Ask? ==> forall i :: i in c.named ==> i in c'.named && c'.named[i] == c.named[i]
  {
    if d.Ask? {
      AskingKeeps(c.(budget := Charged(c.budget, d)), d.position, e.reply);
    } else {
      hide WindowOk;
      assert c'.named == map[] && c'.budget.locked == {};
    }
  }

  lemma RefreshingKeeps(c: Candidate, win: Window)
    requires CandidateOk(c) && WindowOk(win) && win.value == c.window.value
    ensures CandidateOk(Refreshed(c, win))
    ensures Refreshed(c, win).named == c.named && Refreshed(c, win).budget == c.budget
  {
  }

  lemma {:induction false} SomeUnlocked(locked: set<nat>, n: nat) returns (i: nat)
    requires |locked| < n
    ensures i < n && i !in locked
  {
    i := n - 1;
    if i in locked {
      i := SomeUnlocked(locked - {i}, n - 1);
    }
  }

  lemma {:induction false} AlphabetBound(fmt: Fmt, n: nat) returns (a: nat)
    requires n <= fmt.Length()
    ensures forall i :: 0 <= i < n ==> |fmt.alpha[i]| <= a
  {
    if n == 0 {
      a := 0;
    } else {
      var b := AlphabetBound(fmt, n - 1);
      a := if |fmt.alpha[n - 1]| > b then |fmt.alpha[n - 1]| else b;
    }
  }

  // ------------------------------------------------- what a commit writes

  /** Everything the solver guarantees about the accepted string reaches the row. */
  lemma CommitWritesWell(c: Candidate, w: Weights, entropy: Solver.Entropy, r: Solver.Result, m: Moment, s: Speech)
    requires CandidateOk(c) && Solver.Decided(c.window.fmt, w, entropy, c.heard, c.confs, c.budget.locked, r)
    requires Shaped(c.window.fmt, c.heard, r)
    requires Choice(c.window.fmt, w, c.heard, r, m, c.budget, s) == Commit
    ensures |TopOr(r, c.heard)| == |c.window.value|
    ensures RowOk(CommittedRow(c.window, TopOr(r, c.heard), m.signal, c.budget.questions, c.budget.spans), c.named)
  {
    var fmt, top := c.window.fmt, TopOr(r, c.heard);
    CommitMeans(fmt, w, c.heard, r, m, c.budget, s);
    var posts := Repairs.Posts(fmt, c.heard, c.confs, c.budget.locked, w);
    Solver.TopIsBest(fmt, posts, c.heard, c.budget.locked, r.ranked, r.radius);
    var row := CommittedRow(c.window, top, m.signal, c.budget.questions, c.budget.spans);
    assert row.position.None? ==> top[0..] == c.window.value[0..];
    assert row.position.Some? ==> top[0..row.position.value] == c.window.value[0..row.position.value];
    if row.silent {
      assert c.budget.locked == {};
    }
  }
}
