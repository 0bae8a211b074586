/** What happened in a session, note by note: the candidates opened, the questions asked
    with their replies, the re-reads and the rows. Everything the loop remembers is a
    function of this journal. */
module Journal {
  import opened Common
  import opened Decider
  import opened Runner

  datatype Note =
    | Opening(value: string)
    | Asked(position: nat, reply: Reply)
    | Rereading(fits: bool)
    | Written(row: Row)

  /** The candidate under consideration. */
  ghost function OpenIn(log: seq<Note>): Option<string> {
    if |log| == 0 then None else
    match log[|log| - 1]
    case Opening(value) => Some(value)
    case Written(_) => None
    case _ => OpenIn(log[..|log| - 1])
  }

  /** What a human has named for it since it was opened or last re-read. */
  ghost function NamedIn(log: seq<Note>): map<nat, char> {
    if |log| == 0 then map[] else
    match log[|log| - 1]
    case Asked(position, Named(c)) => NamedIn(log[..|log| - 1])[position := c]
    case Asked(_, _) => NamedIn(log[..|log| - 1])
    case _ => map[]
  }

  ghost function AsksIn(log: seq<Note>): nat {
    if |log| == 0 then 0 else
    match log[|log| - 1]
    case Asked(_, _) => AsksIn(log[..|log| - 1]) + 1
    case Rereading(_) => AsksIn(log[..|log| - 1])
    case _ => 0
  }

  ghost function RereadsIn(log: seq<Note>): nat {
    if |log| == 0 then 0 else
    match log[|log| - 1]
    case Asked(_, _) => RereadsIn(log[..|log| - 1])
    case Rereading(_) => RereadsIn(log[..|log| - 1]) + 1
    case _ => 0
  }

  ghost function RowsIn(log: seq<Note>): seq<Row> {
    if |log| == 0 then [] else
    RowsIn(log[..|log| - 1]) + if log[|log| - 1].Written? then [log[|log| - 1].row] else []
  }

  ghost function Settles(row: Row): set<string> {
    {row.heard} + if row.final.Some? then {row.final.value} else {}
  }

  /** The strings no candidate is opened for any more. */
  ghost function DecidedIn(log: seq<Note>): set<string> {
    if |log| == 0 then {} else
    DecidedIn(log[..|log| - 1]) + if log[|log| - 1].Written? then Settles(log[|log| - 1].row) else {}
  }

  /** What each note promises, given those before it: a candidate is replaced only by
      another value, a question never concerns a named position and stays within the
      budget, and a row keeps what was named and counts what was spent. */
  ghost predicate NoteOk(suppress: bool, log: seq<Note>, note: Note) {
    match note
    case Opening(value) => OpenIn(log) != Some(value) && (suppress ==> value !in DecidedIn(log))
    case Asked(position, _) => OpenIn(log).Some? && position !in NamedIn(log) && AsksIn(log) < BUDGET_QUESTIONS
    case Rereading(_) => OpenIn(log).Some? && RereadsIn(log) < BUDGET_SPANS
    case Written(row) =>
      && OpenIn(log) == Some(row.heard) && RowOk(row, NamedIn(log))
      && row.questions == AsksIn(log) && row.spans == RereadsIn(log)
  }

  ghost predicate LogOk(suppress: bool, log: seq<Note>) {
    forall j :: 0 <= j < |log| ==> NoteOk(suppress, log[..j], log[j])
  }

  lemma LogGrows(suppress: bool, log: seq<Note>, note: Note)
    requires LogOk(suppress, log) && NoteOk(suppress, log, note)
    ensures LogOk(suppress, log + [note])
  {
    var log' := log + [note];
    forall j | 0 <= j < |log'| ensures NoteOk(suppress, log'[..j], log'[j]) {
      if j < |log| {
        assert log'[..j] == log[..j];
      } else {
        assert log'[..j] == log;
      }
    }
  }

  lemma AfterNote(log: seq<Note>, note: Note)
    ensures OpenIn(log + [note]) ==
      match note { case Opening(v) => Some(v) case Written(_) => None case _ => OpenIn(log) }
    ensures NamedIn(log + [note]) ==
      match note { case Asked(p, Named(c)) => NamedIn(log)[p := c] case Asked(_, _) => NamedIn(log) case _ => map[] }
    ensures AsksIn(log + [note]) ==
      match note { case Asked(_, _) => AsksIn(log) + 1 case Rereading(_) => AsksIn(log) case _ => 0 }
    ensures RereadsIn(log + [note]) ==
      match note { case Asked(_, _) => RereadsIn(log) case Rereading(_) => RereadsIn(log) + 1 case _ => 0 }
    ensures RowsIn(log + [note]) == RowsIn(log) + (if note.Written? then [note.row] else [])
    ensures DecidedIn(log + [note]) == DecidedIn(log) + (if note.Written? then Settles(note.row) else {})
  {
    assert (log + [note])[..|log|] == log;
  }

  lemma PrefixOk(suppress: bool, log: seq<Note>, n: nat)
    requires LogOk(suppress, log) && n <= |log|
    ensures LogOk(suppress, log[..n])
  {
    forall j | 0 <= j < n ensures NoteOk(suppress, log[..n][..j], log[..n][j]) {
      assert log[..n][..j] == log[..j];
    }
  }

  // ------------------------------------------------- what was named

  ghost predicate Extends(a: map<nat, char>, b: map<nat, char>) {
    forall i :: i in a ==> i in b && b[i] == a[i]
  }

  /** From `i` on up to `j` only questions. */
  ghost predicate OnlyAsked(log: seq<Note>, i: nat, j: nat) {
    i <= j <= |log| && forall k :: i <= k < j ==> log[k].Asked?
  }

  /** Questions lose nothing that was named before them. */
  lemma {:induction false} NamedSurvives(suppress: bool, log: seq<Note>, i: nat, j: nat)
    requires LogOk(suppress, log) && OnlyAsked(log, i, j)
    ensures Extends(NamedIn(log[..i]), NamedIn(log[..j]))
  {
    if i < j {
      NamedSurvives(suppress, log, i, j - 1);
      assert NoteOk(suppress, log[..j - 1], log[j - 1]);
      AfterNote(log[..j - 1], log[j - 1]);
      assert log[..j] == log[..j - 1] + [log[j - 1]];
    }
  }

  /** A character a human named is in the committed row, and no later question was about
      it, unless the span was re-read or another value took over in between. */
  lemma NamedReachesTheRow(suppress: bool, log: seq<Note>, i: nat, j: nat)
    requires LogOk(suppress, log) && i < j < |log| && log[i].Asked? && log[i].reply.Named?
    requires OnlyAsked(log, i, j)
    ensures log[j].Written? && log[j].row.status == Committed ==>
      log[i].position < |log[j].row.final.value| && log[j].row.final.value[log[i].position] == log[i].reply.c
    ensures forall k :: i < k < j ==> log[k].position != log[i].position
  {
    var p := log[i].position;
    AfterNote(log[..i], log[i]);
    assert log[..i + 1] == log[..i] + [log[i]];
    assert NamedIn(log[..i + 1])[p] == log[i].reply.c;
    NamedSurvives(suppress, log, i + 1, j);
    assert NoteOk(suppress, log[..j], log[j]);
    forall k | i < k < j ensures log[k].position != p {
      NamedSurvives(suppress, log, i + 1, k);
      assert NoteOk(suppress, log[..k], log[k]);
    }
  }

  lemma NothingNamed(m: map<nat, char>)
    requires forall i :: i !in m
    ensures m == map[]
  {
  }

  /** A note loses something named exactly when something was and the note opens another
      candidate, re-reads the span, or closes this one. */
  lemma LosesExactlyWhen(suppress: bool, log: seq<Note>, note: Note)
    requires NoteOk(suppress, log, note)
    ensures !Extends(NamedIn(log), NamedIn(log + [note])) <==>
      NamedIn(log) != map[] && (note.Opening? || note.Rereading? || note.Written?)
  {
    AfterNote(log, note);
    if forall i :: i !in NamedIn(log) {
      NothingNamed(NamedIn(log));
    }
  }

  // ------------------------------------------------- one turn of the loop

  /** More about the same candidate, and nothing opened. */
  ghost predicate Continued(log: seq<Note>, log': seq<Note>) {
    log <= log' && forall k :: |log| <= k < |log'| ==> !log'[k].Opening?
  }

  /** A frame with a window of that value: skipped when decided, more about the open
      candidate when it has that value, and otherwise the start of another. */
  ghost predicate Heard(suppress: bool, log: seq<Note>, value: string, log': seq<Note>) {
    if suppress && value in DecidedIn(log) then log' == log
    else if OpenIn(log) == Some(value) then Continued(log, log')
    else Continued(log + [Opening(value)], log')
  }

  /** The end: an open candidate gets an unverified row. */
  ghost predicate HandedOver(log: seq<Note>, log': seq<Note>) {
    if OpenIn(log) == None then log' == log
    else
      && |log'| == |log| + 1 && log <= log'
      && log'[|log|].Written? && log'[|log|].row.status == Unverified
  }

  /** Another value took over while something was named. */
  ghost predicate Abandons(log: seq<Note>, log': seq<Note>) {
    exists k :: |log| <= k < |log'| && log'[k].Opening?
      && OpenIn(log'[..k]).Some? && NamedIn(log'[..k]) != map[]
  }

  /** A frame abandons what a human named exactly when a candidate with something named
      is open, the frame's value is another one, and that value is not yet decided. */
  lemma AbandonsExactlyWhen(suppress: bool, log: seq<Note>, value: string, log': seq<Note>)
    requires Heard(suppress, log, value, log')
    ensures Abandons(log, log') <==>
      && OpenIn(log).Some? && OpenIn(log) != Some(value) && NamedIn(log) != map[]
      && !(suppress && value in DecidedIn(log))
  {
    if !(suppress && value in DecidedIn(log)) && OpenIn(log) != Some(value) {
      assert log'[|log|] == (log + [Opening(value)])[|log|];
      assert log'[..|log|] == log;
      forall k | |log| < k < |log'| ensures !log'[k].Opening? {
        assert |log + [Opening(value)]| <= k;
      }
    }
  }

  // ------------------------------------------------- rows

  /** No string is the subject of two rows, nor of one after a row has written it. */
  ghost predicate DistinctHeard(rows: seq<Row>) {
    forall j, k :: 0 <= j < k < |rows| ==> rows[j].heard != rows[k].heard && rows[j].final != Some(rows[k].heard)
  }

  lemma {:induction false} RowsAreDecided(log: seq<Note>)
    ensures forall j :: 0 <= j < |RowsIn(log)| ==> Settles(RowsIn(log)[j]) <= DecidedIn(log)
  {
    if |log| > 0 {
      RowsAreDecided(log[..|log| - 1]);
    }
  }

  lemma {:induction false} OpenIsUndecided(log: seq<Note>)
    requires LogOk(true, log) && OpenIn(log).Some?
    ensures OpenIn(log).value !in DecidedIn(log)
  {
    var n := |log| - 1;
    assert NoteOk(true, log[..n], log[n]);
    if !log[n].Opening? {
      PrefixOk(true, log, n);
      OpenIsUndecided(log[..n]);
    }
  }

  /** With decided strings skipped, no two rows of a session are about one string. */
  lemma {:induction false} RowsAreDistinct(log: seq<Note>)
    requires LogOk(true, log)
    ensures DistinctHeard(RowsIn(log))
  {
    if |log| > 0 {
      var n := |log| - 1;
      PrefixOk(true, log, n);
      RowsAreDistinct(log[..n]);
      if log[n].Written? {
        assert NoteOk(true, log[..n], log[n]);
        OpenIsUndecided(log[..n]);
        RowsAreDecided(log[..n]);
        AnotherSubject(RowsIn(log[..n]), log[n].row, DecidedIn(log[..n]));
      }
    }
  }

  lemma AnotherSubject(rows: seq<Row>, row: Row, decided: set<string>)
    requires DistinctHeard(rows) && row.heard !in decided
    requires forall j :: 0 <= j < |rows| ==> Settles(rows[j]) <= decided
    ensures DistinctHeard(rows + [row])
  {
    forall j | 0 <= j < |rows| ensures rows[j].heard != row.heard && rows[j].final != Some(row.heard) {
      assert rows[j].heard in Settles(rows[j]);
    }
  }

  /** The row is note `j`, and sound about what had been named before it. */
  ghost predicate WrittenAt(log: seq<Note>, j: int, row: Row) {
    0 <= j < |log| && log[j] == Written(row) && RowOk(row, NamedIn(log[..j]))
  }

  /** Every row a session wrote is sound about what had been named for it. */
  lemma {:induction false} RowsAreSound(suppress: bool, log: seq<Note>)
    requires LogOk(suppress, log)
    ensures forall row :: row in RowsIn(log) ==> exists j :: WrittenAt(log, j, row)
  {
    if |log| > 0 {
      var n := |log| - 1;
      PrefixOk(suppress, log, n);
      RowsAreSound(suppress, log[..n]);
      forall row | row in RowsIn(log) ensures exists j :: WrittenAt(log, j, row) {
        if row in RowsIn(log[..n]) {
          var j :| WrittenAt(log[..n], j, row);
          assert log[..n][..j] == log[..j];
          assert WrittenAt(log, j, row);
        } else {
          assert NoteOk(suppress, log[..n], log[n]);
          assert WrittenAt(log, n, row);
        }
      }
    }
  }
}
