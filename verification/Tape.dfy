/** The rolling tape: replace, rank, dedupe, evict and cache, and what that object
    means in terms of the whole frame history, in whatever order frames arrive. */
module Tape {
  import opened Common

  datatype RawWord = RawWord(text: string, start: int, end: int, confidence: real, isFinal: bool)

  datatype Word = Word(text: string, start: int, end: int, confidence: real, isFinal: bool, turnOrder: nat)

  /** One decoded upstream message; `turnOrder` is absent when the field is. */
  datatype Frame = Frame(isTurn: bool, turnOrder: Option<int>, endOfTurn: bool, formatted: bool,
                         transcript: string, words: seq<RawWord>)

  datatype Turn = Turn(turnOrder: nat, endOfTurn: bool, formatted: bool, transcript: string, words: seq<Word>) {
    function Rank(): nat {
      (if endOfTurn then 2 else 0) + (if formatted then 1 else 0)
    }
  }

  function TurnOf(f: Frame, order: nat): Turn {
    Turn(order, f.endOfTurn, f.formatted, f.transcript,
         seq(|f.words|, i requires 0 <= i < |f.words| =>
           var w := f.words[i]; Word(w.text, w.start, w.end, w.confidence, w.isFinal, order)))
  }

  /** A turn is the whole frame, word by word in its order, each marked with the turn. */
  lemma TurnIsTheFrame(f: Frame, order: nat, i: nat)
    ensures var t := TurnOf(f, order);
      && t.turnOrder == order && t.endOfTurn == f.endOfTurn && t.formatted == f.formatted
      && t.transcript == f.transcript && |t.words| == |f.words|
    ensures i < |f.words| ==> var w := TurnOf(f, order).words[i];
      && w.text == f.words[i].text && w.start == f.words[i].start && w.end == f.words[i].end
      && w.confidence == f.words[i].confidence && w.isFinal == f.words[i].isFinal && w.turnOrder == order
  {
  }

  // ------------------------------------------------- meaning of a frame history

  ghost predicate IsOf(h: seq<Frame>, k: int, o: nat) {
    0 <= k < |h| && h[k].isTurn && h[k].turnOrder == Some(o)
  }

  /** Frame `k` is the one turn `o` should show: of the highest rank, and among equals
      the last if it is a partial, the first if it is a final. */
  ghost predicate Winner(h: seq<Frame>, o: nat, k: int) {
    && IsOf(h, k, o)
    && forall j :: IsOf(h, j, o) ==>
         var r, best := TurnOf(h[j], o).Rank(), TurnOf(h[k], o).Rank();
         r < best || (r == best && if h[k].endOfTurn then k <= j else j <= k)
  }

  lemma WinnerIsUnique(h: seq<Frame>, o: nat, j: int, k: int)
    requires Winner(h, o, j) && Winner(h, o, k)
    ensures j == k
  {
  }

  /** Turn `o` is present exactly if some frame named it, and shows the winner. */
  ghost predicate Shows(h: seq<Frame>, turns: map<nat, Turn>, o: nat) {
    && (o in turns <==> exists k :: IsOf(h, k, o))
    && (o in turns ==> exists k :: Winner(h, o, k) && turns[o] == TurnOf(h[k], o))
  }

  ghost predicate Deduped(h: seq<Frame>, turns: map<nat, Turn>, finals: set<(nat, bool, bool)>) {
    && (forall key :: key in finals ==>
          key.1 && exists k :: IsOf(h, k, key.0) && h[k].endOfTurn && h[k].formatted == key.2)
    && (forall o :: o in turns && turns[o].endOfTurn ==> (o, true, turns[o].formatted) in finals)
  }

  lemma OtherTurnsKeep(h: seq<Frame>, turns: map<nat, Turn>, f: Frame, o: nat)
    requires Shows(h, turns, o) && !(f.isTurn && f.turnOrder == Some(o))
    ensures Shows(h + [f], turns, o)
  {
    var h' := h + [f];
    assert forall k :: IsOf(h', k, o) <==> IsOf(h, k, o);
    if o in turns {
      var k :| Winner(h, o, k) && turns[o] == TurnOf(h[k], o);
      assert Winner(h', o, k);
    }
  }

  lemma NewFrameWins(h: seq<Frame>, turns: map<nat, Turn>, f: Frame, o: nat)
    requires Shows(h, turns, o) && f.isTurn && f.turnOrder == Some(o)
    requires o in turns ==> var r := TurnOf(f, o).Rank();
               turns[o].Rank() < r || (turns[o].Rank() == r && !f.endOfTurn)
    ensures Shows(h + [f], turns[o := TurnOf(f, o)], o)
  {
    var h' := h + [f];
    assert forall k :: IsOf(h', k, o) <==> IsOf(h, k, o) || k == |h|;
    assert Winner(h', o, |h|);
  }

  lemma OldFrameWins(h: seq<Frame>, turns: map<nat, Turn>, f: Frame, o: nat)
    requires Shows(h, turns, o) && f.isTurn && f.turnOrder == Some(o) && o in turns
    requires var r := TurnOf(f, o).Rank();
             turns[o].Rank() > r || (turns[o].Rank() == r && f.endOfTurn)
    ensures Shows(h + [f], turns, o)
  {
    var h' := h + [f];
    var k :| Winner(h, o, k) && turns[o] == TurnOf(h[k], o);
    assert forall j :: IsOf(h', j, o) <==> IsOf(h, j, o) || j == |h|;
    assert Winner(h', o, k);
  }

  /** A final already seen leaves the winner of its turn at least as strong. */
  lemma DuplicateLoses(h: seq<Frame>, turns: map<nat, Turn>, finals: set<(nat, bool, bool)>, f: Frame, o: nat)
    requires Shows(h, turns, o) && Deduped(h, turns, finals)
    requires f.isTurn && f.turnOrder == Some(o) && f.endOfTurn && (o, true, f.formatted) in finals
    ensures o in turns && turns[o].Rank() >= TurnOf(f, o).Rank()
  {
    var key := (o, true, f.formatted);
    var j :| IsOf(h, j, key.0) && h[j].endOfTurn && h[j].formatted == key.2;
    var k :| Winner(h, o, k) && turns[o] == TurnOf(h[k], o);
  }

  // ------------------------------------------------- the flat timeline

  lemma {:induction false} GreatestExists(keys: set<nat>)
    requires keys != {}
    ensures exists m :: m in keys && forall k :: k in keys ==> k <= m
  {
    var x :| x in keys;
    if keys - {x} != {} {
      GreatestExists(keys - {x});
      var m :| m in keys - {x} && forall k :: k in keys - {x} ==> k <= m;
      assert (if m < x then x else m) in keys;
      assert forall k :: k in keys ==> k == x || k in keys - {x};
    } else {
      assert keys == {x};
    }
  }

  ghost function Greatest(keys: set<nat>): (m: nat)
    requires keys != {}
    ensures m in keys && forall k :: k in keys ==> k <= m
  {
    GreatestExists(keys);
    var m :| m in keys && forall k :: k in keys ==> k <= m;
    m
  }

  /** `sorted(keys)`. */
  ghost function Sorted(keys: set<nat>): seq<nat> {
    if keys == {} then [] else Sorted(keys - {Greatest(keys)}) + [Greatest(keys)]
  }

  ghost function Flatten(turns: map<nat, Turn>, keys: set<nat>): seq<Word>
    requires keys <= turns.Keys
  {
    if keys == {} then [] else Flatten(turns, keys - {Greatest(keys)}) + turns[Greatest(keys)].words
  }

  /** All stored words, oldest turn first. */
  ghost function Stored(turns: map<nat, Turn>): seq<Word> {
    Flatten(turns, turns.Keys)
  }

  function Fresh(ws: seq<Word>, cutoff: int): seq<Word> {
    if |ws| == 0 then [] else
    Fresh(ws[..|ws| - 1], cutoff) + if ws[|ws| - 1].end > cutoff then [ws[|ws| - 1]] else []
  }

  /** The last `n` words; a budget of zero keeps them all, as a negative-zero slice does. */
  function LastWords(ws: seq<Word>, n: nat): seq<Word> {
    if |ws| > n && n > 0 then ws[|ws| - n..] else ws
  }

  /** Where the time span of the window begins. */
  function Cutoff(recent: seq<Word>, maxSpanMs: nat): int
    requires |recent| > 0
  {
    recent[|recent| - 1].end - maxSpanMs
  }

  /** The bounded window over a timeline. */
  function Window(ws: seq<Word>, maxSpanMs: nat, maxWords: nat): seq<Word> {
    var recent := LastWords(ws, maxWords);
    if |recent| == 0 then recent else
    Trimmed(recent, Cutoff(recent, maxSpanMs))
  }

  /** The words inside the span, where the first one is not. */
  function Trimmed(recent: seq<Word>, cutoff: int): seq<Word>
    requires |recent| > 0
  {
    if recent[0].end <= cutoff then Fresh(recent, cutoff) else recent
  }

  ghost predicate EndsAscend(ws: seq<Word>) {
    forall i, j :: 0 <= i < j < |ws| ==> ws[i].end <= ws[j].end
  }

  lemma {:induction false} NoneFresh(ws: seq<Word>, cutoff: int)
    requires forall i :: 0 <= i < |ws| ==> ws[i].end <= cutoff
    ensures Fresh(ws, cutoff) == []
  {
    if |ws| > 0 {
      NoneFresh(ws[..|ws| - 1], cutoff);
    }
  }

  /** A word outside the span stands behind one inside it. */
  ghost predicate LateStale(ws: seq<Word>, cutoff: int) {
    exists i, j :: 0 <= i < j < |ws| && ws[i].end > cutoff >= ws[j].end
  }

  lemma WithoutTheLast(ws: seq<Word>, cutoff: int)
    requires |ws| > 0 && !LateStale(ws, cutoff) && ws[|ws| - 1].end > cutoff
    ensures var front := ws[..|ws| - 1];
      !LateStale(front, cutoff) && Fresh(ws, cutoff) == Fresh(front, cutoff) + [ws[|ws| - 1]]
  {
    var front := ws[..|ws| - 1];
    assert forall i :: 0 <= i < |front| ==> front[i] == ws[i];
  }

  lemma {:induction false} FreshIsSuffix(ws: seq<Word>, cutoff: int) returns (k: nat)
    requires !LateStale(ws, cutoff)
    ensures k <= |ws| && Fresh(ws, cutoff) == ws[k..]
    ensures forall i :: 0 <= i < |ws| ==> (ws[i].end > cutoff <==> k <= i)
  {
    var n := |ws| - 1;
    if |ws| == 0 || ws[n].end <= cutoff {
      NoneFresh(ws, cutoff);
      k := |ws|;
    } else {
      WithoutTheLast(ws, cutoff);
      hide LateStale, Fresh;
      k := FreshIsSuffix(ws[..n], cutoff);
      assert ws[k..] == ws[..n][k..] + [ws[n]];
      forall i | 0 <= i < |ws| ensures ws[i].end > cutoff <==> k <= i {
        if i < n {
          assert ws[..n][i] == ws[i];
        }
      }
    }
  }

  lemma {:induction false} FreshOfConcat(a: seq<Word>, b: seq<Word>, cutoff: int)
    ensures Fresh(a + b, cutoff) == Fresh(a, cutoff) + Fresh(b, cutoff)
  {
    if |b| == 0 {
      assert a + b == a;
    } else {
      var n := |b| - 1;
      assert (a + b)[..|a + b| - 1] == a + b[..n];
      FreshOfConcat(a, b[..n], cutoff);
    }
  }

  lemma {:induction false} FreshHas(ws: seq<Word>, cutoff: int, i: nat)
    requires i < |ws| && ws[i].end > cutoff
    ensures |Fresh(ws, cutoff)| > 0
  {
    if i < |ws| - 1 {
      FreshHas(ws[..|ws| - 1], cutoff, i);
    }
  }

  lemma {:induction false} AllFresh(ws: seq<Word>, cutoff: int)
    requires forall i :: 0 <= i < |ws| ==> ws[i].end > cutoff
    ensures Fresh(ws, cutoff) == ws
  {
    if |ws| > 0 {
      var front, last := ws[..|ws| - 1], ws[|ws| - 1];
      AllFresh(front, cutoff);
      assert Fresh(ws, cutoff) == front + [last];
      assert ws == front + [last];
    }
  }

  /** If filtering leaves exactly the back part, the front part holds nothing fresh. */
  lemma OnlyTheBackIsFresh(front: seq<Word>, back: seq<Word>, cutoff: int)
    requires Fresh(front + back, cutoff) == back
    ensures forall i :: 0 <= i < |front| ==> front[i].end <= cutoff
    ensures forall i :: 0 <= i < |back| ==> back[i].end > cutoff
  {
    FreshIsBounded(front + back, cutoff);
    assert forall i :: 0 <= i < |back| ==> back[i] in back;
    AllFresh(back, cutoff);
    FreshOfConcat(front, back, cutoff);
    assert |Fresh(front, cutoff)| == 0;
    forall i | 0 <= i < |front| ensures front[i].end <= cutoff {
      if front[i].end > cutoff {
        FreshHas(front, cutoff, i);
      }
    }
  }

  lemma StaleThenFresh(front: seq<Word>, back: seq<Word>, cutoff: int)
    requires forall i :: 0 <= i < |front| ==> front[i].end <= cutoff
    requires forall i :: 0 <= i < |back| ==> back[i].end > cutoff
    ensures !LateStale(front + back, cutoff)
  {
  }

  /** Cutting a stale word from behind a fresh one leaves no suffix. */
  lemma CutFromTheMiddle(ws: seq<Word>, cutoff: int, k: nat)
    requires k <= |ws| && LateStale(ws, cutoff)
    ensures Fresh(ws, cutoff) != ws[k..]
  {
    hide Fresh;
    assert ws == ws[..k] + ws[k..];
    if Fresh(ws, cutoff) == ws[k..] {
      OnlyTheBackIsFresh(ws[..k], ws[k..], cutoff);
      StaleThenFresh(ws[..k], ws[k..], cutoff);
    }
  }

  ghost predicate IsSuffixOf(part: seq<Word>, ws: seq<Word>) {
    exists k :: 0 <= k <= |ws| && part == ws[k..]
  }

  lemma WholeIsSuffix(ws: seq<Word>)
    ensures IsSuffixOf(ws, ws)
  {
    assert ws == ws[0..];
  }

  lemma SuffixWithin(part: seq<Word>, ws: seq<Word>, from: nat)
    requires from <= |ws| && |part| <= |ws| - from
    ensures IsSuffixOf(part, ws) <==> IsSuffixOf(part, ws[from..])
  {
    if IsSuffixOf(part, ws) {
      assert part == ws[from..][|ws| - from - |part|..];
    }
    if IsSuffixOf(part, ws[from..]) {
      assert part == ws[|ws| - |part|..];
    }
  }

  lemma FilteredIsSuffixExactlyWhen(ws: seq<Word>, cutoff: int)
    ensures IsSuffixOf(Fresh(ws, cutoff), ws) <==> !LateStale(ws, cutoff)
  {
    if LateStale(ws, cutoff) {
      forall k | 0 <= k <= |ws| ensures Fresh(ws, cutoff) != ws[k..] {
        CutFromTheMiddle(ws, cutoff, k);
      }
    } else {
      var k := FreshIsSuffix(ws, cutoff);
    }
  }

  lemma RecentIsSuffix(ws: seq<Word>, maxWords: nat) returns (from: nat)
    ensures from <= |ws| && LastWords(ws, maxWords) == ws[from..] && (|ws| > 0 ==> from < |ws|)
  {
    from := if |ws| > maxWords > 0 then |ws| - maxWords else 0;
  }

  lemma TrimmedIsSuffixExactlyWhen(recent: seq<Word>, cutoff: int)
    requires |recent| > 0
    ensures |Trimmed(recent, cutoff)| <= |recent|
    ensures IsSuffixOf(Trimmed(recent, cutoff), recent) <==> recent[0].end > cutoff || !LateStale(recent, cutoff)
  {
    FreshIsBounded(recent, cutoff);
    hide Fresh, LateStale, IsSuffixOf;
    if recent[0].end > cutoff {
      WholeIsSuffix(recent);
    } else {
      FilteredIsSuffixExactlyWhen(recent, cutoff);
    }
  }

  /** The window is a suffix of the timeline exactly when its first word is inside the
      span already, or no word inside the span precedes one outside it. */
  lemma SuffixExactlyWhen(ws: seq<Word>, maxSpanMs: nat, maxWords: nat)
    requires |ws| > 0
    ensures var recent := LastWords(ws, maxWords);
            var cutoff := Cutoff(recent, maxSpanMs);
            IsSuffixOf(Window(ws, maxSpanMs, maxWords), ws) <==>
              recent[0].end > cutoff || !LateStale(recent, cutoff)
  {
    var recent := LastWords(ws, maxWords);
    var from := RecentIsSuffix(ws, maxWords);
    hide LastWords, Cutoff, Trimmed, LateStale, IsSuffixOf;
    TrimmedIsSuffixExactlyWhen(recent, Cutoff(recent, maxSpanMs));
    SuffixWithin(Window(ws, maxSpanMs, maxWords), ws, from);
  }

  /** Every word of the window is inside the span exactly when its first word is not, so
      that the filter runs, or there is nothing to filter. */
  lemma InsideSpanExactlyWhen(ws: seq<Word>, maxSpanMs: nat, maxWords: nat)
    requires |ws| > 0
    ensures var recent := LastWords(ws, maxWords);
            var cutoff := Cutoff(recent, maxSpanMs);
            (forall w :: w in Window(ws, maxSpanMs, maxWords) ==> w.end > cutoff) <==>
              recent[0].end <= cutoff || forall w :: w in recent ==> w.end > cutoff
  {
    var recent := LastWords(ws, maxWords);
    FreshIsBounded(recent, Cutoff(recent, maxSpanMs));
  }

  lemma WindowOfRecent(ws: seq<Word>, maxSpanMs: nat, maxWords: nat) returns (stale: nat)
    requires EndsAscend(ws) && |ws| > 0
    ensures var recent := LastWords(ws, maxWords);
            stale <= |recent| && Window(ws, maxSpanMs, maxWords) == recent[stale..]
            && forall i :: 0 <= i < |recent| ==> (recent[i].end > Cutoff(recent, maxSpanMs) <==> stale <= i)
  {
    hide Fresh, LateStale;
    var recent := LastWords(ws, maxWords);
    SuffixEndsAscend(ws, |ws| - |recent|, Cutoff(recent, maxSpanMs));
    stale := FreshIsSuffix(recent, Cutoff(recent, maxSpanMs));
  }

  /** With non-decreasing end times neither happens: the window is exactly the words
      within the word budget that end inside the time span. */
  lemma WindowIsSuffix(ws: seq<Word>, maxSpanMs: nat, maxWords: nat) returns (k: nat)
    requires EndsAscend(ws) && maxWords > 0 && |ws| > 0
    ensures k <= |ws| && Window(ws, maxSpanMs, maxWords) == ws[k..]
    ensures forall i :: 0 <= i < |ws| ==>
      (k <= i <==> |ws| - i <= maxWords && ws[i].end > ws[|ws| - 1].end - maxSpanMs)
  {
    var stale := WindowOfRecent(ws, maxSpanMs, maxWords);
    var from := if |ws| > maxWords then |ws| - maxWords else 0;
    assert LastWords(ws, maxWords) == ws[from..];
    hide Window, EndsAscend, LastWords;
    k := from + stale;
    SuffixOfSuffix(ws, from, stale, ws[|ws| - 1].end - maxSpanMs);
  }

  lemma SuffixOfSuffix(ws: seq<Word>, from: nat, stale: nat, cutoff: int)
    requires from + stale <= |ws|
    requires forall i :: 0 <= i < |ws| - from ==> (ws[from..][i].end > cutoff <==> stale <= i)
    ensures ws[from..][stale..] == ws[from + stale..]
    ensures forall i :: from <= i < |ws| ==> (ws[i].end > cutoff <==> from + stale <= i)
  {
    forall i | from <= i < |ws| ensures ws[i].end > cutoff <==> from + stale <= i {
      assert ws[i] == ws[from..][i - from];
    }
  }

  lemma SuffixEndsAscend(ws: seq<Word>, from: nat, cutoff: int)
    requires EndsAscend(ws) && from <= |ws|
    ensures EndsAscend(ws[from..]) && !LateStale(ws[from..], cutoff)
  {
  }

  lemma {:induction false} FreshIsBounded(ws: seq<Word>, cutoff: int)
    ensures |Fresh(ws, cutoff)| <= |ws| && forall w :: w in Fresh(ws, cutoff) ==> w in ws && w.end > cutoff
  {
    if |ws| > 0 {
      FreshIsBounded(ws[..|ws| - 1], cutoff);
    }
  }

  /** Whatever the end times, the window is within the word budget. */
  lemma WindowIsBounded(ws: seq<Word>, maxSpanMs: nat, maxWords: nat)
    requires maxWords > 0
    ensures |Window(ws, maxSpanMs, maxWords)| <= maxWords
  {
    var recent := LastWords(ws, maxWords);
    if |recent| > 0 {
      FreshIsBounded(recent, recent[|recent| - 1].end - maxSpanMs);
    }
  }

  function EndingAt(end: int): Word {
    Word("w", 0, end, 1.0, true, 0)
  }

  /** Ends 0, 100, 50, 100 with a span of 10: the third word is cut out of the middle. */
  lemma WindowNeedNotBeSuffix()
    ensures var ws := [EndingAt(0), EndingAt(100), EndingAt(50), EndingAt(100)];
            !IsSuffixOf(Window(ws, 10, 4), ws)
  {
    var ws := [EndingAt(0), EndingAt(100), EndingAt(50), EndingAt(100)];
    assert ws[1].end > 90 >= ws[2].end;
    assert LateStale(ws, 90);
    SuffixExactlyWhen(ws, 10, 4);
  }

  /** Ends 100, 50, 100 with a span of 10: the second word stays. */
  lemma WindowCanHoldStaleWords()
    ensures var ws := [EndingAt(100), EndingAt(50), EndingAt(100)];
            EndingAt(50) in Window(ws, 10, 4)
  {
    var ws := [EndingAt(100), EndingAt(50), EndingAt(100)];
    assert LastWords(ws, 4) == ws;
    assert Window(ws, 10, 4) == ws;
    assert ws[1] in ws;
  }

  // ------------------------------------------------- the order of the timeline

  ghost function Below(turns: map<nat, Turn>, o: nat): map<nat, Turn> {
    map k | k in turns && k < o :: turns[k]
  }

  ghost function Above(turns: map<nat, Turn>, floor: int): map<nat, Turn> {
    map o | o in turns && o > floor :: turns[o]
  }

  lemma {:induction false} FlattenDepends(a: map<nat, Turn>, b: map<nat, Turn>, keys: set<nat>)
    requires keys <= a.Keys && keys <= b.Keys && forall k :: k in keys ==> a[k] == b[k]
    ensures Flatten(a, keys) == Flatten(b, keys)
  {
    if keys != {} {
      FlattenDepends(a, b, keys - {Greatest(keys)});
    }
  }

  lemma {:induction false} FlattenSplits(turns: map<nat, Turn>, keys: set<nat>, o: nat)
    requires keys <= turns.Keys && o in keys
    ensures Flatten(turns, keys) ==
      Flatten(turns, set k | k in keys && k < o) + turns[o].words + Flatten(turns, set k | k in keys && k > o)
  {
    var m := Greatest(keys);
    var low, high := set k | k in keys && k < o, set k | k in keys && k > o;
    if m == o {
      assert high == {} && low == keys - {m};
      assert Flatten(turns, high) == [];
    } else {
      FlattenSplits(turns, keys - {m}, o);
      assert low == set k | k in keys - {m} && k < o;
      assert high - {m} == set k | k in keys - {m} && k > o;
      assert m in high && high <= keys;
      assert Greatest(high) == m;
      assert Flatten(turns, high) == Flatten(turns, high - {m}) + turns[m].words;
    }
  }

  /** Around any turn stand the words of the turns before it and of those after it. */
  lemma StoredSplits(turns: map<nat, Turn>, o: nat)
    requires o in turns
    ensures Stored(turns) == Stored(Below(turns, o)) + turns[o].words + Stored(Above(turns, o))
  {
    FlattenSplits(turns, turns.Keys, o);
    assert Below(turns, o).Keys == set k | k in turns.Keys && k < o;
    assert Above(turns, o).Keys == set k | k in turns.Keys && k > o;
    FlattenDepends(turns, Below(turns, o), Below(turns, o).Keys);
    FlattenDepends(turns, Above(turns, o), Above(turns, o).Keys);
  }

  lemma NothingStored()
    ensures Stored(map[]) == []
  {
  }

  /** Every word carries the order of its turn. */
  ghost predicate Marked(turns: map<nat, Turn>) {
    forall o, w :: o in turns && w in turns[o].words ==> w.turnOrder == o
  }

  ghost predicate OrdersAscend(ws: seq<Word>) {
    forall i, j :: 0 <= i < j < |ws| ==> ws[i].turnOrder <= ws[j].turnOrder
  }

  lemma {:induction false} FlattenAscends(turns: map<nat, Turn>, keys: set<nat>)
    requires keys <= turns.Keys && Marked(turns)
    ensures OrdersAscend(Flatten(turns, keys)) && forall w :: w in Flatten(turns, keys) ==> w.turnOrder in keys
  {
    if keys != {} {
      var m := Greatest(keys);
      FlattenAscends(turns, keys - {m});
      var front, back := Flatten(turns, keys - {m}), turns[m].words;
      var all: seq<Word> := front + back;
      forall i, j | 0 <= i < j < |all| ensures all[i].turnOrder <= all[j].turnOrder {
        assert i < |front| ==> front[i] in front;
        assert j >= |front| ==> back[j - |front|] in back;
        assert i >= |front| ==> back[i - |front|] in back;
      }
    }
  }

  /** Turn orders never decrease along the timeline. */
  lemma StoredAscends(turns: map<nat, Turn>)
    requires Marked(turns)
    ensures OrdersAscend(Stored(turns))
  {
    FlattenAscends(turns, turns.Keys);
  }

  lemma {:induction false} FreshPicks(ws: seq<Word>, cutoff: int) returns (picks: seq<nat>)
    ensures |picks| == |Fresh(ws, cutoff)|
    ensures forall k :: 0 <= k < |picks| ==> picks[k] < |ws| && Fresh(ws, cutoff)[k] == ws[picks[k]]
    ensures forall k, l :: 0 <= k < l < |picks| ==> picks[k] < picks[l]
    ensures forall i: nat :: i in picks <==> i < |ws| && ws[i].end > cutoff
  {
    picks := [];
    if |ws| > 0 {
      var n: nat := |ws| - 1;
      var front := FreshPicks(ws[..n], cutoff);
      picks := front + if ws[n].end > cutoff then [n] else [];
      assert Fresh(ws, cutoff) == Fresh(ws[..n], cutoff) + if ws[n].end > cutoff then [ws[n]] else [];
      hide Fresh;
      forall i: nat ensures i in picks <==> i < |ws| && ws[i].end > cutoff {
        assert i in front <==> i < n && ws[i].end > cutoff;
      }
    }
  }

  /** The window picks words of the timeline in order: of the last ones within the word
      limit all, when the first of them ends inside the time span, and otherwise those
      that do. */
  lemma WindowPicks(ws: seq<Word>, maxSpanMs: nat, maxWords: nat) returns (picks: seq<nat>)
    requires |ws| > 0
    ensures |picks| == |Window(ws, maxSpanMs, maxWords)|
    ensures forall k :: 0 <= k < |picks| ==> picks[k] < |ws| && Window(ws, maxSpanMs, maxWords)[k] == ws[picks[k]]
    ensures forall k, l :: 0 <= k < l < |picks| ==> picks[k] < picks[l]
    ensures var from := if 0 < maxWords < |ws| then |ws| - maxWords else 0;
      var cutoff := ws[|ws| - 1].end - maxSpanMs;
      forall i: nat :: i in picks <==> from <= i < |ws| && (ws[from].end > cutoff || ws[i].end > cutoff)
  {
    var from: nat := if 0 < maxWords < |ws| then |ws| - maxWords else 0;
    var recent := LastWords(ws, maxWords);
    assert recent == ws[from..] && Cutoff(recent, maxSpanMs) == ws[|ws| - 1].end - maxSpanMs;
    var cutoff := Cutoff(recent, maxSpanMs);
    hide LastWords, Cutoff, Trimmed;
    var inner := TrimmedPicks(recent, cutoff);
    picks := PicksShifted(ws, from, recent, cutoff, inner, Trimmed(recent, cutoff));
  }

  ghost predicate Picked(ws: seq<Word>, cutoff: int, i: int)
    requires |ws| > 0
  {
    0 <= i < |ws| && (ws[0].end > cutoff || ws[i].end > cutoff)
  }

  lemma TrimmedPicks(recent: seq<Word>, cutoff: int) returns (picks: seq<nat>)
    requires |recent| > 0
    ensures |picks| == |Trimmed(recent, cutoff)|
    ensures forall k :: 0 <= k < |picks| ==> picks[k] < |recent| && Trimmed(recent, cutoff)[k] == recent[picks[k]]
    ensures forall k, l :: 0 <= k < l < |picks| ==> picks[k] < picks[l]
    ensures forall i: nat :: i in picks <==> Picked(recent, cutoff, i)
  {
    if recent[0].end <= cutoff {
      picks := FreshPicks(recent, cutoff);
    } else {
      picks := seq(|recent|, k requires 0 <= k < |recent| => k);
      assert forall i: nat :: i < |recent| ==> picks[i] == i;
    }
  }

  lemma PicksShifted(ws: seq<Word>, from: nat, recent: seq<Word>, cutoff: int, inner: seq<nat>, window: seq<Word>)
    returns (picks: seq<nat>)
    requires from < |ws| && recent == ws[from..] && |window| == |inner|
    requires forall k :: 0 <= k < |inner| ==> inner[k] < |recent| && window[k] == recent[inner[k]]
    requires forall k, l :: 0 <= k < l < |inner| ==> inner[k] < inner[l]
    requires forall i: nat :: i in inner <==> Picked(recent, cutoff, i)
    ensures |picks| == |window| && forall k :: 0 <= k < |picks| ==> picks[k] < |ws| && window[k] == ws[picks[k]]
    ensures forall k, l :: 0 <= k < l < |picks| ==> picks[k] < picks[l]
    ensures forall i: nat :: i in picks <==> from <= i < |ws| && (ws[from].end > cutoff || ws[i].end > cutoff)
  {
    picks := seq(|inner|, k requires 0 <= k < |inner| => from + inner[k]);
    MembersShifted(ws, from, recent, cutoff, inner, picks);
  }

  lemma MembersShifted(ws: seq<Word>, from: nat, recent: seq<Word>, cutoff: int, inner: seq<nat>, picks: seq<nat>)
    requires from < |ws| && recent == ws[from..]
    requires |picks| == |inner| && forall k :: 0 <= k < |inner| ==> picks[k] == from + inner[k]
    requires forall i: nat :: i in inner <==> Picked(recent, cutoff, i)
    ensures forall i: nat :: i in picks <==> from <= i < |ws| && (ws[from].end > cutoff || ws[i].end > cutoff)
  {
    Shifted(inner, from, picks);
    forall i: nat ensures i in picks <==> from <= i < |ws| && (ws[from].end > cutoff || ws[i].end > cutoff) {
      if i >= from {
        var k: nat := i - from;
        assert k in inner <==> Picked(recent, cutoff, k);
      }
    }
  }

  lemma Shifted(inner: seq<nat>, from: nat, picks: seq<nat>)
    requires |picks| == |inner| && forall k :: 0 <= k < |inner| ==> picks[k] == from + inner[k]
    ensures forall i: nat :: i in picks <==> i >= from && i - from in inner
  {
    forall i: nat ensures i in picks <==> i >= from && i - from in inner {
      if i >= from && i - from in inner {
        var k :| 0 <= k < |inner| && inner[k] == i - from;
        assert picks[k] == i;
      }
    }
  }

  /** So the window keeps the order of the turns. */
  lemma WindowAscends(ws: seq<Word>, maxSpanMs: nat, maxWords: nat)
    requires OrdersAscend(ws)
    ensures OrdersAscend(Window(ws, maxSpanMs, maxWords))
  {
    if |ws| > 0 {
      var picks := WindowPicks(ws, maxSpanMs, maxWords);
      hide Window;
      forall i, j | 0 <= i < j < |picks| ensures ws[picks[i]].turnOrder <= ws[picks[j]].turnOrder {
      }
    }
  }

  /** A stronger frame is a final against a partial, and at equal finality a formatted one
      against an unformatted one. */
  lemma RankOrders(a: Turn, b: Turn)
    ensures a.Rank() > b.Rank() <==>
      (a.endOfTurn && !b.endOfTurn) || (a.endOfTurn == b.endOfTurn && a.formatted && !b.formatted)
  {
  }

  // ------------------------------------------------- eviction

  ghost predicate IsNewestEnd(turns: map<nat, Turn>, newest: int) {
    && (exists o :: o in turns && turns[o].words != [] && LastEnd(turns[o]) == newest)
    && (forall o :: o in turns && turns[o].words != [] ==> LastEnd(turns[o]) <= newest)
  }

  function LastEnd(t: Turn): int
    requires t.words != []
  {
    t.words[|t.words| - 1].end
  }

  /** The oldest turn is empty, or its last word is out of span of the newest word. */
  ghost predicate Stale(turns: map<nat, Turn>, oldest: nat, maxSpanMs: nat)
    requires oldest in turns
  {
    turns[oldest].words == []
    || exists newest :: IsNewestEnd(turns, newest) && newest - LastEnd(turns[oldest]) > maxSpanMs
  }

  ghost predicate IsLeast(keys: set<nat>, m: nat) {
    m in keys && forall k :: k in keys ==> m <= k
  }

  /** The oldest turn, of several, when there are too many words or it is stale. */
  ghost predicate MustGo(turns: map<nat, Turn>, o: nat, maxSpanMs: nat, maxWords: nat) {
    |turns| > 1 && IsLeast(turns.Keys, o) && (|Stored(turns)| > maxWords || Stale(turns, o, maxSpanMs))
  }

  /** Each turn that went had to, when those before it had gone. */
  ghost predicate OnlyWhatMust(turns: map<nat, Turn>, left: map<nat, Turn>, maxSpanMs: nat, maxWords: nat) {
    forall o :: o in turns && o !in left ==> MustGo(Above(turns, o - 1), o, maxSpanMs, maxWords)
  }

  /** What eviction must leave behind. */
  ghost predicate Settled(turns: map<nat, Turn>, maxSpanMs: nat, maxWords: nat) {
    |turns| <= 1 ||
    (|Stored(turns)| <= maxWords && forall o :: IsLeast(turns.Keys, o) ==> !Stale(turns, o, maxSpanMs))
  }

  lemma {:induction false} SortedIsGreatestLast(keys: set<nat>, m: nat)
    requires m in keys && forall k :: k in keys ==> k <= m
    ensures Sorted(keys) == Sorted(keys - {m}) + [m]
  {
  }

  /** The keys in ascending order. */
  method SortKeys(keys: set<nat>) returns (ks: seq<nat>)
    ensures ks == Sorted(keys) && forall k :: k in keys <==> k in ks
  {
    ks := [];
    var rest := keys;
    assert Sorted(rest) + [] == Sorted(keys);
    while rest != {}
      invariant rest <= keys && Sorted(keys) == Sorted(rest) + ks
      invariant forall k :: k in keys <==> k in rest || k in ks
      decreases rest
    {
      var m :| m in rest;
      var others := rest - {m};
      while others != {}
        invariant m in rest && others <= rest
        invariant forall k :: k in rest ==> k in others || k <= m
        decreases others
      {
        var k :| k in others;
        if k > m {
          m := k;
        }
        others := others - {k};
      }
      SortedIsGreatestLast(rest, m);
      assert Sorted(rest - {m}) + [m] + ks == Sorted(rest - {m}) + ([m] + ks);
      ks := [m] + ks;
      rest := rest - {m};
    }
  }

  ghost function Concat(turns: map<nat, Turn>, ks: seq<nat>): seq<Word>
    requires forall k :: k in ks ==> k in turns
  {
    if |ks| == 0 then [] else Concat(turns, ks[..|ks| - 1]) + turns[ks[|ks| - 1]].words
  }

  lemma {:induction false} ConcatSortedIsFlatten(turns: map<nat, Turn>, keys: set<nat>)
    requires keys <= turns.Keys
    ensures (forall k :: k in Sorted(keys) ==> k in turns) && Concat(turns, Sorted(keys)) == Flatten(turns, keys)
  {
    if keys != {} {
      var m := Greatest(keys);
      ConcatSortedIsFlatten(turns, keys - {m});
      assert Sorted(keys)[..|Sorted(keys)| - 1] == Sorted(keys - {m});
    }
  }

  /** `[w for o in sorted(turns) for w in turns[o].words]`. */
  method Flat(turns: map<nat, Turn>) returns (ws: seq<Word>)
    ensures ws == Stored(turns)
  {
    var ks := SortKeys(turns.Keys);
    ConcatSortedIsFlatten(turns, turns.Keys);
    ws := [];
    for i := 0 to |ks|
      invariant forall k :: k in ks[..i] ==> k in turns
      invariant ws == Concat(turns, ks[..i])
    {
      assert ks[..i + 1][..i] == ks[..i];
      assert ks[i] in ks;
      ws := ws + turns[ks[i]].words;
    }
    assert ks[..|ks|] == ks;
  }

  /** The newest last word among the turns that have words. */
  method NewestEnd(turns: map<nat, Turn>) returns (newest: Option<int>)
    ensures newest.None? <==> forall o :: o in turns ==> turns[o].words == []
    ensures newest.Some? ==> IsNewestEnd(turns, newest.value)
  {
    newest := None;
    var rest := turns.Keys;
    while rest != {}
      invariant rest <= turns.Keys
      invariant newest.None? <==> forall o :: o in turns && o !in rest ==> turns[o].words == []
      invariant newest.Some? ==> exists o :: o in turns && turns[o].words != [] && LastEnd(turns[o]) == newest.value
      invariant newest.Some? ==> forall o :: o in turns && o !in rest && turns[o].words != [] ==> LastEnd(turns[o]) <= newest.value
      decreases rest
    {
      var o :| o in rest;
      rest := rest - {o};
      if turns[o].words != [] && (newest.None? || LastEnd(turns[o]) > newest.value) {
        newest := Some(LastEnd(turns[o]));
      }
    }
  }

  method LeastKey(keys: set<nat>) returns (m: nat)
    requires keys != {}
    ensures IsLeast(keys, m)
  {
    m :| m in keys;
    var others := keys - {m};
    while others != {}
      invariant m in keys && others <= keys
      invariant forall k :: k in keys ==> k in others || m <= k
      decreases others
    {
      var k :| k in others;
      if k < m {
        m := k;
      }
      others := others - {k};
    }
  }

  /** Above the floor every turn shows its winner; at or below it nothing is held. */
  ghost predicate Reflects(h: seq<Frame>, turns: map<nat, Turn>, finals: set<(nat, bool, bool)>, floor: int) {
    && floor >= -1
    && (forall o :: o in turns ==> o > floor && turns[o].turnOrder == o)
    && (forall o: nat :: o > floor ==> Shows(h, turns, o))
    && Deduped(h, turns, finals)
    && (forall key :: key in finals ==> key.0 > floor)
  }

  function Forget(finals: set<(nat, bool, bool)>, o: nat): set<(nat, bool, bool)> {
    finals - {(o, true, false), (o, true, true)}
  }

  lemma ReflectedAreMarked(h: seq<Frame>, turns: map<nat, Turn>, finals: set<(nat, bool, bool)>, floor: int)
    requires Reflects(h, turns, finals, floor)
    ensures Marked(turns)
  {
    forall o, w | o in turns && w in turns[o].words ensures w.turnOrder == o {
      assert Shows(h, turns, o);
    }
  }

  lemma ForgetExactly(h: seq<Frame>, turns: map<nat, Turn>, finals: set<(nat, bool, bool)>, o: nat)
    requires Deduped(h, turns, finals)
    ensures forall key :: key in Forget(finals, o) <==> key in finals && key.0 != o
  {
  }

  lemma EvictStep(h: seq<Frame>, turns: map<nat, Turn>, finals: set<(nat, bool, bool)>, floor: int, oldest: nat)
    requires Reflects(h, turns, finals, floor) && IsLeast(turns.Keys, oldest)
    ensures oldest > floor && Reflects(h, turns - {oldest}, Forget(finals, oldest), oldest)
  {
    ForgetExactly(h, turns, finals, oldest);
    var turns' := turns - {oldest};
    forall o: nat | o > oldest ensures Shows(h, turns', o) {
      assert Shows(h, turns, o);
    }
    forall key | key in Forget(finals, oldest) ensures key.0 > oldest {
      assert Shows(h, turns, key.0);
      assert key.0 in turns;
    }
  }

  // ------------------------------------------------- the tape

  /** A turn frame above the floor, no final seen before and no weaker than what stands. */
  ghost predicate Absorbs(turns: map<nat, Turn>, finals: set<(nat, bool, bool)>, floor: int, f: Frame) {
    && f.isTurn && f.turnOrder.Some? && f.turnOrder.value > floor && f.turnOrder.value >= 0
    && (f.endOfTurn ==> (f.turnOrder.value as nat, true, f.formatted) !in finals)
    && (f.turnOrder.value in turns ==> !Weaker(f, turns[f.turnOrder.value]))
  }

  /** A partial against a final, or unformatted against formatted. */
  ghost predicate Weaker(f: Frame, t: Turn) {
    (t.endOfTurn && !f.endOfTurn) || (t.endOfTurn == f.endOfTurn && t.formatted && !f.formatted)
  }

  class Tape {
    const maxSpanMs: nat
    const maxWords: nat
    var turns: map<nat, Turn>
    var finals: set<(nat, bool, bool)>
    var floor: int                    // highest turn order ever evicted
    var flat: Option<seq<Word>>       // window cache
    ghost var history: seq<Frame>     // every frame offered since the last clear

    ghost predicate Sound()
      reads this
    {
      && Reflects(history, turns, finals, floor)
      && (flat == None || flat == Some(Window(Stored(turns), maxSpanMs, maxWords)))
    }

    ghost predicate Valid()
      reads this
    {
      Sound() && Settled(turns, maxSpanMs, maxWords)
    }

    constructor (maxSpanMs: nat := 45000, maxWords: nat := 400)
      ensures Valid() && turns == map[] && history == [] && floor == -1
      ensures this.maxSpanMs == maxSpanMs && this.maxWords == maxWords
    {
      this.maxSpanMs, this.maxWords := maxSpanMs, maxWords;
      turns, finals, floor, flat, history := map[], {}, -1, None, [];
    }

    /** One pass of the eviction test: the oldest turn, and whether it must go. */
    method Examine() returns (oldest: nat, evict: bool)
      requires |turns| > 1
      ensures IsLeast(turns.Keys, oldest)
      ensures evict <==> |Stored(turns)| > maxWords || Stale(turns, oldest, maxSpanMs)
    {
      var stored := Flat(turns);
      oldest := LeastKey(turns.Keys);
      var newest := NewestEnd(turns);
      StaleIsDecided(turns, oldest, newest, maxSpanMs);
      var stale := turns[oldest].words == [] || newest.value - LastEnd(turns[oldest]) > maxSpanMs;
      evict := |stored| > maxWords || stale;
    }

    method DropOldest(oldest: nat)
      requires Sound() && IsLeast(turns.Keys, oldest)
      modifies this`turns, this`finals, this`floor, this`flat
      ensures Sound() && turns == old(turns) - {oldest} && floor == oldest > old(floor)
    {
      EvictStep(history, turns, finals, floor, oldest);
      turns := turns - {oldest};
      floor := if floor > oldest then floor else oldest;
      finals := Forget(finals, oldest);
      flat := None;
    }

    /** `_evict`. What goes is a prefix of the turn orders, up to the raised floor; the
        greatest order stays. */
    method Evict()
      requires Sound()
      modifies this`turns, this`finals, this`floor, this`flat
      ensures Valid() && floor >= old(floor)
      ensures turns == Above(old(turns), floor)
      ensures forall m :: IsNewest(old(turns), m) ==> m in turns
      ensures OnlyWhatMust(old(turns), turns, maxSpanMs, maxWords)
    {
      assert Above(turns, floor) == turns;
      while |turns| > 1
        invariant Sound() && floor >= old(floor)
        invariant turns == Above(old(turns), floor)
        invariant forall m :: IsNewest(old(turns), m) ==> m in turns
        invariant OnlyWhatMust(old(turns), turns, maxSpanMs, maxWords)
        decreases |turns|
      {
        var oldest, evict := Examine();
        if !evict {
          LeastIsUnique(turns.Keys, oldest);
          return;
        }
        OldestIsNotNewest(turns, oldest);
        AboveStep(old(turns), floor, oldest);
        OneMoreGoes(old(turns), floor, oldest, maxSpanMs, maxWords);
        DropOldest(oldest);
      }
    }

    /** `ingest`: one upstream frame.  A refused frame changes nothing; an absorbed one
        takes its turn's slot, and then the front of the tape is evicted. */
    method Ingest(f: Frame) returns (changed: bool)
      requires Valid()
      modifies this
      ensures Valid() && history == old(history) + [f] && floor >= old(floor)
      ensures !changed ==> turns == old(turns) && finals == old(finals) && floor == old(floor) && flat == old(flat)
      ensures changed ==> f.turnOrder.Some? && f.turnOrder.value > old(floor)
      ensures changed ==> turns == Above(old(turns)[f.turnOrder.value := TurnOf(f, f.turnOrder.value)], floor)
      ensures forall o :: o in turns ==> o > old(floor)
      ensures changed <==> Absorbs(old(turns), old(finals), old(floor), f)
      ensures changed ==>
        OnlyWhatMust(old(turns)[f.turnOrder.value := TurnOf(f, f.turnOrder.value)], turns, maxSpanMs, maxWords)
    {
      hide Stored, Window, Stale, OnlyWhatMust, Settled, MustGo;
      ghost var h := history;
      history := history + [f];
      if !f.isTurn || f.turnOrder.None? || f.turnOrder.value <= floor {
        IgnoreStep(h, turns, finals, floor, f);
        return false;
      }
      var order: nat := f.turnOrder.value;
      var key := (order, f.endOfTurn, f.formatted);
      if f.endOfTurn && key in finals {
        IgnoreStep(h, turns, finals, floor, f);
        return false;
      }
      var incoming := TurnOf(f, order);
      if order in turns && incoming.Rank() < turns[order].Rank() {
        IgnoreStep(h, turns, finals, floor, f);
        return false;
      }
      StoreStep(h, turns, finals, floor, f, order);
      turns := turns[order := incoming];
      if f.endOfTurn {
        finals := finals + {key};
      }
      flat := None;
      Evict();
      return true;
    }

    /** `words`: the bounded window, computed at most once per change. */
    method Words() returns (ws: seq<Word>)
      requires Valid()
      modifies this`flat
      ensures Valid() && ws == Window(Stored(turns), maxSpanMs, maxWords) && OrdersAscend(ws)
      ensures flat == Some(ws) && (old(flat).Some? ==> flat == old(flat))
    {
      if flat.None? {
        var all := Flat(turns);
        flat := Some(Window(all, maxSpanMs, maxWords));
      }
      ws := flat.value;
      ReflectedAreMarked(history, turns, finals, floor);
      StoredAscends(turns);
      WindowAscends(Stored(turns), maxSpanMs, maxWords);
    }

    method Clear()
      modifies this
      ensures Valid() && turns == map[] && finals == {} && floor == -1 && flat == None && history == []
    {
      turns, finals, floor, flat, history := map[], {}, -1, None, [];
    }

    /** Any sequence of frames, in any order, on a fresh tape. */
    method IngestAll(frames: seq<Frame>) returns (absorbed: nat)
      requires Valid() && history == []
      modifies this
      ensures Valid() && history == frames && absorbed <= |frames|
      ensures forall o: nat :: o > floor ==> Shows(frames, turns, o)
      ensures forall o :: o in turns ==> o > floor
    {
      absorbed := 0;
      for i := 0 to |frames|
        invariant Valid() && history == frames[..i] && absorbed <= i
      {
        var changed := Ingest(frames[i]);
        if changed {
          absorbed := absorbed + 1;
        }
        assert frames[..i + 1] == frames[..i] + [frames[i]];
      }
      assert frames[..|frames|] == frames;
    }
  }

  /** A frame that is not stored leaves every turn above the floor as it was. */
  lemma IgnoreStep(h: seq<Frame>, turns: map<nat, Turn>, finals: set<(nat, bool, bool)>, floor: int, f: Frame)
    requires Reflects(h, turns, finals, floor)
    requires f.isTurn && f.turnOrder.Some? && f.turnOrder.value > floor ==>
      var o: nat := f.turnOrder.value; var r := TurnOf(f, o).Rank();
      (f.endOfTurn && (o, true, f.formatted) in finals) || (o in turns && r < turns[o].Rank())
    ensures Reflects(h + [f], turns, finals, floor)
  {
    var h' := h + [f];
    forall o: nat | o > floor ensures Shows(h', turns, o) {
      assert Shows(h, turns, o);
      if f.isTurn && f.turnOrder == Some(o) {
        if f.endOfTurn && (o, true, f.formatted) in finals {
          DuplicateLoses(h, turns, finals, f, o);
        }
        OldFrameWins(h, turns, f, o);
      } else {
        OtherTurnsKeep(h, turns, f, o);
      }
    }
    DedupedStays(h, turns, finals, f);
  }

  lemma DedupedStays(h: seq<Frame>, turns: map<nat, Turn>, finals: set<(nat, bool, bool)>, f: Frame)
    requires Deduped(h, turns, finals)
    ensures Deduped(h + [f], turns, finals)
  {
    forall key | key in finals
      ensures exists k :: IsOf(h + [f], k, key.0) && (h + [f])[k].endOfTurn && (h + [f])[k].formatted == key.2
    {
      var k :| IsOf(h, k, key.0) && h[k].endOfTurn && h[k].formatted == key.2;
      assert IsOf(h + [f], k, key.0);
    }
  }

  /** A frame of at least its turn's rank, and no duplicate final, takes the slot. */
  lemma StoreStep(h: seq<Frame>, turns: map<nat, Turn>, finals: set<(nat, bool, bool)>, floor: int, f: Frame, o: nat)
    requires Reflects(h, turns, finals, floor) && f.isTurn && f.turnOrder == Some(o) && o > floor
    requires f.endOfTurn ==> (o, true, f.formatted) !in finals
    requires o in turns ==> turns[o].Rank() <= TurnOf(f, o).Rank()
    ensures Reflects(h + [f], turns[o := TurnOf(f, o)],
                     finals + (if f.endOfTurn then {(o, true, f.formatted)} else {}), floor)
  {
    var h', turns' := h + [f], turns[o := TurnOf(f, o)];
    var finals' := finals + (if f.endOfTurn then {(o, true, f.formatted)} else {});
    forall p: nat | p > floor ensures Shows(h', turns', p) {
      assert Shows(h, turns, p);
      if p == o {
        NewFrameWins(h, turns, f, o);
      } else {
        OtherTurnsKeep(h, turns, f, p);
        assert turns'.Keys == turns.Keys + {o};
      }
    }
    DedupedStays(h, turns, finals, f);
    assert IsOf(h', |h|, o);
  }

  lemma LeastIsUnique(keys: set<nat>, m: nat)
    requires IsLeast(keys, m)
    ensures forall o :: IsLeast(keys, o) ==> o == m
  {
  }

  lemma AboveStep(turns: map<nat, Turn>, floor: int, oldest: nat)
    requires IsLeast(Above(turns, floor).Keys, oldest)
    ensures Above(turns, oldest) == Above(turns, floor) - {oldest}
    ensures |Above(turns, oldest)| < |Above(turns, floor)|
  {
    assert Above(turns, oldest).Keys == Above(turns, floor).Keys - {oldest};
  }

  lemma OneMoreGoes(turns: map<nat, Turn>, floor: int, oldest: nat, maxSpanMs: nat, maxWords: nat)
    requires MustGo(Above(turns, floor), oldest, maxSpanMs, maxWords)
    requires OnlyWhatMust(turns, Above(turns, floor), maxSpanMs, maxWords)
    ensures OnlyWhatMust(turns, Above(turns, floor) - {oldest}, maxSpanMs, maxWords)
  {
    assert Above(turns, oldest - 1) == Above(turns, floor);
    hide Stored, Stale, IsLeast, Above;
  }

  ghost predicate IsNewest(turns: map<nat, Turn>, m: nat) {
    m in turns && forall o :: o in turns ==> o <= m
  }

  lemma OldestIsNotNewest(turns: map<nat, Turn>, oldest: nat)
    requires IsLeast(turns.Keys, oldest) && |turns| > 1
    ensures !IsNewest(turns, oldest)
  {
    var rest := turns.Keys - {oldest};
    assert turns.Keys == rest + {oldest};
    assert |rest| == |turns| - 1;
    var o :| o in rest;
  }

  lemma StaleIsDecided(turns: map<nat, Turn>, oldest: nat, newest: Option<int>, maxSpanMs: nat)
    requires IsLeast(turns.Keys, oldest)
    requires newest.None? <==> forall o :: o in turns ==> turns[o].words == []
    requires newest.Some? ==> IsNewestEnd(turns, newest.value)
    ensures turns[oldest].words != [] ==> newest.Some?
    ensures Stale(turns, oldest, maxSpanMs) <==>
      turns[oldest].words == [] || newest.value - LastEnd(turns[oldest]) > maxSpanMs
  {
  }
}
