/** The event stream: a bounded backlog, live fan-out over one queue per subscriber,
    and what each subscriber therefore sees under any interleaving. */
module Events {
  import opened Common

  const MAX_HISTORY := 5000

  datatype Event = Event(seqNo: nat, kind: string, data: string)

  /** One running `subscribe` generator: the backlog it copied, how far it has got,
      its queue (`None` is the sentinel `close` puts in), and the last number seen. */
  datatype Subscription = Subscription(backlog: seq<Event>, next: nat, live: bool,
                                       queue: seq<Option<Event>>, seen: int)

  datatype Delivery = Yielded(event: Event) | Blocked | Stopped

  function Queued(evs: seq<Event>): (q: seq<Option<Event>>)
    ensures |q| == |evs|
  {
    seq(|evs|, i requires 0 <= i < |evs| => Some(evs[i]))
  }

  /** What was put on the queue of a subscriber, from event number `from` on, with the
      sentinel where `close` found it: `end` is how much had been emitted by then. */
  ghost function Puts(log: seq<Event>, end: Option<nat>, closedOn: bool, from: nat): seq<Option<Event>>
    requires EndOk(log, end) && from <= |log|
    requires closedOn ==> end.Some? && from <= end.value
  {
    if closedOn then Queued(log[from..end.value]) + [None] + Queued(log[end.value..]) else Queued(log[from..])
  }

  ghost predicate EndOk(log: seq<Event>, end: Option<nat>) {
    end.Some? ==> end.value <= |log|
  }

  /** The number of the first event still in the queue. */
  ghost function Taken(log: seq<Event>, s: Subscription, closedOn: bool): int {
    |log| - (|s.queue| - if closedOn then 1 else 0)
  }

  /** The queue holds what was put there from some event on that leaves no gap after
      what the subscriber has; it may repeat some of it. */
  ghost predicate Holds(log: seq<Event>, end: Option<nat>, s: Subscription, reached: nat, closedOn: bool) {
    && EndOk(log, end) && 0 <= Taken(log, s, closedOn) <= reached <= |log|
    && (closedOn ==> end.Some? && reached <= end.value)
    && s.queue == Puts(log, end, closedOn, Taken(log, s, closedOn))
  }

  /** What is known of one subscriber: `first` is the first event retained when it
      subscribed, `got` what it has been given since, and `closedOn` says whether the
      stream was closed while it was subscribed. */
  ghost predicate Tracks(log: seq<Event>, end: Option<nat>, s: Subscription, first: nat, got: seq<Event>, closedOn: bool) {
    && first + |s.backlog| <= |log| && s.backlog == log[first..first + |s.backlog|]
    && s.next <= |s.backlog| && (s.backlog == [] ==> first == 0)
    && (if s.live then |got| >= |s.backlog| == s.next else |got| == s.next)
    && first + |got| <= |log| && got == log[first..first + |got|]
    && (s.live ==> s.seen == first + |got| - 1)
    && Holds(log, end, s, first + if s.live then |got| else |s.backlog|, closedOn)
    && (end.Some? && !closedOn ==> end.value <= first + |s.backlog|)
  }

  ghost predicate Numbered(log: seq<Event>) {
    forall i :: 0 <= i < |log| ==> log[i].seqNo == i
  }

  lemma QueuedGrows(evs: seq<Event>, ev: Event)
    ensures Queued(evs + [ev]) == Queued(evs) + [Some(ev)]
  {
  }

  lemma PutsGrows(log: seq<Event>, ev: Event, end: Option<nat>, closedOn: bool, from: nat)
    requires EndOk(log, end) && from <= |log|
    requires closedOn ==> end.Some? && from <= end.value
    ensures Puts(log + [ev], end, closedOn, from) == Puts(log, end, closedOn, from) + [Some(ev)]
  {
    var k := if closedOn then end.value else from;
    assert (log + [ev])[k..] == log[k..] + [ev];
    QueuedGrows(log[k..], ev);
    if closedOn {
      assert (log + [ev])[from..k] == log[from..k];
    }
  }

  /** An event reaches every queue, also one that already holds the sentinel. */
  lemma QueueGrows(log: seq<Event>, ev: Event, end: Option<nat>, s: Subscription, first: nat, got: seq<Event>,
                   closedOn: bool)
    requires Tracks(log, end, s, first, got, closedOn)
    ensures Tracks(log + [ev], end, s.(queue := s.queue + [Some(ev)]), first, got, closedOn)
  {
    hide Puts;
    PutsGrows(log, ev, end, closedOn, Taken(log, s, closedOn));
  }

  lemma SentinelArrives(log: seq<Event>, s: Subscription, first: nat, got: seq<Event>)
    requires Tracks(log, None, s, first, got, false)
    ensures Tracks(log, Some(|log|), s.(queue := s.queue + [None]), first, got, true)
  {
    var taken := Taken(log, s, false);
    assert log[taken..|log|] == log[taken..];
  }

  /** Taking one event off the queue. */
  lemma QueueShrinks(log: seq<Event>, end: Option<nat>, s: Subscription, reached: nat, closedOn: bool)
    requires s.queue != [] && s.queue[0].Some? && Holds(log, end, s, reached, closedOn)
    ensures var taken := Taken(log, s, closedOn);
            taken < |log| && s.queue[0].value == log[taken]
            && (closedOn ==> taken < end.value)
            && s.queue[1..] == Puts(log, end, closedOn, taken + 1)
  {
    var taken := Taken(log, s, closedOn);
    if closedOn {
      assert taken < end.value;
      assert log[taken..end.value][1..] == log[taken + 1..end.value];
    } else {
      assert log[taken..][1..] == log[taken + 1..];
    }
  }

  /** How much a subscriber still has in front of it. */
  ghost function Left(s: Subscription): nat {
    (if s.next < |s.backlog| then |s.backlog| - s.next else 0) + |s.queue|
  }

  /** The generator has gone on to its queue, or will not return before it. */
  ghost predicate OnQueue(s: Subscription) {
    s.live || s.queue != []
  }

  /** How far a reader is owed: to the sentinel if one was put on its queue. */
  ghost function Until(log: seq<Event>, end: Option<nat>, closedOn: bool): nat {
    if closedOn && end.Some? then end.value else |log|
  }

  /** Everything from the first event to the last one owed. */
  ghost predicate HasAll(log: seq<Event>, end: Option<nat>, first: nat, got: seq<Event>, closedOn: bool) {
    first <= Until(log, end, closedOn) <= |log| && got == log[first..Until(log, end, closedOn)]
  }

  /** What one resumption of the generator means for the subscriber's record. */
  ghost predicate Resumed(log: seq<Event>, end: Option<nat>, s: Subscription, s': Subscription, first: nat,
                          got: seq<Event>, closedOn: bool, d: Delivery) {
    match d
    case Yielded(ev) =>
      Tracks(log, end, s', first, got + [ev], closedOn) && ev.seqNo == first + |got| && Left(s') < Left(s)
      && (end.Some? ==> OnQueue(s') == OnQueue(s))
    case Blocked =>
      Tracks(log, end, s', first, got, closedOn) && HasAll(log, end, first, got, closedOn)
      && !closedOn && (end.Some? ==> OnQueue(s))
    case Stopped =>
      end.Some? && HasAll(log, end, first, got, closedOn) && (closedOn || !OnQueue(s))
  }

  lemma BacklogYields(log: seq<Event>, end: Option<nat>, s: Subscription, first: nat, got: seq<Event>, closedOn: bool)
    requires Numbered(log) && Tracks(log, end, s, first, got, closedOn) && !s.live && s.next < |s.backlog|
    ensures Resumed(log, end, s, s.(next := s.next + 1), first, got, closedOn, Yielded(s.backlog[s.next]))
  {
    hide Queued, Puts;
    assert s.backlog[s.next] == log[first + |got|];
    assert log[first..first + |got| + 1] == got + [log[first + |got|]];
  }

  function LastSeen(backlog: seq<Event>): int {
    if backlog != [] then backlog[|backlog| - 1].seqNo else -1
  }

  lemma GoesLive(log: seq<Event>, end: Option<nat>, s: Subscription, first: nat, got: seq<Event>, closedOn: bool)
    requires Numbered(log) && Tracks(log, end, s, first, got, closedOn) && !s.live && s.next == |s.backlog|
    ensures Tracks(log, end, s.(live := true, seen := LastSeen(s.backlog)), first, got, closedOn)
  {
    hide Puts;
  }

  lemma LiveSkips(log: seq<Event>, end: Option<nat>, s: Subscription, first: nat, got: seq<Event>, closedOn: bool)
    requires Numbered(log) && Tracks(log, end, s, first, got, closedOn) && s.live
    requires s.queue != [] && s.queue[0].Some? && s.queue[0].value.seqNo <= s.seen
    ensures Tracks(log, end, s.(queue := s.queue[1..]), first, got, closedOn)
  {
    hide Puts;
    QueueShrinks(log, end, s, first + |got|, closedOn);
  }

  /** A live queue's head that has not been shown yet is exactly the event due. */
  lemma LiveYields(log: seq<Event>, end: Option<nat>, s: Subscription, first: nat, got: seq<Event>, closedOn: bool)
    requires Numbered(log) && Tracks(log, end, s, first, got, closedOn) && s.live
    requires s.queue != [] && s.queue[0].Some? && s.queue[0].value.seqNo > s.seen
    ensures var ev := s.queue[0].value;
            ev.seqNo == first + |got|
            && Tracks(log, end, s.(queue := s.queue[1..], seen := ev.seqNo), first, got + [ev], closedOn)
  {
    hide Puts;
    QueueShrinks(log, end, s, first + |got|, closedOn);
    assert log[first..first + |got| + 1] == got + [log[first + |got|]];
  }

  /** The queue runs empty only without a sentinel, and the sentinel comes only when all
      that precedes it has been given. */
  lemma LiveEnds(log: seq<Event>, end: Option<nat>, s: Subscription, first: nat, got: seq<Event>, closedOn: bool)
    requires Tracks(log, end, s, first, got, closedOn) && s.live
    ensures s.queue == [] ==> !closedOn && HasAll(log, end, first, got, closedOn)
    ensures s.queue != [] && s.queue[0].None? ==> closedOn && end.Some? && HasAll(log, end, first, got, closedOn)
  {
  }

  /** The backlog part of the generator. */
  method ResumeBacklog(s: Subscription, closed: bool, ghost log: seq<Event>, ghost end: Option<nat>, ghost first: nat,
                       ghost got: seq<Event>, ghost closedOn: bool)
    returns (s': Subscription, d: Option<Delivery>)
    requires Numbered(log) && Tracks(log, end, s, first, got, closedOn) && !s.live && closed == end.Some?
    ensures d.Some? ==> Resumed(log, end, s, s', first, got, closedOn, d.value)
    ensures d.None? ==> s'.live && Tracks(log, end, s', first, got, closedOn) && Left(s') == Left(s)
    ensures d.None? && closed ==> OnQueue(s)
  {
    if s.next < |s.backlog| {
      BacklogYields(log, end, s, first, got, closedOn);
      return s.(next := s.next + 1), Some(Yielded(s.backlog[s.next]));
    }
    if closed && s.queue == [] {
      return s, Some(Stopped);
    }
    GoesLive(log, end, s, first, got, closedOn);
    s' := s.(live := true, seen := LastSeen(s.backlog));
    d := None;
  }

  /** The live part: skip what was shown already, then wait, stop or yield. */
  method ResumeLive(s: Subscription, ghost log: seq<Event>, ghost end: Option<nat>, ghost first: nat,
                    ghost got: seq<Event>, ghost closedOn: bool)
    returns (s': Subscription, d: Delivery)
    requires Numbered(log) && Tracks(log, end, s, first, got, closedOn) && s.live
    ensures Resumed(log, end, s, s', first, got, closedOn, d)
  {
    hide Numbered, Tracks, HasAll;
    s' := s;
    while s'.queue != [] && s'.queue[0].Some? && s'.queue[0].value.seqNo <= s'.seen
      invariant s'.live && Left(s') <= Left(s)
      invariant Tracks(log, end, s', first, got, closedOn)
      decreases |s'.queue|
    {
      LiveSkips(log, end, s', first, got, closedOn);
      s' := s'.(queue := s'.queue[1..]);
    }
    LiveEnds(log, end, s', first, got, closedOn);
    if s'.queue == [] {
      return s', Blocked;
    }
    if s'.queue[0].None? {
      return s', Stopped;
    }
    LiveYields(log, end, s', first, got, closedOn);
    var ev := s'.queue[0].value;
    s' := s'.(queue := s'.queue[1..], seen := ev.seqNo);
    d := Yielded(ev);
  }

  // ------------------------------------------------- the stream

  /** The record kept of a reader, running or gone: the first event retained when it
      subscribed, what it has been given, whether `close` reached it while it was
      subscribed, and whether its generator ended by itself. */
  datatype Reader = Reader(first: nat, given: seq<Event>, closedOn: bool, stopped: bool)

  ghost predicate Follows(log: seq<Event>, end: Option<nat>, s: Subscription, r: Reader) {
    Tracks(log, end, s, r.first, r.given, r.closedOn) && !r.stopped
  }

  /** What a reader has is the gap-free run of the log from its first event; once its
      generator has ended the run reaches everything emitted before `close`, and no
      further if `close` found it subscribed. */
  ghost predicate Served(log: seq<Event>, end: Option<nat>, r: Reader) {
    && r.first + |r.given| <= |log| && r.given == log[r.first..r.first + |r.given|]
    && (r.stopped ==> end.Some? && end.value <= r.first + |r.given|)
    && (r.stopped && r.closedOn ==> r.first + |r.given| == end.value)
  }

  /** `dropped + len(history) == seq`, the history is the end of the log, and nothing is
      dropped before it is full. */
  ghost predicate Retained(log: seq<Event>, history: seq<Event>, dropped: nat, nextSeq: nat) {
    && nextSeq == |log| && dropped + |history| == nextSeq && |history| <= MAX_HISTORY
    && history == log[dropped..] && (dropped > 0 ==> |history| == MAX_HISTORY)
  }

  datatype Action = Emitting(kind: string, data: string) | Closing | Subscribing | Resuming(id: nat) | Leaving(id: nat)

  ghost predicate AllFollow(log: seq<Event>, end: Option<nat>, subs: map<nat, Subscription>, readers: map<nat, Reader>) {
    forall k :: k in subs ==> k in readers && Follows(log, end, subs[k], readers[k])
  }

  ghost predicate AllServed(log: seq<Event>, end: Option<nat>, readers: map<nat, Reader>) {
    forall k :: k in readers ==> Served(log, end, readers[k])
  }

  /** `put_nowait` on every queue. */
  function PutAll(subs: map<nat, Subscription>, item: Option<Event>): map<nat, Subscription> {
    map k | k in subs :: subs[k].(queue := subs[k].queue + [item])
  }

  ghost function CloseOn(readers: map<nat, Reader>, ids: set<nat>): map<nat, Reader> {
    map k | k in readers :: if k in ids then readers[k].(closedOn := true) else readers[k]
  }

  lemma EmitStep(log: seq<Event>, end: Option<nat>, ev: Event, subs: map<nat, Subscription>, readers: map<nat, Reader>)
    requires AllFollow(log, end, subs, readers) && AllServed(log, end, readers)
    ensures AllFollow(log + [ev], end, PutAll(subs, Some(ev)), readers) && AllServed(log + [ev], end, readers)
  {
    hide Tracks;
    forall k | k in readers ensures Served(log + [ev], end, readers[k]) {
      ServedStays(log, ev, end, readers[k]);
    }
    forall k | k in subs ensures Follows(log + [ev], end, PutAll(subs, Some(ev))[k], readers[k]) {
      QueueGrows(log, ev, end, subs[k], readers[k].first, readers[k].given, readers[k].closedOn);
    }
  }

  lemma RetainStep(log: seq<Event>, history: seq<Event>, dropped: nat, nextSeq: nat, ev: Event)
    requires Retained(log, history, dropped, nextSeq) && Numbered(log) && ev.seqNo == nextSeq
    ensures Numbered(log + [ev])
    ensures |history| < MAX_HISTORY ==> Retained(log + [ev], history + [ev], dropped, nextSeq + 1)
    ensures |history| == MAX_HISTORY ==> Retained(log + [ev], (history + [ev])[1..], dropped + 1, nextSeq + 1)
  {
    assert (log + [ev])[dropped..] == log[dropped..] + [ev];
  }

  lemma OneCloses(log: seq<Event>, s: Subscription, r: Reader)
    requires Follows(log, None, s, r) && !r.closedOn
    ensures Follows(log, Some(|log|), s.(queue := s.queue + [None]), r.(closedOn := true))
  {
    SentinelArrives(log, s, r.first, r.given);
  }

  lemma StillServed(log: seq<Event>, r: Reader)
    requires Served(log, None, r)
    ensures Served(log, Some(|log|), r) && Served(log, Some(|log|), r.(closedOn := true))
  {
  }

  lemma OpenHasNoSentinel(log: seq<Event>, s: Subscription, r: Reader)
    requires Follows(log, None, s, r)
    ensures !r.closedOn
  {
  }

  lemma CloseStep(log: seq<Event>, subs: map<nat, Subscription>, readers: map<nat, Reader>)
    requires AllFollow(log, None, subs, readers) && AllServed(log, None, readers)
    ensures AllFollow(log, Some(|log|), PutAll(subs, None), CloseOn(readers, subs.Keys))
    ensures AllServed(log, Some(|log|), CloseOn(readers, subs.Keys))
  {
    hide Numbered, Follows, Served;
    forall k | k in subs
      ensures k in readers && Follows(log, Some(|log|), PutAll(subs, None)[k], CloseOn(readers, subs.Keys)[k])
    {
      OpenHasNoSentinel(log, subs[k], readers[k]);
      OneCloses(log, subs[k], readers[k]);
    }
    forall k | k in readers ensures Served(log, Some(|log|), CloseOn(readers, subs.Keys)[k]) {
      StillServed(log, readers[k]);
    }
  }

  lemma NextStep(log: seq<Event>, end: Option<nat>, subs: map<nat, Subscription>, readers: map<nat, Reader>, id: nat,
                 s': Subscription, d: Delivery)
    requires AllFollow(log, end, subs, readers) && AllServed(log, end, readers) && id in subs
    requires var r := readers[id]; Resumed(log, end, subs[id], s', r.first, r.given, r.closedOn, d)
    ensures var readers' := readers[id := AfterDelivery(readers[id], d)];
            AllServed(log, end, readers')
            && AllFollow(log, end, if d.Stopped? then subs - {id} else subs[id := s'], readers')
  {
    ResumedIsServed(log, end, subs[id], s', readers[id], d);
    hide Follows, Served, Resumed;
  }

  lemma NextFacts(log: seq<Event>, end: Option<nat>, subs: map<nat, Subscription>, readers: map<nat, Reader>, id: nat,
                  s': Subscription, d: Delivery)
    requires AllFollow(log, end, subs, readers) && id in subs
    requires var r := readers[id]; Resumed(log, end, subs[id], s', r.first, r.given, r.closedOn, d)
    ensures var s, r := subs[id], readers[id];
      && (d.Yielded? ==> d.event.seqNo == r.first + |r.given| && Left(s') < Left(s))
      && (d.Yielded? && end.Some? ==> OnQueue(s') == OnQueue(s))
      && (!d.Yielded? ==> IsComplete(log, end, r))
      && (d.Stopped? ==> end.Some? && Returns(r, s))
      && (d.Blocked? && end.Some? ==> !Returns(r, s))
  {
    ResumedFacts(log, end, subs[id], s', readers[id], d);
  }

  class EventStream {
    const known: set<string>
    var history: seq<Event>
    var subscribers: map<nat, Subscription>
    var closed: bool
    var nextSeq: nat
    var dropped: nat
    var nextId: nat                      // names generators apart
    ghost var log: seq<Event>            // everything ever emitted
    ghost var end: Option<nat>           // how much of it before `close`
    ghost var readers: map<nat, Reader>  // everyone who ever subscribed

    ghost predicate Valid()
      reads this
    {
      && Retained(log, history, dropped, nextSeq) && Numbered(log) && EndOk(log, end) && closed == end.Some?
      && AllFollow(log, end, subscribers, readers) && AllServed(log, end, readers)
      && forall k :: k in readers ==> k < nextId
    }

    constructor (known: set<string>)
      ensures Valid() && log == [] && !closed && subscribers == map[] && readers == map[] && this.known == known
    {
      this.known := known;
      history, subscribers, closed, nextSeq, dropped, nextId := [], map[], false, 0, 0, 0;
      log, readers, end := [], map[], None;
    }

    /** `emit`: an unknown type is refused; otherwise the event gets the next number,
        the backlog keeps the newest, and every queue receives it, closed or not. */
    method Emit(kind: string, data: string) returns (ok: bool)
      requires Valid()
      modifies this`history, this`nextSeq, this`dropped, this`subscribers, this`log
      ensures Valid() && ok == (kind in known)
      ensures log == if ok then old(log) + [Event(|old(log)|, kind, data)] else old(log)
      ensures subscribers == if ok then PutAll(old(subscribers), Some(Event(|old(log)|, kind, data))) else old(subscribers)
    {
      if kind !in known {
        return false;
      }
      Record(Event(nextSeq, kind, data));
      return true;
    }

    method Record(ev: Event)
      requires Valid() && ev.seqNo == nextSeq
      modifies this`history, this`nextSeq, this`dropped, this`subscribers, this`log
      ensures Valid() && log == old(log) + [ev] && subscribers == PutAll(old(subscribers), Some(ev))
    {
      hide AllFollow, AllServed, Retained, Numbered, PutAll;
      Publish(ev);
      Keep(ev, old(log));
    }

    /** Appends to the log and to every queue. */
    method Publish(ev: Event)
      requires EndOk(log, end) && AllFollow(log, end, subscribers, readers) && AllServed(log, end, readers)
      modifies this`subscribers, this`log
      ensures log == old(log) + [ev] && subscribers == PutAll(old(subscribers), Some(ev))
      ensures EndOk(log, end) && AllFollow(log, end, subscribers, readers) && AllServed(log, end, readers)
    {
      hide Follows, Served;
      EmitStep(log, end, ev, subscribers, readers);
      subscribers := PutAll(subscribers, Some(ev));
      log := log + [ev];
    }

    /** Stores the event in the backlog, trimming it from the front. */
    method Keep(ev: Event, ghost before: seq<Event>)
      requires log == before + [ev] && Retained(before, history, dropped, nextSeq) && Numbered(before)
      requires ev.seqNo == nextSeq
      modifies this`history, this`nextSeq, this`dropped
      ensures Retained(log, history, dropped, nextSeq) && Numbered(log)
    {
      RetainStep(before, history, dropped, nextSeq, ev);
      nextSeq := nextSeq + 1;
      history := history + [ev];
      if |history| > MAX_HISTORY {
        var excess := |history| - MAX_HISTORY;
        dropped := dropped + excess;
        history := history[excess..];
      }
    }

    /** `close`: idempotent; every queue receives the sentinel. */
    method Close()
      requires Valid()
      modifies this`closed, this`subscribers, this`readers, this`end
      ensures Valid() && closed && end == if old(closed) then old(end) else Some(|log|)
      ensures subscribers == if old(closed) then old(subscribers) else PutAll(old(subscribers), None)
      ensures readers == if old(closed) then old(readers) else CloseOn(old(readers), old(subscribers).Keys)
    {
      if closed {
        return;
      }
      CloseStep(log, subscribers, readers);
      closed, end := true, Some(|log|);
      readers := CloseOn(readers, subscribers.Keys);
      subscribers := PutAll(subscribers, None);
    }

    /** The generator's first step: copy the backlog and register the queue. */
    method Subscribe() returns (id: nat)
      requires Valid()
      modifies this`subscribers, this`readers, this`nextId
      ensures Valid() && id !in old(readers)
      ensures subscribers == old(subscribers)[id := Subscription(history, 0, false, [], -1)]
      ensures readers == old(readers)[id := Reader(dropped, [], false, false)]
    {
      id := nextId;
      NewSubscriber(log, end, history, dropped, nextSeq);
      subscribers := subscribers[id := Subscription(history, 0, false, [], -1)];
      readers := readers[id := Reader(dropped, [], false, false)];
      nextId := nextId + 1;
    }

    /** Runs the generator of `id` to its next suspension. */
    method Resume(id: nat) returns (s: Subscription, d: Delivery)
      requires Valid() && id in subscribers
      ensures id in readers
      ensures var r := readers[id]; Resumed(log, end, subscribers[id], s, r.first, r.given, r.closedOn, d)
    {
      ghost var r := readers[id];
      var open: Option<Delivery> := None;
      s := subscribers[id];
      hide Tracks, HasAll;
      if !s.live {
        s, open := ResumeBacklog(s, closed, log, end, r.first, r.given, r.closedOn);
      }
      if open.Some? {
        return s, open.value;
      }
      s, d := ResumeLive(s, log, end, r.first, r.given, r.closedOn);
    }

    /** One resumption: a yield, a wait on the empty queue, or the end, which is
        reached only with everything delivered. */
    method Next(id: nat) returns (d: Delivery)
      requires Valid() && id in subscribers
      modifies this`subscribers, this`readers
      ensures Valid() && id in old(readers) && readers == old(readers)[id := AfterDelivery(old(readers)[id], d)]
      ensures subscribers.Keys == if d.Stopped? then old(subscribers).Keys - {id} else old(subscribers).Keys
      ensures d.Yielded? ==> d.event.seqNo == readers[id].first + |old(readers)[id].given|
      ensures d.Yielded? ==> Left(subscribers[id]) < Left(old(subscribers)[id])
      ensures d.Yielded? && closed ==> OnQueue(subscribers[id]) == OnQueue(old(subscribers)[id])
      ensures !d.Yielded? ==> IsComplete(log, end, readers[id])
      ensures d.Stopped? ==> closed && Returns(readers[id], old(subscribers)[id])
      ensures d.Blocked? && closed ==> !Returns(readers[id], old(subscribers)[id])
    {
      hide Numbered, Tracks, Retained, AllFollow, AllServed, Resumed, HasAll, OnQueue, Left;
      var s;
      s, d := Resume(id);
      NextStep(log, end, subscribers, readers, id, s, d);
      NextFacts(log, end, subscribers, readers, id, s, d);
      readers := readers[id := AfterDelivery(readers[id], d)];
      if d.Stopped? {
        subscribers := subscribers - {id};
      } else {
        subscribers := subscribers[id := s];
      }
    }

    /** The reader goes away: its queue is dropped and nothing else changes. */
    method Disconnect(id: nat)
      requires Valid() && id in subscribers
      modifies this`subscribers
      ensures Valid() && subscribers == old(subscribers) - {id}
    {
      subscribers := subscribers - {id};
    }

    /** Any interleaving of writers and readers, also with events after `close`. */
    method Run(schedule: seq<Action>)
      requires Valid()
      modifies this
      ensures Valid()
      ensures dropped + |history| == nextSeq == |log| && |history| <= 5000 && (dropped > 0 ==> |history| == 5000)
      ensures forall k :: k in readers ==> Served(log, end, readers[k])
    {
      for i := 0 to |schedule|
        invariant Valid()
      {
        match schedule[i]
        case Emitting(kind, data) => var _ := Emit(kind, data);
        case Closing => Close();
        case Subscribing => var _ := Subscribe();
        case Resuming(id) => if id in subscribers { var _ := Next(id); }
        case Leaving(id) => if id in subscribers { Disconnect(id); }
      }
    }

    /** Reading on after `close`, with nothing more emitted: everything owed is
        delivered, and the generator then ends exactly when `close` found it
        subscribed, or it is still in its backlog with an empty queue. */
    method Drain(id: nat) returns (ended: bool)
      requires Valid() && id in subscribers && closed
      modifies this`subscribers, this`readers
      ensures Valid() && id in old(readers) && id in readers && ended == (id !in subscribers)
      ensures readers[id].first == old(readers)[id].first && readers[id].closedOn == old(readers)[id].closedOn
      ensures IsComplete(log, end, readers[id])
      ensures ended <==> Returns(old(readers)[id], old(subscribers)[id])
    {
      ghost var returns' := Returns(readers[id], subscribers[id]);
      while true
        invariant Valid() && closed && id in subscribers && id in old(readers)
        invariant id in readers && readers[id].first == old(readers)[id].first
        invariant readers[id].closedOn == old(readers)[id].closedOn
        invariant Returns(readers[id], subscribers[id]) == returns'
        decreases Left(subscribers[id])
      {
        var d := Next(id);
        if !d.Yielded? {
          return d.Stopped?;
        }
      }
    }
  }

  /** A generator that will end by itself: the sentinel is on its queue, or it looks at
      `closed` before it comes to the queue. */
  ghost predicate Returns(r: Reader, s: Subscription) {
    r.closedOn || !OnQueue(s)
  }

  ghost predicate IsComplete(log: seq<Event>, end: Option<nat>, r: Reader) {
    HasAll(log, end, r.first, r.given, r.closedOn)
  }

  lemma ResumedFacts(log: seq<Event>, end: Option<nat>, s: Subscription, s': Subscription, r: Reader, d: Delivery)
    requires Follows(log, end, s, r) && Resumed(log, end, s, s', r.first, r.given, r.closedOn, d)
    ensures d.Yielded? ==> d.event.seqNo == r.first + |r.given| && Left(s') < Left(s)
    ensures d.Yielded? && end.Some? ==> OnQueue(s') == OnQueue(s)
    ensures !d.Yielded? ==> IsComplete(log, end, r)
    ensures d.Stopped? ==> end.Some? && Returns(r, s)
    ensures d.Blocked? && end.Some? ==> !Returns(r, s)
  {
  }

  ghost function AfterDelivery(r: Reader, d: Delivery): Reader {
    match d
    case Yielded(ev) => r.(given := r.given + [ev])
    case Blocked => r
    case Stopped => r.(stopped := true)
  }

  lemma ServedStays(log: seq<Event>, ev: Event, end: Option<nat>, r: Reader)
    requires Served(log, end, r)
    ensures Served(log + [ev], end, r)
  {
  }

  lemma NewSubscriber(log: seq<Event>, end: Option<nat>, history: seq<Event>, dropped: nat, nextSeq: nat)
    requires Retained(log, history, dropped, nextSeq) && EndOk(log, end)
    ensures Follows(log, end, Subscription(history, 0, false, [], -1), Reader(dropped, [], false, false))
    ensures Served(log, end, Reader(dropped, [], false, false))
  {
    assert log[|log|..] == [];
  }

  lemma ResumedIsServed(log: seq<Event>, end: Option<nat>, s: Subscription, s': Subscription, r: Reader, d: Delivery)
    requires Follows(log, end, s, r) && Served(log, end, r)
    requires Resumed(log, end, s, s', r.first, r.given, r.closedOn, d)
    ensures Served(log, end, AfterDelivery(r, d))
    ensures !d.Stopped? ==> Follows(log, end, s', AfterDelivery(r, d))
  {
  }

  lemma OneRetained(log: seq<Event>, history: seq<Event>, dropped: nat, nextSeq: nat)
    requires Retained(log, history, dropped, nextSeq) && |log| == 1
    ensures dropped == 0
  {
  }

  lemma OwedAll(log: seq<Event>, end: Option<nat>, r: Reader)
    requires IsComplete(log, end, r) && !r.closedOn && r.first == 0
    ensures r.given == log
  {
  }

  /** A reader that comes after `close` and has been given the one event there is. */
  method LateReader() returns (s: EventStream, id: nat)
    ensures fresh(s) && s.Valid() && s.closed && "late" in s.known && |s.log| == 1
    ensures id in s.subscribers && id in s.readers && s.readers[id].first == 0 && !s.readers[id].closedOn
  {
    hide AllFollow, AllServed, Numbered, Tracks, PutAll;
    s := new EventStream({"first", "late"});
    var ok := s.Emit("first", "");
    OneRetained(s.log, s.history, s.dropped, s.nextSeq);
    hide Retained;
    s.Close();
    id := s.Subscribe();
    var d := s.Next(id);
    if !d.Yielded? {
      OwedAll(s.log, s.end, s.readers[id]);
    }
  }

  /** An event after `close`, while a late reader is still in its backlog: the reader is
      given everything and then waits for good. */
  method LateReaderCanWait() returns (s: EventStream, id: nat)
    ensures s.Valid() && s.closed && id in s.subscribers && id in s.readers
    ensures |s.log| == 2 && s.readers[id].given == s.log
  {
    hide AllFollow, AllServed, Numbered, Tracks, Retained, HasAll;
    s, id := LateReader();
    var ok := s.Emit("late", "");
    assert s.subscribers[id].queue != [];
    var ended := s.Drain(id);
    OwedAll(s.log, s.end, s.readers[id]);
  }
}
