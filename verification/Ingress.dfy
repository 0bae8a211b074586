/** One microphone feeding one upstream socket at real time: a receiver and a pacer
    sharing a buffer.  Each method is what one task does between two awaits; any
    order of calls is an interleaving. */
module Ingress {
  import opened Common

  type Byte = b: int | 0 <= b < 256

  const BYTES_PER_MS := 32
  const CHUNK_BYTES := 3200        // 100 ms
  const MIN_FRAME_BYTES := 1600    // 50 ms
  const MAX_AHEAD_BYTES := 64000   // 2 s

  datatype Code = Terminated | BadMessage | BadFrame | TooFast | ClientGone | SessionEnded | UpstreamFailed

  datatype Receiver = Receiving | Ended(code: Code)

  /** Where the pacer is: waiting for `ready`; holding a frame until its time; inside
      `send_audio`; or done.  `flushing` is the value of `_final` its drain captured,
      `tail` says the frame is the short last one. */
  datatype Pacer =
    | Waiting
    | Holding(frame: seq<Byte>, sendAt: real, flushing: bool, tail: bool)
    | Sending(frame: seq<Byte>, sendAt: real, startedAt: real, flushing: bool, tail: bool)
    | Finished(code: Code, flushed: bool)

  /** One completed send: when it was allowed, when it began, what it carried. */
  datatype Send = Send(scheduled: real, startedAt: real, frame: seq<Byte>) {
    ghost function Bytes(): nat { |frame| }
  }

  /** The frames sent, end to end. */
  ghost function Frames(sends: seq<Send>): seq<Byte> {
    if |sends| == 0 then [] else Frames(sends[..|sends| - 1]) + sends[|sends| - 1].frame
  }

  function Duration(bytes: nat): real {
    bytes as real / BYTES_PER_MS as real / 1000.0
  }

  function Max(a: real, b: real): real {
    if a < b then b else a
  }

  // ------------------------------------------------- the schedule

  /** Frames never start before their schedule, consecutive schedules are at least the
      earlier frame's audio apart, and only the last frame may be short. */
  ghost predicate Paced(sends: seq<Send>) {
    && (forall k :: 0 <= k < |sends| ==> sends[k].startedAt >= sends[k].scheduled)
    && (forall k :: 0 <= k < |sends| - 1 ==>
          sends[k + 1].scheduled >= sends[k].scheduled + Duration(sends[k].Bytes()))
    && (forall k :: 0 <= k < |sends| ==> MIN_FRAME_BYTES <= sends[k].Bytes() <= CHUNK_BYTES)
    && (forall k :: 0 <= k < |sends| - 1 ==> sends[k].Bytes() == CHUNK_BYTES)
  }

  lemma FramesGrow(sends: seq<Send>, send: Send)
    ensures Frames(sends + [send]) == Frames(sends) + send.frame
  {
    assert (sends + [send])[..|sends|] == sends;
  }

  lemma PacedStep(sends: seq<Send>, send: Send)
    requires Paced(sends) && (sends != [] ==> sends[|sends| - 1].Bytes() == CHUNK_BYTES)
    requires sends != [] ==> send.scheduled >= sends[|sends| - 1].scheduled + Duration(CHUNK_BYTES)
    requires send.startedAt >= send.scheduled && MIN_FRAME_BYTES <= send.Bytes() <= CHUNK_BYTES
    ensures Paced(sends + [send])
  {
  }

  ghost function Audio(sends: seq<Send>, j: nat, k: nat): real
    requires j <= k <= |sends|
  {
    if j == k then 0.0 else Audio(sends, j, k - 1) + Duration(sends[k - 1].Bytes())
  }

  /** Upstream never gets audio faster than the clock: what lies between two frames
      fits into the gap between their schedules, and so into the gap from the first
      schedule to the later frame's actual start. */
  lemma {:induction false} NeverFasterThanRealTime(sends: seq<Send>, j: nat, k: nat)
    requires Paced(sends) && j <= k < |sends|
    ensures Audio(sends, j, k) <= sends[k].scheduled - sends[j].scheduled
    ensures Audio(sends, j, k) <= sends[k].startedAt - sends[j].scheduled
  {
    if j < k {
      NeverFasterThanRealTime(sends, j, k - 1);
    }
  }

  /** So upstream gets at most 32000 bytes a second: what was sent between two frames
      fits into the time from the first's schedule to the later one's start. */
  lemma {:induction false} AtMostRealTime(sends: seq<Send>, j: nat, k: nat)
    requires Paced(sends) && j <= k < |sends|
    ensures (3200 * (k - j)) as real <= 32000.0 * (sends[k].scheduled - sends[j].scheduled)
    ensures (3200 * (k - j)) as real <= 32000.0 * (sends[k].startedAt - sends[j].scheduled)
    ensures forall i :: j <= i < k ==> |sends[i].frame| == 3200
  {
    if j < k {
      AtMostRealTime(sends, j, k - 1);
    }
  }

  /** A frame goes out when the previous one's audio has elapsed, or at once if it has. */
  ghost predicate OnSchedule(sends: seq<Send>, now: real, sendAt: real) {
    if sends == [] then sendAt == now
    else
      var due := sends[|sends| - 1].scheduled + |sends[|sends| - 1].frame| as real / 32000.0;
      sendAt >= now && sendAt >= due && (sendAt == now || sendAt == due)
  }

  // ------------------------------------------------- the shared state

  class AudioIngress {
    var buf: seq<Byte>
    var bytesIn: nat
    var bytesOut: nat
    var ready: bool
    var final: bool
    var nextSendAt: Option<real>
    var receiver: Receiver
    var pacer: Pacer
    ghost var received: seq<Byte>
    ghost var forwarded: seq<Byte>
    ghost var sends: seq<Send>

    /** Nothing is lost or reordered between the two sockets, and what was forwarded is
        the frames sent, end to end. */
    ghost predicate Conserved()
      reads this
    {
      && received == forwarded + buf && forwarded == Frames(sends)
      && bytesIn == |received| && bytesOut == |forwarded| && bytesIn == bytesOut + |buf|
    }

    /** The frame in the pacer's hands is still at the front of the buffer. */
    ghost predicate FrameHeld(frame: seq<Byte>, sendAt: real, flushing: bool, tail: bool)
      reads this
    {
      && (flushing ==> final)
      && (if tail then flushing && frame == buf && MIN_FRAME_BYTES <= |buf| < CHUNK_BYTES
          else |frame| == CHUNK_BYTES <= |buf| && frame == buf[..CHUNK_BYTES])
      && (nextSendAt.Some? ==> sendAt >= nextSendAt.value)
    }

    ghost predicate PacerOk()
      reads this
    {
      match pacer
      case Waiting => !ready ==> (|buf| < CHUNK_BYTES && !final) || receiver == Ended(TooFast)
      case Holding(frame, sendAt, flushing, tail) => FrameHeld(frame, sendAt, flushing, tail)
      case Sending(frame, sendAt, startedAt, flushing, tail) =>
        FrameHeld(frame, sendAt, flushing, tail) && startedAt >= sendAt
      case Finished(code, flushed) => code == Terminated ==>
        final && |buf| < CHUNK_BYTES && (flushed ==> |buf| < MIN_FRAME_BYTES)
    }

    /** The control flags agree with the receiver and with the sends made. */
    ghost predicate Linked()
      reads this
    {
      && (final ==> receiver == Ended(Terminated))
      && (receiver != Ended(TooFast) ==> |buf| <= MAX_AHEAD_BYTES)
      && (nextSendAt == if sends == [] then None else
            Some(sends[|sends| - 1].scheduled + Duration(sends[|sends| - 1].Bytes())))
    }

    ghost predicate Valid()
      reads this
    {
      && Conserved() && PacerOk() && Paced(sends) && Linked()
      && (sends != [] && sends[|sends| - 1].Bytes() != CHUNK_BYTES ==> pacer.Finished?)
    }

    constructor ()
      ensures Valid() && received == [] && forwarded == [] && sends == [] && receiver == Receiving && pacer == Waiting
      ensures !ready && !final
    {
      buf, bytesIn, bytesOut, ready, final := [], 0, 0, false, false;
      nextSendAt, receiver, pacer := None, Receiving, Waiting;
      received, forwarded, sends := [], [], [];
    }

    // ---- frames in

    /** A binary frame: empty is ignored, odd is refused, too far ahead is refused
        after it was taken in. */
    method ReceiveBytes(data: seq<Byte>)
      requires Valid() && receiver == Receiving
      modifies this`buf, this`bytesIn, this`ready, this`receiver, this`received
      ensures Valid()
      ensures received == old(received) + if |data| % 2 == 0 then data else []
      ensures receiver == if |data| % 2 != 0 then Ended(BadFrame)
                          else if |old(buf)| + |data| > 64000 then Ended(TooFast) else Receiving
    {
      hide Paced, Frames;
      if |data| == 0 {
        return;
      }
      if |data| % 2 != 0 {
        receiver := Ended(BadFrame);
        return;
      }
      Accept(data);
    }

    method Accept(data: seq<Byte>)
      requires Valid() && receiver == Receiving && |data| > 0
      modifies this`buf, this`bytesIn, this`ready, this`receiver, this`received
      ensures Valid() && received == old(received) + data && buf == old(buf) + data
      ensures receiver == if |buf| > MAX_AHEAD_BYTES then Ended(TooFast) else Receiving
    {
      hide Paced, Frames;
      assert |buf| >= CHUNK_BYTES ==> (buf + data)[..CHUNK_BYTES] == buf[..CHUNK_BYTES];
      assert received + data == forwarded + (buf + data);
      bytesIn := bytesIn + |data|;
      buf := buf + data;
      received := received + data;
      if |buf| > MAX_AHEAD_BYTES {
        receiver := Ended(TooFast);
      } else {
        ready := true;
      }
    }

    /** A text frame: Terminate asks for the drain, KeepAlive is dropped, anything else
        ends the socket. */
    method ReceiveText(kind: Option<string>)
      requires Valid() && receiver == Receiving
      modifies this`final, this`ready, this`receiver
      ensures Valid() && final == (old(final) || kind == Some("Terminate"))
      ensures receiver == if kind == Some("Terminate") then Ended(Terminated)
                          else if kind == Some("KeepAlive") then Receiving else Ended(BadMessage)
    {
      hide Paced, Frames;
      if kind == Some("Terminate") {
        final := true;
        ready := true;
        receiver := Ended(Terminated);
      } else if kind != Some("KeepAlive") {
        receiver := Ended(BadMessage);
      }
    }

    method ReceiveDisconnect()
      requires Valid() && receiver == Receiving
      modifies this`receiver
      ensures Valid() && receiver == Ended(ClientGone)
    {
      hide Paced, Frames;
      receiver := Ended(ClientGone);
    }

    // ---- frames out

    /** `max(previous + its duration, now)`. */
    function ScheduleAt(now: real): real
      reads this
    {
      if nextSendAt.None? then now else Max(nextSendAt.value, now)
    }

    /** Where the pacer goes from the head of its drain loop. */
    function DrainHead(flushing: bool, now: real): Pacer
      reads this
    {
      if |buf| >= CHUNK_BYTES then Holding(buf[..CHUNK_BYTES], ScheduleAt(now), flushing, false)
      else if flushing && |buf| >= MIN_FRAME_BYTES then Holding(buf, ScheduleAt(now), flushing, true)
      else if final then Finished(Terminated, flushing)
      else Waiting
    }

    /** The drain loop from its head to its next await, and `_pace` around it. */
    method DrainFrom(flushing: bool, now: real)
      requires Conserved() && Paced(sends) && !pacer.Finished? && (flushing ==> final) && Linked()
      requires sends == [] || sends[|sends| - 1].Bytes() == CHUNK_BYTES || (flushing && buf == [])
      modifies this`pacer, this`ready
      ensures Valid() && pacer == DrainHead(flushing, now)
      ensures pacer.Holding? ==> OnSchedule(sends, now, pacer.sendAt)
      ensures ready == (old(ready) && pacer != Waiting)
    {
      hide Paced, Frames;
      if |buf| >= CHUNK_BYTES {
        pacer := Holding(buf[..CHUNK_BYTES], ScheduleAt(now), flushing, false);
        return;
      }
      if flushing && |buf| >= MIN_FRAME_BYTES {
        pacer := Holding(buf, ScheduleAt(now), flushing, true);
        return;
      }
      if final {
        pacer := Finished(Terminated, flushing);
        return;
      }
      if |buf| < CHUNK_BYTES {
        ready := false;
      }
      pacer := Waiting;
    }

    /** `ready` is set: start a drain with the current value of `_final`. */
    method Wake(now: real)
      requires Valid() && pacer == Waiting && ready
      modifies this`pacer, this`ready
      ensures Valid() && pacer == DrainHead(final, now)
      ensures pacer.Holding? ==> OnSchedule(sends, now, pacer.sendAt)
    {
      hide Paced, Frames;
      DrainFrom(final, now);
    }

    /** The paced sleep ends, or the timer fired early and it sleeps again. */
    method Tick(now: real)
      requires Valid() && pacer.Holding?
      modifies this`pacer
      ensures Valid()
      ensures pacer == if now < old(pacer).sendAt then old(pacer) else
        Sending(old(pacer).frame, old(pacer).sendAt, now, old(pacer).flushing, old(pacer).tail)
    {
      hide Paced, Frames;
      if now >= pacer.sendAt {
        pacer := Sending(pacer.frame, pacer.sendAt, now, pacer.flushing, pacer.tail);
      }
    }

    /** `send_audio` returns: account for the frame, delete it, go on draining. */
    method Sent(now: real)
      requires Valid() && pacer.Sending?
      modifies this`buf, this`bytesOut, this`nextSendAt, this`pacer, this`ready, this`forwarded, this`sends
      ensures Valid()
      ensures forwarded == old(forwarded) + old(pacer).frame && buf == old(buf)[|old(pacer).frame|..]
      ensures sends == old(sends) + [Send(old(pacer).sendAt, old(pacer).startedAt, old(pacer).frame)]
      ensures pacer == if old(pacer).tail then Finished(Terminated, true) else DrainHead(old(pacer).flushing, now)
      ensures pacer.Holding? ==> OnSchedule(sends, now, pacer.sendAt)
    {
      hide Paced, Frames;
      var flushing := pacer.flushing;
      Account(pacer.frame, pacer.sendAt, pacer.startedAt, pacer.tail);
      DrainFrom(flushing, now);
    }

    /** Counts a sent frame and deletes it from the front of the buffer. */
    method Account(frame: seq<Byte>, sendAt: real, startedAt: real, tail: bool)
      requires Conserved() && Paced(sends) && Linked() && startedAt >= sendAt
      requires |frame| <= |buf| && frame == buf[..|frame|]
      requires if tail then frame == buf && MIN_FRAME_BYTES <= |frame| < CHUNK_BYTES else |frame| == CHUNK_BYTES
      requires nextSendAt.Some? ==> sendAt >= nextSendAt.value
      requires sends != [] ==> sends[|sends| - 1].Bytes() == CHUNK_BYTES
      modifies this`buf, this`bytesOut, this`nextSendAt, this`forwarded, this`sends
      ensures Conserved() && Paced(sends) && Linked()
      ensures forwarded == old(forwarded) + frame && buf == old(buf)[|frame|..]
      ensures sends == old(sends) + [Send(sendAt, startedAt, frame)]
    {
      hide Paced, Frames;
      PacedStep(sends, Send(sendAt, startedAt, frame));
      assert buf == frame + buf[|frame|..];
      bytesOut := bytesOut + |frame|;
      nextSendAt := Some(sendAt + Duration(|frame|));
      forwarded := forwarded + frame;
      FramesGrow(sends, Send(sendAt, startedAt, frame));
      sends := sends + [Send(sendAt, startedAt, frame)];
      if tail {
        buf := [];
      } else {
        buf := buf[CHUNK_BYTES..];
      }
    }

    /** `send_audio` raises: the frame stays in the buffer. */
    method SendFails(sourceClosed: bool)
      requires Valid() && pacer.Sending?
      modifies this`pacer
      ensures Valid() && pacer == Finished(if sourceClosed then SessionEnded else UpstreamFailed, false)
    {
      hide Paced, Frames;
      pacer := Finished(if sourceClosed then SessionEnded else UpstreamFailed, false);
    }

    /** The way out clears the only place audio rests. */
    method Teardown()
      modifies this`buf
      ensures buf == []
    {
      buf := [];
    }

    // ---- any interleaving

    /** One step of either task, if it is due. Once Terminate was received it keeps the
        promise about the tail. */
    method Step(a: Action, ghost waiting: bool, ghost tail: nat)
      requires Valid()
      modifies this
      ensures Valid() && old(received) <= received && old(forwarded) <= forwarded
      ensures old(Ending(waiting, tail)) ==> Ending(waiting, tail) && received == old(received)
    {
      hide Paced, Frames;
      match a
      case Bytes(data) => if receiver == Receiving { ReceiveBytes(data); }
      case Text(kind) => if receiver == Receiving { ReceiveText(kind); }
      case Gone => if receiver == Receiving { ReceiveDisconnect(); }
      case Woken(now) => if pacer == Waiting && ready { Wake(now); }
      case Timer(now) => if pacer.Holding? { Tick(now); }
      case SendReturned(now) => if pacer.Sending? { Sent(now); }
      case SendRaised(closed) => if pacer.Sending? { SendFails(closed); }
    }

    /** Every order of receiver steps, pacer steps and clock readings. */
    method Run(schedule: seq<Action>)
      requires Valid()
      modifies this
      ensures Valid()
      ensures forwarded <= received && forwarded == Frames(sends) && bytesIn == bytesOut + |buf|
      ensures Paced(sends)
      ensures pacer.Finished? && pacer.code == Terminated ==> |received| - |forwarded| < 3200
    {
      for i := 0 to |schedule|
        invariant Valid()
      {
        Step(schedule[i], false, 0);
      }
    }

    /** `run`: the tasks in any order, then the way out. What rested in the buffer is
        gone, and after a clean end that is less than 100 ms. */
    method Serve(schedule: seq<Action>) returns (lost: nat)
      requires Valid()
      modifies this
      ensures buf == [] && bytesIn == bytesOut + lost
      ensures forwarded <= received && forwarded == Frames(sends) && |received| == |forwarded| + lost
      ensures Paced(sends)
      ensures pacer.Finished? && pacer.code == Terminated ==> lost < 3200
    {
      Run(schedule);
      lost := |buf|;
      Teardown();
    }

    // ---- what a Terminate leaves behind

    /** After Terminate: `waiting` says whether the pacer was then between drains, `tail`
        what full frames cannot carry. A drain that started before does not flush. */
    ghost predicate Ending(waiting: bool, tail: nat)
      reads this
    {
      && receiver == Ended(Terminated) && final && tail < CHUNK_BYTES
      && match pacer
         case Waiting => waiting && ready && |buf| % CHUNK_BYTES == tail
         case Holding(_, _, flushing, _) => flushing == waiting && |buf| % CHUNK_BYTES == tail
         case Sending(_, _, _, flushing, _) => flushing == waiting && |buf| % CHUNK_BYTES == tail
         case Finished(code, _) =>
           code == Terminated ==> (|buf| >= MIN_FRAME_BYTES <==> !waiting && tail >= MIN_FRAME_BYTES)
    }

    /** Whatever happens after a Terminate, a tail of sendable length is left unsent
        exactly when it arrived with a drain under way and the buffer then held at least
        50 ms beyond its last full frame. */
    method TerminateAndRun(schedule: seq<Action>)
      requires Valid() && receiver == Receiving && !pacer.Finished?
      modifies this
      ensures Valid() && received == old(received)
      ensures pacer.Finished? && pacer.code == Terminated ==>
        (|buf| >= 1600 <==> old(pacer) != Waiting && |old(buf)| % 3200 >= 1600)
    {
      ghost var waiting, tail := pacer == Waiting, |buf| % CHUNK_BYTES;
      ReceiveText(Some("Terminate"));
      for i := 0 to |schedule|
        invariant Valid() && Ending(waiting, tail) && received == old(received)
      {
        Step(schedule[i], waiting, tail);
      }
    }
  }

  datatype Action =
    | Bytes(data: seq<Byte>) | Text(kind: Option<string>) | Gone
    | Woken(now: real) | Timer(now: real) | SendReturned(now: real) | SendRaised(closed: bool)

  /** A tail of sendable length is dropped when Terminate arrives during a drain that
      had started without it: 60 ms are left unsent here. */
  method TailCanBeLost() returns (s: AudioIngress)
    ensures s.Valid() && s.pacer == Finished(Terminated, false) && |s.buf| == 1920
    ensures |s.buf| >= MIN_FRAME_BYTES
  {
    hide Paced, Frames;
    s := new AudioIngress();
    DrainUnderway(s);
    s.ReceiveText(Some("Terminate"));
    s.Sent(0.0);
  }

  /** A full frame is being sent and 60 ms more have arrived behind it. */
  method DrainUnderway(s: AudioIngress)
    requires s.Valid() && s.received == [] && s.forwarded == [] && s.sends == []
    requires s.receiver == Receiving && s.pacer == Waiting && !s.final
    modifies s
    ensures s.Valid() && s.receiver == Receiving && |s.buf| == CHUNK_BYTES + 1920 && s.sends == []
    ensures s.pacer == Sending(s.buf[..CHUNK_BYTES], 0.0, 0.0, false, false)
  {
    hide Paced, Frames;
    s.ReceiveBytes(seq(CHUNK_BYTES, _ => 0));
    s.Wake(0.0);
    s.Tick(0.0);
    s.ReceiveBytes(seq(1920, _ => 0));
  }
}
