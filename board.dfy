/**
 * The serial logger of the board (src/phases/board.rs): `serial_log` pushes a
 * message into the 8-slot SERIAL_CHANNEL without blocking, and
 * `serial_logger_task` drains it over USB, framing each message as its bytes
 * followed by CR LF and writing a heartbeat when nothing arrives for 5 s.
 */
module Board {
  import opened Wrappers
  import opened Consts

  /** The capacity, in bytes, of a queued message (`heapless::String<256>`). */
  const MESSAGE_CAPACITY: nat := 256

  /** The number of slots of SERIAL_CHANNEL. */
  const QUEUE_CAPACITY: nat := 8

  /** The packet buffer: a message of at most 256 bytes and CR LF. */
  const PACKET_BUFFER: nat := 258

  const CR: byte := 13
  const LF: byte := 10

  /** What is written when no message arrives within 5 s: "1\r\n". */
  const HEARTBEAT: seq<byte> := [49, CR, LF]

  /** A message the channel can hold. */
  type LogString = s: seq<byte> | |s| <= MESSAGE_CAPACITY

  /** Whether a message is queued by `serial_log`: it fits a slot and a slot is free. */
  predicate Fits(queue: seq<LogString>, msg: seq<byte>)
  {
    |msg| <= MESSAGE_CAPACITY && |queue| < QUEUE_CAPACITY
  }

  /** The queue after `serial_log(msg)`: the message is appended when it fits, else dropped. */
  function Logged(queue: seq<LogString>, msg: seq<byte>): seq<LogString>
  {
    if Fits(queue, msg) then queue + [msg] else queue
  }

  /** SERIAL_CHANNEL: a bounded FIFO of messages. */
  class SerialChannel {
    var queue: seq<LogString>

    predicate Valid()
      reads this
    {
      |queue| <= QUEUE_CAPACITY
    }

    constructor()
      ensures Valid() && queue == []
    {
      queue := [];
    }

    /** `try_send`: appends the message if a slot is free, and reports whether it did. */
    method TrySend(msg: LogString) returns (ok: bool)
      requires Valid()
      modifies this
      ensures Valid()
      ensures ok <==> |old(queue)| < QUEUE_CAPACITY
      ensures queue == if ok then old(queue) + [msg] else old(queue)
    {
      if |queue| < QUEUE_CAPACITY {
        queue := queue + [msg];
        ok := true;
      } else {
        ok := false;
      }
    }

    /** `receive` under the 5 s timeout: the oldest message, or None when the channel stays empty. */
    method ReceiveWithTimeout() returns (msg: Option<LogString>)
      requires Valid()
      modifies this
      ensures Valid()
      ensures msg.None? <==> old(queue) == []
      ensures msg.Some? ==> msg.value == old(queue)[0] && queue == old(queue)[1..]
      ensures msg.None? ==> queue == old(queue)
    {
      if queue == [] {
        msg := None;
      } else {
        msg := Some(queue[0]);
        queue := queue[1..];
      }
    }
  }

  /** `serial_log`: never blocks; a message longer than 256 bytes or one that finds the channel full is dropped. */
  method SerialLog(channel: SerialChannel, msg: seq<byte>)
    requires channel.Valid()
    modifies channel
    ensures channel.Valid()
    ensures channel.queue == Logged(old(channel.queue), msg)
  {
    if |msg| <= MESSAGE_CAPACITY {
      var sent := channel.TrySend(msg);
    }
  }

  /** A message's packet: its first min(len, 256) bytes, then CR LF. */
  function Packet(msg: seq<byte>): seq<byte>
  {
    var len := if |msg| < MESSAGE_CAPACITY then |msg| else MESSAGE_CAPACITY;
    msg[..len] + [CR, LF]
  }

  /** The message a receiver reads out of a packet: all but the trailing CR LF. */
  function Unframe(packet: seq<byte>): seq<byte>
    requires |packet| >= 2
  {
    packet[..|packet| - 2]
  }

  /** Frames a message in the 258-byte buffer, every store in bounds. */
  method FramePacket(msg: seq<byte>) returns (packet: seq<byte>)
    ensures packet == Packet(msg)
  {
    var buffer := new byte[PACKET_BUFFER](_ => 0);
    var len := if |msg| < MESSAGE_CAPACITY then |msg| else MESSAGE_CAPACITY;
    for k := 0 to len
      invariant forall j | 0 <= j < k :: buffer[j] == msg[j]
    {
      buffer[k] := msg[k];
    }
    buffer[len] := CR;
    buffer[len + 1] := LF;
    packet := buffer[..len + 2];
  }

  /** The outcome of `write_packet`. */
  datatype WriteResult = Written | BufferOverflow | Disabled

  /** The USB calls of the logger. */
  datatype UsbEvent = WaitConnection | WritePacket(data: seq<byte>, result: WriteResult)

  /**
   * One step of the logging system: another task calls `serial_log`, or the
   * logger's next wait for a message ends (with a message, or with the 5 s
   * timeout when the channel is empty) and its write has the given result.
   */
  datatype LogStep = Produce(msg: seq<byte>) | Serve(result: WriteResult)

  /**
   * The logging system's state: the channel, whether the logger is inside
   * its inner loop (a host is connected), the USB calls so far, and the
   * histories of messages queued and messages taken out of the channel.
   */
  datatype LoggerState = LoggerState(queue: seq<LogString>, connected: bool, usb: seq<UsbEvent>,
                                     accepted: seq<LogString>, delivered: seq<LogString>)

  /** The state before any step, over a channel holding `queue`. */
  function Start(queue: seq<LogString>): LoggerState
  {
    LoggerState(queue, false, [], queue, [])
  }

  /** The effect of one step. A disconnected logger first waits for a connection; Disabled sends it back to waiting. */
  function Step(st: LoggerState, step: LogStep): LoggerState
  {
    match step
    case Produce(msg) =>
      if Fits(st.queue, msg) then st.(queue := st.queue + [msg], accepted := st.accepted + [msg]) else st
    case Serve(result) =>
      var wait := if st.connected then [] else [WaitConnection];
      if st.queue == [] then
        st.(connected := result != Disabled, usb := st.usb + wait + [WritePacket(HEARTBEAT, result)])
      else
        st.(queue := st.queue[1..], connected := result != Disabled,
            usb := st.usb + wait + [WritePacket(Packet(st.queue[0]), result)],
            delivered := st.delivered + [st.queue[0]])
  }

  /** The state after a run of steps. */
  function Run(st: LoggerState, steps: seq<LogStep>): LoggerState
  {
    if steps == [] then st else Step(Run(st, steps[..|steps| - 1]), steps[|steps| - 1])
  }

  /**
   * The logger task together with the tasks that log: the channel ends as
   * the run leaves it, and the USB calls are the run's.
   */
  method SerialLoggerTask(channel: SerialChannel, steps: seq<LogStep>) returns (usb: seq<UsbEvent>)
    requires channel.Valid()
    modifies channel
    ensures channel.Valid()
    ensures channel.queue == Run(Start(old(channel.queue)), steps).queue
    ensures usb == Run(Start(old(channel.queue)), steps).usb
  {
    ghost var start := Start(channel.queue);
    var connected := false;
    usb := [];
    for i := 0 to |steps|
      invariant channel.Valid()
      invariant channel.queue == Run(start, steps[..i]).queue
      invariant usb == Run(start, steps[..i]).usb
      invariant connected == Run(start, steps[..i]).connected
    {
      assert steps[..i + 1][..i] == steps[..i];
      match steps[i]
      case Produce(msg) =>
        SerialLog(channel, msg);
      case Serve(result) =>
        if !connected {
          usb := usb + [WaitConnection];
          connected := true;
        }
        var received := channel.ReceiveWithTimeout();
        var packet;
        if received.Some? {
          packet := FramePacket(received.value);
        } else {
          packet := HEARTBEAT;
        }
        usb := usb + [WritePacket(packet, result)];
        if result == Disabled {
          connected := false;
        }
    }
    assert steps[..|steps|] == steps;
  }

  /** `serial_log` appends exactly when the message fits and a slot is free, and otherwise leaves the queue alone. */
  lemma LoggedAppendsIffFits(queue: seq<LogString>, msg: seq<byte>)
    ensures Logged(queue, msg) == queue + [msg] <==> Fits(queue, msg)
    ensures !Fits(queue, msg) ==> Logged(queue, msg) == queue
    ensures |queue| <= QUEUE_CAPACITY ==> |Logged(queue, msg)| <= QUEUE_CAPACITY
  {
    if Logged(queue, msg) == queue + [msg] {
      assert |Logged(queue, msg)| == |queue| + 1;
    }
  }

  /** The messages of a list that a slot can hold, in order. */
  function Short(msgs: seq<seq<byte>>): seq<LogString>
  {
    if msgs == [] then []
    else if |msgs[0]| <= MESSAGE_CAPACITY then [msgs[0]] + Short(msgs[1..])
    else Short(msgs[1..])
  }

  /** The queue after logging each of `msgs` in turn with nothing received meanwhile. */
  function LogAll(queue: seq<LogString>, msgs: seq<seq<byte>>): seq<LogString>
    decreases |msgs|
  {
    if msgs == [] then queue else LogAll(Logged(queue, msgs[0]), msgs[1..])
  }

  /**
   * Logging a burst while nothing is received: the short messages are
   * queued in order until the eight slots are full, and everything else is
   * dropped.
   */
  lemma {:induction false} LogAllKeepsFirstShortMessages(queue: seq<LogString>, msgs: seq<seq<byte>>)
    requires |queue| <= QUEUE_CAPACITY
    ensures var room := QUEUE_CAPACITY - |queue|;
      LogAll(queue, msgs) == queue + Short(msgs)[..if |Short(msgs)| < room then |Short(msgs)| else room]
    decreases |msgs|
  {
    if msgs != [] {
      var rest := msgs[1..];
      LogAllKeepsFirstShortMessages(Logged(queue, msgs[0]), rest);
      var room := QUEUE_CAPACITY - |queue|;
      if |msgs[0]| <= MESSAGE_CAPACITY {
        assert Short(msgs) == [msgs[0]] + Short(rest);
        if room > 0 {
          var n := if |Short(rest)| < room - 1 then |Short(rest)| else room - 1;
          assert LogAll(queue, msgs) == queue + [msgs[0]] + Short(rest)[..n];
          assert [msgs[0]] + Short(rest)[..n] == Short(msgs)[..n + 1];
        }
      }
    }
  }

  /**
   * A message of at most 256 bytes is framed as itself and CR LF, and read
   * back unchanged; a longer one is cut to its first 256 bytes. No packet
   * exceeds the 258-byte buffer.
   */
  lemma PacketFraming(msg: seq<byte>)
    ensures |Packet(msg)| <= PACKET_BUFFER
    ensures Packet(msg)[|Packet(msg)| - 2..] == [CR, LF]
    ensures |msg| <= MESSAGE_CAPACITY ==> |Packet(msg)| == |msg| + 2 && Unframe(Packet(msg)) == msg
    ensures |msg| > MESSAGE_CAPACITY ==> Unframe(Packet(msg)) == msg[..MESSAGE_CAPACITY]
  {
    var len := if |msg| < MESSAGE_CAPACITY then |msg| else MESSAGE_CAPACITY;
    assert Packet(msg)[..len] == msg[..len];
  }

  /** The history of the channel is a FIFO: what was queued is what was taken out followed by what is still queued. */
  lemma {:induction false} RunIsFifo(st: LoggerState, steps: seq<LogStep>)
    requires st.accepted == st.delivered + st.queue
    ensures Run(st, steps).accepted == Run(st, steps).delivered + Run(st, steps).queue
    decreases |steps|
  {
    if steps != [] {
      var prev := Run(st, steps[..|steps| - 1]);
      RunIsFifo(st, steps[..|steps| - 1]);
      StepIsFifo(prev, steps[|steps| - 1]);
    }
  }

  /** One step keeps the FIFO relation between what was queued, taken out and still queued. */
  lemma StepIsFifo(st: LoggerState, step: LogStep)
    requires st.accepted == st.delivered + st.queue
    ensures Step(st, step).accepted == Step(st, step).delivered + Step(st, step).queue
  {
    if step.Serve? && st.queue != [] {
      assert st.queue == [st.queue[0]] + st.queue[1..];
    }
  }

  /**
   * Every write is a heartbeat or the packet of a message taken out of the
   * channel, and fits the 258-byte buffer.
   */
  lemma {:induction false} RunWritesOnlyPackets(st: LoggerState, steps: seq<LogStep>)
    requires forall e | e in st.usb && e.WritePacket? :: e.data == HEARTBEAT || exists m | m in st.delivered :: e.data == Packet(m)
    ensures forall e | e in Run(st, steps).usb && e.WritePacket? ::
      e.data == HEARTBEAT || exists m | m in Run(st, steps).delivered :: e.data == Packet(m)
    ensures forall e | e in Run(st, steps).usb && e.WritePacket? && e.data != HEARTBEAT :: |e.data| <= PACKET_BUFFER
    decreases |steps|
  {
    if steps != [] {
      var prev := Run(st, steps[..|steps| - 1]);
      RunWritesOnlyPackets(st, steps[..|steps| - 1]);
      var next := Run(st, steps);
      forall e | e in next.usb && e.WritePacket?
        ensures e.data == HEARTBEAT || exists m | m in next.delivered :: e.data == Packet(m)
      {
        if e in prev.usb {
          assert prev.delivered <= next.delivered;
        } else if prev.queue != [] && e.data != HEARTBEAT {
          assert e.data == Packet(prev.queue[0]) && prev.queue[0] in next.delivered;
        }
      }
      forall e | e in next.usb && e.WritePacket? && e.data != HEARTBEAT
        ensures |e.data| <= PACKET_BUFFER
      {
        var m :| m in next.delivered && e.data == Packet(m);
        PacketFraming(m);
      }
    }
  }

  /**
   * The logger is in its inner loop exactly when its last write did not
   * report Disabled: BufferOverflow and success keep it writing, Disabled
   * sends it back to wait for a connection before the next write.
   */
  lemma {:induction false} RunTracksConnection(queue: seq<LogString>, steps: seq<LogStep>)
    ensures var st := Run(Start(queue), steps);
      st.connected <==> |st.usb| > 0 && st.usb[|st.usb| - 1].WritePacket? && st.usb[|st.usb| - 1].result != Disabled
    decreases |steps|
  {
    if steps != [] {
      RunTracksConnection(queue, steps[..|steps| - 1]);
    }
  }

  /** A heartbeat is written only when the channel is empty, and a message is never skipped for one. */
  lemma HeartbeatOnlyWhenEmpty(st: LoggerState, result: WriteResult)
    ensures var next := Step(st, Serve(result));
      next.usb[|next.usb| - 1].data == HEARTBEAT <==> st.queue == [] || Packet(st.queue[0]) == HEARTBEAT
    ensures st.queue != [] ==> Step(st, Serve(result)).delivered == st.delivered + [st.queue[0]]
    ensures st.queue != [] ==> var next := Step(st, Serve(result));
      next.usb[|next.usb| - 1] == WritePacket(Packet(st.queue[0]), result)
  {
  }

  /** The packets written to USB that are not the heartbeat, in order. */
  function MessageWrites(usb: seq<UsbEvent>): seq<seq<byte>>
  {
    if usb == [] then []
    else
      var last := usb[|usb| - 1];
      MessageWrites(usb[..|usb| - 1]) + if last.WritePacket? && last.data != HEARTBEAT then [last.data] else []
  }

  /** The packets of `msgs`, in order, leaving out any that reads as the heartbeat. */
  function PacketsOf(msgs: seq<LogString>): seq<seq<byte>>
  {
    if msgs == [] then []
    else
      var last := Packet(msgs[|msgs| - 1]);
      PacketsOf(msgs[..|msgs| - 1]) + if last != HEARTBEAT then [last] else []
  }

  lemma {:induction false} MessageWritesAppend(a: seq<UsbEvent>, b: seq<UsbEvent>)
    ensures MessageWrites(a + b) == MessageWrites(a) + MessageWrites(b)
    decreases |b|
  {
    if b == [] {
      assert a + b == a;
    } else {
      assert (a + b)[..|a + b| - 1] == a + b[..|b| - 1];
      MessageWritesAppend(a, b[..|b| - 1]);
    }
  }

  lemma {:induction false} PacketsOfAppend(a: seq<LogString>, b: seq<LogString>)
    ensures PacketsOf(a + b) == PacketsOf(a) + PacketsOf(b)
    decreases |b|
  {
    if b == [] {
      assert a + b == a;
    } else {
      assert (a + b)[..|a + b| - 1] == a + b[..|b| - 1];
      PacketsOfAppend(a, b[..|b| - 1]);
    }
  }

  /** One step writes the packet of the message it takes out, if any, and no other message packet. */
  lemma StepWritesTakenMessage(st: LoggerState, step: LogStep)
    ensures st.delivered <= Step(st, step).delivered
    ensures var next := Step(st, step);
      MessageWrites(next.usb) == MessageWrites(st.usb) + PacketsOf(next.delivered[|st.delivered|..])
  {
    var next := Step(st, step);
    if step.Serve? {
      var wait := if st.connected then [] else [WaitConnection];
      var written := if st.queue == [] then HEARTBEAT else Packet(st.queue[0]);
      assert next.usb == st.usb + (wait + [WritePacket(written, step.result)]);
      MessageWritesAppend(st.usb, wait + [WritePacket(written, step.result)]);
      MessageWritesAppend(wait, [WritePacket(written, step.result)]);
      assert MessageWrites([WritePacket(written, step.result)]) == MessageWrites([]) + (if written != HEARTBEAT then [written] else []);
      if st.queue != [] {
        assert next.delivered[|st.delivered|..] == [st.queue[0]];
        assert PacketsOf([st.queue[0]]) == PacketsOf([]) + (if written != HEARTBEAT then [written] else []);
      } else {
        assert next.delivered[|st.delivered|..] == [];
      }
    } else {
      assert next.delivered[|st.delivered|..] == [];
    }
  }

  /**
   * Every message taken out of the channel is written as its packet, in the
   * order taken, and every written packet other than the heartbeat is such a
   * message (a message that frames to "1\r\n" is indistinguishable from the
   * heartbeat and is left out on both sides).
   */
  lemma {:induction false} RunWritesTakenMessagesInOrder(st: LoggerState, steps: seq<LogStep>)
    ensures st.delivered <= Run(st, steps).delivered
    ensures MessageWrites(Run(st, steps).usb) == MessageWrites(st.usb) + PacketsOf(Run(st, steps).delivered[|st.delivered|..])
    decreases |steps|
  {
    if steps != [] {
      var prev := Run(st, steps[..|steps| - 1]);
      var next := Run(st, steps);
      assert next == Step(prev, steps[|steps| - 1]);
      RunWritesTakenMessagesInOrder(st, steps[..|steps| - 1]);
      StepWritesTakenMessage(prev, steps[|steps| - 1]);
      SliceSplit(st.delivered, prev.delivered, next.delivered);
      var taken, more := prev.delivered[|st.delivered|..], next.delivered[|prev.delivered|..];
      PacketsOfAppend(taken, more);
      Regroup(MessageWrites(st.usb), MessageWrites(prev.usb), MessageWrites(next.usb), PacketsOf(taken), PacketsOf(more));
    }
  }

  /** Writes matching two stretches of taken messages, one after the other. */
  lemma Regroup(w0: seq<seq<byte>>, w1: seq<seq<byte>>, w2: seq<seq<byte>>, a: seq<seq<byte>>, b: seq<seq<byte>>)
    requires w1 == w0 + a && w2 == w1 + b
    ensures w2 == w0 + (a + b)
  {
  }

  /** What a sequence adds to a prefix of a prefix of it is what the middle adds, then what the end adds. */
  lemma SliceSplit(d0: seq<LogString>, d1: seq<LogString>, d2: seq<LogString>)
    requires d0 <= d1 <= d2
    ensures d0 <= d2 && d2[|d0|..] == d1[|d0|..] + d2[|d1|..]
  {
  }
}
