/**
 * The earlier discovery beacon (src/phases/cast_node.rs): the same 130-byte
 * signal with hard-coded port and group, and GPIO 0 (the board LED) switched
 * on while each signal is sent. It has the same length-mismatched copy as
 * the later beacon.
 */
module CastNode {
  import opened Consts
  import opened Beacon

  /** The literals the code uses instead of the shared constants. */
  const BIND_PORT: nat := 5325
  const GROUP_OCTETS: seq<byte> := [224, 0, 0, 127]
  const GROUP_PORT: nat := 4265

  /** The GPIO of the wireless chip that drives the LED. */
  const LED_PIN: nat := 0

  /** The first `ticks` iterations of the loop: LED on, send, one second, LED off, one second. */
  function CastLoop(frame: seq<byte>, ticks: nat): seq<UdpEvent>
  {
    if ticks == 0 then []
    else
      CastLoop(frame, ticks - 1) +
      [GpioSet(LED_PIN, true), SendTo(frame, FromOctets(GROUP_OCTETS), GROUP_PORT), Slept(1), GpioSet(LED_PIN, false), Slept(1)]
  }

  /** The calls of the beacon as written over `ticks` iterations: bind, then the copy, which panics unless the lengths agree. */
  function Announce(challenge: seq<byte>, ticks: nat): seq<UdpEvent>
  {
    [Bind(BIND_PORT)] +
    match Copied(seq(SIGNAL_LENGTH, _ => 0), challenge)
    case None => [Panic]
    case Some(signal) => CastLoop(signal, ticks)
  }

  /**
   * The beacon as written. The declared argument is `&[u8; 128]`; the model
   * accepts any length so that both outcomes of the copy can be stated.
   */
  method Invoke(challenge: seq<byte>, ticks: nat) returns (events: seq<UdpEvent>)
    ensures events == Announce(challenge, ticks)
  {
    events := [Bind(BIND_PORT)];
    var multicastAddr := FromOctets(GROUP_OCTETS);
    var availableSignal := new byte[SIGNAL_LENGTH](_ => 0);
    availableSignal[0] := 69;
    availableSignal[1] := 0;
    assert availableSignal[..] == SIGNAL_HEADER + seq(SIGNAL_LENGTH - 2, _ => 0);
    var ok := CopyFromSlice(availableSignal, challenge);
    if !ok {
      events := events + [Panic];
      return;
    }
    for t := 0 to ticks
      invariant events == [Bind(BIND_PORT)] + CastLoop(challenge, t)
    {
      events := events + [GpioSet(LED_PIN, true)];
      events := events + [SendTo(availableSignal[..], multicastAddr, GROUP_PORT)];
      events := events + [Slept(1)];
      events := events + [GpioSet(LED_PIN, false)];
      events := events + [Slept(1)];
    }
  }

  /** The beacon as evidently intended: the challenge is copied behind the header. */
  method IntendedInvoke(challenge: seq<byte>, ticks: nat) returns (events: seq<UdpEvent>)
    requires |challenge| == DECLARED_CHALLENGE_LENGTH
    ensures events == [Bind(BIND_PORT)] + CastLoop(BeaconFrame(challenge), ticks)
  {
    events := [Bind(BIND_PORT)];
    var multicastAddr := FromOctets(GROUP_OCTETS);
    var availableSignal := new byte[SIGNAL_LENGTH](_ => 0);
    availableSignal[0] := 69;
    availableSignal[1] := 0;
    for k := 0 to |challenge|
      invariant availableSignal[0] == 69 && availableSignal[1] == 0
      invariant forall j | 0 <= j < k :: availableSignal[2 + j] == challenge[j]
    {
      availableSignal[2 + k] := challenge[k];
    }
    assert availableSignal[..] == BeaconFrame(challenge);
    for t := 0 to ticks
      invariant events == [Bind(BIND_PORT)] + CastLoop(BeaconFrame(challenge), t)
    {
      events := events + [GpioSet(LED_PIN, true), SendTo(availableSignal[..], multicastAddr, GROUP_PORT), Slept(1), GpioSet(LED_PIN, false), Slept(1)];
    }
  }

  /** The hard-coded port and group are NODE_PORT and MULTICAST_IP:MULTICAST_PORT. */
  lemma LiteralsMatchSharedConstants()
    ensures BIND_PORT == NODE_PORT
    ensures FromOctets(GROUP_OCTETS) == MULTICAST_IP && Octets(MULTICAST_IP) == GROUP_OCTETS
    ensures GROUP_PORT == MULTICAST_PORT
  {
    MulticastAddressIs224_0_0_127();
  }

  /**
   * Each iteration switches the LED on, sends, waits a second, switches it
   * off and waits a second: the LED is on exactly while a signal goes out.
   */
  lemma {:induction false} CastLoopIsPeriodic(frame: seq<byte>, ticks: nat)
    ensures |CastLoop(frame, ticks)| == 5 * ticks
    ensures forall k | 0 <= k < ticks ::
      CastLoop(frame, ticks)[5 * k..5 * k + 5] ==
      [GpioSet(LED_PIN, true), SendTo(frame, MULTICAST_IP, MULTICAST_PORT), Slept(1), GpioSet(LED_PIN, false), Slept(1)]
  {
    LiteralsMatchSharedConstants();
    if ticks > 0 {
      CastLoopIsPeriodic(frame, ticks - 1);
      var prev := CastLoop(frame, ticks - 1);
      var step := [GpioSet(LED_PIN, true), SendTo(frame, MULTICAST_IP, MULTICAST_PORT), Slept(1), GpioSet(LED_PIN, false), Slept(1)];
      assert CastLoop(frame, ticks) == prev + step;
      forall k | 0 <= k < ticks
        ensures CastLoop(frame, ticks)[5 * k..5 * k + 5] == step
      {
        if k < ticks - 1 {
          assert CastLoop(frame, ticks)[5 * k..5 * k + 5] == prev[5 * k..5 * k + 5];
        } else {
          assert CastLoop(frame, ticks)[5 * k..5 * k + 5] == (prev + step)[|prev|..];
        }
      }
    }
  }

  /** With the declared 128-byte challenge the beacon binds and then panics: the LED is never switched and nothing is sent. */
  lemma DeclaredChallengePanics(challenge: seq<byte>, ticks: nat)
    requires |challenge| == DECLARED_CHALLENGE_LENGTH
    ensures Announce(challenge, ticks) == [Bind(NODE_PORT), Panic]
  {
  }

  /** Even when the lengths agree, every frame sent is the challenge itself, header bytes included. */
  lemma {:induction false} HeaderDoesNotSurviveCopy(challenge: seq<byte>, ticks: nat)
    requires |challenge| == SIGNAL_LENGTH
    ensures forall e | e in Announce(challenge, ticks) && e.SendTo? :: e.data == challenge
  {
    CastLoopSendsFrame(challenge, ticks);
    assert Announce(challenge, ticks) == [Bind(BIND_PORT)] + CastLoop(challenge, ticks);
  }

  /** The only frame the loop sends is the one it was given. */
  lemma {:induction false} CastLoopSendsFrame(frame: seq<byte>, ticks: nat)
    ensures forall e | e in CastLoop(frame, ticks) && e.SendTo? :: e.data == frame
  {
    if ticks > 0 {
      CastLoopSendsFrame(frame, ticks - 1);
    }
  }

  /** The intended beacon sends the header followed by the challenge, on every iteration. */
  lemma IntendedFramesCarryChallenge(challenge: seq<byte>, ticks: nat)
    requires |challenge| == DECLARED_CHALLENGE_LENGTH
    ensures forall e | e in CastLoop(BeaconFrame(challenge), ticks) && e.SendTo? ::
      |e.data| == SIGNAL_LENGTH && e.data[0..2] == SIGNAL_HEADER && ChallengeOf(e.data) == challenge
  {
    CastLoopSendsFrame(BeaconFrame(challenge), ticks);
    BeaconFrameRoundTrip(challenge, BeaconFrame(challenge));
  }
}
