/**
 * The discovery beacon (src/phases/poke_server.rs): bind a UDP socket to
 * NODE_PORT, build a 130-byte signal and multicast it every two seconds,
 * forever, ignoring send errors. As written, the 128-byte challenge is copied
 * over the whole 130-byte buffer, so the copy panics before anything is sent.
 */
module PokeServer {
  import opened Consts
  import opened Beacon

  /** Seconds between two signals. */
  const PERIOD_SECS: nat := 2

  /** The first `ticks` iterations of the send loop. */
  function PokeLoop(frame: seq<byte>, ticks: nat): seq<UdpEvent>
  {
    if ticks == 0 then []
    else PokeLoop(frame, ticks - 1) + [SendTo(frame, MULTICAST_IP, MULTICAST_PORT), Slept(PERIOD_SECS)]
  }

  /**
   * The calls of the beacon as written, over `ticks` loop iterations: bind,
   * then the copy of `challenge` into the 130-byte buffer, which panics
   * unless the challenge is 130 bytes long, in which case the challenge
   * itself is what gets sent.
   */
  function Announce(challenge: seq<byte>, ticks: nat): seq<UdpEvent>
  {
    [Bind(NODE_PORT)] +
    match Copied(seq(SIGNAL_LENGTH, _ => 0), challenge)
    case None => [Panic]
    case Some(signal) => PokeLoop(signal, ticks)
  }

  /**
   * The beacon as written. The declared argument is `&[u8; 128]`; the model
   * accepts any length so that both outcomes of the copy can be stated.
   */
  method Invoke(challenge: seq<byte>, ticks: nat) returns (events: seq<UdpEvent>)
    ensures events == Announce(challenge, ticks)
  {
    events := [Bind(NODE_PORT)];
    var availableSignal := new byte[SIGNAL_LENGTH](_ => 0);
    availableSignal[0] := 69;
    availableSignal[1] := 0;
    assert availableSignal[..] == SIGNAL_HEADER + seq(SIGNAL_LENGTH - 2, _ => 0);
    var ok := CopyFromSlice(availableSignal, challenge);
    if !ok {
      events := events + [Panic];
      return;
    }
    for t := 0 to ticks
      invariant events == [Bind(NODE_PORT)] + PokeLoop(challenge, t)
    {
      events := events + [SendTo(availableSignal[..], MULTICAST_IP, MULTICAST_PORT), Slept(PERIOD_SECS)];
    }
  }

  /** The beacon as evidently intended: the challenge is copied behind the header. */
  method IntendedInvoke(challenge: seq<byte>, ticks: nat) returns (events: seq<UdpEvent>)
    requires |challenge| == DECLARED_CHALLENGE_LENGTH
    ensures events == [Bind(NODE_PORT)] + PokeLoop(BeaconFrame(challenge), ticks)
  {
    events := [Bind(NODE_PORT)];
    var availableSignal := new byte[SIGNAL_LENGTH](_ => 0);
    availableSignal[0] := 69;
    availableSignal[1] := 0;
    for k := 0 to |challenge|
      invariant availableSignal[0] == 69 && availableSignal[1] == 0
      invariant forall j | 0 <= j < k :: availableSignal[2 + j] == challenge[j]
    {
      availableSignal[2 + k] := challenge[k];
    }
    assert availableSignal[..] == BeaconFrame(challenge);
    for t := 0 to ticks
      invariant events == [Bind(NODE_PORT)] + PokeLoop(BeaconFrame(challenge), t)
    {
      events := events + [SendTo(availableSignal[..], MULTICAST_IP, MULTICAST_PORT), Slept(PERIOD_SECS)];
    }
  }

  /** Each loop iteration sends the same frame to MULTICAST_IP:MULTICAST_PORT and then sleeps two seconds. */
  lemma {:induction false} PokeLoopIsPeriodic(frame: seq<byte>, ticks: nat)
    ensures |PokeLoop(frame, ticks)| == 2 * ticks
    ensures forall k | 0 <= k < ticks ::
      PokeLoop(frame, ticks)[2 * k] == SendTo(frame, MULTICAST_IP, MULTICAST_PORT) && PokeLoop(frame, ticks)[2 * k + 1] == Slept(PERIOD_SECS)
  {
    if ticks > 0 {
      PokeLoopIsPeriodic(frame, ticks - 1);
      var prev := PokeLoop(frame, ticks - 1);
      assert PokeLoop(frame, ticks) == prev + [SendTo(frame, MULTICAST_IP, MULTICAST_PORT), Slept(PERIOD_SECS)];
      forall k | 0 <= k < ticks
        ensures PokeLoop(frame, ticks)[2 * k] == SendTo(frame, MULTICAST_IP, MULTICAST_PORT)
        ensures PokeLoop(frame, ticks)[2 * k + 1] == Slept(PERIOD_SECS)
      {
        if k < ticks - 1 {
          assert PokeLoop(frame, ticks)[2 * k] == prev[2 * k];
          assert PokeLoop(frame, ticks)[2 * k + 1] == prev[2 * k + 1];
        }
      }
    }
  }

  /** Every call the loop makes is a send or a sleep: it never returns and never stops on a send error. */
  lemma {:induction false} PokeLoopOnlySendsAndSleeps(frame: seq<byte>, ticks: nat)
    ensures forall e | e in PokeLoop(frame, ticks) :: e == SendTo(frame, MULTICAST_IP, MULTICAST_PORT) || e == Slept(PERIOD_SECS)
  {
    if ticks > 0 {
      PokeLoopOnlySendsAndSleeps(frame, ticks - 1);
    }
  }

  /** With the declared 128-byte challenge the beacon binds and then panics: nothing is ever sent. */
  lemma DeclaredChallengePanics(challenge: seq<byte>, ticks: nat)
    requires |challenge| == DECLARED_CHALLENGE_LENGTH
    ensures Announce(challenge, ticks) == [Bind(NODE_PORT), Panic]
    ensures forall e | e in Announce(challenge, ticks) :: !e.SendTo?
  {
  }

  /**
   * Even when the lengths agree, the copy overwrites the header: every frame
   * sent is the challenge itself, which carries the header 69, 0 only if the
   * challenge happens to start with it.
   */
  lemma {:induction false} HeaderDoesNotSurviveCopy(challenge: seq<byte>, ticks: nat)
    requires |challenge| == SIGNAL_LENGTH
    ensures forall e | e in Announce(challenge, ticks) && e.SendTo? :: e.data == challenge
    ensures forall e | e in Announce(challenge, ticks) && e.SendTo? :: (e.data[0..2] == SIGNAL_HEADER <==> challenge[0..2] == SIGNAL_HEADER)
  {
    PokeLoopOnlySendsAndSleeps(challenge, ticks);
    assert Announce(challenge, ticks) == [Bind(NODE_PORT)] + PokeLoop(challenge, ticks);
  }

  /** The intended beacon sends the header followed by the challenge, on every iteration. */
  lemma IntendedFramesCarryChallenge(challenge: seq<byte>, ticks: nat)
    requires |challenge| == DECLARED_CHALLENGE_LENGTH
    ensures forall e | e in PokeLoop(BeaconFrame(challenge), ticks) && e.SendTo? ::
      |e.data| == SIGNAL_LENGTH && e.data[0..2] == SIGNAL_HEADER && ChallengeOf(e.data) == challenge
  {
    PokeLoopOnlySendsAndSleeps(BeaconFrame(challenge), ticks);
    BeaconFrameRoundTrip(challenge, BeaconFrame(challenge));
  }
}
