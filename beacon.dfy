/**
 * What the two discovery beacons (src/phases/poke_server.rs and
 * src/phases/cast_node.rs) share: the UDP and GPIO calls they make, the
 * 130-byte signal buffer, and Rust's `copy_from_slice`, which panics unless
 * source and destination have the same length.
 */
module Beacon {
  import opened Wrappers
  import opened Consts

  /** The length of the signal buffer. */
  const SIGNAL_LENGTH: nat := 130

  /** The header the code writes into bytes 0-1 of the buffer. */
  const SIGNAL_HEADER: seq<byte> := [69, 0]

  /** The length of the challenge both beacons are declared to take (`&[u8; 128]`). */
  const DECLARED_CHALLENGE_LENGTH: nat := 128

  /** The calls a beacon makes, in order; `Panic` ends the run. */
  datatype UdpEvent =
    | Bind(port: nat)
    | SendTo(data: seq<byte>, ip: nat, port: nat)
    | Slept(secs: nat)
    | GpioSet(pin: nat, on: bool)
    | Panic

  /** The buffer after `dst.copy_from_slice(src)`, or None where that call panics. */
  function Copied(dst: seq<byte>, src: seq<byte>): (r: Option<seq<byte>>)
  {
    if |dst| == |src| then Some(src) else None
  }

  /** `dst.copy_from_slice(src)`: `ok` is false exactly where Rust panics, and then nothing is written. */
  method CopyFromSlice(dst: array<byte>, src: seq<byte>) returns (ok: bool)
    modifies dst
    ensures ok <==> Copied(old(dst[..]), src).Some?
    ensures ok ==> dst[..] == Copied(old(dst[..]), src).value
    ensures !ok ==> dst[..] == old(dst[..])
  {
    if dst.Length != |src| {
      return false;
    }
    for i := 0 to dst.Length
      invariant forall j | 0 <= j < i :: dst[j] == src[j]
    {
      dst[i] := src[i];
    }
    return true;
  }

  /** The copy succeeds only between equal lengths, and then the source overwrites every byte. */
  lemma CopiedReplacesWholeBuffer(dst: seq<byte>, src: seq<byte>)
    ensures Copied(dst, src).Some? <==> |dst| == |src|
    ensures Copied(dst, src).Some? ==> |Copied(dst, src).value| == |dst| && forall i | 0 <= i < |dst| :: Copied(dst, src).value[i] == src[i]
  {
  }

  /** The signal as evidently intended: the header followed by the 128-byte challenge. */
  function BeaconFrame(challenge: seq<byte>): (frame: seq<byte>)
    requires |challenge| == DECLARED_CHALLENGE_LENGTH
    ensures |frame| == SIGNAL_LENGTH
  {
    SIGNAL_HEADER + challenge
  }

  /** The intended signal is within the 150-byte action budget, and so fits the UDP socket's buffers. */
  lemma BeaconFrameFitsBudget(challenge: seq<byte>)
    requires |challenge| == DECLARED_CHALLENGE_LENGTH
    ensures |BeaconFrame(challenge)| <= ACTION_BUDGET
    ensures |BeaconFrame(challenge)| <= STACK_BUFFER_SIZE
  {
    BudgetFitsStackBuffer(|BeaconFrame(challenge)|);
  }

  /** The challenge a receiver reads out of a signal: bytes 2-129. */
  function ChallengeOf(frame: seq<byte>): (challenge: seq<byte>)
    requires |frame| == SIGNAL_LENGTH
    ensures |challenge| == DECLARED_CHALLENGE_LENGTH
  {
    frame[2..]
  }

  /** A receiver recovers the challenge from an intended signal, and a signal with the right header is rebuilt from its challenge. */
  lemma BeaconFrameRoundTrip(challenge: seq<byte>, frame: seq<byte>)
    requires |challenge| == DECLARED_CHALLENGE_LENGTH
    requires |frame| == SIGNAL_LENGTH
    ensures ChallengeOf(BeaconFrame(challenge)) == challenge
    ensures BeaconFrame(challenge)[0..2] == SIGNAL_HEADER
    ensures frame[0..2] == SIGNAL_HEADER ==> BeaconFrame(ChallengeOf(frame)) == frame
  {
    assert BeaconFrame(challenge)[2..] == challenge;
    if frame[0..2] == SIGNAL_HEADER {
      assert frame == frame[0..2] + frame[2..];
    }
  }
}
