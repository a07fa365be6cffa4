/**
 * The older rendezvous listener (src/phases/node_control.rs): accept
 * connections on NODE_PORT forever, read a 34-byte claim `[69, 1] ++ answer`
 * and send the cancel signal for every claim that carries the expected
 * answer, without closing that connection or returning.
 */
module NodeControl {
  import opened Consts
  import opened ChallengeResponse
  import opened Sockets

  /** The length of a claim: two header bytes and the answer. */
  const CLAIM_LENGTH: nat := 34

  /** The header a claim must start with. */
  const CLAIM_HEADER: seq<byte> := [69, 1]

  /** The bytes read from a connection. */
  type ClaimFrame = s: seq<byte> | |s| == CLAIM_LENGTH witness seq(34, _ => 0)

  /** A claim is within the 150-byte action budget, and so fits the socket's buffers. */
  lemma ClaimFitsBudget(frame: ClaimFrame)
    ensures |frame| <= ACTION_BUDGET && |frame| <= STACK_BUFFER_SIZE
  {
    BudgetFitsStackBuffer(|frame|);
  }

  /** The trust decision: header bytes 0-1 and answer bytes 2-33 both as expected. */
  predicate ValidClaim(expected: Digest, frame: ClaimFrame)
  {
    frame[0..2] == CLAIM_HEADER && frame[2..34] == expected
  }

  /** Whether a connection attempt delivered an accepted claim. */
  predicate Accepted(expected: Digest, a: Attempt<ClaimFrame>)
  {
    a.Claim? && ValidClaim(expected, a.payload)
  }

  /**
   * The socket calls of one pass of the loop: the timeout is re-applied and
   * accept is called; a read failure or a rejected claim drops the
   * connection; an accepted claim sends the cancel signal and keeps it open.
   */
  function PassEvents(expected: Digest, a: Attempt<ClaimFrame>): seq<TcpEvent>
  {
    [SetTimeout(SOCKET_TIMEOUT_SECS), Accept(NODE_PORT)] +
    match a
    case AcceptFailed => []
    case ReadFailed => [ReadExact(CLAIM_LENGTH)] + DROP
    case Claim(frame, _) =>
      if ValidClaim(expected, frame) then [ReadExact(CLAIM_LENGTH), SendCancel(true)]
      else [ReadExact(CLAIM_LENGTH)] + DROP
  }

  /** The socket calls of the loop over a run of attempts: every pass, in order. */
  function ControlEvents(expected: Digest, attempts: seq<Attempt<ClaimFrame>>): seq<TcpEvent>
  {
    if attempts == [] then []
    else ControlEvents(expected, attempts[..|attempts| - 1]) + PassEvents(expected, attempts[|attempts| - 1])
  }

  /** How many attempts of the run deliver an accepted claim. */
  function AcceptedCount(expected: Digest, attempts: seq<Attempt<ClaimFrame>>): nat
  {
    if attempts == [] then 0
    else AcceptedCount(expected, attempts[..|attempts| - 1]) + (if Accepted(expected, attempts[|attempts| - 1]) then 1 else 0)
  }

  /**
   * The listener over a finite run of connection attempts (the source loops
   * forever and never returns): the socket calls it makes.
   */
  method Invoke(expected: Digest, attempts: seq<Attempt<ClaimFrame>>) returns (events: seq<TcpEvent>)
    ensures events == ControlEvents(expected, attempts)
  {
    events := [];
    for i := 0 to |attempts|
      invariant events == ControlEvents(expected, attempts[..i])
    {
      assert attempts[..i + 1][..i] == attempts[..i];
      var attempt := attempts[i];
      events := events + [SetTimeout(SOCKET_TIMEOUT_SECS)];
      events := events + [Accept(NODE_PORT)];
      if attempt.AcceptFailed? {
        continue;
      }
      events := events + [ReadExact(CLAIM_LENGTH)];
      if attempt.ReadFailed? {
        events := events + DROP;
        continue;
      }
      var claim := attempt.payload;
      if claim[0..2] != CLAIM_HEADER || expected != claim[2..34] {
        events := events + DROP;
        continue;
      }
      events := events + [SendCancel(true)];
    }
    assert attempts[..|attempts|] == attempts;
  }

  /** A claim is accepted exactly when it is the header followed by the expected answer. */
  lemma ValidClaimIsHeaderThenAnswer(expected: Digest, frame: ClaimFrame)
    ensures ValidClaim(expected, frame) <==> frame == CLAIM_HEADER + expected
  {
    if frame == CLAIM_HEADER + expected {
      assert frame[0..2] == CLAIM_HEADER;
      assert frame[2..34] == expected;
    }
    if ValidClaim(expected, frame) {
      assert frame == frame[0..2] + frame[2..34];
    }
  }

  /** One pass: the cancel is sent once for an accepted claim, and never otherwise. */
  lemma PassCancel(expected: Digest, a: Attempt<ClaimFrame>)
    ensures Count(PassEvents(expected, a), SendCancel(true)) == if Accepted(expected, a) then 1 else 0
    ensures Count(PassEvents(expected, a), SetTimeout(SOCKET_TIMEOUT_SECS)) == 1
    ensures Count(PassEvents(expected, a), Accept(NODE_PORT)) == 1
  {
  }

  /**
   * The cancel signal is sent once per accepted claim, so a run with several
   * accepted claims sends it several times.
   */
  lemma {:induction false} CancelPerAcceptedClaim(expected: Digest, attempts: seq<Attempt<ClaimFrame>>)
    ensures Count(ControlEvents(expected, attempts), SendCancel(true)) == AcceptedCount(expected, attempts)
    decreases |attempts|
  {
    if attempts != [] {
      var init := attempts[..|attempts| - 1];
      CancelPerAcceptedClaim(expected, init);
      PassCancel(expected, attempts[|attempts| - 1]);
      var a := ControlEvents(expected, init);
      var b := PassEvents(expected, attempts[|attempts| - 1]);
      assert multiset(a + b) == multiset(a) + multiset(b);
    }
  }

  /**
   * Every pass re-applies the 10-second timeout and calls accept, whatever
   * the previous passes did: the loop never gives up.
   */
  lemma {:induction false} TimeoutAndAcceptEveryPass(expected: Digest, attempts: seq<Attempt<ClaimFrame>>)
    ensures Count(ControlEvents(expected, attempts), SetTimeout(SOCKET_TIMEOUT_SECS)) == |attempts|
    ensures Count(ControlEvents(expected, attempts), Accept(NODE_PORT)) == |attempts|
    decreases |attempts|
  {
    if attempts != [] {
      var init := attempts[..|attempts| - 1];
      TimeoutAndAcceptEveryPass(expected, init);
      PassCancel(expected, attempts[|attempts| - 1]);
      var a := ControlEvents(expected, init);
      var b := PassEvents(expected, attempts[|attempts| - 1]);
      assert multiset(a + b) == multiset(a) + multiset(b);
    }
  }

  /**
   * A connection whose claim was read is closed exactly when the claim is
   * rejected; an accepted connection is left open.
   */
  lemma ClosedIffRejected(expected: Digest, frame: ClaimFrame, peer: IpAddress)
    ensures Close in PassEvents(expected, Claim(frame, peer)) <==> !ValidClaim(expected, frame)
    ensures SendCancel(true) in PassEvents(expected, Claim(frame, peer)) <==> ValidClaim(expected, frame)
  {
    var events := PassEvents(expected, Claim(frame, peer));
    if ValidClaim(expected, frame) {
      assert events == [SetTimeout(SOCKET_TIMEOUT_SECS), Accept(NODE_PORT), ReadExact(CLAIM_LENGTH), SendCancel(true)];
    } else {
      assert events == [SetTimeout(SOCKET_TIMEOUT_SECS), Accept(NODE_PORT), ReadExact(CLAIM_LENGTH), Flush, Abort, Close];
    }
  }
}
