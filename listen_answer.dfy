/**
 * The rendezvous listener (src/phases/listen_answer.rs): accept connections on
 * NODE_PORT until one sends the expected 32-byte answer, then close it, tell
 * the beacon to stop and return the peer's address.
 */
module ListenAnswer {
  import opened Wrappers
  import opened Consts
  import opened ChallengeResponse
  import opened Sockets

  const TCP_INITIALIZED := "TCP Initialized"

  /** What happens before the accept loop: the timeout is set once, and a log line. */
  const SETUP: seq<TcpEvent> := [SetTimeout(SOCKET_TIMEOUT_SECS), Log(TCP_INITIALIZED)]

  /** An attempt that ends the search: a claim whose 32 bytes all equal the expected answer. */
  predicate Matches(expected: Digest, a: Attempt<Digest>)
  {
    a.Claim? && a.payload == expected
  }

  /** The index of the first matching attempt, if any. */
  function FirstMatch(expected: Digest, attempts: seq<Attempt<Digest>>): (k: Option<nat>)
    ensures k.Some? ==> k.value < |attempts| && Matches(expected, attempts[k.value])
    ensures k.Some? ==> forall j | 0 <= j < k.value :: !Matches(expected, attempts[j])
    ensures k.None? ==> forall j | 0 <= j < |attempts| :: !Matches(expected, attempts[j])
  {
    if attempts == [] then None
    else if Matches(expected, attempts[0]) then Some(0)
    else
      match FirstMatch(expected, attempts[1..])
      case None => None
      case Some(k) => Some(k + 1)
  }

  /** The socket calls of one pass of the loop. */
  function AttemptEvents(expected: Digest, a: Attempt<Digest>): seq<TcpEvent>
  {
    match a
    case AcceptFailed => [Accept(NODE_PORT)]
    case ReadFailed => [Accept(NODE_PORT), ReadExact(ANSWER_LENGTH)] + DROP
    case Claim(answer, _) =>
      if answer == expected then [Accept(NODE_PORT), ReadExact(ANSWER_LENGTH), RemoteEndpoint] + DROP + [SendCancel(true)]
      else [Accept(NODE_PORT), ReadExact(ANSWER_LENGTH)] + DROP
  }

  /** The socket calls of the loop: pass after pass until the first match. */
  function ListenEvents(expected: Digest, attempts: seq<Attempt<Digest>>): seq<TcpEvent>
  {
    if attempts == [] then []
    else AttemptEvents(expected, attempts[0]) + (if Matches(expected, attempts[0]) then [] else ListenEvents(expected, attempts[1..]))
  }

  /**
   * The listener over a finite run of connection attempts: it returns the
   * address of the first peer whose answer matches (None if none in the run
   * does, the listener then still accepting), and the socket calls it made.
   */
  method Invoke(expected: Digest, attempts: seq<Attempt<Digest>>) returns (address: Option<IpAddress>, events: seq<TcpEvent>)
    ensures address.Some? <==> exists k | 0 <= k < |attempts| :: Matches(expected, attempts[k])
    ensures address == match FirstMatch(expected, attempts) case None => None case Some(k) => Some(attempts[k].peer)
    ensures events == SETUP + ListenEvents(expected, attempts)
  {
    events := SETUP;
    var i := 0;
    while i < |attempts|
      invariant 0 <= i <= |attempts|
      invariant forall j | 0 <= j < i :: !Matches(expected, attempts[j])
      invariant events == SETUP + Passes(expected, attempts[..i])
    {
      var passEvents, peer := Pass(expected, attempts[i]);
      if peer.Some? {
        ListenEventsSplit(expected, attempts, i);
        ListenUnfold(expected, attempts, i);
        Associative(SETUP, Passes(expected, attempts[..i]), passEvents);
        events := events + passEvents;
        FirstMatchAt(expected, attempts, i);
        return peer, events;
      }
      PassesStep(expected, attempts, i);
      Associative(SETUP, Passes(expected, attempts[..i]), passEvents);
      events := events + passEvents;
      i := i + 1;
    }
    ListenEventsSplit(expected, attempts, i);
    assert attempts[..i] == attempts && attempts[i..] == [];
    FirstMatchAt(expected, attempts, i);
    address := None;
  }

  /** The socket calls of every pass over `attempts`, whether or not one matched. */
  function Passes(expected: Digest, attempts: seq<Attempt<Digest>>): seq<TcpEvent>
  {
    if attempts == [] then []
    else Passes(expected, attempts[..|attempts| - 1]) + AttemptEvents(expected, attempts[|attempts| - 1])
  }

  /** Before the first match, the loop's calls are the passes so far followed by the calls still to come. */
  lemma {:induction false} ListenEventsSplit(expected: Digest, attempts: seq<Attempt<Digest>>, i: nat)
    requires i <= |attempts|
    requires forall j | 0 <= j < i :: !Matches(expected, attempts[j])
    ensures ListenEvents(expected, attempts) == Passes(expected, attempts[..i]) + ListenEvents(expected, attempts[i..])
  {
    if i == 0 {
      assert attempts[..0] == [] && attempts[0..] == attempts;
    } else {
      ListenEventsSplit(expected, attempts, i - 1);
      var before := Passes(expected, attempts[..i - 1]);
      var pass := AttemptEvents(expected, attempts[i - 1]);
      var later := ListenEvents(expected, attempts[i..]);
      assert !Matches(expected, attempts[i - 1]);
      ListenUnfold(expected, attempts, i - 1);
      assert ListenEvents(expected, attempts[i - 1..]) == pass + later;
      PassesStep(expected, attempts, i - 1);
      Associative(before, pass, later);
    }
  }

  /** Passes grow by one pass per attempt. */
  lemma PassesStep(expected: Digest, attempts: seq<Attempt<Digest>>, i: nat)
    requires i < |attempts|
    ensures Passes(expected, attempts[..i + 1]) == Passes(expected, attempts[..i]) + AttemptEvents(expected, attempts[i])
  {
    assert attempts[..i + 1][..i] == attempts[..i];
  }

  /**
   * The first match is found where the loop finds it: at the first matching
   * index, or nowhere when the loop runs out. Either way the result agrees
   * with whether some attempt matches.
   */
  lemma FirstMatchAt(expected: Digest, attempts: seq<Attempt<Digest>>, i: nat)
    requires i <= |attempts|
    requires forall j | 0 <= j < i :: !Matches(expected, attempts[j])
    requires i < |attempts| ==> Matches(expected, attempts[i])
    ensures FirstMatch(expected, attempts) == if i < |attempts| then Some(i) else None
    ensures FirstMatch(expected, attempts).Some? <==> exists k | 0 <= k < |attempts| :: Matches(expected, attempts[k])
  {
  }

  /**
   * One pass of the loop: accept, read the 32-byte answer, compare it; the
   * peer's address is returned on a match only.
   */
  method Pass(expected: Digest, attempt: Attempt<Digest>) returns (events: seq<TcpEvent>, peer: Option<IpAddress>)
    ensures events == AttemptEvents(expected, attempt)
    ensures peer.Some? <==> Matches(expected, attempt)
    ensures peer.Some? ==> peer.value == attempt.peer
  {
    events := [Accept(NODE_PORT)];
    if attempt.AcceptFailed? {
      return events, None;
    }
    events := events + [ReadExact(ANSWER_LENGTH)];
    if attempt.ReadFailed? {
      events := events + DROP;
      return events, None;
    }
    var answerHash := attempt.payload;
    if expected != answerHash {
      events := events + DROP;
      return events, None;
    }
    // The remote address is captured before the socket is closed.
    var remoteEndpoint := attempt.peer;
    events := events + [RemoteEndpoint] + DROP;
    events := events + [SendCancel(true)];
    return events, Some(remoteEndpoint);
  }

  /** One pass of the loop, then the rest unless it matched. */
  lemma ListenUnfold(expected: Digest, attempts: seq<Attempt<Digest>>, i: nat)
    requires i < |attempts|
    ensures Matches(expected, attempts[i]) ==> ListenEvents(expected, attempts[i..]) == AttemptEvents(expected, attempts[i])
    ensures !Matches(expected, attempts[i]) ==>
      ListenEvents(expected, attempts[i..]) == AttemptEvents(expected, attempts[i]) + ListenEvents(expected, attempts[i + 1..])
  {
    assert attempts[i..][1..] == attempts[i + 1..];
    assert AttemptEvents(expected, attempts[i]) + [] == AttemptEvents(expected, attempts[i]);
  }

  lemma Associative(a: seq<TcpEvent>, b: seq<TcpEvent>, c: seq<TcpEvent>)
    ensures (a + b) + c == a + (b + c)
  {
  }

  /** Within one pass, the cancel signal is sent once on a match and never otherwise. */
  lemma AttemptCancelCount(expected: Digest, a: Attempt<Digest>)
    ensures Count(AttemptEvents(expected, a), SendCancel(true)) == if Matches(expected, a) then 1 else 0
  {
  }

  /** Within one pass, the cancel signal can only be the last call. */
  lemma AttemptCancelLast(expected: Digest, a: Attempt<Digest>)
    ensures var events := AttemptEvents(expected, a);
      forall i | 0 <= i < |events| && events[i].SendCancel? :: Matches(expected, a) && i == |events| - 1
  {
  }

  /** The cancel signal is sent once if a claim matched and never otherwise. */
  lemma {:induction false} CancelSentOnceAfterMatch(expected: Digest, attempts: seq<Attempt<Digest>>)
    ensures Count(ListenEvents(expected, attempts), SendCancel(true)) == if FirstMatch(expected, attempts).Some? then 1 else 0
    decreases |attempts|
  {
    if attempts != [] {
      var head := AttemptEvents(expected, attempts[0]);
      AttemptCancelCount(expected, attempts[0]);
      if Matches(expected, attempts[0]) {
        assert ListenEvents(expected, attempts) == head + [];
      } else {
        var rest := ListenEvents(expected, attempts[1..]);
        CancelSentOnceAfterMatch(expected, attempts[1..]);
        assert ListenEvents(expected, attempts) == head + rest;
        assert multiset(head + rest) == multiset(head) + multiset(rest);
      }
    }
  }

  /** The cancel signal, when sent, is the very last thing the listener does. */
  lemma {:induction false} CancelIsLast(expected: Digest, attempts: seq<Attempt<Digest>>)
    ensures forall i | 0 <= i < |ListenEvents(expected, attempts)| && ListenEvents(expected, attempts)[i].SendCancel? ::
      i == |ListenEvents(expected, attempts)| - 1
    decreases |attempts|
  {
    if attempts != [] {
      var head := AttemptEvents(expected, attempts[0]);
      AttemptCancelLast(expected, attempts[0]);
      if Matches(expected, attempts[0]) {
        assert ListenEvents(expected, attempts) == head + [];
      } else {
        var rest := ListenEvents(expected, attempts[1..]);
        CancelIsLast(expected, attempts[1..]);
        var events := head + rest;
        assert ListenEvents(expected, attempts) == events;
        forall i | 0 <= i < |events| && events[i].SendCancel?
          ensures i == |events| - 1
        {
          if i >= |head| {
            assert rest[i - |head|].SendCancel?;
          }
        }
      }
    }
  }

  /**
   * On a match the listener ends by reading the peer's address, closing the
   * connection, and then sending the cancel signal.
   */
  lemma {:induction false} MatchEndsWithCancel(expected: Digest, attempts: seq<Attempt<Digest>>)
    requires FirstMatch(expected, attempts).Some?
    ensures var events := ListenEvents(expected, attempts);
      |events| >= 5 && events[|events| - 5..] == [RemoteEndpoint] + DROP + [SendCancel(true)]
    decreases |attempts|
  {
    if !Matches(expected, attempts[0]) {
      MatchEndsWithCancel(expected, attempts[1..]);
      var head := AttemptEvents(expected, attempts[0]);
      var rest := ListenEvents(expected, attempts[1..]);
      assert ListenEvents(expected, attempts) == head + rest;
      assert (head + rest)[|head + rest| - 5..] == rest[|rest| - 5..];
    }
  }

  /**
   * The listener never gives up on a bad client: without a match it calls
   * accept once for every attempt in the run.
   */
  lemma {:induction false} AcceptsUntilMatch(expected: Digest, attempts: seq<Attempt<Digest>>)
    requires FirstMatch(expected, attempts).None?
    ensures Count(ListenEvents(expected, attempts), Accept(NODE_PORT)) == |attempts|
    decreases |attempts|
  {
    if attempts != [] {
      var head := AttemptEvents(expected, attempts[0]);
      assert Count(head, Accept(NODE_PORT)) == 1;
      assert FirstMatch(expected, attempts[1..]).None?;
      AcceptsUntilMatch(expected, attempts[1..]);
      assert ListenEvents(expected, attempts) == head + ListenEvents(expected, attempts[1..]);
    }
  }
}
