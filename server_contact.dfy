/**
 * The node's command session with a validated server (src/phases/server_contact.rs).
 *
 * The node connects to the server, answers the server's challenge with its MAC
 * address and the keyed digest of that challenge, then serves rounds: each
 * round draws a fresh challenge, announces it, and waits for a command frame
 * (an action byte followed by the digest of the round's challenge) while a
 * watcher reports the sensed machine level. A frame with a wrong digest is a
 * fault; once the faults exceed FAULT_TOLERANCE the session ends. A frame with
 * the right digest is dispatched: power on, power off (both idempotent with
 * respect to the sensed level) or reset. On any way out after the handshake
 * both relay outputs are driven high before the socket is closed.
 *
 * The environment (socket results, frames, sensed levels, random bytes) is a
 * `Script`; the pure functions below say what a session does with a script,
 * and the class `Node` runs it step by step as the firmware does.
 */
module ServerContact {
  import opened Wrappers
  import opened Consts
  import opened ChallengeResponse

  /** A GPIO level. */
  datatype Level = Low | High

  type MacAddress = s: seq<byte> | |s| == 6 witness [0, 0, 0, 0, 0, 0]

  /** A command frame from the server: action byte, then the answer. */
  type CommandFrame = s: seq<byte> | |s| == ANSWER_LENGTH + 1 witness seq(33, _ => 0)

  /**
   * What the session is given: the key and its keyed hash, the node's MAC, and
   * ACTIVATE_RELAY/DEACTIVATE_RELAY, which the firmware imports but does not define.
   */
  datatype Config = Config(key: Key, hash: KeyedHash, mac: MacAddress, activate: Level, deactivate: Level)

  /** What the session does to the outside world, in order. */
  datatype Event =
    | Sent(bytes: seq<byte>)   // a write to the server that succeeded
    | SetPower(level: Level)   // power relay output
    | SetReset(level: Level)   // reset relay output
    | Slept(ms: nat)
    | EdgeWait                 // the watcher waits for an edge of the machine-state input
    | Log(msg: string)         // board::serial_log
    | Flush | Abort | Close    // socket teardown

  datatype Reason = ConnectFailed | HandshakeFailed | IoError | FaultLimit | ScriptEnd

  datatype Phase = Idle | Serving | Closed(reason: Reason)

  /** The observable state of a session: the fault counter, the last reported level, both relays and the trace. */
  datatype Session = Session(phase: Phase, faults: nat, reported: Option<Level>, power: Level, reset: Level, trace: seq<Event>)

  /**
   * One completed pass of the state watcher: `probe` is the level read to decide
   * whether to wait for an edge, `level` the level read afterwards and reported,
   * `writeOk` whether the one-byte report was written.
   */
  datatype Report = Report(probe: Level, level: Level, writeOk: bool)

  datatype Reply = Frame(bytes: CommandFrame) | ReadFailed

  /**
   * One round as the environment plays it: the random challenge, the results of
   * the two announcing writes, the watcher reports that complete before the
   * reply, the reply, the two levels read while dispatching, and the result of
   * the acknowledgement write.
   */
  datatype Round = Round(
    rng: Challenge,
    notifierOk: bool,
    challengeOk: bool,
    reports: seq<Report>,
    reply: Reply,
    before: Level,
    after: Level,
    ackOk: bool)

  /** A whole session as the environment plays it; when `rounds` runs out the server is gone. */
  datatype Script = Script(connectOk: bool, serverChallenge: Option<Challenge>, introduceOk: bool, rounds: seq<Round>)

  const CONNECT_FAILED := "Can't connect to server endpoint"
  const CHALLENGE_READ_FAILED := "Can't obtain the challenge from server."
  const INTRODUCE_FAILED := "Can't introduce to the server, folding..."
  const NOTIFIER_FAILED := "Can't send the notifier to server, breaking..."
  const CHALLENGE_SEND_FAILED := "Can't send the challenge to server, breaking..."
  const EXCHANGE_FAILED := "Can't obtain action & answer from server, breaking..."
  const SERVER_FAILED := "Server failed the challenge, folding..."

  /** The byte that marks the start of a round. */
  const NOTIFIER: byte := 2

  /** The acknowledgement that the machine is already in the requested state. */
  const ACK: byte := 1

  const ACTION_POWER_ON: byte := 1
  const ACTION_POWER_OFF: byte := 2
  const ACTION_RESET: byte := 3

  const PULSE_MS: nat := 500

  /** The state report for a sensed level. */
  function LevelByte(l: Level): byte
  {
    if l == High then 1 else 0
  }

  /** A press of the power relay. */
  function PowerPulse(cfg: Config): seq<Event>
  {
    [SetPower(cfg.activate), Slept(PULSE_MS), SetPower(cfg.deactivate)]
  }

  /** A press of the reset relay. */
  const RESET_PULSE: seq<Event> := [SetReset(Low), Slept(PULSE_MS), SetReset(High)]

  /** The teardown after the handshake: both relays high, then the socket closed. */
  const TEARDOWN: seq<Event> := [SetPower(High), SetReset(High), Flush, Abort, Close]

  /** An early return: log, then flush, abort and close the socket; relays untouched. */
  function Abandoned(st: Session, msg: string, reason: Reason): Session
  {
    st.(phase := Closed(reason), trace := st.trace + [Log(msg), Flush, Abort, Close])
  }

  /** A break out of the round loop on an I/O error. */
  function Broken(st: Session, msg: string): Session
  {
    st.(phase := Closed(IoError), trace := st.trace + [Log(msg)])
  }

  /** The state watcher's completed passes (server_contact.rs:119-145). */
  function Watched(st: Session, reports: seq<Report>): (r: Session)
    ensures r.faults == st.faults && r.power == st.power && r.reset == st.reset
    ensures r.phase == st.phase || r.phase == Closed(IoError)
    ensures st.trace <= r.trace
    decreases |reports|
  {
    if reports == [] then st
    else
      var report := reports[0];
      var waited := if st.reported == Some(report.probe) then [EdgeWait] else [];
      var sampled := st.(reported := Some(report.level), trace := st.trace + waited);
      if report.writeOk then
        Watched(sampled.(trace := sampled.trace + [Sent([LevelByte(report.level)])]), reports[1..])
      else
        Broken(sampled, EXCHANGE_FAILED)
  }

  /**
   * Power on (`pressWhen` = Low) or power off (`pressWhen` = High): the relay is
   * pressed only if the first level read is `pressWhen`, and the acknowledgement
   * is written if the second level read is the other one.
   */
  function PowerAction(cfg: Config, st: Session, pressWhen: Level, before: Level, after: Level, ackOk: bool): Session
  {
    var pressed := if before == pressWhen then st.(power := cfg.deactivate, trace := st.trace + PowerPulse(cfg)) else st;
    if after != pressWhen then
      if ackOk then pressed.(trace := pressed.trace + [Sent([ACK])]) else Broken(pressed, EXCHANGE_FAILED)
    else pressed
  }

  /** The dispatch of an authenticated action byte (server_contact.rs:169-211). */
  function Dispatched(cfg: Config, st: Session, action: byte, before: Level, after: Level, ackOk: bool): (r: Session)
    ensures r.faults == st.faults && r.reported == st.reported && st.trace <= r.trace
    ensures r.phase == st.phase || r.phase == Closed(IoError)
    ensures action != ACTION_RESET ==> r.reset == st.reset
    ensures action != ACTION_POWER_ON && action != ACTION_POWER_OFF ==> r.power == st.power
  {
    if action == ACTION_POWER_ON then PowerAction(cfg, st, Low, before, after, ackOk)
    else if action == ACTION_POWER_OFF then PowerAction(cfg, st, High, before, after, ackOk)
    else if action == ACTION_RESET then st.(reset := High, trace := st.trace + RESET_PULSE)
    else st
  }

  /** One round of the serving loop, after its fault check (server_contact.rs:88-211). */
  function AfterRound(cfg: Config, st: Session, r: Round): (s: Session)
    requires st.phase == Serving
    ensures s.faults == st.faults || s.faults == st.faults + 1
    ensures s.faults == st.faults + 1 ==> s.phase == Serving && s.power == st.power && s.reset == st.reset
    ensures s.phase == Serving || s.phase == Closed(IoError)
    ensures st.trace <= s.trace
  {
    var expected := cfg.hash(cfg.key, r.rng);
    if !r.notifierOk then Broken(st, NOTIFIER_FAILED)
    else if !r.challengeOk then Broken(st.(trace := st.trace + [Sent([NOTIFIER])]), CHALLENGE_SEND_FAILED)
    else
      var announced := st.(trace := st.trace + [Sent([NOTIFIER]), Sent(r.rng)]);
      var watched := Watched(announced, r.reports);
      if watched.phase != Serving then watched
      else
        match r.reply
        case ReadFailed => Broken(watched, EXCHANGE_FAILED)
        case Frame(f) =>
          if expected != f[1..] then watched.(faults := watched.faults + 1, trace := watched.trace + [Log(SERVER_FAILED)])
          else Dispatched(cfg, watched, f[0], r.before, r.after, r.ackOk)
  }

  /**
   * The serving loop (server_contact.rs:82-212): check the fault counter, then
   * play the next round, until a round breaks, the faults exceed the tolerance
   * or the script has no more rounds.
   */
  function Served(cfg: Config, st: Session, rounds: seq<Round>): (r: Session)
    ensures r.faults >= st.faults
    ensures st.faults <= FAULT_TOLERANCE + 1 ==> r.faults <= FAULT_TOLERANCE + 1
    ensures r.phase == Serving ==> r.faults <= FAULT_TOLERANCE
    ensures st.phase == Serving ==> r.phase == Serving || r.phase == Closed(IoError) || r.phase == Closed(FaultLimit)
    ensures st.phase != Serving ==> r == st
    ensures st.trace <= r.trace
    decreases |rounds|
  {
    if st.phase != Serving then st
    else if st.faults > FAULT_TOLERANCE then st.(phase := Closed(FaultLimit))
    else if rounds == [] then st
    else Served(cfg, AfterRound(cfg, st, rounds[0]), rounds[1..])
  }

  /** The teardown after the handshake (server_contact.rs:214-218). */
  function TornDown(st: Session): Session
  {
    st.(phase := if st.phase == Serving then Closed(ScriptEnd) else st.phase,
        power := High, reset := High, trace := st.trace + TEARDOWN)
  }

  /** The whole of `invoke`: connect, handshake, serve, tear down. */
  function Outcome(cfg: Config, st: Session, script: Script): Session
  {
    if !script.connectOk then Abandoned(st, CONNECT_FAILED, ConnectFailed)
    else
      match script.serverChallenge
      case None => Abandoned(st, CHALLENGE_READ_FAILED, HandshakeFailed)
      case Some(challenge) =>
        if !script.introduceOk then Abandoned(st, INTRODUCE_FAILED, HandshakeFailed)
        else
          var introduced := st.(phase := Serving, faults := 0, reported := None,
                                trace := st.trace + [Sent(cfg.mac + cfg.hash(cfg.key, challenge))]);
          TornDown(Served(cfg, introduced, script.rounds))
  }

  /** The node's side of the session, with the relay outputs it drives. */
  class Node {
    const cfg: Config
    /** The round's challenge buffer, refilled from the random source every round. */
    const currentChallenge: array<byte>
    var phase: Phase
    var faults: nat
    var reportedState: Option<Level>
    var power: Level
    var reset: Level
    var trace: seq<Event>

    ghost predicate Valid()
      reads this
    {
      currentChallenge.Length == CHALLENGE_LENGTH
    }

    function Snapshot(): Session
      reads this
    {
      Session(phase, faults, reportedState, power, reset, trace)
    }

    /** A node whose relays start at the given levels. */
    constructor (cfg: Config, power: Level, reset: Level)
      ensures Valid() && fresh(currentChallenge)
      ensures this.cfg == cfg
      ensures Snapshot() == Session(Idle, 0, None, power, reset, [])
    {
      this.cfg := cfg;
      currentChallenge := new byte[CHALLENGE_LENGTH];
      phase, faults, reportedState := Idle, 0, None;
      this.power, this.reset, trace := power, reset, [];
    }

    /** Fill the round's challenge buffer from the random source, one byte at a time. */
    method DrawChallenge(rng: Challenge)
      requires Valid()
      modifies currentChallenge
      ensures currentChallenge[..] == rng
    {
      for index := 0 to CHALLENGE_LENGTH
        invariant currentChallenge[..index] == rng[..index]
      {
        currentChallenge[index] := rng[index];
      }
    }

    /** Give up before serving: log, then flush, abort and close the socket. */
    method Abandon(msg: string, reason: Reason)
      modifies this
      ensures Snapshot() == Abandoned(old(Snapshot()), msg, reason)
    {
      trace := trace + [Log(msg), Flush, Abort, Close];
      phase := Closed(reason);
    }

    /** Leave the round loop on an I/O error. */
    method Break(msg: string)
      modifies this
      ensures Snapshot() == Broken(old(Snapshot()), msg)
    {
      trace := trace + [Log(msg)];
      phase := Closed(IoError);
    }

    /** The state watcher: report every sampled level until a report cannot be written. */
    method WatchState(reports: seq<Report>)
      modifies this
      ensures Snapshot() == Watched(old(Snapshot()), reports)
    {
      var i := 0;
      while i < |reports|
        invariant 0 <= i <= |reports|
        invariant Watched(old(Snapshot()), reports) == Watched(Snapshot(), reports[i..])
      {
        var report := reports[i];
        ghost var pre := Snapshot();
        ghost var waited := if pre.reported == Some(report.probe) then [EdgeWait] else [];
        if reportedState.Some? {
          // Already reported: wait for an edge while the level is unchanged.
          if report.probe == reportedState.value {
            trace := trace + [EdgeWait];
          }
        }
        var currentState := report.level;
        reportedState := Some(currentState);
        var writeState: byte := if currentState == High then 1 else 0;
        assert reports[i..][1..] == reports[i + 1..];
        if !report.writeOk {
          Break(EXCHANGE_FAILED);
          return;
        }
        trace := trace + [Sent([writeState])];
        assert Snapshot() == pre.(reported := Some(report.level), trace := pre.trace + waited + [Sent([LevelByte(report.level)])]);
        i := i + 1;
      }
    }

    /** Execute an authenticated action. */
    method DispatchAction(action: byte, before: Level, after: Level, ackOk: bool)
      modifies this
      ensures Snapshot() == Dispatched(cfg, old(Snapshot()), action, before, after, ackOk)
    {
      if action == ACTION_POWER_ON || action == ACTION_POWER_OFF {
        var pressWhen := if action == ACTION_POWER_ON then Low else High;
        if before == pressWhen {
          power := cfg.activate;
          trace := trace + [SetPower(cfg.activate), Slept(PULSE_MS)];
          power := cfg.deactivate;
          trace := trace + [SetPower(cfg.deactivate)];
        }
        // Do not press it when the machine is already in the requested state.
        if after != pressWhen {
          if !ackOk {
            Break(EXCHANGE_FAILED);
            return;
          }
          trace := trace + [Sent([ACK])];
        }
        return;
      }
      if action == ACTION_RESET {
        reset := Low;
        trace := trace + [SetReset(Low), Slept(PULSE_MS)];
        reset := High;
        trace := trace + [SetReset(High)];
      }
    }

    /** One round: fresh challenge, announce it, wait for the reply while watching, check, dispatch. */
    method PlayRound(r: Round)
      requires Valid() && phase == Serving
      modifies this, currentChallenge
      ensures Snapshot() == AfterRound(cfg, old(Snapshot()), r)
    {
      ghost var start := Snapshot();
      DrawChallenge(r.rng);
      assert Snapshot() == start;
      var expectedAnswer := cfg.hash(cfg.key, currentChallenge[..]);
      if !r.notifierOk {
        Break(NOTIFIER_FAILED);
        return;
      }
      trace := trace + [Sent([NOTIFIER])];
      if !r.challengeOk {
        Break(CHALLENGE_SEND_FAILED);
        return;
      }
      trace := trace + [Sent(currentChallenge[..])];
      assert Snapshot() == start.(trace := start.trace + [Sent([NOTIFIER]), Sent(r.rng)]);
      WatchState(r.reports);
      if phase != Serving {
        return;
      }
      match r.reply {
        case ReadFailed =>
          Break(EXCHANGE_FAILED);
        case Frame(actionWithAnswer) =>
          var hashAnswer := actionWithAnswer[1..];
          if expectedAnswer != hashAnswer {
            trace := trace + [Log(SERVER_FAILED)];
            faults := faults + 1;
            return;
          }
          DispatchAction(actionWithAnswer[0], r.before, r.after, r.ackOk);
      }
    }

    /** The whole session with one server. */
    method Invoke(script: Script)
      requires Valid()
      modifies this, currentChallenge
      ensures Snapshot() == Outcome(cfg, old(Snapshot()), script)
    {
      if !script.connectOk {
        Abandon(CONNECT_FAILED, ConnectFailed);
        return;
      }
      if script.serverChallenge.None? {
        Abandon(CHALLENGE_READ_FAILED, HandshakeFailed);
        return;
      }
      // Answer the challenge and introduce this node.
      var answer := cfg.hash(cfg.key, script.serverChallenge.value);
      var introduceWithAnswer := cfg.mac + answer;
      if !script.introduceOk {
        Abandon(INTRODUCE_FAILED, HandshakeFailed);
        return;
      }
      trace := trace + [Sent(introduceWithAnswer)];

      faults := 0;
      reportedState := None;
      phase := Serving;
      ghost var serving := Snapshot();
      var i := 0;
      while true
        invariant 0 <= i <= |script.rounds|
        invariant Valid() && phase == Serving
        invariant Served(cfg, serving, script.rounds) == Served(cfg, Snapshot(), script.rounds[i..])
        decreases |script.rounds| - i
      {
        if faults > FAULT_TOLERANCE {
          phase := Closed(FaultLimit);
          break;
        }
        if i == |script.rounds| {
          break;
        }
        assert script.rounds[i..][1..] == script.rounds[i + 1..];
        PlayRound(script.rounds[i]);
        i := i + 1;
        if phase != Serving {
          break;
        }
      }

      power := High;
      reset := High;
      trace := trace + TEARDOWN;
      if phase == Serving {
        phase := Closed(ScriptEnd);
      }
    }
  }
}
