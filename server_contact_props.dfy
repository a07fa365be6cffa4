/**
 * What the command session promises, stated over the functions of
 * `ServerContact` and proved for every script.
 */
module ServerContactProps {
  import opened Wrappers
  import opened Consts
  import opened ChallengeResponse
  import opened ServerContact

  /** Every write before the answer comparison succeeded and a frame arrived. */
  predicate ReachesCheck(r: Round)
  {
    && r.notifierOk
    && r.challengeOk
    && (forall k | 0 <= k < |r.reports| :: r.reports[k].writeOk)
    && r.reply.Frame?
  }

  /** The frame's answer is not the digest of this round's challenge. */
  predicate Rejected(cfg: Config, r: Round)
  {
    ReachesCheck(r) && r.reply.bytes[1..] != cfg.hash(cfg.key, r.rng)
  }

  /** The frame's answer is the digest of this round's challenge. */
  predicate Authenticated(cfg: Config, r: Round)
  {
    ReachesCheck(r) && r.reply.bytes[1..] == cfg.hash(cfg.key, r.rng)
  }

  /** An authenticated power action whose second level read asks for the acknowledgement. */
  predicate AckWanted(cfg: Config, r: Round)
  {
    && Authenticated(cfg, r)
    && ((r.reply.bytes[0] == ACTION_POWER_ON && r.after == High) || (r.reply.bytes[0] == ACTION_POWER_OFF && r.after == Low))
  }

  /** Some read or write of the round fails before the round is over. */
  predicate RoundFails(cfg: Config, r: Round)
  {
    || !r.notifierOk
    || !r.challengeOk
    || (exists k | 0 <= k < |r.reports| :: !r.reports[k].writeOk)
    || r.reply.ReadFailed?
    || (AckWanted(cfg, r) && !r.ackOk)
  }

  /** The payloads of the successful writes among `events`, in order. */
  function Payloads(events: seq<Event>): seq<seq<byte>>
  {
    if events == [] then []
    else (if events[0].Sent? then [events[0].bytes] else []) + Payloads(events[1..])
  }

  /** The one-byte report of each sampled level, in order. */
  function LevelReports(reports: seq<Report>): seq<seq<byte>>
  {
    if reports == [] then [] else [[LevelByte(reports[0].level)]] + LevelReports(reports[1..])
  }

  /** The last reported level after `reports`, starting from `prev`. */
  function LastSample(prev: Option<Level>, reports: seq<Report>): Option<Level>
  {
    if reports == [] then prev else Some(reports[|reports| - 1].level)
  }

  lemma {:induction false} PayloadsAppend(a: seq<Event>, b: seq<Event>)
    ensures Payloads(a + b) == Payloads(a) + Payloads(b)
    decreases |a|
  {
    if a == [] {
      assert a + b == b;
    } else {
      assert (a + b)[0] == a[0] && (a + b)[1..] == a[1..] + b;
      PayloadsAppend(a[1..], b);
    }
  }

  // ---------------------------------------------------------------------
  // The state watcher

  /** Starting while serving, the watcher keeps the session open exactly when all its reports were written. */
  lemma {:induction false} WatchedCompletes(st: Session, reports: seq<Report>)
    requires st.phase == Serving
    ensures Watched(st, reports).phase == Serving <==> forall k | 0 <= k < |reports| :: reports[k].writeOk
    decreases |reports|
  {
    if reports != [] {
      var report := reports[0];
      var waited := if st.reported == Some(report.probe) then [EdgeWait] else [];
      var sampled := st.(reported := Some(report.level), trace := st.trace + waited);
      if report.writeOk {
        WatchedCompletes(sampled.(trace := sampled.trace + [Sent([LevelByte(report.level)])]), reports[1..]);
        assert forall k | 1 <= k < |reports| :: reports[k] == reports[1..][k - 1];
      }
    }
  }

  /** One written report: the sampled level becomes the last reported one and its byte is sent. */
  lemma WatchedStep(st: Session, reports: seq<Report>)
    requires reports != [] && reports[0].writeOk
    ensures var report := reports[0];
      var waited := if st.reported == Some(report.probe) then [EdgeWait] else [];
      Watched(st, reports) ==
        Watched(st.(reported := Some(report.level), trace := st.trace + waited + [Sent([LevelByte(report.level)])]), reports[1..])
  {
  }

  /**
   * When every report is written, the watcher sends exactly one byte per
   * sampled level (1 for High, 0 for Low), in order.
   */
  lemma {:induction false} WatchedReportsLevels(st: Session, reports: seq<Report>)
    requires forall k | 0 <= k < |reports| :: reports[k].writeOk
    ensures Payloads(Watched(st, reports).trace[|st.trace|..]) == LevelReports(reports)
    decreases |reports|
  {
    if reports != [] {
      var report := reports[0];
      var waited := if st.reported == Some(report.probe) then [EdgeWait] else [];
      var step := waited + [Sent([LevelByte(report.level)])];
      var next := st.(reported := Some(report.level), trace := st.trace + waited + [Sent([LevelByte(report.level)])]);
      assert next.trace == st.trace + step;
      WatchedStep(st, reports);
      var done := Watched(next, reports[1..]);
      assert forall k | 0 <= k < |reports[1..]| :: reports[1..][k].writeOk;
      WatchedReportsLevels(next, reports[1..]);
      var rest := done.trace[|next.trace|..];
      TraceSplit(st.trace, step, done.trace);
      StepPayloads(waited, report.level);
      PayloadsAppend(step, rest);
      assert Payloads(done.trace[|st.trace|..]) == [[LevelByte(report.level)]] + LevelReports(reports[1..]);
    }
  }

  /** A trace extended by `step` and then by more: what follows the start is `step`, then the rest. */
  lemma TraceSplit(start: seq<Event>, step: seq<Event>, full: seq<Event>)
    requires start + step <= full
    ensures full[|start|..] == step + full[|start + step|..]
  {
  }

  /** A report step, with or without an edge wait before it, sends exactly the level's byte. */
  lemma StepPayloads(waited: seq<Event>, level: Level)
    requires waited == [] || waited == [EdgeWait]
    ensures Payloads(waited + [Sent([LevelByte(level)])]) == [[LevelByte(level)]]
  {
    PayloadsAppend(waited, [Sent([LevelByte(level)])]);
  }

  /** When every report is written, the last reported level is the last one sampled, or the previous one if none was. */
  lemma {:induction false} WatchedKeepsLastSample(st: Session, reports: seq<Report>)
    requires forall k | 0 <= k < |reports| :: reports[k].writeOk
    ensures Watched(st, reports).reported == LastSample(st.reported, reports)
    decreases |reports|
  {
    if reports != [] {
      var report := reports[0];
      var waited := if st.reported == Some(report.probe) then [EdgeWait] else [];
      var next := st.(reported := Some(report.level), trace := st.trace + waited + [Sent([LevelByte(report.level)])]);
      WatchedStep(st, reports);
      assert forall k | 0 <= k < |reports[1..]| :: reports[1..][k].writeOk;
      WatchedKeepsLastSample(next, reports[1..]);
      if |reports| > 1 {
        assert reports[1..][|reports[1..]| - 1] == reports[|reports| - 1];
      }
    }
  }

  /**
   * The watcher waits for an edge before its first report exactly when the
   * level it reads equals the last reported one; with nothing reported yet it
   * reports at once.
   */
  lemma WatcherWaitsOnlyOnUnchangedLevel(st: Session, reports: seq<Report>)
    requires reports != []
    ensures |Watched(st, reports).trace| > |st.trace|
    ensures Watched(st, reports).trace[|st.trace|] == EdgeWait <==> st.reported == Some(reports[0].probe)
    ensures st.reported == None && reports[0].writeOk ==>
              Watched(st, reports).trace[|st.trace|] == Sent([LevelByte(reports[0].level)])
  {
  }

  // ---------------------------------------------------------------------
  // One round

  /** The fault counter grows by one exactly when the round's frame carries a wrong answer. */
  lemma RoundCountsFault(cfg: Config, st: Session, r: Round)
    requires st.phase == Serving
    ensures AfterRound(cfg, st, r).faults == st.faults + (if Rejected(cfg, r) then 1 else 0)
  {
    if r.notifierOk && r.challengeOk {
      WatchedCompletes(st.(trace := st.trace + [Sent([NOTIFIER]), Sent(r.rng)]), r.reports);
    }
  }

  /** A round ends the session with an I/O error exactly when one of its reads or writes fails. */
  lemma RoundBreaksOnIoError(cfg: Config, st: Session, r: Round)
    requires st.phase == Serving
    ensures AfterRound(cfg, st, r).phase == Closed(IoError) <==> RoundFails(cfg, r)
  {
    if r.notifierOk && r.challengeOk {
      var announced := st.(trace := st.trace + [Sent([NOTIFIER]), Sent(r.rng)]);
      WatchedCompletes(announced, r.reports);
    }
  }

  /** A round that gets its writes out starts with the notifier byte 2 and then that round's fresh challenge. */
  lemma RoundAnnouncesChallenge(cfg: Config, st: Session, r: Round)
    requires st.phase == Serving && r.notifierOk && r.challengeOk
    ensures |AfterRound(cfg, st, r).trace| >= |st.trace| + 2
    ensures AfterRound(cfg, st, r).trace[|st.trace|..|st.trace| + 2] == [Sent([NOTIFIER]), Sent(r.rng)]
  {
    var announced := st.(trace := st.trace + [Sent([NOTIFIER]), Sent(r.rng)]);
    var s := AfterRound(cfg, st, r);
    assert announced.trace <= s.trace;
    assert s.trace[|st.trace|..|st.trace| + 2] == announced.trace[|st.trace|..];
  }

  /**
   * A frame with a wrong answer moves no relay, keeps the session serving,
   * and its action byte is never looked at: any other action byte gives the
   * same outcome. After the watcher's own reports, the round adds only the
   * log line of the failure: no relay event and no write.
   */
  lemma RejectedFrameIgnoresAction(cfg: Config, st: Session, r: Round, action: byte)
    requires st.phase == Serving && Rejected(cfg, r)
    ensures var s := AfterRound(cfg, st, r);
      s.power == st.power && s.reset == st.reset && s.phase == Serving && s.faults == st.faults + 1
    ensures var announced := st.(trace := st.trace + [Sent([NOTIFIER]), Sent(r.rng)]);
      AfterRound(cfg, st, r).trace == Watched(announced, r.reports).trace + [Log(SERVER_FAILED)]
    ensures AfterRound(cfg, st, r) == AfterRound(cfg, st, r.(reply := Frame([action] + r.reply.bytes[1..])))
  {
    RoundCountsFault(cfg, st, r);
    var r' := r.(reply := Frame([action] + r.reply.bytes[1..]));
    assert r'.reply.bytes[1..] == r.reply.bytes[1..];
    assert Rejected(cfg, r');
    var announced := st.(trace := st.trace + [Sent([NOTIFIER]), Sent(r.rng)]);
    WatchedCompletes(announced, r.reports);
  }

  /**
   * An answer computed for any other challenge (an earlier round's, say) is a
   * fault in this round, whatever it would have been worth before.
   */
  lemma StaleAnswerRejected(cfg: Config, st: Session, r: Round, earlier: Challenge)
    requires st.phase == Serving && ReachesCheck(r)
    requires r.reply.bytes[1..] == cfg.hash(cfg.key, earlier)
    requires cfg.hash(cfg.key, earlier) != cfg.hash(cfg.key, r.rng)
    ensures AfterRound(cfg, st, r).faults == st.faults + 1
    ensures AfterRound(cfg, st, r).power == st.power && AfterRound(cfg, st, r).reset == st.reset
  {
    RoundCountsFault(cfg, st, r);
  }

  /**
   * The last reported level carries over from one round to the next: a round
   * changes it only through the watcher's reports.
   */
  lemma RoundKeepsLastReport(cfg: Config, st: Session, r: Round)
    requires st.phase == Serving
    requires r.notifierOk && r.challengeOk && forall k | 0 <= k < |r.reports| :: r.reports[k].writeOk
    ensures AfterRound(cfg, st, r).reported == LastSample(st.reported, r.reports)
  {
    var announced := st.(trace := st.trace + [Sent([NOTIFIER]), Sent(r.rng)]);
    WatchedKeepsLastSample(announced, r.reports);
    WatchedCompletes(announced, r.reports);
  }

  // ---------------------------------------------------------------------
  // Dispatch

  /** The events a power action adds: the press, if wanted, then the acknowledgement or the log of its failure, if wanted. */
  lemma PowerActionEvents(cfg: Config, st: Session, pressWhen: Level, before: Level, after: Level, ackOk: bool)
    ensures var s := PowerAction(cfg, st, pressWhen, before, after, ackOk);
      && s.trace == st.trace + (if before == pressWhen then PowerPulse(cfg) else [])
                             + (if after == pressWhen then [] else if ackOk then [Sent([ACK])] else [Log(EXCHANGE_FAILED)])
      && s.power == (if before == pressWhen then cfg.deactivate else st.power)
      && s.reset == st.reset
      && s.phase == (if after != pressWhen && !ackOk then Closed(IoError) else st.phase)
  {
  }

  /** The consequences of `PowerActionEvents` for the machine level at which a press is wanted. */
  lemma PowerActionIsIdempotent(cfg: Config, st: Session, pressWhen: Level, before: Level, after: Level, ackOk: bool)
    ensures var s := PowerAction(cfg, st, pressWhen, before, after, ackOk);
      && (before != pressWhen ==> s.power == st.power && forall e | e in s.trace[|st.trace|..] :: !e.SetPower?)
      && (before == pressWhen ==> s.power == cfg.deactivate && s.trace[|st.trace|..][..3] == PowerPulse(cfg))
      && (Sent([ACK]) in s.trace[|st.trace|..] <==> after != pressWhen && ackOk)
  {
    PowerActionEvents(cfg, st, pressWhen, before, after, ackOk);
    var s := PowerAction(cfg, st, pressWhen, before, after, ackOk);
    var press := if before == pressWhen then PowerPulse(cfg) else [];
    var answer := if after == pressWhen then [] else if ackOk then [Sent([ACK])] else [Log(EXCHANGE_FAILED)];
    assert s.trace[|st.trace|..] == press + answer;
    assert Sent([ACK]) !in press;
    assert Sent([ACK]) in answer <==> after != pressWhen && ackOk;
  }

  /** Power on presses the relay only when the machine reads Low, and acknowledges only when it reads High. */
  lemma PowerOnIsIdempotent(cfg: Config, st: Session, before: Level, after: Level, ackOk: bool)
    ensures var s := Dispatched(cfg, st, ACTION_POWER_ON, before, after, ackOk);
      && (before == High ==> s.power == st.power && forall e | e in s.trace[|st.trace|..] :: !e.SetPower?)
      && (before == Low ==> s.power == cfg.deactivate && s.trace[|st.trace|..][..3] == PowerPulse(cfg))
      && (Sent([ACK]) in s.trace[|st.trace|..] <==> after == High && ackOk)
      && s.reset == st.reset
      && s.phase == (if after == High && !ackOk then Closed(IoError) else st.phase)
  {
    PowerActionEvents(cfg, st, Low, before, after, ackOk);
    PowerActionIsIdempotent(cfg, st, Low, before, after, ackOk);
  }

  /** Power off is the mirror: it presses only when the machine reads High and acknowledges only when it reads Low. */
  lemma PowerOffIsIdempotent(cfg: Config, st: Session, before: Level, after: Level, ackOk: bool)
    ensures var s := Dispatched(cfg, st, ACTION_POWER_OFF, before, after, ackOk);
      && (before == Low ==> s.power == st.power && forall e | e in s.trace[|st.trace|..] :: !e.SetPower?)
      && (before == High ==> s.power == cfg.deactivate && s.trace[|st.trace|..][..3] == PowerPulse(cfg))
      && (Sent([ACK]) in s.trace[|st.trace|..] <==> after == Low && ackOk)
      && s.reset == st.reset
      && s.phase == (if after == Low && !ackOk then Closed(IoError) else st.phase)
  {
    PowerActionEvents(cfg, st, High, before, after, ackOk);
    PowerActionIsIdempotent(cfg, st, High, before, after, ackOk);
  }

  /** Reset pulls the reset line low and back high whatever the machine reads, and never touches the power relay. */
  lemma ResetAlwaysPulses(cfg: Config, st: Session, before: Level, after: Level, ackOk: bool)
    ensures var s := Dispatched(cfg, st, ACTION_RESET, before, after, ackOk);
      s.trace == st.trace + RESET_PULSE && s.reset == High && s.power == st.power && s.phase == st.phase
  {
  }

  /** Any other action byte with a valid answer changes nothing and is no fault. */
  lemma UnknownActionIgnored(cfg: Config, st: Session, action: byte, before: Level, after: Level, ackOk: bool)
    requires action !in {ACTION_POWER_ON, ACTION_POWER_OFF, ACTION_RESET}
    ensures Dispatched(cfg, st, action, before, after, ackOk) == st
  {
  }

  // ---------------------------------------------------------------------
  // The serving loop

  /** Serving a script in two parts is serving it whole. */
  lemma {:induction false} ServedAppend(cfg: Config, st: Session, a: seq<Round>, b: seq<Round>)
    ensures Served(cfg, st, a + b) == Served(cfg, Served(cfg, st, a), b)
    decreases |a|
  {
    if st.phase == Serving && st.faults <= FAULT_TOLERANCE && a != [] {
      assert (a + b)[0] == a[0] && (a + b)[1..] == a[1..] + b;
      ServedAppend(cfg, AfterRound(cfg, st, a[0]), a[1..], b);
    } else if st.phase == Serving && st.faults <= FAULT_TOLERANCE {
      assert a + b == b;
    }
  }

  /**
   * Rounds whose answers are all wrong each add one fault and keep the
   * session serving until the tolerance is exceeded.
   */
  lemma {:induction false} RejectionsCount(cfg: Config, st: Session, rounds: seq<Round>, k: nat)
    requires st.phase == Serving
    requires k <= |rounds| && st.faults + k <= FAULT_TOLERANCE + 1
    requires forall i | 0 <= i < k :: Rejected(cfg, rounds[i])
    ensures Served(cfg, st, rounds[..k]).faults == st.faults + k
    ensures Served(cfg, st, rounds[..k]).phase ==
              if st.faults + k <= FAULT_TOLERANCE then Serving else Closed(FaultLimit)
    decreases k
  {
    if k > 0 {
      var next := AfterRound(cfg, st, rounds[0]);
      RoundCountsFault(cfg, st, rounds[0]);
      RoundBreaksOnIoError(cfg, st, rounds[0]);
      assert rounds[..k][0] == rounds[0];
      assert rounds[..k][1..] == rounds[1..][..k - 1];
      assert forall i | 0 <= i < k - 1 :: rounds[1..][i] == rounds[i + 1];
      RejectionsCount(cfg, next, rounds[1..], k - 1);
    }
  }

  /**
   * With a tolerance of 10, the eleventh wrong answer in a row ends the
   * session: the fault limit closes it and no later round is played.
   */
  lemma EleventhRejectionCloses(cfg: Config, st: Session, rounds: seq<Round>)
    requires st.phase == Serving && st.faults == 0
    requires |rounds| >= FAULT_TOLERANCE + 1
    requires forall i | 0 <= i <= FAULT_TOLERANCE :: Rejected(cfg, rounds[i])
    ensures Served(cfg, st, rounds).phase == Closed(FaultLimit)
    ensures Served(cfg, st, rounds).faults == FAULT_TOLERANCE + 1
    ensures Served(cfg, st, rounds) == Served(cfg, st, rounds[..FAULT_TOLERANCE + 1])
  {
    var n := FAULT_TOLERANCE + 1;
    RejectionsCount(cfg, st, rounds, n);
    assert rounds == rounds[..n] + rounds[n..];
    ServedAppend(cfg, st, rounds[..n], rounds[n..]);
  }

  /** Ten wrong answers alone do not end the session: the next round is still played. */
  lemma TenRejectionsKeepServing(cfg: Config, st: Session, rounds: seq<Round>)
    requires st.phase == Serving && st.faults == 0
    requires |rounds| > FAULT_TOLERANCE
    requires forall i | 0 <= i < FAULT_TOLERANCE :: Rejected(cfg, rounds[i])
    ensures var afterTen := Served(cfg, st, rounds[..FAULT_TOLERANCE]);
      && afterTen.phase == Serving
      && afterTen.faults == FAULT_TOLERANCE
      && Served(cfg, st, rounds) ==
           Served(cfg, AfterRound(cfg, afterTen, rounds[FAULT_TOLERANCE]), rounds[FAULT_TOLERANCE + 1..])
  {
    var n := FAULT_TOLERANCE;
    RejectionsCount(cfg, st, rounds, n);
    assert rounds == rounds[..n] + rounds[n..];
    ServedAppend(cfg, st, rounds[..n], rounds[n..]);
    assert rounds[n..][1..] == rounds[n + 1..];
  }

  // ---------------------------------------------------------------------
  // The whole session

  /**
   * After connecting and reading the server's 32-byte challenge, the first
   * thing the node writes is a 38-byte frame: its MAC, then the keyed digest of
   * that challenge.
   */
  lemma HandshakeIntroduction(cfg: Config, st: Session, script: Script)
    requires script.connectOk && script.serverChallenge.Some? && script.introduceOk
    ensures var s := Outcome(cfg, st, script);
      && |s.trace| > |st.trace|
      && s.trace[|st.trace|].Sent?
      && var frame := s.trace[|st.trace|].bytes;
      && |frame| == 6 + ANSWER_LENGTH
      && frame[..6] == cfg.mac
      && frame[6..] == cfg.hash(cfg.key, script.serverChallenge.value)
  {
    var c := script.serverChallenge.value;
    var introduced := st.(phase := Serving, faults := 0, reported := None,
                          trace := st.trace + [Sent(cfg.mac + cfg.hash(cfg.key, c))]);
    var served := Served(cfg, introduced, script.rounds);
    assert introduced.trace <= served.trace;
    assert Outcome(cfg, st, script).trace == served.trace + TEARDOWN;
  }

  /**
   * The session's frames are within the 150-byte action budget, and so fit
   * the socket's buffers: the 38-byte introduction, the server's 32-byte
   * challenge, a round's 32-byte challenge and the 33-byte command frame.
   */
  lemma SessionFramesFitBudget(cfg: Config, serverChallenge: Challenge, rng: Challenge, frame: CommandFrame)
    ensures var intro := cfg.mac + cfg.hash(cfg.key, serverChallenge);
      && |intro| <= ACTION_BUDGET && |serverChallenge| <= ACTION_BUDGET && |rng| <= ACTION_BUDGET && |frame| <= ACTION_BUDGET
      && |intro| <= STACK_BUFFER_SIZE && |serverChallenge| <= STACK_BUFFER_SIZE && |rng| <= STACK_BUFFER_SIZE && |frame| <= STACK_BUFFER_SIZE
  {
    BudgetFitsStackBuffer(|cfg.mac + cfg.hash(cfg.key, serverChallenge)|);
    BudgetFitsStackBuffer(|frame|);
  }

  /**
   * If connecting, reading the challenge or writing the introduction fails,
   * the session logs, closes the socket and returns: no relay moves and
   * nothing is written.
   */
  lemma HandshakeFailureSparesRelays(cfg: Config, st: Session, script: Script)
    requires !script.connectOk || script.serverChallenge.None? || !script.introduceOk
    ensures var s := Outcome(cfg, st, script);
      && s.power == st.power && s.reset == st.reset
      && |s.trace| == |st.trace| + 4
      && s.trace[|st.trace|].Log? && s.trace[|st.trace| + 1..] == [Flush, Abort, Close]
      && (s.phase == Closed(ConnectFailed) || s.phase == Closed(HandshakeFailed))
  {
  }

  /**
   * However a session that got through the handshake ends (fault limit, I/O
   * error or the server going away), both relay outputs end high and the
   * last things done are driving them high and closing the socket.
   */
  lemma SessionEndsSafe(cfg: Config, st: Session, script: Script)
    requires script.connectOk && script.serverChallenge.Some? && script.introduceOk
    ensures var s := Outcome(cfg, st, script);
      && s.power == High && s.reset == High
      && s.phase.Closed?
      && |s.trace| >= 5 && s.trace[|s.trace| - 5..] == TEARDOWN
      && s.faults <= FAULT_TOLERANCE + 1
  {
  }
}
