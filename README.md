# pibow node firmware — a verified model

pibow is firmware for a Wi-Fi microcontroller board. The board sits next to a
machine and drives two relays wired to the machine's power and reset buttons.
It reads the machine's power-state line and takes commands from a trusted
server. This project models the deterministic cores of that firmware and of
its build script in Dafny, and proves what they promise. The network, GPIO,
random source and BLAKE3 are abstracted into scripted inputs and recorded
events.

The modules follow the source files:

| module | file | what it models |
|---|---|---|
| `Consts` | `consts.dfy` | `src/consts.rs`: ports, multicast group, key placeholder, tolerance, buffer size, and the arithmetic facts about them |
| `ChallengeResponse` | `challenge_response.dfy` | the 32-byte challenge and digest types, with the keyed hash as a function value |
| `ServerContact` | `server_contact.dfy` | `src/phases/server_contact.rs`: the command session. It is specified by pure functions (`Outcome`, `Served`, `AfterRound`, `Watched`, `Dispatched`) and implemented by the class `Node`, whose methods update its `faults`, `reportedState`, relay and trace fields and are proved equal to those functions |
| `ServerContactProps` | `server_contact_props.dfy` | the session's properties: handshake, fault counting, idempotent power actions, watcher reports, safe teardown |
| `Sockets` | `sockets.dfy` | the TCP calls of the listeners as trace events, and the scripted outcome of a connection attempt |
| `ListenAnswer` | `listen_answer.dfy` | `src/phases/listen_answer.rs`: the accept loop for a bare 32-byte answer |
| `NodeControl` | `node_control.dfy` | `src/phases/node_control.rs`: the older accept loop for a `[69, 1] ++ answer` claim |
| `Beacon` | `beacon.dfy` | what both beacons share: UDP/GPIO events, the 130-byte signal, Rust's `copy_from_slice` |
| `PokeServer`, `CastNode` | `poke_server.dfy`, `cast_node.dfy` | `src/phases/poke_server.rs`, `src/phases/cast_node.rs`: the discovery beacons, as written and as evidently intended |
| `Board` | `board.dfy` | `src/phases/board.rs`: `serial_log`, the 8-slot `SERIAL_CHANNEL`, and packet framing and heartbeats in `serial_logger_task` |
| `BuildScript` | `build_script.dfy` | `build.py`: the apply and revert line-rewrite passes over `src/consts.rs` |

Environment inputs are explicit arguments:
- A session is driven by a `Script`: connect, read and write results, the server's challenge, the random bytes of each round, watcher samples, the reply frame, and the levels read while dispatching.
- The listeners take a sequence of connection `Attempt`s.
- The beacons take the number of loop iterations (`ticks`).
- The logger takes an interleaving of `serial_log` calls and logger wake-ups.
- `ACTIVATE_RELAY` and `DEACTIVATE_RELAY` are imported by `server_contact.rs` but defined nowhere in the source. They are fields of `ServerContact.Config`.
- `ANSWER_LENGTH` is 32, forced by the conversion into a 32-byte hash at `server_contact.rs:157-159`.

Where the written description of the protocol and the code differ, the model follows the code:
- The state watcher writes a report at once when nothing has been reported yet. It does not wait for a first change.
- After waiting for an edge, the watcher reports whatever level it then reads.
- The last reported level persists across rounds. It is reset only at the start of a session.
- The teardown after the handshake drives both relays with `set_high`, not with `DEACTIVATE_RELAY`.
- A failed connect, challenge read or introduction returns without touching either relay.
- Reset drives the reset line with `set_low` then `set_high`, whatever the relay polarity constants are.
- A power action reads the level twice. The first read decides whether to press; the second decides whether to send the ack byte. So a press can be followed by an ack.
- In `node_control.rs` an accepted claim sends the cancel signal and the loop goes on. The connection is not closed, and the same call can send the signal once per accepted claim.

## Model

| member | source | states |
|---|---|---|
| Consts.OctetsRoundTrip | src/consts.rs:10 | reading a u32 address as four big-endian octets and packing them again gives the same address |
| Consts.FromOctetsRoundTrip | src/consts.rs:10 | packing four octets into a u32 and unpacking gives the same octets |
| Consts.MulticastAddressIs224_0_0_127 | src/consts.rs:10 | MULTICAST_IP 3758096511 is 224·2^24 + 127, i.e. 224.0.0.127 read big-endian |
| Consts.MulticastInLocalNetworkControlBlock | src/consts.rs:10 | the group lies in 224.0.0.0/24, the Local Network Control Block of section 4 of RFC 5771 |
| Consts.SecretKeyIsZeroPlaceholder | src/consts.rs:5 | the committed key is exactly 32 bytes, all zero |
| Consts.BudgetFitsStackBuffer | src/consts.rs:22-24 | anything within the stated 150-byte action budget fits in the 512-byte socket buffer |
| ServerContact.Watched | src/phases/server_contact.rs:119-145 | the watcher never touches faults or relays, only appends to the trace, and can only end the session with an I/O error |
| ServerContact.Dispatched | src/phases/server_contact.rs:168-211 | an authenticated action never changes faults or the last report; only reset moves the reset relay, only power on/off move the power relay |
| ServerContact.AfterRound | src/phases/server_contact.rs:88-166 | a round adds at most one fault; a faulting round keeps serving and moves no relay; a round ends serving or closed by an I/O error |
| ServerContact.Served | src/phases/server_contact.rs:82-212 | faults never decrease and never exceed tolerance + 1; a session still serving has at most 10 faults; it ends serving, on an I/O error, or at the fault limit |
| ServerContact.Node.constructor | src/phases/server_contact.rs:22-29 | a node starts idle, with no faults, nothing reported and an empty trace |
| ServerContact.Node.DrawChallenge | src/phases/server_contact.rs:89-91 | the challenge buffer is refilled byte by byte with the round's random bytes |
| ServerContact.Node.Abandon | src/phases/server_contact.rs:35-69 | an early return logs, flushes, aborts and closes, and leaves the relays alone |
| ServerContact.Node.Break | src/phases/server_contact.rs:94-101 | leaving the loop on an I/O error logs and closes the session with an I/O error |
| ServerContact.Node.WatchState | src/phases/server_contact.rs:119-145 | the watcher loop leaves the node in the state `Watched` specifies |
| ServerContact.Node.DispatchAction | src/phases/server_contact.rs:168-211 | the dispatch leaves the node in the state `Dispatched` specifies |
| ServerContact.Node.PlayRound | src/phases/server_contact.rs:88-211 | a round leaves the node in the state `AfterRound` specifies |
| ServerContact.Node.Invoke | src/phases/server_contact.rs:22-219 | the whole session leaves the node in the state `Outcome` specifies |
| ServerContactProps.WatchedCompletes | src/phases/server_contact.rs:140-155 | the watcher keeps the session serving if and only if every report is written |
| ServerContactProps.WatchedReportsLevels | src/phases/server_contact.rs:129-143 | with every write succeeding, the watcher sends exactly one byte per sample, 1 for High and 0 for Low, in order |
| ServerContactProps.WatchedKeepsLastSample | src/phases/server_contact.rs:129-143 | with every write succeeding, the last reported level is the last sample, or the earlier one when there was no sample |
| ServerContactProps.WatcherWaitsOnlyOnUnchangedLevel | src/phases/server_contact.rs:121-131 | the watcher waits for an edge if and only if the level read equals the last report; with nothing reported it reports at once |
| ServerContactProps.RoundCountsFault | src/phases/server_contact.rs:162-166 | the fault counter grows by exactly one when the frame's answer is not the digest of the round's challenge, and by zero otherwise |
| ServerContactProps.RoundBreaksOnIoError | src/phases/server_contact.rs:94-155 | a round closes the session with an I/O error if and only if one of its reads or writes fails |
| ServerContactProps.RoundAnnouncesChallenge | src/phases/server_contact.rs:89-101 | every round writes the notifier byte 2 and then that round's freshly drawn 32-byte challenge |
| ServerContactProps.RejectedFrameIgnoresAction | src/phases/server_contact.rs:157-169 | a frame with a wrong answer moves no relay and counts a fault; after the watcher's reports the round adds only the failure's log line, so no relay event and no write; the same frame with any other action byte has the same outcome |
| ServerContactProps.StaleAnswerRejected | src/phases/server_contact.rs:157-166 | a frame is checked only against the digest of this round's challenge; an answer for another challenge is a fault |
| ServerContactProps.RoundKeepsLastReport | src/phases/server_contact.rs:129-131 | the last reported level carries from one round to the next and changes only through the watcher's samples |
| ServerContactProps.PowerActionEvents | src/phases/server_contact.rs:173-205 | a power action appends the relay press when the first read asks for it, then the ack or the failure log when the second read asks for it |
| ServerContactProps.PowerActionIsIdempotent | src/phases/server_contact.rs:173-205 | no power event without the wanted first read; the press is activate, 500 ms, deactivate; the ack is sent if and only if the second read wants it and the write succeeds |
| ServerContactProps.PowerOnIsIdempotent | src/phases/server_contact.rs:173-188 | power on presses only when the first read is Low and acknowledges only when the second read is High; a failed ack write ends the session |
| ServerContactProps.PowerOffIsIdempotent | src/phases/server_contact.rs:190-205 | power off presses only when the first read is High and acknowledges only when the second read is Low |
| ServerContactProps.ResetAlwaysPulses | src/phases/server_contact.rs:207-211 | reset drives the reset line low, waits 500 ms and drives it high, whatever the levels; the power relay is untouched |
| ServerContactProps.UnknownActionIgnored | src/phases/server_contact.rs:168-212 | any other action byte with a valid answer changes nothing and is no fault |
| ServerContactProps.RejectionsCount | src/phases/server_contact.rs:82-166 | k wrong answers in a row add k faults; the session stays serving while faults are at most 10 and closes at the fault limit after that |
| ServerContactProps.EleventhRejectionCloses | src/phases/server_contact.rs:84-86 | the eleventh wrong answer closes the session at the fault limit, and no later round is played |
| ServerContactProps.TenRejectionsKeepServing | src/phases/server_contact.rs:84-86 | after ten wrong answers the session still serves and plays the next round |
| ServerContactProps.SessionFramesFitBudget | src/consts.rs:22-24 | the session's frames (the 38-byte introduction, the two 32-byte challenges, the 33-byte command frame) are within the 150-byte budget and so fit the socket buffer |
| ServerContactProps.HandshakeIntroduction | src/phases/server_contact.rs:47-63 | the first write is 38 bytes: the MAC in bytes 0-5 and the keyed digest of the server's challenge in bytes 6-37 |
| ServerContactProps.HandshakeFailureSparesRelays | src/phases/server_contact.rs:35-69 | a failed connect, challenge read or introduction logs, closes the socket and returns with both relays untouched |
| ServerContactProps.SessionEndsSafe | src/phases/server_contact.rs:214-218 | however a session past the handshake ends, both relays end high, and driving them high and closing the socket are the last things done |
| ListenAnswer.FirstMatch | src/phases/listen_answer.rs:22-43 | the index found is that of a matching claim, and every earlier attempt fails to match |
| ListenAnswer.Pass | src/phases/listen_answer.rs:23-54 | one pass makes the calls of its attempt: a failed accept is retried at once, a failed read or a wrong answer drops the connection, a match reads the peer, drops the connection and sends the cancel; the peer is returned exactly on a match |
| ListenAnswer.Invoke | src/phases/listen_answer.rs:9-56 | an address is returned if and only if some claim matches; it is the peer of the first match; the socket calls are those of the passes up to that match |
| ListenAnswer.CancelSentOnceAfterMatch | src/phases/listen_answer.rs:12-52 | the cancel signal is sent exactly once when a claim matches, and never otherwise |
| ListenAnswer.CancelIsLast | src/phases/listen_answer.rs:45-54 | the cancel signal, when sent, is the last call the listener makes |
| ListenAnswer.MatchEndsWithCancel | src/phases/listen_answer.rs:45-54 | on a match the peer address is read, then the socket is flushed, aborted and closed, then the cancel is sent |
| ListenAnswer.AcceptsUntilMatch | src/phases/listen_answer.rs:22-25 | without a match the listener calls accept once per attempt and never gives up |
| NodeControl.Invoke | src/phases/node_control.rs:10-49 | the loop's socket calls are those of every pass, in order |
| NodeControl.ClaimFitsBudget | src/consts.rs:22-24 | a 34-byte claim is within the 150-byte budget and so fits the socket buffer |
| NodeControl.ValidClaimIsHeaderThenAnswer | src/phases/node_control.rs:27-38 | a 34-byte claim is accepted if and only if it is [69, 1] followed by the expected answer |
| NodeControl.PassCancel | src/phases/node_control.rs:21-48 | each pass sets the timeout once and accepts once, and sends the cancel once if its claim is accepted and never otherwise |
| NodeControl.CancelPerAcceptedClaim | src/phases/node_control.rs:45-48 | the cancel is sent exactly as often as a claim is accepted |
| NodeControl.TimeoutAndAcceptEveryPass | src/phases/node_control.rs:21-25 | the 10 s timeout is set, and accept is called, once per pass |
| NodeControl.ClosedIffRejected | src/phases/node_control.rs:36-47 | a connection whose claim was read is closed if and only if the claim is rejected; the cancel is sent if and only if it is accepted |
| Beacon.CopyFromSlice | src/phases/poke_server.rs:33 | the copy succeeds if and only if the lengths are equal, and then the buffer is the source; otherwise nothing is written |
| Beacon.CopiedReplacesWholeBuffer | src/phases/poke_server.rs:33 | a successful copy overwrites every byte of the destination |
| Beacon.BeaconFrameFitsBudget | src/consts.rs:22-24 | the intended 130-byte signal is within the 150-byte budget and so fits the UDP socket buffer |
| Beacon.BeaconFrameRoundTrip | src/phases/poke_server.rs:29-33 | the intended signal carries the header 69, 0, the challenge is read back from bytes 2-129, and a signal with that header is rebuilt from its challenge |
| PokeServer.Invoke | src/phases/poke_server.rs:8-39 | the beacon binds NODE_PORT, then copies the challenge over the 130-byte buffer; it panics unless the lengths agree, and otherwise sends the buffer every 2 s |
| PokeServer.IntendedInvoke | src/phases/poke_server.rs:29-33 | the corrected beacon sends the header followed by the challenge on every iteration |
| PokeServer.PokeLoopIsPeriodic | src/phases/poke_server.rs:35-38 | each iteration sends the same frame to MULTICAST_IP:MULTICAST_PORT, then sleeps 2 s |
| PokeServer.PokeLoopOnlySendsAndSleeps | src/phases/poke_server.rs:35-38 | the loop does nothing but send and sleep: no send error stops it and it never returns |
| PokeServer.DeclaredChallengePanics | src/phases/poke_server.rs:8-33 | with the declared 128-byte challenge the beacon binds and panics; nothing is ever sent |
| PokeServer.HeaderDoesNotSurviveCopy | src/phases/poke_server.rs:30-33 | even at equal lengths every frame sent is the challenge itself; it has the header only if the challenge starts with 69, 0 |
| PokeServer.IntendedFramesCarryChallenge | src/phases/poke_server.rs:29-38 | every frame the corrected beacon sends is 130 bytes, has the header and carries the challenge |
| CastNode.Invoke | src/phases/cast_node.rs:9-41 | the earlier beacon binds 5325, then copies the challenge over the buffer; it panics unless the lengths agree, and otherwise runs the LED and send loop |
| CastNode.IntendedInvoke | src/phases/cast_node.rs:28-40 | the corrected earlier beacon sends the header followed by the challenge on every iteration |
| CastNode.LiteralsMatchSharedConstants | src/phases/cast_node.rs:22-26 | the hard-coded port 5325 and destination 224.0.0.127:4265 equal NODE_PORT, MULTICAST_IP and MULTICAST_PORT |
| CastNode.CastLoopIsPeriodic | src/phases/cast_node.rs:34-40 | each iteration is GPIO 0 on, send, 1 s, GPIO 0 off, 1 s |
| CastNode.CastLoopSendsFrame | src/phases/cast_node.rs:34-40 | the loop sends only the frame it was given |
| CastNode.DeclaredChallengePanics | src/phases/cast_node.rs:9-32 | with the declared 128-byte challenge the earlier beacon binds and panics |
| CastNode.HeaderDoesNotSurviveCopy | src/phases/cast_node.rs:29-32 | even at equal lengths every frame sent is the challenge itself |
| CastNode.IntendedFramesCarryChallenge | src/phases/cast_node.rs:28-40 | every frame the corrected earlier beacon sends has the header and carries the challenge |
| Board.SerialChannel.constructor | src/phases/board.rs:37 | the channel starts empty |
| Board.SerialChannel.TrySend | src/phases/board.rs:87 | a message is appended if and only if fewer than 8 are queued; the queue never exceeds 8 |
| Board.SerialChannel.ReceiveWithTimeout | src/phases/board.rs:46-51 | the oldest message is taken out, or nothing when the channel is empty (the 5 s timeout) |
| Board.SerialLog | src/phases/board.rs:85-89 | `serial_log` never blocks: the message is appended only if it has at most 256 bytes and a slot is free, and is dropped otherwise |
| Board.FramePacket | src/phases/board.rs:53-58 | the packet is built in the 258-byte buffer with every store in bounds: the message's first min(len, 256) bytes, then CR LF |
| Board.SerialLoggerTask | src/phases/board.rs:40-82 | the logger and its producers leave the channel and the USB writes as the step function `Run` says |
| Board.LoggedAppendsIffFits | src/phases/board.rs:85-89 | logging appends if and only if the message fits a slot and a slot is free; the 8-slot bound is kept |
| Board.LogAllKeepsFirstShortMessages | src/phases/board.rs:85-89 | a burst of logs with nothing received queues its messages of at most 256 bytes, in order, until the 8 slots are full, and drops the rest |
| Board.PacketFraming | src/phases/board.rs:53-60 | a packet is at most 258 bytes and ends in CR LF; a message of at most 256 bytes is framed as itself plus 2 bytes and read back unchanged |
| Board.RunIsFifo | src/phases/board.rs:37-56 | the channel is FIFO: the messages queued are those taken out, in order, followed by those still queued |
| Board.RunWritesOnlyPackets | src/phases/board.rs:52-71 | every USB write is the heartbeat or the packet of a message taken out of the channel, and fits the 258-byte buffer |
| Board.RunTracksConnection | src/phases/board.rs:41-77 | the logger keeps writing after success or BufferOverflow, and waits for a connection again after Disabled |
| Board.HeartbeatOnlyWhenEmpty | src/phases/board.rs:46-71 | the heartbeat "1\r\n" is written only when the channel is empty (or the message itself frames to it); otherwise the write is the packet of the oldest message, which is taken out |
| Board.StepWritesTakenMessage | src/phases/board.rs:46-71 | a step writes the packet of the message it takes out, if any, and no other message packet |
| Board.RunWritesTakenMessagesInOrder | src/phases/board.rs:40-77 | over any run, the packets written other than the heartbeat are exactly the packets of the messages taken out, in the order taken (a message framing to "1\r\n" cannot be told from the heartbeat and is left out on both sides) |
| BuildScript.Decimal | build.py:20 | `str(n)` is a non-empty run of decimal digits |
| BuildScript.Apply | build.py:14-20 | each line becomes its apply-pass rewrite; the line count is unchanged |
| BuildScript.Revert | build.py:37-43 | each line becomes its revert-pass rewrite; the line count is unchanged |
| BuildScript.Build | build.py:11-46 | the compiler sees the applied lines, the file ends with their revert, and the file ends as it began if and only if its credential lines were the placeholders |
| BuildScript.PrefixesExclusive | build.py:15-19 | no line starts with two of the three prefixes, so at most one rewrite applies to it |
| BuildScript.ApplyKeepsPrefixes | build.py:14-20 | a line starts with a prefix after the apply pass if and only if it did before; other lines are untouched, so the revert pass rewrites the same indices |
| BuildScript.PlaceholdersKeepPrefixes | build.py:37-43 | each placeholder written back starts with its own prefix |
| BuildScript.RevertUndoesApply | build.py:37-43 | revert after apply gives back a line if and only if that line was a placeholder or no credential line |
| BuildScript.PlaceholdersAreCommittedConstants | build.py:39-43 | the placeholders spell the committed WIFI_NETWORK "ssid" and WIFI_PASSWORD "password" lines |
| BuildScript.DecimalRoundTrip | build.py:20 | reading the digits of `str(n)` gives n |
| BuildScript.JoinDecimalsRoundTrip | build.py:20 | reading a ", "-joined list of decimals gives back the list |
| BuildScript.KeyLineCarriesKey | build.py:19-20 | the key line has the expected head and tail, and between them exactly the key's 32 values in order, each below 256 |

## Findings

| source | as written | input that shows it | evidently intended | confidence | as-written member | corrected member |
|---|---|---|---|---|---|---|
| src/phases/poke_server.rs:33 | `available_signal.copy_from_slice(challenge)` copies the 128-byte challenge over the whole 130-byte buffer; `copy_from_slice` panics on unequal lengths | any challenge of the declared type `&[u8; 128]`, e.g. 128 zero bytes | copy into bytes 2-129, behind the header 69, 0 | high; not executed | PokeServer.DeclaredChallengePanics | PokeServer.IntendedInvoke |
| src/phases/cast_node.rs:32 | the same copy of 128 bytes into the 130-byte buffer | any challenge of the declared type `&[u8; 128]` | copy into bytes 2-129, behind the header 69, 0 | high; not executed | CastNode.DeclaredChallengePanics | CastNode.IntendedInvoke |

Even at equal lengths, the as-written copy overwrites the header bytes. `PokeServer.HeaderDoesNotSurviveCopy` and `CastNode.HeaderDoesNotSurviveCopy` state this.

## Left out

- `src/main.rs` is not part of this model: its `select`-based orchestration, peripheral construction, panic handler and its calls into the phases, which do not match the phases' current signatures. Of it, only the expected answer is kept: it is the keyed digest of a freshly drawn challenge (main.rs:57-61). It enters the listeners as the `expected` parameter.
- Peripheral and network bring-up is not modelled: `init_board.rs`, `connect_wifi.rs`, `setup_stack.rs`, and `initialize`, `init_usb`, `init_wifi`, `cyw43_task` and `usb_task` in `board.rs`. These are driver calls.
- BLAKE3 is not implemented. The keyed hash is a function value of type `KeyedHash`, and nothing is assumed about it beyond its 32-byte output; in particular, injectivity is not assumed.
- ServerContact.Watched: only the watcher passes that complete before the reply frame are modelled. A report still being written when the frame arrives is abandoned by `select`, and the model does not represent it.
- The race between the beacon and the listener, and the cancel channel's blocking when full (capacity 1), are not modelled. The cancel signal is recorded as an event.
- Durations are recorded as events, not as time: 500 ms pulses, 1-2 s beacon periods, the 5 s heartbeat timeout and 10 s socket timeouts. A timeout is an outcome in the input script.
- The random source is an input: each round's 32 bytes come from the script.
- Socket and USB internals are recorded only as trace events: flush, abort, close, TCP/UDP semantics and `write_packet`. Whether an accept or read succeeds is an input. This includes `node_control.rs` accepting again on a socket it left open.
- ServerContact.Node.Invoke: the source serves until an error or the fault limit. The model also stops when the script has no more rounds (phase `Closed(ScriptEnd)`), and then tears down in the same way.
- PokeServer.Invoke: the source loops forever. The model runs a given number of iterations, and a lemma shows the loop only sends and sleeps. The same holds for CastNode.Invoke and NodeControl.Invoke.
- ListenAnswer.Invoke: the source keeps accepting until a claim matches. The model runs over a finite list of attempts, and its `None` result stands for "still accepting after these attempts"; it is not a return value of the source.
- ListenAnswer.Pass: `remote_endpoint().unwrap()` (listen_answer.rs:45) panics if the socket has no remote endpoint. The model reads the peer address of a matching claim unconditionally, so that panic is not modelled.
- PokeServer.Invoke: the keyed hash computed and discarded at `poke_server.rs:23` has no effect. The model gives it no input, so the frame cannot depend on it.
- PokeServer.Invoke and CastNode.Invoke accept a challenge of any length, although the source's type fixes 128. This lets both outcomes of the copy be stated. The declared length is covered by `DeclaredChallengePanics`.
- Board.SerialLoggerTask: the producers of `serial_log` and the logger task are interleaved by the input steps. A wake-up with an empty channel stands for the 5 s timeout. The first `wait_connection` of a disconnected logger is recorded immediately before its next write. The source's nested loops are one loop with a `connected` flag.
- Board: messages are byte sequences. UTF-8 validity of `&str` is not modelled, and a length limit of 256 bytes stands for the `heapless::String<256>` capacity check.
- build.py: I/O and library calls become parameters:
  - `os.urandom` becomes the `secretKey` parameter, and `sys.argv` the ssid and password.
  - The file read and write are an array of lines.
  - `cargo`, `elf2uf2-rs`, the directory changes and the base64 print are not modelled.
- BuildScript: strings are sequences of characters, and an ssid or password containing a quote or a newline is copied verbatim, as in the source. Whether the result is valid Rust is not modelled.
