# ARES flight software: radio link and mission engine

Dafny models of two components of the ARES rocket firmware, with proofs about all inputs, all runs and all
reachable states.

**The APUS radio link** (`src/comms`). `Crc32` and `CrcPolynomial` hold the checksum and the proof that it is the
polynomial remainder of clause 3.2.9 of IEEE 802.3. `RadioProtocol` is the frame codec, `RadioReceiver` the
in-place resynchroniser over an octet stream, `CommandQueue`, `CommandPath`, `CommandRuns` and `CommandReplies` the
way of a command from its frame to its execution and its answers, `Reassembly` and `FragSender` the two halves of a
fragmented transfer, and `RetryBuffer` the retransmission of reliable frames.

**The AMS mission engine** (`src/ams`). `Compiler` and `ScriptParser` turn classified script lines into the tables
of `MissionProgram`; `GraphAnalysis`, `DepthSearch` and `Assertions` are the static analysis; `MissionEngine` gives
the runtime as functions on its state and `MissionScriptEngine` the class that works in place; `EngineSafety`,
`HoldWindows`, `Scheduling`, `CompiledMissions` and `Steering` prove what every run keeps. `ScriptRoundTrip` says
which programs scripts give, `TickOutcomes` what a tick does after any run. `DeltaTelemetry` and `Monitoring` cover
delta-encoded telemetry and the alarm state machine; `FieldText`, `CheckpointRecord`, `CheckpointRestore` and
`CheckpointNames` the textual checkpoint, and `Resuming` what it means for the runtime.
`Bytes`, `Clock32` and `Wrappers` are shared vocabulary.

The methods of `MissionScriptEngine` without a row below are straight-line; each does what the function of
`MissionEngine` for the same step says.

Classes carry the fields the firmware mutates. Each of their methods is proved equal to a function of the old
state, and the results over whole runs are lemmas about those functions. True time is a whole number of
milliseconds; the code sees it modulo 2^32. Sensor readings, storage, radio and `executeCommand` results are parameters.

Run `dafny verify dfyconfig.toml`.

## Where code and intent part

- The outer loop of the depth search does not leave on a cycle. `DepthSearch.LoopHaltsIff` gives the exact
  condition; `ComputeDfsMaxDepth` is stated with the exit its consumer expects.
- A `transition to` line inside an `on_timeout` block is dispatched as a regular transition, so no script with such
  a block compiles, although `docs/standards/ams_standard.md` describes it (`Compiler.TimeoutNeverCompiles`). The
  analysis also ignores on_timeout edges; by the former this never matters.
- The analysis starts at state 0, activation prefers `WAIT`. The asserted bound holds when the analysis can reach the
  start (`EngineSafety.StartInSight`); otherwise it can fail (`EngineSafety.WaitEscapesTheBound`), and what bounds the
  runs is the longest route from the start, exactly (`Steering.LongestRouteIsExact`).
- Slot timers are restored only if a variable is declared (`CheckpointRestore.SlotTimersSurviveIff`).
- The engine keeps 31 characters of a file name that may have 32; a resume of such a script looks for another file
  (`CheckpointNames.ResumedUnderItsNameIff`).
- Variable names may contain the record's own separators. When every variable has changed, some report timer has run
  and no part of a name reads as a number, the record carries variables and timers exactly if no name contains a
  separator (`CheckpointNames.NamesSurviveIff`); one variable can even overwrite another
  (`CheckpointNames.SevenBecomesTwo`).
- A reassembled command is cut at 200 octets (`Reassembly.ReassembledOnce`).
- The REQUEST_CONFIG reply is a frame that `decode` rejects (`RadioProtocol.ConfigReplyRejected`).
- Only a repetition directly behind its original is recognised as a duplicate command
  (`CommandReplies.NothingDroppedIff`).
- There are four confirm counters for five telecommands: a `confirm` condition on RESET_ABNORMAL never holds
  (`TickOutcomes.ConditionMeans`).
- A segment that repeats the number of the command directly before it is dropped like any other command; it counts as
  arrived only when it is repeated later (`Reassembly.Have`).

## Model

| member | source | states |
|---|---|---|
| `Crc32.ComputeCrc32` | src/comms/ares_radio_protocol.cpp:25-44 | The register loop over any octet range returns the checksum function of those octets. |
| `Crc32.FeedInjective` | src/comms/ares_radio_protocol.cpp:25-44 | Equal data keeps different register values apart: no step of the checksum forgets. |
| `Crc32.ResidueIff` | src/comms/ares_radio_protocol.cpp:127-142 | A little-endian trailer matches its data exactly when feeding data and trailer leaves one constant residue. |
| `CrcPolynomial.RemainderUnique` | src/comms/ares_radio_protocol.cpp:25-44 | A remainder of degree below 32 modulo the generator is unique, so it is a definition independent of the loop. |
| `CrcPolynomial.ChecksumIsRemainder` | src/comms/ares_radio_protocol.cpp:25-44 | For every octet string the checksum is the complemented remainder of clause 3.2.9 of IEEE 802.3: initial 32 bits complemented, x^32 shift, division by G(x). |
| `CrcPolynomial.BurstDetected` | src/comms/ares_radio_protocol.cpp:127-142 | Two octet strings of one length with the same residue whose bits, in order of transmission, differ only within 32 neighbouring places are equal. |
| `RadioProtocol.Encode` | src/comms/ares_radio_protocol.cpp:47-92 | Writes exactly the wire image and its length, and refuses (buffer untouched) exactly for a null or short buffer, a length over 200 or reserved flags. |
| `RadioProtocol.Decode` | src/comms/ares_radio_protocol.cpp:112-264 | Accepts exactly the buffers with sync, version, flags, node, type, length and checksum in order; fills the frame from them, otherwise leaves it. |
| `RadioProtocol.DecodeOfEncode` | src/comms/ares_radio_protocol.cpp:47-264 | Every well-formed frame decodes back to itself, whatever octets follow it. |
| `RadioProtocol.EncodeOfDecode` | src/comms/ares_radio_protocol.cpp:47-264 | Every accepted buffer re-encodes to the octets that were accepted, trailer included. |
| `RadioProtocol.AcceptsIff` | src/comms/ares_radio_protocol.cpp:112-142 | A buffer is accepted iff it starts with the image of some well-formed frame. |
| `RadioProtocol.SentIsAcceptedIff` | src/comms/ares_radio_protocol.cpp:47-142 | What encode lets out is accepted by decode iff the frame is well formed. |
| `RadioProtocol.ConfigReplyRejected` | src/comms/radio_dispatcher.cpp:602-624 | The 31-octet TELEMETRY reply to REQUEST_CONFIG is sent but always rejected by decode. |
| `RadioProtocol.CorruptionRejected` | src/comms/ares_radio_protocol.cpp:112-142 | Any change of a frame image confined to 32 neighbouring bits, wherever they begin, that keeps LEN makes decode fail. |
| `RadioProtocol.EncodeFrag` | src/comms/ares_radio_protocol.cpp:267-300 | Writes the little-endian sub-header and the data, or refuses oversized data and impossible segment numbers. |
| `RadioProtocol.FragRoundTrip` | src/comms/ares_radio_protocol.cpp:267-319 | Sub-header and data of every fragment read back as written. |
| `RadioProtocol.WellFormedMeans` | src/comms/ares_radio_protocol.cpp:94-264 | The acceptable frames in numbers: version, flags, node, type, and the least payload of each type or of a fragment. |
| `RadioReceiver.ParseAppend` | src/comms/radio_dispatcher.cpp:75-162 | The greedy parse of a stream may stop anywhere and be continued with what was left, with the same frames and tail. |
| `RadioReceiver.RecoveredUnlessOverlapped` | src/comms/radio_dispatcher.cpp:75-162 | A well-formed frame behind any noise and before any octets is taken at its place and handed on, unless an earlier valid decode overlaps it or the parse still waits at an earlier candidate, which ends after two hundred further octets. |
| `RadioReceiver.FrameReachesDispatcher` | src/comms/radio_dispatcher.cpp:75-162 | A receiver at rest has dispatched every frame of its stream that nothing overlaps or holds up. |
| `RadioReceiver.Receiver.FindSync` | src/comms/radio_dispatcher.cpp:83-100 | The scan stops at the first sync octet or finds that there is none. |
| `RadioReceiver.Receiver.TryFrame` | src/comms/radio_dispatcher.cpp:115-161 | One attempt keeps the buffer and the dispatched frames in step with the parse of the whole stream, and a full buffer never stalls. |
| `RadioReceiver.Receiver.ProcessBuffer` | src/comms/radio_dispatcher.cpp:75-162 | One pass keeps that agreement, makes progress on a full buffer, and stops changing only when no complete frame is left. |
| `RadioReceiver.Receiver.Poll` | src/comms/radio_dispatcher.cpp:47-71 | Appending a chunk that fits and processing keeps dispatched frames a prefix of the parse of everything received. |
| `RadioReceiver.PollUntilQuiet` | src/comms/radio_dispatcher.cpp:47-162 | Polling on until nothing moves dispatches exactly the frames of the whole-stream parse. |
| `RadioReceiver.ChunkIndependence` | src/comms/radio_dispatcher.cpp:47-162 | However one stream was cut into polls, two receivers agree on dispatched frames as far as both go. |
| `CommandQueue.ByPriorityIsStableSort` | src/comms/radio_dispatcher.cpp:880-960 | The execution order is sorted by level, is a permutation, and keeps arrival order within each level. |
| `CommandQueue.StableSortIsUnique` | src/comms/radio_dispatcher.cpp:880-960 | No other order is sorted and stable. |
| `CommandQueue.PickIsNext` | src/comms/radio_dispatcher.cpp:977-1000 | Executing the first active slot of lowest priority value and then the rest in order is executing all in order. |
| `CommandQueue.CriticalFirst` | src/comms/radio_dispatcher.cpp:890-917 | ABORT, pulses and FACTORY_RESET go before all other commands, arming, mode and parameter commands before requests, and requests for telemetry before queries, by their identifiers. |
| `CommandPath.CommandHandler.EnqueueCmd` | src/comms/radio_dispatcher.cpp:930-960 | Takes the first free slot and appends to the arrival order, or refuses exactly at eight. |
| `CommandPath.CommandHandler.FindBest` | src/comms/radio_dispatcher.cpp:979-991 | Finds the first active slot of the lowest priority value, or none iff the queue is empty. |
| `CommandPath.CommandHandler.DrainCmdQueue` | src/comms/radio_dispatcher.cpp:977-1017 | Executes everything queued in stable priority order with the completion reports asked for; queue and count end empty. |
| `CommandPath.CommandHandler.HandleFragmentedCommand` | src/comms/radio_dispatcher.cpp:1038-1194 | Decodes, opens or times out the session, rejects collisions, acknowledges repetitions, stores, and assembles on the last segment. |
| `CommandPath.CommandHandler.HandleCommand` | src/comms/radio_dispatcher.cpp:253-291 | Drops a repeated sequence number, routes fragments, otherwise acknowledges, remembers the number and offers the command. |
| `CommandPath.CommandHandler.DispatchFrame` | src/comms/radio_dispatcher.cpp:166-248 | Routing NACK for foreign commands; commands, heartbeats, ACK confirmations and ignored types as the switch says. |
| `CommandPath.CommandHandler.PollFrames` | src/comms/radio_dispatcher.cpp:61-71 | All received frames at one clock reading, then the queue; ties the arrays to the queue-level specification. |
| `CommandRuns.PollExecutes` | src/comms/radio_dispatcher.cpp:253-291 | A poll executes exactly its first eight offers, each once, in stable priority order, and leaves the queue empty. |
| `CommandRuns.RunExecutes` | src/comms/radio_dispatcher.cpp:253-1017 | What any run of polls executes: the accepted offers of each poll in priority order, one poll after the other. |
| `CommandRuns.EveryOfferOnce` | src/comms/radio_dispatcher.cpp:253-1017 | Over any run every offered command is executed exactly once or was refused by a full queue, and nothing else is executed. |
| `CommandRuns.CompletionAt` | src/comms/radio_dispatcher.cpp:977-1017 | Each command of a drain runs behind the ones before it and is reported right behind its execution, with its own result, exactly if it asked. |
| `CommandReplies.AnsweredExactly` | src/comms/radio_dispatcher.cpp:166-291 | In any poll, whatever its traffic, the replies to a sequence number are one per frame answered on the spot and one per offered command that asked for completion. |
| `CommandReplies.OneAcceptanceOneCompletion` | src/comms/radio_dispatcher.cpp:253-291 | Among any other traffic: each unfragmented command offered under a number gets exactly one NO_FAILURE acceptance, a refused one a QUEUE_FULL and an accepted one a completion exactly if it asked, and no other code is sent. |
| `CommandReplies.PollWithoutFragments` | src/comms/radio_dispatcher.cpp:166-291 | The whole event log of a poll without segments, from its frames alone, heartbeats, ACKs and foreign commands included. |
| `CommandReplies.FragmentBalances` | src/comms/radio_dispatcher.cpp:1038-1194 | A segment is answered exactly once whatever becomes of it, and a completed command is offered under the number of its last segment. |
| `CommandReplies.NothingDroppedIff` | src/comms/radio_dispatcher.cpp:255-263 | All commands are accepted iff none repeats the sequence number of the one directly before it. |
| `CommandReplies.LateRepetitionRunsTwice` | src/comms/radio_dispatcher.cpp:255-263 | A repetition that arrives behind another command is taken for a new command. |
| `Reassembly.StoredKeeps` | src/comms/radio_dispatcher.cpp:1114-1137 | Storing a missing segment keeps every received octet at its place and the length equal to the octets received. |
| `Reassembly.SegmentAnswered` | src/comms/radio_dispatcher.cpp:1038-1152 | A segment is refused as invalid, refused because another transfer is going on, or accepted; exactly when, and that a refused one changes nothing. |
| `Reassembly.TransferUnderway` | src/comms/radio_dispatcher.cpp:1038-1152 | From no session or a stale one, among any other traffic, segments of other transfers included, until the last segment the session holds exactly what arrived and nothing of it was offered. |
| `Reassembly.ReassembledOnce` | src/comms/radio_dispatcher.cpp:1038-1194 | In any order, with repetitions and among any other traffic, the last missing segment leaves the buffer equal to the data, offers its first 200 octets at most exactly once, and ends the session. |
| `FragSender.SegmentsInOrder` | src/comms/radio_dispatcher.cpp:1284-1371 | Every run of pumps sends segments 0, 1, 2, ... each once, spaced by the rate limit unless the clock read 0, ACK_REQ only on the last, and then stops. |
| `FragSender.TransferCompletes` | src/comms/radio_dispatcher.cpp:1284-1371 | Pumps far enough apart send one segment each, at their own times, until all are out. |
| `FragSender.SegmentCarries` | src/comms/radio_dispatcher.cpp:1304-1330 | Every segment sent is well formed and carries its identifier, number, count and slice of the data. |
| `FragSender.FragmentationRoundTrip` | src/comms/radio_dispatcher.cpp:1038-1371 | What the sending half emits as COMMAND frames, delivered in any order with repetitions among any other traffic, is reassembled to the data handed in. |
| `FragSender.BulkSender.StartFragSend` | src/comms/radio_dispatcher.cpp:1209-1263 | Refuses empty or oversized data without change; otherwise arms a session over a copy and advances the 16-bit identifier. |
| `FragSender.BulkSender.PumpFragSend` | src/comms/radio_dispatcher.cpp:1284-1371 | One pump in place is one step of the sending specification; its encoding failures cannot happen. |
| `RetryBuffer.RetriesBounded` | src/comms/radio_dispatcher.cpp:754-840 | In every run each reliable send is on the air at most 1 + 3 times, 1000 ms apart in true time across clock wrap, later copies differing only in the retransmit flag. |
| `RetryBuffer.EverySendEnds` | src/comms/radio_dispatcher.cpp:754-840 | Whatever is sent and confirmed before and meanwhile, polls at most 2^32 - 1000 ms apart end every reliable send within 4 timeouts and 3 gaps, without any ACK. |
| `RetryBuffer.UnackedIsResent` | src/comms/radio_dispatcher.cpp:754-874 | Whatever is sent and confirmed before and meanwhile, a reliable send that finds a slot and gets no ACK is on the air exactly at its sending and at every first poll a timeout or more after the transmission before, 1 + 3 times at most. |
| `RetryBuffer.UnackedIsSentFourTimes` | src/comms/radio_dispatcher.cpp:783-818 | Attended long enough, it is on the air exactly 1 + 3 times. |
| `RetryBuffer.WithoutSlotSentOnce` | src/comms/radio_dispatcher.cpp:754-770 | With all four slots taken a frame is sent once and never again. |
| `RetryBuffer.AckEndsIff` | src/comms/radio_dispatcher.cpp:829-840 | An ACK ends a send iff its slot is the first active one of that sequence number. |
| `RetryBuffer.AckSilences` | src/comms/radio_dispatcher.cpp:783-840 | After its ACK nothing more of a send ever goes on the air, in any further run. |
| `RetryBuffer.PollIsSlotwise` | src/comms/radio_dispatcher.cpp:783-818 | A poll treats every slot by itself. |
| `RetryBuffer.RetryQueue.ProcessRetries` | src/comms/radio_dispatcher.cpp:783-818 | The loop in place is the poll of the specification; every kept frame is encodable, so each due retransmission goes out. |
| `RetryBuffer.RetryQueue.SendReliable` | src/comms/radio_dispatcher.cpp:855-874 | Sends with ACK_REQ set and keeps a copy in the first free slot; fails iff not encodable or the radio refuses. |
| `RetryBuffer.RetryQueue.EnqueueRetry` | src/comms/radio_dispatcher.cpp:754-770 | Uses the first free slot, or reports that all four are taken. |
| `RetryBuffer.RetryQueue.ClearRetryForSeq` | src/comms/radio_dispatcher.cpp:829-840 | Frees the first active slot of that number in place. |
| `GraphAnalysis.ComputeBfsReachability` | src/ams/mission_script_engine_parser.cpp:3436-3478 | A mask bit is set iff that state can be reached from state 0 over regular, fallback and on_error edges; the queue never outgrows the states. |
| `DepthSearch.WholeIsExact` | src/ams/mission_script_engine_parser.cpp:3480-3558 | The search reports a cycle iff one is reachable, and otherwise the longest route from state 0. |
| `DepthSearch.StackNeverFull` | src/ams/mission_script_engine_parser.cpp:3505-3556 | The guard against a full frame stack never drops a successor. |
| `DepthSearch.StepLighter` | src/ams/mission_script_engine_parser.cpp:3499-3558 | Every round of the outer loop lowers a measure of the frame stack while no cycle was seen. |
| `DepthSearch.ComputeDfsMaxDepth` | src/ams/mission_script_engine_parser.cpp:3480-3558 | With the exit on a cycle that the consumer expects, the loop terminates with the exact answer. |
| `DepthSearch.LoopHaltsIff` | src/ams/mission_script_engine_parser.cpp:3499-3558 | The loop as written ends iff no cycle is reachable from state 0. |
| `DepthSearch.LoopDivergesOnSelfLoop` | src/ams/mission_script_engine_parser.cpp:3499-3558 | A first state that leads to itself already keeps it from ending. |
| `Assertions.EvaluateOneAssertion` | src/ams/mission_script_engine_parser.cpp:3560-3642 | Each kind of assertion is decided exactly: reachable, no_dead_states, max_transition_depth. |
| `Assertions.ValidateAssertions` | src/ams/mission_script_engine_parser.cpp:3644-3671 | All assertions are decided; the answer is yes iff all hold. |
| `Assertions.CheckReturnsIff` | src/ams/mission_script_engine_parser.cpp:3644-3671 | With any assertion present, load-time validation as written returns iff no cycle is reachable. |
| `Compiler.CompiledIsSafe` | src/ams/mission_script_engine_parser.cpp:128-194 | Every accepted script has tables in bounds, one to four conditions per transition, every target the first state of its name, unique variables, true assertions and no on_timeout. |
| `Compiler.TimeoutNeverCompiles` | src/ams/mission_script_engine_parser.cpp:688-701 | A script with an on_timeout header anywhere is rejected: the target line of the block is taken for a regular transition, and resolution then misses the target. |
| `Compiler.ResolvableIff` | src/ams/mission_script_engine_parser.cpp:2161-2226 | Resolution succeeds iff every named target and task filter is a state and no state has an on_timeout block. |
| `Compiler.ParseBounded` | src/ams/mission_script_engine_parser.cpp:292-323 | After any accepted lines the tables are within their bounds. |
| `ScriptRoundTrip.RoundTrip` | src/ams/mission_script_engine_parser.cpp:128-194 | Every program a script can give is given by the lines that spell its tables: hold times, connectives, conditions and their order, guards, report slots, priorities, targets, task filters and assertions all come back. |
| `ScriptRoundTrip.CompilesIff` | src/ams/mission_script_engine_parser.cpp:128-194 | A program is the result of some script iff it is within the bounds, everything points to the first state of its name, there is no on_timeout, and its assertions hold. |
| `ScriptRoundTrip.TransitionAcceptedIff` | src/ams/mission_script_engine_parser.cpp:1654-1832 | A transition line is accepted iff there is room and it spells a target and one to four conditions under one connective; what is stored is what it spells. |
| `ScriptRoundTrip.SecondIsRefused` | src/ams/mission_script_engine_parser.cpp:2889-3030 | A second fallback, on_error target or declaration of a variable is refused. |
| `ScriptParser.TableParser.SplitTransitionConditions` | src/ams/mission_script_engine_parser.cpp:1747-1820 | Accepts iff there are one to four conditions joined by one kind of connective, and says which. |
| `ScriptParser.TableParser.ParseTransitionLine` | src/ams/mission_script_engine_parser.cpp:1616-1694 | Stores the transition iff hold clause, connectives, counts and all conditions are right. |
| `ScriptParser.TableParser.ParseLine` | src/ams/mission_script_engine_parser.cpp:292-323 | Dispatches a line in the order of the code: top level, tasks and assertions, block headers, block contents. |
| `ScriptParser.TableParser.ParseScopedLine` | src/ams/mission_script_engine_parser.cpp:576-710 | Headers before contents; transition lines are regular ones in every block but on_error. |
| `ScriptParser.TableParser.ResolveTransitions` | src/ams/mission_script_engine_parser.cpp:2161-2226 | Resolves every state in place iff all its targets are known; lookups see the same names throughout. |
| `ScriptParser.TableParser.ResolveTasks` | src/ams/mission_script_engine_parser.cpp:3390-3419 | Resolves every state filter in place iff all its names are known. |
| `ScriptParser.TableParser.ParseScript` | src/ams/mission_script_engine_parser.cpp:128-194 | Accepts exactly the scripts that compile and leaves their resolved tables; wherever it fails it leaves tables within bounds. |
| `CompiledMissions.CompiledMissionStaysSafe` | src/ams/mission_script_engine.cpp:523-527 | No run of a compiled script reaches an invalid target or an index out of range, whatever happens in it. |
| `CompiledMissions.CompiledMissionIsBounded` | src/ams/mission_script_engine_parser.cpp:3612-3622 | A mission on a compiled script, activated or resumed, enters at most as many states as the longest route of the analysed graph from its start, and none twice. |
| `CompiledMissions.AssertedDepthIsKept` | src/ams/mission_script_engine_parser.cpp:3612-3622 | A compiled script that asserts max_transition_depth < N never enters N further states from any state the analysis can reach. |
| `CompiledMissions.ActivationStarts` | src/ams/mission_script_engine.cpp:118-157 | An activation of a compiled script starts a mission that these bounds cover, in WAIT or the first state. |
| `CompiledMissions.FailedTablesAllowed` | src/ams/mission_script_engine.cpp:118-129 | The tables a failed compilation leaves, wherever it failed, are within bounds for the engine. |
| `EngineSafety.ApplySafe` | src/ams/mission_script_engine.cpp:118-597 | Every public call keeps: running iff LOADED or RUNNING, RUNNING implies enabled, LOADED implies disabled, valid state index, checkpoint only while running, targets in range. |
| `EngineSafety.TickSafe` | src/ams/mission_script_engine.cpp:510-597 | A tick with any readings keeps the lifecycle invariant and raises no dangling-target error. |
| `EngineSafety.BeginSafeIff` | src/ams/mission_script_engine.cpp:1693-1787 | Start-up gives a lawful engine iff a record that names a valid state agrees with itself on its flags. |
| `EngineSafety.SavedIsConsistent` | src/ams/mission_script_engine.cpp:1371-1402 | Every record the engine writes is of that lawful kind. |
| `EngineSafety.RunsAreRoutes` | src/ams/mission_script_engine.cpp:510-678 | Whatever happens to a mission, activated or resumed, the states it enters form a route of the analysed graph from where it started. |
| `EngineSafety.StartBoundsEveryRun` | src/ams/mission_script_engine_parser.cpp:3480-3558 | The longest route from the start, wherever that is, bounds every run. |
| `EngineSafety.AnalysisBoundsEveryRun` | src/ams/mission_script_engine_parser.cpp:3436-3642 | What the load-time analysis accepted bounds every sequence of calls from every reachable start. |
| `Steering.LongestRouteIsExact` | src/ams/mission_script_engine_parser.cpp:3480-3558 | That bound is exact for the graph: with the same names and targets and one sensor per transition, every route is taken by some run. |
| `Steering.EdgeIsTick` | src/ams/mission_script_engine.cpp:510-597 | Every edge, be it a transition, the fallback or the recovery, is one tick under suitable readings. |
| `Resuming.RunningMissionResumes` | src/ams/mission_script_engine.cpp:1648-1691 | Starting up from the record of a running mission gives back state, flags and every elapsed time, on any clock. |
| `Resuming.LoadedMissionResumes` | src/ams/mission_script_engine.cpp:1648-1691 | A mission that is loaded but not armed comes back loaded, and its record is dropped. |
| `Resuming.RestartKeepsTheBound` | src/ams/mission_script_engine.cpp:1693-1787 | The longest route from the first start bounds all legs of a mission together across a restart. |
| `Resuming.BeginReadsTheText` | src/ams/mission_script_engine.cpp:1693-1787 | For every text in storage the textual restore and the start-up of the runtime agree, in every outcome and with its error status. |
| `Resuming.SavedTextResumes` | src/ams/mission_script_engine.cpp:1371-1787 | The text a running mission saves gives, at the next start-up, an engine in the same state with the same flags, elapsed times and slot timers. |
| `EngineSafety.StartInSight` | src/ams/mission_script_engine.cpp:146-151 | The start is in sight if it is state 0, or no_dead_states or reachable WAIT is asserted. |
| `EngineSafety.WaitEscapesTheBound` | src/ams/mission_script_engine.cpp:146-151 | A WAIT state out of sight of the analysis takes an accepted mission past the bound. |
| `EngineSafety.TimeoutEscapesTheBound` | src/ams/mission_script_engine.cpp:1294-1316 | An on_timeout edge in the tables, which the analysis ignores, does the same. |
| `HoldWindows.PassMeans` | src/ams/mission_script_engine.cpp:617-678 | A pass fires the first transition that is true and whose window is old enough; if none is, every window is open iff its condition is true, and every delta condition has its sample. |
| `HoldWindows.RunHolds` | src/ams/mission_script_engine.cpp:681-775 | Over every run a window is open exactly since its condition is true without a break, delta baselines are the last samples of the stay, and confirm counters count the telecommands since the state was entered. |
| `HoldWindows.FiresIffFirstReady` | src/ams/mission_script_engine.cpp:617-775 | After any run: the next tick fires a transition iff it is the first that is true now and, if it has a window, has been so on every evaluated tick for that long. |
| `HoldWindows.ReadyAtOnce` | src/ams/mission_script_engine.cpp:749-760 | Without a window, or on a telecommand alone, a transition is ready whenever its condition is true. |
| `HoldWindows.HeldLongEnoughFires` | src/ams/mission_script_engine.cpp:749-775 | A transition that was true for its window in true time fires, unless an earlier one does. |
| `HoldWindows.HeldTransitionWasTrue` | src/ams/mission_script_engine.cpp:617-775 | A transition with a hold window fires only if its condition was true at every evaluated tick of an unpaused stretch of at least that many true milliseconds, across clock wrap. |
| `HoldWindows.HeldSincePowerOn` | src/ams/mission_script_engine.cpp:617-775 | What fires, exactly, for every run of the firmware from power-on, whatever storage held. |
| `Scheduling.ReportsNeverDrift` | src/ams/mission_script_engine.cpp:825-948 | In every run and at every moment, n reports after its beat began a slot carries the timestamp of that beginning plus n periods, and that time has really passed. |
| `Scheduling.NoDriftSincePowerOn` | src/ams/mission_script_engine.cpp:825-948 | The same for every run of the firmware from power-on; a mission taken up again goes on from its restored last reports. |
| `Scheduling.BeatsRest` | src/ams/mission_script_engine.cpp:360-387 | A beat begins anew only on entering a state and, for HK slots, on a change of their period, which keeps the timestamp. |
| `Scheduling.NothingSleptThrough` | src/ams/mission_script_engine.cpp:415-508 | No due time of a quiet state lies strictly before the wake-up, and the sleep is 1 to 50 ms, across clock wrap. |
| `TickOutcomes.ConditionMeans` | src/ams/mission_script_engine.cpp:681-746 | What each condition means after any run: pending telecommand or telecommands since entry, true time in the state, value against threshold, change since the last sample of the stay. |
| `TickOutcomes.TickOutcome` | src/ams/mission_script_engine.cpp:510-597 | After any run from power-on, everything a tick does and exactly when: enter a state by transition, timeout, fallback or recovery, end by ABORT, guard violation or in a terminal state, or stay and report. |
| `TickOutcomes.AbortEndsOrEnters` | src/ams/mission_script_engine.cpp:549-555 | After any run: the tick behind an injected ABORT enters a state by a due transition, timeout or fallback, or ends the mission IDLE without a checkpoint. |
| `TickOutcomes.ActionsReport` | src/ams/mission_script_engine.cpp:825-948 | Of the due kinds those are served that fewer due kinds outrank than the budget has rounds; each overdue slot of a served kind sends one report, and no other does. |
| `TickOutcomes.ReportsAreComplete` | src/ams/mission_script_engine.cpp:825-948 | While a mission is ticked at most a period apart and stays, a slot that the budget reaches has sent exactly floor((t - beginning) / period) reports. |
| `TickOutcomes.SleepsExactly` | src/ams/mission_script_engine.cpp:415-508 | The sleep is 10 ms with something to watch, otherwise at most 50 ms, never past a report, task or deadline, and shorter only for one of these. |
| `TickOutcomes.ActivateLoads` | src/ams/mission_script_engine.cpp:118-156 | A script that loads waits unarmed in its first WAIT state or else its first state; one that does not is an error. |
| `TickOutcomes.ArmStarts` | src/ams/mission_script_engine.cpp:276-296 | Arming sets a loaded mission going with LAUNCH pending. |
| `TickOutcomes.PauseAndGoOn` | src/ams/mission_script_engine.cpp:298-328 | A paused mission rests under any ticks and goes on as it was, with its hold windows started over. |
| `TickOutcomes.DeactivateForgets` | src/ams/mission_script_engine.cpp:159-196 | Deactivation leaves the engine IDLE with no mission, no checkpoint and nothing pending. |
| `TickOutcomes.IntervalChanges` | src/ams/mission_script_engine.cpp:360-387 | A new period counts from the last reports and changes nothing else. |
| `MissionScriptEngine.ScriptEngine.TickEngine` | src/ams/mission_script_engine.cpp:510-597 | One tick in place is one step of the runtime semantics and keeps the safety invariant. |
| `MissionScriptEngine.ScriptEngine.EvaluateTransitions` | src/ams/mission_script_engine.cpp:617-678 | The loop over transitions: first one to fire, hold windows and delta baselines of all evaluated ones. |
| `MissionScriptEngine.ScriptEngine.EvaluateConds` | src/ams/mission_script_engine.cpp:637-661 | All conditions are evaluated and folded by the connective; a matching telecommand is noted. |
| `MissionScriptEngine.ScriptEngine.ConsumeMatchedTc` | src/ams/mission_script_engine.cpp:777-792 | Clears the pending telecommand and exactly the confirm counters the transition names. |
| `MissionScriptEngine.ScriptEngine.EvaluateGuards` | src/ams/mission_script_engine.cpp:1165-1202 | Tells whether any guard is violated. |
| `MissionScriptEngine.ScriptEngine.ExecuteDue` | src/ams/mission_script_engine.cpp:825-948 | Due event, HK and LOG actions in priority order within the budget, each kind at most once. |
| `MissionScriptEngine.ScriptEngine.PickBestDue` | src/ams/mission_script_engine.cpp:65-82 | The first due kind of highest priority. |
| `MissionScriptEngine.ScriptEngine.SendDue` | src/ams/mission_script_engine.cpp:887-946 | Timestamps of due slots advance by their period, not to the present. |
| `MissionScriptEngine.ScriptEngine.RunTasksLocked` | src/ams/mission_script_engine.cpp:2068-2120 | Timers of active due tasks move to now, those of inactive ones follow the clock. |
| `MissionScriptEngine.ScriptEngine.SetTelemInterval` | src/ams/mission_script_engine.cpp:360-389 | All HK slots of the current state take the new period. |
| `MissionScriptEngine.ScriptEngine.NextWakeupMs` | src/ams/mission_script_engine.cpp:415-508 | The wake-up time is the specified minimum over slots, tasks and deadlines. |
| `DeltaTelemetry.Lossless` | src/ams/mission_script_engine_telemetry.cpp:105-136 | A decoder that keeps the last absolute frame reconstructs every altitude and pressure sampled, over every run with resets. |
| `DeltaTelemetry.DecodesDespiteLosses` | src/ams/mission_script_engine_telemetry.cpp:203-232 | With any losses and any earlier belief, a heard frame decodes right if the absolute frame it refers to was heard. |
| `DeltaTelemetry.TenContainAnAbsolute` | src/ams/mission_script_engine_telemetry.cpp:105-136 | Any ten consecutive frames contain an absolute one, across resets and the 16-bit counter wrap. |
| `DeltaTelemetry.ResyncsWithinTen` | src/ams/mission_script_engine_telemetry.cpp:105-136 | A receiver that hears everything from some frame on is right after at most nine frames. |
| `DeltaTelemetry.DeltasWithinLimits` | src/ams/mission_script_engine_telemetry.cpp:113-118 | Every delta sent stays within its saturation limit. |
| `DeltaTelemetry.DeltaIff` | src/ams/mission_script_engine_telemetry.cpp:105-136 | A report goes out as a delta iff its number since the last reset, in 16 bits, is no multiple of ten and neither field has left its limit around the last absolute frame. |
| `DeltaTelemetry.HkEncoder.EncodeReport` | src/ams/mission_script_engine_telemetry.cpp:105-136 | The fields are updated and the frame encoded as the specification says. |
| `Monitoring.MonitorsFollowHistory` | src/ams/mission_script_engine_telemetry.cpp:793-860 | Every slot is in ALARM iff N violations in a row were seen with no in-limit sample or reset since, its counter is min(N, trailing violations), and events equal alarm episodes, across redefinitions. |
| `Monitoring.HistoryIsStory` | src/ams/mission_script_engine_telemetry.cpp:768-899 | The history of each slot is told by the calls: altitude, acceleration and temperature against the limits last set; the fourth slot stays off. |
| `Monitoring.AlarmsFromCalls` | src/ams/mission_script_engine_telemetry.cpp:768-899 | From the calls alone: when each alarm is on, and that its event was sent once for each time it came on. |
| `Monitoring.AlarmGrows` | src/ams/mission_script_engine_telemetry.cpp:811-858 | Exactly how one more sample, redefinition or reset changes the alarm of the history. |
| `Monitoring.CounterBounded` | src/ams/mission_script_engine_telemetry.cpp:815-823 | The counter never exceeds its limit, across reconfiguration and reset. |
| `Monitoring.MonitorTable.EvaluateMonitoring` | src/ams/mission_script_engine_telemetry.cpp:793-860 | The loop over slots in place, with the events it sends. |
| `Monitoring.MonitorTable.ConfigureMonitorFromParam` | src/ams/mission_script_engine_telemetry.cpp:870-899 | Which limit of which slot changes, and that its counter restarts. |
| `Monitoring.MonitorTable.ResetMonitorSlots` | src/ams/mission_script_engine.cpp:220-232 | Counters and alarms cleared, definitions kept. |
| `CheckpointRecord.IsSafeFileName` | src/ams/mission_script_engine_utils.cpp:42-67 | Decides safe names. |
| `CheckpointRecord.SafeNameSeparates` | src/ams/mission_script_engine_utils.cpp:42-67 | A safe name contains no separator, and the copy the engine keeps is the whole name iff it is not 32 characters long. |
| `CheckpointRecord.RecordFits` | src/ams/mission_script_engine.cpp:1371-1480 | Every record has at most 508 characters, so no section is ever dropped from the 512. |
| `CheckpointRecord.BuildCheckpointRecord` | src/ams/mission_script_engine.cpp:1371-1480 | The appending loops with their size tests produce the whole record. |
| `CheckpointRestore.HeaderRoundTrip` | src/ams/mission_script_engine.cpp:1540-1561 | The header of every record parses back to the numbers and name it was printed from. |
| `CheckpointRestore.VarsRoundTrip` | src/ams/mission_script_engine.cpp:1563-1598 | All variables come back through their text, and the cursor stops behind them. |
| `CheckpointRestore.SlotsRoundTrip` | src/ams/mission_script_engine.cpp:1600-1646 | All slot timers come back by their elapsed times. |
| `CheckpointRestore.CheckpointRoundTrip` | src/ams/mission_script_engine.cpp:1371-1787 | With at least one variable, print then parse restores position, flags, sequence, every elapsed time on any other clock, every slot timer and every variable. |
| `CheckpointRestore.WithoutVariables` | src/ams/mission_script_engine.cpp:1769-1778 | Without variables everything but the slot timers comes back; those start over. |
| `CheckpointRestore.OlderRecords` | src/ams/mission_script_engine.cpp:1755-1780 | Records of version 1 restore no variables, those of version 2 variables but no slot timers. |
| `CheckpointRestore.SlotTimersSurviveIff` | src/ams/mission_script_engine.cpp:1761-1779 | The slot timers survive iff a variable is declared or nothing had elapsed. |
| `CheckpointNames.EntryReadsBackIff` | src/ams/mission_script_engine.cpp:1563-1598 | An entry reads back as itself, with the cursor behind it, iff its name contains neither separator. |
| `CheckpointNames.NamesSurviveIff` | src/ams/mission_script_engine.cpp:1563-1646 | All variables and slot timers survive iff no name contains a separator, when every variable changed, some timer moved and no part of a name looks like a number. |
| `CheckpointNames.EqualsNeverRestored` | src/ams/mission_script_engine.cpp:1563-1598 | No text in storage ever restores a variable whose name contains an equals sign. |
| `CheckpointNames.PipeLosesTimers` | src/ams/mission_script_engine.cpp:1563-1646 | With a pipe in some name the scan ends inside the variables, and every slot timer starts over. |
| `CheckpointNames.NeighbourOverwrites` | src/ams/mission_script_engine.cpp:1563-1598 | With variables n and n=m declared, a resume gives n the number that m spells. |
| `CheckpointNames.SevenBecomesTwo` | src/ams/mission_script_engine.cpp:1563-1598 | An instance: "a" was 7, "a=2" was 1.5, and after the resume "a" is 2. |
| `CheckpointNames.ResumedUnderItsNameIff` | src/ams/mission_script_engine.cpp:1563-1745 | A resume looks up the script under its own name iff that is not 32 characters long; otherwise it fails unless storage holds one under the cut name. |
| `CheckpointRestore.ResumePoint.TryRestore` | src/ams/mission_script_engine.cpp:1693-1787 | Scanning in place does what the restore function says, on every text. |
| `CheckpointRestore.ResumePoint.RestoreCheckpointVars` | src/ams/mission_script_engine.cpp:1563-1598 | The cursor loop over entries; unknown or malformed ones are passed over. |
| `CheckpointRestore.ResumePoint.RestoreCheckpointSlots` | src/ams/mission_script_engine.cpp:1600-1646 | The two cursor loops over slot timers, capped at four each. |

## Left out

- DepthSearch.ComputeDfsMaxDepth: carries the exit on a cycle; the loop as written is `DepthSearch.LoopHalts` and has its own exact condition.
- Assertions.ValidateAssertions: runs that depth search; `Assertions.CheckReturnsIff` is about the code as written.
- EngineSafety.AnalysisBoundsEveryRun: is about the graph; whether the conditions of a particular script can ever be true together, and so whether its runs reach the bound, is not analysed.
- CheckpointRestore.CheckpointRoundTrip: a restored value is the one that the float reader makes of the printed text; the six digits of "%.6g" are an abstract pair of functions.
- CheckpointRestore.ResumePoint.TryRestore: states the restored fields; the error status and the removal of the record in each outcome are in `Resuming.BeginReadsTheText`.
- FieldText.ReadUint: signs and blanks that sscanf would skip before a number are not accepted, and a number beyond 32 bits is reduced modulo 2^32, where sscanf saturates or leaves the result undefined; records contain none of these.
- CommandPath.CommandHandler.DrainCmdQueue: the outcome of `executeCommand` is a parameter, and the command does not call back into the queue.
- Compiler.Compile: the text inside a line (sscanf formats, sensor aliases, number syntax, limits on task rules and set actions) is the classification of the line.
- ScriptParser.TableParser.ParseLine: a rejected line leaves the tables as they were; the code may have half written an entry of a script it then abandons.
- Frames a poll sends are logged as events or frames; the transmit counter that numbers them, log lines and error texts are not modelled.
- The receive buffer, command path, retry slots and bulk sender are separate classes, although the firmware keeps them in one dispatcher object; they share no mutable state but that counter.
- The legacy single-slot HK and LOG fields mirror slot 0; only the slot tables are modelled.
- Task rules, set actions, sensor caches, vertical velocity and GPS scaling: their values reach the model through the readings of a tick.
- Sensor, radio, pulse and LED drivers, the REST server, WiFi, the file system and CSV rows: register I/O and plumbing.
- RTOS mutexes: every public call is atomic, and lock time-outs are not modelled.
- Float rounding: telemetry, monitoring and sensor comparisons are over the reals; time guards compare whole milliseconds.
