# Message, modelled and proved in Dafny

Message carries one agent's message to another. A client — the `message` command or
the MCP adapter `message-mcp-send` — asks the Message Nexus to send; the Nexus
identifies the sender at Flow, takes a lock on the recipient, delivers under it, and
forwards Flow's status stream until the delivery settles. This project models the
parts of that path where something can go wrong and proves what they keep, for every
behaviour of Flow, of the kernel and of the thread scheduler.

| module | what it is |
|---|---|
| `Frames` | length-prefixed frames, and a socket as bytes to come and bytes taken |
| `Contract` | the two vocabularies Message stands between |
| `FlowEdge` | the world one request meets — the store at each read, Flow and the kernel at each connection — and one connection to Flow |
| `Configuration` | the configuration store, its file, the gate on Configure |
| `SendTransaction`, `SendGuarantees` | one Send as a trace of at most four connections, and what it guarantees |
| `AnswerGuarantees` | the frames that answer a Send, in terms of what Flow said |
| `Clients`, `Listener`, `StreamAgreement` | both readers of a status stream, its writer, and their agreement |
| `ForwarderWatcher` | the two threads of one forwarded stream |
| `Workers` | the reap loop and the listener's whole run |
| `ConfigureMachine` | Configures, Sends and restarts, interleaved |
| `McpSession` | the MCP handshake, the admission of calls |
| `CallWorker`, `CallMachine`, `CallInvariants`, `CallGuarantees` | the MCP adapter's reader and workers, interleaved one shared access at a time |
| `LineAnswers` | every line of input to the adapter and the one answer it calls for |
| `EndToEnd` | an MCP call whose responses come from the listener |
| `Ledger` | delivery ids, receipts and crash-retry of `delivery.rs` and `ledger.rs` |

How to read it:

- Code that changes things step by step is a method or a class, proved equal to a
  function of its inputs (`Decode`, `ExchangeResult`, `Situation.Outcome` and
  `Situation.Trace`, `AnswerFrames`, `CliReads`); the lemmas are about that function.
- Concurrency is a step relation: `Enabled` says when a step may happen, `Apply` what it
  does, `Run` folds a run of events. What a thread may meet from outside is a choice in
  the event. Atomics are sequentially consistent. A step that may wait for a peer is told
  from one a thread takes unaided (`CallMachine.Unaided`, `ForwarderWatcher`'s
  `ForwarderCanStep` and `WatcherCanStep`).
- Flow is an adversary. Each connection may fail to open, refuse its timeouts, take any
  prefix of the query, answer any bytes, and end in end of file or a fault. The store
  may be another at every read (`FlowEdge.World`).
- An archive format is a `Codec`; proofs use only that decoding undoes encoding
  (`Faithful`). The clock is a parameter read once, at the lapse check.

## What the code does that its prose does not say

- `Closed` is documented as a close between frames; it is also reported when end of file
  cuts the four header bytes (`Frames.ClosedMeansFewerThanFourBytes`).
- `write_frame` does not check the reader's limit. The command succeeds if and only if
  every frame of the answer is within it (`StreamAgreement.CommandSucceedsExactly`); a
  stray reply printed into the interruption can exceed it
  (`StreamAgreement.PrintedReplyIsTooLarge`).
- "Flow unreachable" as the answer to a soft Send may follow a Deliver that Flow took
  whole: exactly when is `SendGuarantees.SoftRefusalMayHideADeliver`, such a run is
  `SendGuarantees.SilentFlowHidesADeliver`.
- An abrupt Deliver on whose connection only the socket timeouts failed is reported as
  uncertain, though nothing was written (`SendGuarantees.NotSentExactly`,
  `RefusedTimeoutsLookUncertain`).
- The answer to Configure compares with the stored configuration, not with the bound
  one, so a repeated Configure says no restart is needed when one is
  (`ConfigureMachine.SecondAnswerHidesRestart`, `RestartAnswerIsRightExactly`).
- A process that dies between creating the store file and seeding it leaves a file that
  is refused ever after (`Configuration.InterruptedOpens`).
- The cursor the MCP adapter reports is not always the one Message's interruption
  carries; the exact cases are `StreamAgreement.SendCursorsAgreeExactly` and
  `ObservationCursorsAgreeExactly`, such runs are `QuietStreamSplitsTheCursors` and
  `UnreachableFlowLosesTheCursor`.
- A client that shuts only its write half and stops reading holds the forwarder for good
  (`ForwarderWatcher.HalfCloseCanClog`).
- A status stream whose sockets cannot be duplicated ends right after the acceptance, so
  the client meets end of file (`StreamAgreement.SendStreamsAgree`).
- A call uses up its id when it is admitted (`McpSession.Adapter.AdmitCall`), and the
  check for capacity comes after that: one refused for capacity cannot be asked again
  under its id.
- A line whose method is `notifications/cancelled` is never answered, whatever its id; a
  `tools/call` is always answered, with or without an id or a `jsonrpc` member
  (`LineAnswers.Expects`, `CallGuarantees.OneResponsePerLine`).
- The two early error replies of a call load its cancelled flag twice, so their code and
  text may disagree. The model keeps both loads and claims nothing of their agreement.
- "Nothing reached Flow: nothing was typed" holds of one Deliver, not of a retry: when a
  crash falls between a Deliver that typed and its record, and Flow cannot be reached
  afterwards, the ledger's last word is that nothing was delivered. Exactly when is
  `Ledger.NotDeliveredExactly`, such a run is `Ledger.CrashCanHideADelivery`.
- `delivery.rs` and `ledger.rs` are not in the crate's module tree; `Ledger` models what
  the two files themselves define.

## Model

| member | source | states |
|---|---|---|
| Frames.FramingRoundTrip | crates/message-nexus/src/frame.rs:33-66 | any sequence of values, written and read back, gives the sequence and leaves the bytes behind it untouched, if and only if every archive is within 1 MiB |
| Frames.DecodeAllWritten | crates/message-nexus/src/frame.rs:33-66 | a reader that takes all it can gets every written value, then what the bytes behind them decode to |
| Frames.StrictPrefixNeverDecodes | crates/message-nexus/src/frame.rs:51-65 | no strict prefix of a frame is ever read as a value, and which error each cut gives |
| Frames.DecodedIsFrame | crates/message-nexus/src/frame.rs:51-65 | a read succeeds if and only if the input starts with one whole frame of a decodable archive within the limit, and takes exactly that frame |
| Frames.ClosedMeansFewerThanFourBytes | crates/message-nexus/src/frame.rs:26-28 | `Closed` is reported exactly for end of file with fewer than four bytes pending, half a header included |
| Frames.OversizedHeaderStopsAtFourBytes | crates/message-nexus/src/frame.rs:59-62 | `TooLarge` means a header above the limit and nothing else; exactly four bytes are gone |
| Frames.AllWrittenExactly | crates/message-nexus/src/frame.rs:37-42 | a sequence is written whole exactly when each value can be framed and the peer takes as many bytes as they come to |
| Frames.HeaderIsBigEndian | crates/message-nexus/src/frame.rs:38-39 | a longer length has a header that is greater in its first different byte |
| Frames.ByteStream.WriteFrame | crates/message-nexus/src/frame.rs:33-43 | the peer gets a prefix of the frame, the whole of it exactly on success, and nothing of a value that cannot be framed |
| Frames.ByteStream.ReadFrame | crates/message-nexus/src/frame.rs:45-66 | a read returns, and leaves unread, what `Decode` says of the bytes, errors included |
| FlowEdge.Edge.Exchange | crates/message-nexus/src/flow_edge.rs:52-79 | one connection to the edge's socket; the failure says how far it got, and the trace records the bytes Flow received |
| FlowEdge.Edge.Deliver | crates/message-nexus/src/flow_edge.rs:141-160 | one Deliver exchange, its reply classified; an abrupt one that Flow accepts for later becomes ReceiptUncertain |
| FlowEdge.Edge.Lock | crates/message-nexus/src/flow_edge.rs:133-139 | one Lock exchange, its reply classified |
| FlowEdge.Edge.Identify | crates/message-nexus/src/flow_edge.rs:110-131 | one Identify exchange, by process or by thread, its reply classified |
| FlowEdge.Edge.Release | crates/message-nexus/src/flow_edge.rs:184-190 | one Release exchange, its reply classified |
| FlowEdge.Edge.ObserveSender | crates/message-nexus/src/flow_edge.rs:162-182 | a status stream opens exactly when its query was wholly written, and then carries exactly Flow's bytes |
| FlowEdge.FlowSubscription.Next | crates/message-nexus/src/flow_edge.rs:38-41 | the next status is the next frame; every failed read is `Broken` |
| FlowEdge.FlowDecodesOnlyWholeQueries | crates/message-nexus/src/flow_edge.rs:73-75 | Flow can decode a query from a connection exactly when the whole frame was written and within the limit, and then it is the query meant |
| FlowEdge.UnreachableMeansNotWhollyWritten | crates/message-nexus/src/flow_edge.rs:53-78 | `Unreachable` means Flow did not get the whole query; a query it got whole ends in its own decoded reply or `Broken` |
| FlowEdge.SucceedsOnItsReply | crates/message-nexus/src/flow_edge.rs:110-190 | each operation succeeds exactly on its own reply of Flow's, given to the whole query, and with what that reply holds |
| FlowEdge.RefusedOnItsRefusal | crates/message-nexus/src/flow_edge.rs:110-190 | each is refused exactly on Flow's refusal, and with that refusal |
| FlowEdge.World.OpenEdge | crates/message-nexus/src/nexus.rs:76-80 | an edge is to the Flow socket the store names at that moment, or the store's failure |
| SendTransaction.AcceptSend | crates/message-nexus/src/service.rs:87-163 | however the store changes between connections, one Send ends with the outcome, and has made exactly the connections, of its situation, whose path is the one the store named before the first |
| SendTransaction.DeliverUnder | crates/message-nexus/src/service.rs:125-162 | the same for the part behind the lapse check: deliver, then release, observe or neither |
| SendGuarantees.DeliverOnlyUnderItsLock | crates/message-nexus/src/service.rs:102-125 | a Deliver is only ever the third connection, carries the caller's delivery and message, and runs under an unlapsed lock Flow had just granted for that recipient to the sender Flow had just identified, all on one socket |
| SendGuarantees.AtMostOneDeliver | crates/message-nexus/src/service.rs:125-151 | from the bytes it received, Flow can read a Deliver on at most one connection of a Send, with the caller's delivery and message |
| SendGuarantees.ReleaseOrObserveExactly | crates/message-nexus/src/service.rs:125-151 | what follows a Deliver: nothing exactly when Flow refused it, the status stream from the acceptance's cursor when a soft one was queued, otherwise a Release of that very lock; no other Release is ever sent |
| SendGuarantees.ReleaseGoesToTheGranter | crates/message-nexus/src/service.rs:116-146 | a Release is of the lock Flow granted on the second connection of the same Send, and goes to the socket it was granted on |
| SendGuarantees.NotSentIsSound | crates/message-nexus/src/service.rs:194-211 | when Message itself answers NotSent, Flow had no whole Deliver frame to read |
| SendGuarantees.NotSentExactly | crates/message-nexus/src/service.rs:102-137 | an abrupt Send is answered NotSent by Message if and only if it stopped at Identify or Lock without a usable reply, or the Deliver was not wholly written on a connection that did not fail merely in its timeouts |
| SendGuarantees.WrittenDeliverIsAccountedFor | crates/message-nexus/src/service.rs:125-148 | an abrupt Deliver that Flow got whole ends in Flow's own Sent, Failed or Refused, and in ReceiptUncertain for anything else |
| SendGuarantees.AbruptIsNeverQueued | crates/message-nexus/src/service.rs:93-163 | an abrupt Send is Sent or Failed; it is Refused exactly when Message cannot read its own store, and then Flow was not contacted |
| SendGuarantees.SoftRefusalMayHideADeliver | crates/message-nexus/src/service.rs:195-225 | for a soft Deliver that Flow got whole, exactly when the answer is nevertheless "Flow unreachable" |
| SendGuarantees.SilentFlowHidesADeliver | crates/message-nexus/src/service.rs:125-133 | a concrete Flow that reads the whole soft Deliver while the sender is told "Flow unreachable" |
| SendGuarantees.RefusedTimeoutsLookUncertain | crates/message-nexus/src/flow_edge.rs:67-72 | a concrete abrupt Send of whose Deliver nothing is written, answered ReceiptUncertain |
| AnswerGuarantees.StagesExactly | crates/message-nexus/src/service.rs:102-125 | exactly how far a Send gets: Identify with the thread if it has one, Lock exactly when Flow named the sender and no abrupt message is to be queued, Deliver exactly when Flow granted a lock that has not lapsed |
| AnswerGuarantees.AbruptBeforeDeliver | crates/message-nexus/src/service.rs:106-124 | the one frame of an abrupt Send that did not deliver, for each thing Flow may have said |
| AnswerGuarantees.AbruptAfterDeliver | crates/message-nexus/src/listener.rs:238-241 | the one frame of an abrupt Send that did: Flow's own receipt, failure or refusal, uncertain when it accepted for later or its answer is missing or of no use, not sent only when it had no whole Deliver |
| AnswerGuarantees.SoftBeforeDeliver | crates/message-nexus/src/service.rs:195-225 | the one frame of a soft Send that did not deliver: Flow's very refusal when the Send contract has a place for it |
| AnswerGuarantees.SoftAfterDeliver | crates/message-nexus/src/service.rs:125-162 | the first frame of a soft Send that did: Flow's own receipt, failure, acceptance or refusal, and otherwise "Flow unreachable" |
| AnswerGuarantees.AfterTheAcceptance | crates/message-nexus/src/service.rs:149-162 | after an acceptance come the statuses of the stream asked for from its cursor, or one interruption at that cursor |
| AnswerGuarantees.UnreadStore | crates/message-nexus/src/service.rs:94-101 | the answer is Message's own store refusal exactly when the store could not be read, and exactly then Flow was not contacted |
| AnswerGuarantees.SentExactly | crates/message-nexus/src/listener.rs:240 | the answer is `Sent` exactly when Flow said so to the whole Deliver, with Flow's receipt |
| AnswerGuarantees.AcceptedExactly | crates/message-nexus/src/listener.rs:242-246 | the answer starts with an acceptance exactly when Flow accepted a soft Deliver, and it is Flow's |
| AnswerGuarantees.NotSentFrameIsSound | crates/message-nexus/src/service.rs:194-211 | a frame that says "not sent", unless Flow said so itself, means that Flow read no Deliver on any connection |
| Clients.Call | crates/message/src/main.rs:67-110 | the command prints the readable frames up to the first terminal one, succeeds exactly when there is one, and leaves the bytes behind it |
| Clients.ClientsStopTogether | crates/message-mcp-send/src/main.rs:292-316 | the command and the MCP adapter stop at the same frame of every stream, or both run out of frames |
| Clients.ErrorMeansFailure | crates/message-mcp-send/src/main.rs:446-468 | a result is an error exactly for a failure, a refusal or a status in which the accepted delivery failed; any other result means sent, configured or delivered; an interruption is an error at the last cursor read |
| Listener.ForwardSubscription | crates/message-nexus/src/listener.rs:272-350 | the client gets the forwarded frames of Flow's stream, cut only where it stops taking bytes; success exactly when all of them were written |
| Listener.AnswerSend | crates/message-nexus/src/listener.rs:231-257 | the same for the whole answer to a Send |
| Listener.AnswerQueued | crates/message-nexus/src/listener.rs:246-254 | the same for a queued Send: the acceptance, then the stream or the interruption |
| Listener.AnswerObservation | crates/message-nexus/src/listener.rs:259-270 | the same for an observation, which is refused only when the store cannot be read |
| StreamAgreement.ForwardedIsReadToTheEnd | crates/message-nexus/src/listener.rs:297-343 | of any forwarded statuses a client following the same delivery takes every frame and stops by itself at the last |
| StreamAgreement.ForwardedVerbatim | crates/message-nexus/src/listener.rs:311-337 | every response forwarded is Flow's status in the same place, word for word, but for an interruption at the end, which comes only where Flow's stream ended or strayed |
| StreamAgreement.SendStreamsAgree | crates/message-nexus/src/listener.rs:238-257 | for every Send and every Flow, the last frame written is terminal for both clients and no earlier frame is for either; the one exception is a stream that could not be watched |
| StreamAgreement.ObservationStreamsAgree | crates/message-nexus/src/listener.rs:259-270 | the same for an observation, where no delivery is followed |
| StreamAgreement.AbruptIsOneFrame | crates/message-nexus/src/listener.rs:238-241 | an abrupt Send is answered by exactly one frame: Sent, Failed, or Refused only when Message's own store cannot be read |
| StreamAgreement.CommandSucceedsExactly | crates/message/src/main.rs:68-110 | from the bytes the server wrote, the command succeeds with exactly the server's frames if and only if every one is within 1 MiB |
| StreamAgreement.ObservationSucceedsExactly | crates/message-nexus/src/listener.rs:259-270 | the same for an observation |
| StreamAgreement.PrintedReplyIsTooLarge | crates/message-nexus/src/listener.rs:329-336 | a concrete Send that Flow queues and the command fails on: Flow's stray reply fits a frame, and Message's interruption that prints it does not |
| StreamAgreement.ForwardingIsCausal | crates/message-nexus/src/listener.rs:298-342 | frames already forwarded do not depend on what Flow sends later |
| StreamAgreement.InterruptionCarriesTheLastCursor | crates/message-nexus/src/listener.rs:298-337 | a mid-stream interruption carries the cursor of the last status forwarded, and a reader's own record ends on the same one |
| StreamAgreement.SendCursorsAgreeExactly | crates/message-mcp-send/src/main.rs:424-463 | for an interrupted Send the adapter reports the cursor Message carries, except exactly when the stream opened and its first reply is not a status: then it reports the acceptance's and Message carries none |
| StreamAgreement.QuietStreamSplitsTheCursors | crates/message-nexus/src/listener.rs:298-309 | a concrete such Send: Flow queues it and closes the stream at once |
| StreamAgreement.ObservationCursorsAgreeExactly | crates/message-nexus/src/service.rs:165-186 | for an interrupted observation they agree if and only if the stream opened or no cursor was asked for |
| StreamAgreement.UnreachableFlowLosesTheCursor | crates/message-nexus/src/service.rs:179-184 | a concrete observation whose interruption names the cursor asked for while the adapter reports none |
| ForwarderWatcher.AlwaysNeitherStranded | crates/message-nexus/src/listener.rs:285-348 | in every reachable state the watcher has finished exactly when Flow's stream is shut, a joining forwarder has shut the client's receive half, and it returns only after the watcher |
| ForwarderWatcher.ClientGetsWhatIsForwarded | crates/message-nexus/src/listener.rs:297-343 | over every interleaving, the forwarder reads what Flow sent in order, the client has a prefix of the responses for it, and all of them once the forwarder has left its loop, unless a write failed |
| ForwarderWatcher.StuckExactly | crates/message-nexus/src/listener.rs:285-348 | neither thread can step exactly when both have ended, both peers are quiet, or the client is connected and takes nothing; once the client is gone one of them can always step |
| ForwarderWatcher.GoneClientEndsBoth | crates/message-nexus/src/listener.rs:285-348 | once the client is gone, the watcher ends within its bound whatever Flow sends, and then both threads within a bound over the frames still buffered |
| ForwarderWatcher.HalfCloseCanClog | crates/message-nexus/src/listener.rs:285-296 | however much the client's socket holds, a run in which a half-closed, unreading client holds the forwarder after the watcher has ended |
| Workers.SwapRemoveTakesOne | crates/message-mcp-send/src/main.rs:602 | removing by swap loses and duplicates no handle and leaves those already polled in place |
| Workers.WorkerPool.Reap | crates/message-nexus/src/listener.rs:124-132 | the loop ends, polls every worker exactly once whatever the polls answer, joins those that had finished and keeps the others, in polling order |
| Workers.PolledExactly | crates/message-nexus/src/listener.rs:126-131 | a worker is joined, or kept, exactly when a poll of it gave that answer |
| Workers.WorkerPool.JoinAll | crates/message-nexus/src/listener.rs:142-144 | every worker left is joined, once, in order |
| Workers.WorkerPool.ShutAll | crates/message-nexus/src/listener.rs:139-141 | the connection of every worker left is shut, in order, and nothing else is done |
| Workers.Serve | crates/message-nexus/src/listener.rs:46-148 | over any run of the listener, every worker spawned is joined exactly once; the reaped ones are joined in the loop, and all that is done after it is to shut the connections of the others and then to join them |
| Workers.ServedExactly | crates/message-nexus/src/listener.rs:47-136 | the run ends with its first round that does not go on, well exactly if that is the signal, with one worker for every connection up to then |
| Workers.ShutBeforeJoined | crates/message-nexus/src/listener.rs:139-144 | every join after the loop comes after the shutting of that worker's connection |
| Configuration.ReplacedIsFoundAgain | crates/message-nexus/src/store.rs:47-95 | a committed Standard is the one every later open finds and reads, whatever its seed and wherever it is interrupted |
| Configuration.MessageNexus.Configure | crates/message-nexus/src/service.rs:29-43 | the answer, and what the store then holds, are those of the whole Configure made at once, engine failures included |
| Configuration.Recognize | crates/message-nexus/src/store.rs:118-243 | an occupant is taken if and only if it is a current store with exactly one Standard under its key; a missing file is taken too |
| Configuration.RecognizedExactly | crates/message-nexus/src/store.rs:168-242 | a file is a current store exactly when a completed open of a missing one, with some seed, leaves it so |
| Configuration.Disk.OpenStore | crates/message-nexus/src/store.rs:48-67 | a current store is opened unchanged, a missing one is created and seeded, and how far an interrupted open gets |
| Configuration.InterruptedOpens | crates/message-nexus/src/store.rs:55-65 | after any opens interrupted anywhere, the store can be opened exactly when the first open that created the file completed; its seed is then the Standard for good |
| ConfigureMachine.ConfigureIsLinear | crates/message-nexus/src/service.rs:29-43 | over any interleaving with restarts, the store holds the last committed configuration or the seed's, is closed exactly when the seed was or a meta Configure committed, no ordinary Configure commits after a meta one, and each commits at most once |
| ConfigureMachine.AnswersAreAtomic | crates/message-nexus/src/service.rs:34-42 | every answer is that of one Configure made at once at one point of the history, after it was asked and after every answer given before that: closed, failed or committed there exactly as the store and the engine then were, and a restart required exactly when another configuration was stored there |
| ConfigureMachine.AnswersWereAsked | crates/message-nexus/src/service.rs:29-33 | every answer is to a Configure that was asked, with that configuration and on that socket, ordinary or meta |
| ConfigureMachine.ReadAndWriteAreConfigure | crates/message-nexus/src/service.rs:34-42 | the machine's two critical steps together are one `Configure` of the store |
| ConfigureMachine.ClosedForGood | crates/message-nexus/src/store.rs:102-108 | a closed store stays closed over restarts with any seed, and only meta Configures change it |
| ConfigureMachine.OneFlowPerSend | crates/message-nexus/src/nexus.rs:65-80 | every connection of every Send goes to the Flow socket the store named when that Send read it, however many Configures commit meanwhile; what the process bound at its open stays bound |
| ConfigureMachine.ReleaseReachesTheGranter | crates/message-nexus/src/service.rs:116-146 | over any interleaving, a Release on the network comes after the connection of the same Send, to the same socket, on which Flow granted that very lock |
| ConfigureMachine.SecondAnswerHidesRestart | crates/message-nexus/src/service.rs:39-42 | a run in which the second of two equal Configures says no restart is needed though the process is bound to another configuration |
| ConfigureMachine.RestartAnswerIsRightExactly | crates/message-nexus/src/service.rs:39-42 | the answer is right about the process if and only if the stored configuration is the bound one or the new one is neither; with no commit since the open it is |
| McpSession.QueryIsStamped | crates/message-mcp-send/src/main.rs:140-200 | the adapter sends only a Send or observation stamped with the harness's thread, the request being the caller's datom and the cursor the caller's |
| McpSession.QueryExactly | crates/message-mcp-send/src/main.rs:140-200 | exactly which tool calls have a query: a valid harness thread, and `send` with nothing but a Send datom or `observe_sends` with nothing but an integer cursor, if that |
| McpSession.Adapter.AdmitCall | crates/message-mcp-send/src/main.rs:89-138 | a call is admitted only after the handshake and once per id, which it uses up; every refusal, in the order the checks are made, leaves the session unchanged |
| McpSession.Adapter.Synchronous | crates/message-mcp-send/src/main.rs:202-241 | what is answered at once, and that readiness follows only an earlier initialize |
| CallGuarantees.AtMostOneFinalAtTheEnd | crates/message-mcp-send/src/main.rs:438-445 | in every interleaving a call writes progress 1, 2, 3, … under its token for its responses in reading order, then at most one final response to its id, then nothing |
| CallGuarantees.FinalsAreTruthful | crates/message-mcp-send/src/main.rs:339-502 | what each kind of final response tells is so: the verdict on the first terminal response, whether an acceptance was read, a cancellation and the last cursor read, or that the query was never begun |
| CallGuarantees.ExactlyOneFinalWhileAlive | crates/message-mcp-send/src/main.rs:489-502 | a call that ended while the connection is alive has tried exactly one final response |
| CallGuarantees.AliveWasAlive | crates/message-mcp-send/src/main.rs:442 | the connection flag never comes back |
| CallGuarantees.NoResponseMeansCancelled | crates/message-mcp-send/src/main.rs:418-493 | a call leaves its loop without a response only when its flag is set |
| CallGuarantees.OneResponsePerLine | crates/message-mcp-send/src/main.rs:535-598 | a line that calls for no response gets none; any other is answered once by the reader, with the reply that is apt after the lines before it, or is the one line of one worker, which has its id, progress token and query and whose log has the one final response |
| CallGuarantees.NoLineAfterTheLast | crates/message-mcp-send/src/main.rs:519-598 | the reader leaves its loop after the end of input or a reply the client did not take, only then, and takes no line after it |
| CallGuarantees.RefusedForCapacityExactly | crates/message-mcp-send/src/main.rs:569-577 | a call is refused for capacity only when 16 are active or 65536 ids used, and with 16 active always |
| CallGuarantees.CancelLineReachesItsCall | crates/message-mcp-send/src/main.rs:542-556 | after a cancel line for an active call, in every run, once the reader is done with the line the call admitted with that id is cancelled or has removed its entry, and never again waits on an open socket |
| CallGuarantees.CancelTakesTwoSteps | crates/message-mcp-send/src/main.rs:542-556 | the reader is done with such a line in two steps of its own |
| CallGuarantees.OtherCancelLinesDoNothing | crates/message-mcp-send/src/main.rs:542-556 | a cancel line for anything else changes no call, no flag and no socket |
| CallGuarantees.NoCancellationIsLost | crates/message-mcp-send/src/main.rs:389-421 | once a cancel or the sweep has done with a call, its socket is shut, or it has not passed the check after registering, or it is out of its loop; at most one read ends after the flag is set |
| CallGuarantees.EveryKeyHasOneOwner | crates/message-mcp-send/src/main.rs:569-592 | active keys are seen ids, at most 16 of at most 65536; an entry is its worker's from admission until that worker removes it; no id admits two calls |
| CallGuarantees.ReaderTouchesOnlyItsKey | crates/message-mcp-send/src/main.rs:542-585 | insertion never overwrites; a cancel or the sweep changes only the call admitted with the key, and sets the flag of a call that still has its entry |
| CallGuarantees.OneQueryPerId | crates/message-mcp-send/src/main.rs:392-394 | over a whole session an id causes at most one query to Message, and none before an initialize followed by the initialized notification |
| CallGuarantees.SettledAnswerIsTheLastProgress | crates/message-mcp-send/src/main.rs:446-470 | a result shows the text of the last progress line, which was the first terminal response read, with the verdict that response calls for |
| CallGuarantees.JoinsNeverWaitOnAnOpenSocket | crates/message-mcp-send/src/main.rs:609-618 | while the reader joins, no worker reads from a socket that has not been shut, and every call still in the map is cancelled |
| CallGuarantees.EndOfInputReachesTheJoins | crates/message-mcp-send/src/main.rs:519-533 | from the end of input the reader can always take a step of its own until it joins, whatever the workers do, and takes at most 35 |
| CallGuarantees.DrainGoesOn | crates/message-mcp-send/src/main.rs:609-618 | until the exit, the reader or the worker it waits for can step without help from Message or the client, except while that worker writes a line to the client or connects; it never waits for a response on an open socket |
| CallGuarantees.ShutdownTerminates | crates/message-mcp-send/src/main.rs:609-619 | from the first join every run has a bounded number of steps left, and one in which no thread can go on unaided has exited, or waits for the client to take a line or for Message to take a connection |
| CallGuarantees.ExitedHasNoSteps | crates/message-mcp-send/src/main.rs:590-619 | at the exit every worker ever spawned has ended and been joined exactly once |
| EndToEnd.SettledSendReadTheWholeAnswer | crates/message-mcp-send/src/main.rs:418-470 | an MCP call fed by the answer to a Send that gives a settled answer read all of the server's frames; its result shows the last one, and its interruption names Message's cursor but for the one case stated |
| EndToEnd.SettledResultIsFlows | crates/message-mcp-send/src/main.rs:447-467 | an MCP result is an error only for a failed or refused Send or where Flow reported the accepted delivery failed, and is no error only with Flow's receipt or where Flow reported it made |
| EndToEnd.SettledObservationReadTheWholeAnswer | crates/message-mcp-send/src/main.rs:418-470 | the same for an observation: a result only for a store that cannot be read, otherwise an interruption, and when its cursor is Message's |
| Ledger.AttemptRoundTrip | crates/message-nexus/src/delivery.rs:67-85 | the attempt reads back from every delivery id, colons in the message and flow ids included |
| Ledger.DeliveryIdsCollideExactly | crates/message-nexus/src/delivery.rs:67-71 | two delivery ids are equal if and only if the attempts are and the two ids joined by a colon read the same |
| Ledger.Receipts.RecordGrade | crates/message-nexus/src/ledger.rs:89-105 | a receipt is appended with the next sequence number, no row is rewritten, and it is the recipient's latest; or the store fails and the ledger is as it was |
| Ledger.Receipts.LatestReceipts | crates/message-nexus/src/ledger.rs:61-78 | the latest receipt of each recipient that has one, in the message's recipient order |
| Ledger.LatestInOrder | crates/message-nexus/src/ledger.rs:67-77 | the receipts of one list of recipients after another are those of the first, then those of the second |
| Ledger.LatestIsGreatest | crates/message-nexus/src/ledger.rs:80-87 | the latest receipt is the recipient's row with the greatest sequence number, and is missing exactly when it has none |
| Ledger.TypedAtMostOncePerAttempt | crates/message-nexus/src/delivery.rs:141-284 | over any run of settles, watch frames, crashes and resumes from the message's acceptance, on any number of threads: each attempt has its own delivery id, every Deliver is under the latest's, the recipient is typed at most once under each and so at most as often as attempts were opened, and a recorded outcome is the one Flow kept |
| Ledger.StaysAttended | crates/message-nexus/src/delivery.rs:141-284 | until a crash, a failing store or a watch that ends, a parked recipient is always watched or being landed, and a submitted one being settled |
| Ledger.ResumeAttends | crates/message-nexus/src/delivery.rs:183-205 | a restart's resume attends to the recipient again, whatever was lost |
| Ledger.NotDeliveredExactly | crates/message-nexus/src/delivery.rs:92-124 | a Deliver graded as refused or parked typed nothing under its id, now or before, except exactly for a retry that does not reach Flow after an earlier Deliver typed; a grade with an outcome is the one Flow kept |
| Ledger.CrashCanHideADelivery | crates/message-nexus/src/delivery.rs:107-112 | a concrete run in which the last row says not delivered and Flow had typed |

## Left out

- The archive format, datom text and JSON text: libraries; values stand for them, and a decoded argument is given with its text.
- The text of a call's key: the id itself is the key, with numbers kept as written.
- Error texts and JSON-RPC messages, beyond the cursor and the reason they name.
- The redb file format, file locks and the repair of a snapshot: the store file is its version, layout, catalog and rows.
- signalfd, poll, socket binding and permissions, `/proc`, peer credentials: the peer process and the readiness of each socket are given.
- Real time: the clock is one integer, a timeout is a connection that ends in a fault. An abrupt Wake Deliver has no read timeout, so nothing is claimed about the Nexus always joining such a handler.
- A refusal for Message's own store and one Flow makes for its own are one variant on the wire, told apart by text; the model keeps them apart.
- Poisoned locks, panics and failed thread spawns.
- Flow's own semantics, except in `Ledger`, where it is assumed to type a delivery id at most once and to answer repeats with the outcome it kept.
- The bind to Flow when the Nexus opens, and the framing of the meta socket's answer.
- The clients' own write of the query, apart from its success or failure.
- The interleaving of different calls' lines on the one output: each call's own lines are a sequence; the output lock makes each line whole.
- Ledger.TypedAtMostOncePerAttempt: one recipient at a time; opening a new attempt stands for Redeliver, which neither file defines, and is taken to number it above the latest and to wait for Delivers underway; the registry of watches and the observers of receipts are not modelled.
- CallGuarantees.ShutdownTerminates: that a client takes a line, and that Message takes a connection, is up to them.
- Partial frames in `ForwarderWatcher`: the room in the client's socket counts frames, not bytes.
- Workers.Serve: the poll before each accept is given as what the two accepts came to.
- `message-defaults`, `message-meta`, `configuration.rs`, `peer.rs`, `generated/operation.rs`, the build and the scripts: path joins, thin clients and tooling.
