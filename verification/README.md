# A verified model of navar's streaming and pooling core

navar is a modular HTTP client. This project models its four stateful parts in Dafny and proves what they promise:

- **The line streams** `SseStream` and `NdjsonStream`. Frames cut at arbitrary bytes go into a ring buffer; only the new bytes are scanned for line feeds; each complete line is copied out of the ring and interpreted; `poll_next` serves a queue and polls the body. `ByteDeque.dfy` is the ring (array, head, length, wrap-around, growth into any layout). `LineMachine.dfy` is the specification both streams refine: all bytes at once, split at 0x0A, folded by a line handler. `SseStream.dfy` and `NdjsonStream.dfy` are the imperative classes, proved equal to it call by call. A body is any infinite script of poll results (data in any chunks, trailers, pending, error, end).
- **Server-sent events.** `SseEvents.dfy` is the event state machine, `SseLines.dfy` says in plain terms what every line means, `Utf8.dfy` is the lossy decoder (RFC 3629, section 4, with one U+FFFD per maximal subpart), `SsePrinter.dfy` the events the parser can emit and a printer that parsing inverts, and `EventStreamStandard.dfy` sections 9.2.5 and 9.2.6 of the WHATWG HTML Living Standard with the exact conditions under which the parser agrees with them; and `EventStreamGaps.dfy` has byte streams on which the two differ.
- **NDJSON.** `Ndjson.dfy` has the encoder, the handler and the round trip, for any serializer and deserializer that fit; `JsonStrings.dfy` is a concrete pair.
- **The session pool.** `SessionPool.dfy` is a transition system of any number of tasks running `BaseService::handle`, with an uninterpreted shard function, failure and cancellation at every await, and worker threads. `PoolSafety.dfy` and `PoolProgress.dfy` prove what holds of all its runs, `PoolTraces.dfy` what each task does in them, and `PoolCapacity.dfy` which requests can get it stuck. `BaseService.dfy` is the service as a class: one method for each step, `PerformAll` for any interleaving of them, and `Handle` for one request that is not interrupted.
- **The HTTP/3 streams.** `H3Send.dfy` has the two buffered senders over a transport that replies as it likes, and `H3Receive.dfy` the receive side.

Where the code falls short of what one may expect of it, a failing input and the exact condition are proved:

- The parser drops empty data lines at the start of a block (`EventStreamGaps.EmptyFirstDataIsLost`, `EventStreamStandard.StandardRefinement`) and trims all white space (`EventStreamGaps.TrailingSpaceIsLost`, `EventStreamStandard.SameCommandIffTidy`).
- An entry lock kept across an await can block every worker thread (`PoolCapacity.StuckBeyondWorkers`): some run gets stuck exactly when the requests that have an authority outnumber the shards they hash to by the number of workers or more (`PoolCapacity.CanGetStuckIffSurplus`).
- A transport that accepts nothing for ever holds the drain loop (`H3Send.EmptyAcceptancesSpin`). A call does not return exactly when the replies are some acceptances of fewer bytes in all than are buffered, and after them empty acceptances for ever (`H3Send.NeverReturnsIffRepliesFallShort`).
- `split` drops what is still buffered (`H3Send.SplitLosesBytes`, `H3Send.SplitConservesIffDrained`).

## Model

| member | source | states |
|---|---|---|
| ByteDeques.ByteDeque.PushBack | src/response_helpers/sse.rs:72-78 | whatever the head, length and layout, the byte is appended to the logical contents; a full ring grows first |
| ByteDeques.ByteDeque.ExtendFromFrame | src/response_helpers/sse.rs:72-78 | all chunks of a frame are appended in order, each byte once |
| ByteDeques.ByteDeque.CopyWindow | src/response_helpers/sse.rs:86-100 | the three-way slice case yields exactly logical positions start..end, with all indices in bounds |
| ByteDeques.ByteDeque.DrainFront | src/response_helpers/sse.rs:112-114 | draining leaves exactly the logical suffix |
| Lines.SplitIsExact | src/response_helpers/sse.rs:24 | the lines with their separators, then the rest, are the input again, and none of them holds a separator |
| Lines.SplitIsUnique | src/response_helpers/sse.rs:24 | that decomposition is unique, so it is what splitting means |
| Lines.SplitConcat | src/response_helpers/sse.rs:69-115 | splitting may go on from the rest of an earlier part |
| Utf8.NextStopsAtAscii | src/response_helpers/sse.rs:102 | no decoded character, ill-formed or not, reaches across an ASCII byte |
| Utf8.SplitThenDecode | src/response_helpers/sse.rs:80-103 | decoding each line lossily equals decoding the whole stream and splitting it at line feeds |
| Utf8.DecodeOfEncoded | src/response_helpers/sse.rs:102 | lossy decoding is the identity on encoded text |
| Utf8.LossyStep | src/response_helpers/sse.rs:102 | for any bytes: a character that stands at the start is decoded as itself, and otherwise one U+FFFD stands for the longest prefix that begins some character, or for one byte |
| Utf8.EncodingExamples | src/response_helpers/sse.rs:102 | the encoder gives the byte sequences of the examples of RFC 3629, section 7 |
| LineMachine.OneShotConcat | src/response_helpers/sse.rs:69-115 | the fold over all lines may be cut at any byte |
| LineMachine.ScanLine | src/response_helpers/sse.rs:81-108 | handling one line at its line feed advances the scan as the specification says |
| LineMachine.ScanFollows | src/response_helpers/sse.rs:70-81 | a scan of the new bytes alone handles exactly the lines that a scan from the start would |
| LineMachine.ScanEnd | src/response_helpers/sse.rs:80-114 | a finished scan from the old length is the specification applied to buffer and frame, and keeps no line feed |
| LineMachine.RunFollowsBody | src/response_helpers/sse.rs:151-173 | for every body and number of polls, what was delivered followed by the queue is the in-order merge of completed items and body errors; buffer and state are those of the one-shot specification |
| LineMachine.RunItems | src/response_helpers/sse.rs:151-173 | items yielded, then items queued, are the one-shot specification of all bytes received |
| LineMachine.FramingInvariance | src/response_helpers/sse.rs:69-115 | two runs that received the same bytes agree on buffer, state and items, however the bytes were framed |
| LineMachine.DrainBound | src/response_helpers/sse.rs:151-173 | polls plus queue length are at most body results taken plus line feeds received |
| LineMachine.BodyIsReached | src/response_helpers/sse.rs:151-173 | every body result is taken within a bounded number of polls |
| LineMachine.OutcomeMeans | src/response_helpers/sse.rs:151-173 | a pending poll follows a pending body or an explicit wake; the end is reported exactly when nothing is queued and the body ended |
| LineMachine.NothingHeldBack | src/response_helpers/sse.rs:151-173 | at a pending or final poll everything completed has been delivered |
| LineMachine.EndIsReached | src/response_helpers/sse.rs:156-171 | a body that ends makes some bounded poll report the end, after exactly the items and errors of its results |
| SseStreams.SseStream.ProcessLine | src/response_helpers/sse.rs:117-144 | one line changes pending event, ready queue and sticky id as the specification's command does |
| SseLines.FieldLine | src/response_helpers/sse.rs:102-142 | a line of name, colon, white space, value and white space sets exactly that value of exactly that field, where white space is the 25 code points of the Unicode property and nothing else is trimmed |
| SseLines.NameLine | src/response_helpers/sse.rs:124-126 | a line without a colon is a field without a value |
| SseLines.BlankLine | src/response_helpers/sse.rs:117-122 | a line of nothing but white space hands out the pending event, empty or not, and keeps the sticky id |
| SseLines.EveryLine | src/response_helpers/sse.rs:102-142 | every line of text is of one of these kinds, and means what they say |
| SseStreams.SseStream.AppendFrame | src/response_helpers/sse.rs:69-115 | one frame refines the specification step; every byte is compared once and copied at most once, and no line feed is kept |
| SseStreams.SseStream.PollNext | src/response_helpers/sse.rs:151-173 | one poll refines the specification's poll, for every body |
| SseStreams.SseStream.Drive | src/response_helpers/sse.rs:147-174 | any number of polls of a new stream give exactly the specification's run; over it, comparisons equal bytes received and bytes copied never exceed them |
| SseEvents.LastIdOfFeed | src/response_helpers/sse.rs:117-143 | the sticky id is the last id of the events emitted and the pending one, although dispatch resets that one |
| SseEvents.LastIdInRun | src/response_helpers/sse.rs:63-66 | in every reachable state `last_event_id` is the last id among yielded, ready and pending events |
| SseEvents.EndYieldsEveryEvent | src/response_helpers/sse.rs:152-171 | when the body ends some bounded poll reports it, after every completed event and every error in its place |
| SseEvents.CrLfInvariance | src/response_helpers/sse.rs:102-103 | replacing every LF by CRLF changes no event, state or rest |
| SsePrinter.EmittedAreCanonical | src/response_helpers/sse.rs:102-143 | ids, kinds and data lines of emitted events are trimmed and free of line feeds, and data does not start with one |
| SsePrinter.ParsePrinted | src/response_helpers/sse.rs:117-143 | printed canonical events parse back to themselves, from any state with nothing pending |
| SsePrinter.PrintedStreamParses | src/response_helpers/sse.rs:69-173 | the same over a live body under any framing |
| SsePrinter.PrintedRoundTrip | src/response_helpers/sse.rs:69-173 | a body of printed events that ends yields exactly those events and then the end |
| SsePrinter.EmittableIffCanonical | src/response_helpers/sse.rs:102-143 | an event can be emitted if and only if it is canonical |
| SsePrinter.ReprintIsIdentity | src/response_helpers/sse.rs:102-143 | printing the events of any bytes and parsing again gives the same events |
| EventStreamStandard.SameCommandIffTidy | src/response_helpers/sse.rs:103-142 | parser and standard read the same command from a line if and only if the line is tidy |
| EventStreamStandard.SameMessagesIffFull | src/response_helpers/sse.rs:117-143 | over any commands the messages agree if and only if no block starts with an empty data line |
| EventStreamStandard.StandardRefinement | src/response_helpers/sse.rs:69-144 | on comparable bytes, messages and last event ID are those of the standard, under exactly that condition |
| EventStreamStandard.StandardRefinementInRun | src/response_helpers/sse.rs:151-173 | the same, messages, their number and last event ID, for every run under any framing |
| EventStreamGaps.EmptyFirstDataIsLost | src/response_helpers/sse.rs:129-134 | bytes comparable with the standard, of a block whose first data line is empty, on which the parser loses a line feed that the standard keeps |
| EventStreamGaps.TrailingSpaceIsLost | src/response_helpers/sse.rs:102-103 | bytes with a line that is not tidy, on which the parser loses a space that the standard keeps |
| Ndjson.ResultsAreByPosition | src/response_helpers/ndjson.rs:63-108 | there is one result per line feed, and the i-th depends on the i-th line alone |
| Ndjson.EncodeItem | src/bound_request/json.rs:30-36 | the frame of an item is one line, which parses back to that item alone with nothing left over, for every deserializer that fits; an item that does not serialize is a body error |
| Ndjson.RoundTrip | src/response_helpers/ndjson.rs:63-142 | encoded items cut into any frames are yielded as `Ok`, in order, and then the end |
| Ndjson.EncoderIntoParser | src/bound_request/json.rs:26-37 | the encoder's own body delivers every item and every serialization error in its place |
| NdjsonStreams.NdjsonStream.AppendFrame | src/response_helpers/ndjson.rs:63-107 | one frame refines the specification step, with every byte compared once |
| NdjsonStreams.NdjsonStream.PollNext | src/response_helpers/ndjson.rs:119-141 | one poll refines the specification's poll, for every body |
| NdjsonStreams.NdjsonStream.Drive | src/response_helpers/ndjson.rs:112-142 | any number of polls of a new stream give exactly the specification's run; over it, comparisons equal bytes received and bytes copied never exceed them |
| JsonStrings.JsonStringsFit | src/bound_request/json.rs:33-34 | JSON strings meet the hypotheses of the round trip |
| SessionPool.StepKeepsInv | src/base_service.rs:59-78 | every step of every task keeps locks, pool, sessions, drivers and requests consistent |
| PoolSafety.OneHandshakePerAuthority | src/base_service.rs:59-75 | each authority has at most one successful handshake, in every reachable state |
| PoolSafety.RequestsUseTheirOwnSession | src/base_service.rs:60-78 | every request is sent through the session opened by a connect to its own authority |
| PoolSafety.PoolIsStable | src/base_service.rs:71-72 | a pooled session is never replaced and never disappears |
| PoolSafety.DriversArePooledIffNoneInserting | src/base_service.rs:68-72 | drivers and pool entries correspond one to one exactly outside the spawn-and-insert stretch |
| PoolSafety.PoolIsInjective | src/base_service.rs:71-73 | different authorities have different sessions |
| PoolSafety.FailureReleases | src/base_service.rs:61-66 | a connect or handshake that fails or is cancelled frees its shard and changes nothing else |
| PoolSafety.InterruptionEndsOnlyItsTask | src/base_service.rs:61-78 | an error or a cancellation at any await ends its task so, and changes nothing else but the shard of an entry it held |
| PoolSafety.RetryAfterFailure | src/base_service.rs:59-63 | whoever waited for that authority can then connect anew |
| PoolSafety.ReconnectAfterFailure | src/base_service.rs:59-63 | so can a request for it that arrives afterwards |
| PoolTraces.TasksFollowHandle | src/base_service.rs:47-87 | in every interleaving each task's own steps are those of one call of `handle` so far, hit or miss, and its phase and what it has sent are what they lead to |
| PoolTraces.EndingsAreEarned | src/base_service.rs:52-78 | a task has responded exactly if its steps are a whole call, failed exactly if it had no authority or an await failed, and was cancelled exactly if it was dropped |
| PoolTraces.ResponsesWereSent | src/base_service.rs:52-78 | a task that waits for its response or has it has sent exactly one request, for its own authority; none has ever sent two |
| PoolTraces.InterruptedOnlyWhereSuspended | src/base_service.rs:61-78 | a call can be dropped exactly before it begins and at its awaits, and fail exactly at its awaits |
| PoolProgress.HoldersNeverWait | src/base_service.rs:59-75 | a waiting task holds no shard and the one it waits for does not wait |
| PoolProgress.StuckIffWorkersBlocked | src/base_service.rs:59-66 | with work left, no task can step if and only if as many tasks are blocked as there are workers |
| PoolProgress.NeverStuckUpToWorkers | src/base_service.rs:59-66 | with no more unfinished tasks than workers some step is always enabled |
| PoolCapacity.CanGetStuckIffSurplus | src/base_service.rs:52-66 | some run of given requests gets stuck with work left if and only if there are any, and those with an authority outnumber the distinct shards among them by the number of workers or more |
| PoolCapacity.StuckBeyondWorkers | src/base_service.rs:59-66 | one task more than workers, all at one authority, is enough to get stuck |
| PoolProgress.CancellingTheHolderUnblocks | src/base_service.rs:63-66 | in a stuck state, dropping the suspended holder of a shard lets a waiter go on |
| PoolProgress.RunsAreBounded | src/base_service.rs:47-87 | a run takes at most nine steps for each request |
| BaseServices.BaseService.ObtainSession | src/base_service.rs:59-75 | a hit clones the pooled session; a miss adds one if connect and handshake succeed and otherwise leaves the pool alone; the entry is released either way |
| BaseServices.BaseService.PerformAll | src/base_service.rs:47-87 | the service performs any interleaving of steps of any tasks as the transition system does, stops at the first step that is not enabled, and keeps the invariant throughout |
| BaseServices.BaseService.Handle | src/base_service.rs:47-87 | a request that is not interrupted does not begin without a free worker, waits at a held shard, and otherwise responds exactly when it has an authority, a session and an answer; it is a run of the transition system |
| H3Send.DrainConserves | navar-h3/src/adapter.rs:278-287 | any number of partial writes lose, repeat and reorder nothing, and the loop reports ready exactly when the buffer is empty |
| H3Send.Conservation | navar-h3/src/adapter.rs:277-308 | after any calls, bytes accepted and then bytes buffered are exactly the bytes sent |
| H3Send.FinishGuarantee | navar-h3/src/adapter.rs:301-308 | a successful finish means an empty buffer, every byte accepted in order, and a last flush that succeeded and covered them all |
| H3Send.DrainReports | navar-h3/src/adapter.rs:280-284 | a drain fails or is pending if and only if its last write was, and then bytes are still buffered |
| H3Send.FinishReports | navar-h3/src/adapter.rs:301-308 | each answer of a finish if and only if: the one flush made once drained gives it, or else the last write; only a flush that succeeds counts |
| H3Send.SplitConservesIffDrained | navar-h3/src/adapter.rs:403-406 | conservation continues across `split` if and only if the old buffer had drained |
| H3Send.SplitLosesBytes | navar-h3/src/adapter.rs:403-406 | a byte sent and not drained before `split` never arrives, whatever follows |
| H3Send.ReturnsUnlessItSpins | navar-h3/src/adapter.rs:278-287 | the drain loop returns unless the transport accepts nothing for ever while bytes are buffered |
| H3Send.NeverReturnsIffRepliesFallShort | navar-h3/src/adapter.rs:278-287 | a call does not return if and only if the replies are acceptances of fewer bytes in all than are buffered, and then empty acceptances for ever |
| H3Send.EmptyAcceptancesSpin | navar-h3/src/adapter.rs:278-287 | a transport and a buffer for which it does not return |
| H3Send.DrainInTwo | navar-h3/src/adapter.rs:278-287 | a call cut off after some writes and taken up again is the whole call, and one that has returned makes no more writes |
| H3Send.WorkingWritesReturn | navar-h3/src/adapter.rs:279-285 | with writes that accept at least a byte, the loop takes at most one write per buffered byte |
| H3Send.FinishSucceeds | navar-h3/src/adapter.rs:277-308 | over a transport that never fails, accepts something when it accepts, and goes on to accept and to flush, calling `poll_finish` often enough succeeds, with all that was sent accepted in order and flushed |
| H3Send.H3SendStream.PollReady | navar-h3/src/adapter.rs:278-287 | over any transport, the first writes of the loop, any number of them, do what the specification's drain does |
| H3Send.H3SendStream.SendData | navar-h3/src/adapter.rs:289-299 | all chunks are appended to the buffer |
| H3Send.H3SendStream.PollFinish | navar-h3/src/adapter.rs:301-308 | drain, then flush only if everything drained |
| H3Send.H3SendStream.ServeAll | navar-h3/src/adapter.rs:277-308 | any sequence of calls does what the specification says, and of a new stream's bytes none is lost, repeated or reordered |
| H3Send.H3BidiStream.PollReady | navar-h3/src/adapter.rs:360-369 | over any transport, the first writes of the loop, any number of them, do what the specification's drain does |
| H3Send.H3BidiStream.SendData | navar-h3/src/adapter.rs:371-381 | all chunks are appended to the buffer |
| H3Send.H3BidiStream.PollFinish | navar-h3/src/adapter.rs:383-390 | drain, then flush only if everything drained |
| H3Send.H3BidiStream.ServeAll | navar-h3/src/adapter.rs:359-390 | any sequence of calls does what the specification says, and of a new stream's bytes none is lost, repeated or reordered |
| H3Send.H3BidiStream.Split | navar-h3/src/adapter.rs:403-406 | the send half keeps the transport and starts with an empty buffer; the receive half goes on where the stream stood |
| H3Send.H3BidiStream.PollData | navar-h3/src/adapter.rs:336-350 | one poll uses one reply: an error is reported as one, pending as pending, a read of nothing as the end, and otherwise exactly the bytes read are handed out |
| H3Send.H3BidiStream.CollectAcrossSplit | navar-h3/src/adapter.rs:336-406 | receiving, splitting and receiving again hands out what one stream would have |
| H3Receive.H3RecvStream.PollData | navar-h3/src/adapter.rs:236-250 | one poll uses one reply: an error is reported as one, pending as pending, a read of nothing as the end, and otherwise exactly the bytes read are handed out |
| H3Receive.H3RecvStream.Collect | navar-h3/src/adapter.rs:236-250 | any number of polls hands out the bytes of as many replies, in order |
| H3Receive.HandedOutInTwo | navar-h3/src/adapter.rs:236-250 | nothing is lost or repeated between two stretches of polls |
| H3Receive.AllIsHandedOut | navar-h3/src/adapter.rs:236-250 | over a transport that keeps to the size of the buffer, all bytes read are handed out in order |
| H3Receive.EndMeansAllReceived | navar-h3/src/adapter.rs:236-250 | a consumer told that the stream has ended, without an error before, has received all bytes read, and no reply before was an error or the end |
| H3Receive.H3RecvStream.ReadToEnd | navar-h3/src/adapter.rs:236-250 | polling to the end or an error hands out all that was read; only the last reply can have been either |

## Left out

- Transports, TLS, DNS, hyper, h3 and runtime internals: they appear only as scripts of poll results and as events.
- `serde_json`: serialization and deserialization are parameters of the NDJSON model, with one concrete instance.
- `Client`, the request builder, content types, `BoundRequestBuilder::json`, pipelines and middleware: they pass requests on, set headers and call `serde_json`, and keep no state.
- The cached-future pollers of `H3Connection`: each returns on its first pass.
- `H3Session::send_request`: the h3 crate's framing lies between it and the adapter.
- The allocator's growth policy: a full ring grows to any larger capacity with any head, so every layout is covered; `reserve` and running out of memory are not modelled.
- Chunks of a frame and slices of the ring are values; sharing of memory between them is not modelled.
- The standard's byte order mark and lone CR line ends: streams with them are outside `Comparable`, since the parser treats neither as the standard does.
- A final unterminated line: both streams keep it in the buffer and drop it at the end of the body, and nothing claims that it is yielded.
- Worker threads: the pool assumes that a thread waiting for a shard does nothing else and that a suspended task needs a free thread to go on; fairness between enabled tasks is not modelled.
- Mutex poisoning, panics, closed sessions and the URI scheme: the pool's key is only the authority, and no entry is ever removed.
- H3Send.H3SendStream.PollReady: makes at most a given number of writes and then reports that it goes on, since a call may never return; `NeverReturnsIffRepliesFallShort` says when it does not.
- A transport that claims to have written or read more bytes than it was given or had room for: it is taken to have used only those, where the code would panic in `advance` or hand out the whole buffer.
- `reset`, `stop_sending` and stream identifiers: the first two do nothing, and the third are numbers passed on.
- BaseServices.BaseService.Handle: covers one request while no other task moves; interleavings are those of `PerformAll` and `SessionPool`.
- The scratch buffer `line_buf`: it is emptied before and after each line and saves an allocation, which is not modelled.
