# Intertwine framework core: model and proofs

A Dafny model of the hand-written protocols, state machines and codecs of the `intertwine::fw`
framework, a C++ layer over libhv, with proofs of what they keep over every run.

* **File sending.** `LegacyTransfer` blocks a worker thread and runs closures on the IO loop through a
  started/done/timeout handshake (`SyncCall`, `LegacyTransfer`). `StreamTransfer` is driven by the write
  events of the connection, and its writer may call `onwrite` or `onclose` from inside `WriteBody`, `End`
  and `EndHeaders` (`StreamTransfer`). Both keep the ledger `TransferStats`.
* **SPSC queue.** One producer and one consumer on a ring, every load, slot access and publication a
  step of its own (`Spsc`).
* **Tokens.** HS256 tokens printed, split and read back by hand, and the purged and bounded revocation
  list (`Base64`, `Text`, `Jwt`, `Revocation`).
* **Request lifecycles.** Streamed request bodies over many contexts, async routes that may hand their
  response to a stream transfer, and the middleware chain (`BodyRoute`, `BodyWalk`, `BodyFailure`,
  `AsyncRoute`, `Middleware`).
* **Thread pool.** Submitters, workers and the supervisor, with abnormal exits and restarts
  (`ThreadPool`, `PoolProgress`).
* **Snowflake ids** on an arbitrary sequence of clock readings (`Snowflake`).
* **Codecs.** Password records, Content-Disposition, header text (`Password`, `ContentDisposition`,
  `HeaderText`).

`Bits` holds the unsigned bit operations and the arithmetic they amount to, `Wrappers` the option type.

## How the model is built

Each state machine is a step relation over values (`Enabled`, `Apply` or `Step`, `Run`), so that its
promises are statements over every run; that something can still happen is the statement that from
every state a run reaches some run does it. The code that changes objects in place is a class whose methods
have the source's branches and loops; their contracts equate the new state with the functions of that
relation, or say outright what the caller gets. What the environment does is an argument, chosen freely
for every call: the writer's link, buffer, return codes and re-entrant callbacks, the bytes a read
delivers, clock readings, random bytes, the timing of timeouts and spurious wake-ups, and exceptions out
of application code. HMAC and PBKDF2 are arbitrary functions to byte strings. A `string` whose
characters are below 256 (`Base64.IsBytes`) stands for a `std::string`.

## What the code does not promise

These are results about the code as it is. Each has the exact condition, a failing case, or both.

* A Snowflake id repeats exactly when the clock is in a millisecond whose numbers have been used that
  far (`Snowflake.RepeatsExactly`): after a step back of the clock that no overflow loop sees
  (`Snowflake.RegressionRepeats`), and on a clock that does not go back only after a failed overflow
  wait in the same millisecond (`Snowflake.RepeatsOnForwardClock`).
* The revocation list stands for the set of all revoked tokens exactly as long as each call drops, by
  time or for room, only tokens that verification refuses anyway (`Revocation.RunAgreesExactly`).
  Eviction can drop another (`Revocation.RevokeAgreesExactly`, `Revocation.EvictionRevives`), and so can
  a purge after an entry was loaded with an expiry before its token's own
  (`Revocation.PurgeAgreesExactly`, `Revocation.ShortLoadRevives`).
* `StreamTransfer` reports failure after the whole slice was sent and the response ended when `onclose`
  runs inside the last `WriteBody` or inside `End`, and only then
  (`StreamTransfer.LastChunkReportsExactly`, `StreamTransfer.PumpReportsExactly`,
  `StreamTransfer.FailureAfterWholeSlice`). If that close came inside `WriteBody`, the server has let go
  of the writer and the cleanup could not be posted, `End` is called on a writer nobody holds
  (`StreamTransfer.PumpUnheldExactly`, `StreamTransfer.UnheldEnd`).
* A response of an async route can be ended twice exactly when two sends of its handler can end it, or
  one can and the handler throws after it (`AsyncRoute.EndsTwiceExactly`); which sends can is known
  beforehand (`StreamTransfer.EndsExactly`).
* `LegacyTransfer::send` throws on a range that ends before the byte in front of its start, and then
  leaves the transfer counted as active and its callback uncalled
  (`LegacyTransfer.NegativeLengthThrows`, `LegacyTransfer.LegacyTransfer.Send`). Its outcome does not
  depend on whether the response could be ended.
* The receiver of a request body is looked at once, before the middleware chain. `complete` is called
  on a receiver that is gone exactly when the chain runs the handler after a close
  (`BodyRoute.NullCallsExactly`), as when a middleware makes the writer close before it calls `next`
  (`BodyRoute.CloseBeforeNextMeetsNull`). A request is completed twice exactly when the chain runs the
  handler twice before any close (`BodyRoute.TwiceExactly`, `BodyRoute.NextTwiceCompletesTwice`).
* The pool's supervisor can be made to wait for a worker that is still working exactly when an exit
  notice for one of the workers is left over from an earlier run (`ThreadPool.SupervisorWaitsExactly`).
* The capacity computation of the SPSC queue never returns for n > 2^63 (`Spsc.DoublingEnds`), and
  `size()` is known modulo the capacity only when pops and pushes come between its two loads
  (`Spsc.SizeBetweenLoads`).

## Model

| member | source | states |
|---|---|---|
| `SyncCall.ResultTellsRun` | src/LegacyTransfer.cpp:78-123 | over every interleaving, timeout and spurious wake-up: true means the closure ran exactly once to its end, false means it never began, and either way the call object has let go of it |
| `SyncCall.NeverRunsAfterReturn` | src/LegacyTransfer.cpp:89-122 | once the call has returned, the closure over the caller's stack is not running and never begins, whatever the loop still does |
| `SyncCall.CallerWaitsForRun` | src/LegacyTransfer.cpp:110-121 | while the closure runs no step lets the caller return, however often its wait times out |
| `SyncCall.GivingUpDisarms` | src/LegacyTransfer.cpp:116-120 | a run in which the caller gives up before the start and the late event ends without calling the closure |
| `SyncCall.CallCanEnd` | src/LegacyTransfer.cpp:88-122 | from every state a run reaches loop and caller can still both come to their end, with the lock free, and a caller that has not given up by then is told of one whole run |
| `SyncCall.DoneMeansTrue` | src/LegacyTransfer.cpp:110-122 | a caller still waiting when the call is done returns true on its next turn, woken or timed out |
| `SyncCall.RunInv` | src/LegacyTransfer.cpp:78-123 | the lock, the flags and both positions stay consistent over every run |
| `SyncCall.SyncWriterCall.constructor` | src/LegacyTransfer.cpp:38-51 | a call starts with its closure set, neither started nor done |
| `SyncCall.SyncWriterCall.MarkStarted` | src/LegacyTransfer.cpp:91-95 | the loop's first critical section is the two atomic steps of the machine |
| `SyncCall.SyncWriterCall.RunLocalCopy` | src/LegacyTransfer.cpp:97 | the closure runs to its end once, or not at all if the caller has given up |
| `SyncCall.SyncWriterCall.MarkDone` | src/LegacyTransfer.cpp:99-103 | the loop's second critical section is the two atomic steps of the machine |
| `SyncCall.SyncWriterCall.AfterWait` | src/LegacyTransfer.cpp:110-122 | the caller returns false only on a timeout before the start, true only after the whole run, and waits again otherwise |
| `LegacyTransfer.WaitForDrain` | src/LegacyTransfer.cpp:236-260 | the backpressure wait ends after at most 6000 polls, drained, disconnected or timed out, as the probes decide |
| `LegacyTransfer.OneRound` | src/LegacyTransfer.cpp:235-275 | a round hands over at most one chunk, taken from the current position, and counts it exactly when the writer accepted it with the link still up |
| `LegacyTransfer.StreamChunks` | src/LegacyTransfer.cpp:231-275 | the bytes handed to writeBody are a prefix of the slice, past the accepted bytes by at most the one chunk that failed; the loop ends with nothing left if and only if every byte of the slice was accepted in good rounds |
| `LegacyTransfer.StuckIsFinal` | src/LegacyTransfer.cpp:235-274 | a refused round, or a short read with bytes to go, rules out that the whole slice is ever accepted |
| `LegacyTransfer.WaitEndsExactly` | src/LegacyTransfer.cpp:236-260 | the wait ends with the first probe that is lost, disconnected or at most 4 MB, and times out exactly when 6000 probes in a row find more on a live link |
| `LegacyTransfer.WholeSliceExactly` | src/LegacyTransfer.cpp:231-277 | in terms of the rounds alone: the whole slice is accepted if and only if it is in the file, every round with something to send drains in time, reads its 256 KB or the rest in full and is taken with the link up, and no round but the last leaves the stream faulty |
| `LegacyTransfer.SucceedsExactly` | src/LegacyTransfer.cpp:127-280 | the outcome of send() in terms of the raw range and the environment: below 4 MB a range in the file that is read whole, or no range at all; from there on no writer, or all of that for every round |
| `LegacyTransfer.LegacyTransfer.constructor` | src/LegacyTransfer.cpp:127-133 | a fresh ledger and no completion |
| `LegacyTransfer.LegacyTransfer.Complete` | src/LegacyTransfer.cpp:277-279 | the callback and the ledger are told the same outcome, and the active count goes down by one |
| `LegacyTransfer.LegacyTransfer.Send` | src/LegacyTransfer.cpp:127-280 | on every return path the start has exactly one end and the callback fires once, both with the outcome, and bytes and time are added to the ledger; on success the range body, or all that was handed to the writer, is what was asked for: the bytes from rangeStart to rangeEnd, or the first fileSize |
| `LegacyTransfer.LegacyTransfer.SendSmall` | src/LegacyTransfer.cpp:141-169 | a range succeeds exactly when it is read in full, and then its bytes are those from rangeStart to rangeEnd |
| `LegacyTransfer.LegacyTransfer.SendLarge` | src/LegacyTransfer.cpp:171-279 | success tells that the whole slice was accepted, and then the bytes handed over are those asked for, or that there was no writer; the closing handshake decides only whether the response is ended |
| `LegacyTransfer.NegativeLengthThrows` | src/LegacyTransfer.cpp:128-146 | the throwing ranges are exactly those that end before the byte in front of their start, such as 5 to 2 |
| `TransferStats.Stats.constructor` | include/intertwine/fw/IFileTransfer.hpp:24-26 | an empty ledger |
| `TransferStats.Stats.RecordStart` | include/intertwine/fw/IFileTransfer.hpp:29-34 | one more transfer is started and active; errors and ends are untouched |
| `TransferStats.Stats.RecordEnd` | include/intertwine/fw/IFileTransfer.hpp:35-41 | active transfers stay the started minus the ended ones, and errors the number of failed ends |
| `StreamTransfer.CompletesExactlyOnce` | src/StreamTransfer.cpp:36-45 | over every run from send(), with early errors, failed posts, re-entrant and dropped callbacks: completion fires at most once and exactly once when the state is finished or destroyed, and the ledger is ended as often as it was started |
| `StreamTransfer.OwnershipCycleBroken` | src/StreamTransfer.cpp:84-97 | once finished with no posted event left, the state no longer owns the writer, and the server's letting go then destroys the state |
| `StreamTransfer.WritesThePrefix` | src/StreamTransfer.cpp:109-215 | over every run the bytes given to WriteBody are a prefix of those asked for, all but the remaining ones, none is given after finish, End is called at most once, and reported success means that the bytes from rangeStart to rangeEnd, or without a range the first fileSize, are in the file and were given whole |
| `StreamTransfer.AskedIs` | src/StreamTransfer.cpp:175-208 | start and length of the slice are those of the raw range: what is asked for is in the file exactly when the slice is, and is that slice |
| `StreamTransfer.ChunksMost` | src/StreamTransfer.cpp:124-128 | a chunk is as long as it can be: at most 256 KB, what remains, what the file has and what the read delivers |
| `StreamTransfer.PumpStopsUndrained` | src/StreamTransfer.cpp:116-149 | a pump that returns unfinished has just found the link up and the buffer undrained, after rounds that were all accepted and that each took bytes off remaining |
| `StreamTransfer.EndReportsExactly` | src/StreamTransfer.cpp:144-148 | ending after the last chunk reports success if and only if no onclose came before or comes inside End |
| `StreamTransfer.LastChunkReportsExactly` | src/StreamTransfer.cpp:133-148 | once the last chunk was accepted, the whole of it was given and the response is ended once, and the outcome is success if and only if no close came inside that WriteBody or that End |
| `StreamTransfer.FailureAfterWholeSlice` | src/StreamTransfer.cpp:133-163 | two runs from send() that write the whole file, end the response and report failure: a close inside End, and one inside the last WriteBody |
| `StreamTransfer.PumpReportsExactly` | src/StreamTransfer.cpp:109-153 | a pump reports success if and only if its rounds find link, buffer and data, are accepted, meet no close, and leave nothing; otherwise it reports failure or nothing |
| `StreamTransfer.WriteEventReports` | src/StreamTransfer.cpp:109-162 | so does every write event: success exactly when its rounds send all that remains, failure when it finishes otherwise, and nothing when it waits |
| `StreamTransfer.CloseFails` | src/StreamTransfer.cpp:99-163 | a close at any point of a run finishes with failure, unless the transfer has finished before |
| `StreamTransfer.AbandonedFails` | src/StreamTransfer.cpp:39-45 | a state nobody holds any more is destroyed, and then reports failure if it had not finished |
| `StreamTransfer.PumpUnheldExactly` | src/StreamTransfer.cpp:84-148 | a pump calls WriteBody or End on a writer that neither state nor server holds if and only if the server let go, the cleanup could not be posted, and the close came inside the last WriteBody |
| `StreamTransfer.WriterCallsAreHeld` | src/StreamTransfer.cpp:84-170 | over every run in which posting works there is no such call |
| `StreamTransfer.UnheldEnd` | src/StreamTransfer.cpp:84-148 | a run from send() with such a call |
| `StreamTransfer.GoodConnectionSucceeds` | src/StreamTransfer.cpp:84-262 | on a good connection whatever is asked for, in the file and not empty, is written whole, reported as success once, and everything is released |
| `StreamTransfer.EndsExactly` | src/StreamTransfer.cpp:144-251 | some run of a transfer ends the response if and only if send() gets past its errors and posts its event, and what is asked for is in the file |
| `StreamTransfer.GoodRunEnds` | src/StreamTransfer.cpp:144-251 | for every such send, a run that ends it once |
| `StreamTransfer.SendDecides` | src/StreamTransfer.cpp:180-262 | exactly when send() takes over the response and starts the ledger, in terms of its arguments and environment, and when an event is then posted |
| `StreamTransfer.EmptyFileReports` | src/StreamTransfer.cpp:237-251 | an empty file succeeds and is ended if and only if the link is up when its event runs |
| `StreamTransfer.HeadersDecide` | src/StreamTransfer.cpp:155-170 | a dead link or refused headers finish; otherwise the callbacks are set and the transfer waits |
| `StreamTransfer.HeadersThenEvents` | src/StreamTransfer.cpp:155-170 | while the server holds the writer, callbacks made inside EndHeaders amount to the same callbacks made one after another right after it |
| `StreamTransfer.ReenterIs` | src/StreamTransfer.cpp:99-113 | any callbacks inside a writer call under the pump amount to nothing or to one finish with failure |
| `StreamTransfer.PumpKeeps` | src/StreamTransfer.cpp:109-153 | the pump keeps bytes, ledger and single End, whatever the writer does |
| `StreamTransfer.HeaderReenterKeeps` | src/StreamTransfer.cpp:155-170 | so does a full pump started from inside EndHeaders |
| `StreamTransfer.SendInv` | src/StreamTransfer.cpp:174-262 | send() either refuses at once, with one failed completion and nothing started or handed over, or sets up a counted transfer that has taken over the response |
| `StreamTransfer.StepInv` | src/StreamTransfer.cpp:84-170 | every event keeps the invariant and the job |
| `StreamTransfer.RunInv` | src/StreamTransfer.cpp:84-262 | and so does every run |
| `StreamTransfer.TransferState.constructor` | src/StreamTransfer.cpp:36-38 | an unfinished state that holds nothing and is held by nobody but the call |
| `StreamTransfer.TransferState.SendNow` | src/StreamTransfer.cpp:174-262 | the branches of send() leave the state from which the runs start: refused, waiting for its posted event, or failed because nothing could be posted |
| `StreamTransfer.TransferState.Refuse` | src/StreamTransfer.cpp:195-207 | an early error with a state made completes once with failure: the destructor, which has neither ledger nor callback yet, adds nothing |
| `StreamTransfer.TransferState.DestructNow` | src/StreamTransfer.cpp:39-45 | a state destroyed unfinished ends and completes with failure if it has its ledger and its callback; a finished one says nothing more |
| `StreamTransfer.TransferState.SettleNow` | src/StreamTransfer.cpp:24-34 | a writer without owners takes its callbacks along, and a state without holders is destroyed |
| `StreamTransfer.TransferState.SendEmptyNow` | src/StreamTransfer.cpp:239-246 | an empty file ends once and succeeds exactly when the link is up |
| `StreamTransfer.TransferState.ScheduleCleanupNow` | src/StreamTransfer.cpp:84-97 | a cleanup is posted once; if posting fails the ownership goes at once |
| `StreamTransfer.TransferState.FinishNow` | src/StreamTransfer.cpp:99-106 | the first finish ends, completes and schedules the cleanup; later ones change nothing |
| `StreamTransfer.TransferState.CallBack` | src/StreamTransfer.cpp:109-113 | callbacks run by the writer during a pump have the effect of the machine's re-entries |
| `StreamTransfer.TransferState.WriteChunk` | src/StreamTransfer.cpp:133-138 | remaining is reduced before the write whose callbacks may already see it |
| `StreamTransfer.TransferState.EndNow` | src/StreamTransfer.cpp:145 | the response is ended once, with the callbacks made inside End |
| `StreamTransfer.TransferState.PumpNow` | src/StreamTransfer.cpp:109-153 | the loop refines the recursive pump, ends because remaining goes down, and is a no-op when re-entered |
| `StreamTransfer.TransferState.StartStreamingNow` | src/StreamTransfer.cpp:155-170 | the callbacks are set before the headers are sent, and a refused header finishes |
| `StreamTransfer.TransferState.RunCleanupNow` | src/StreamTransfer.cpp:88-93 | callbacks and ownership are dropped together |
| `AsyncRoute.EndedAtMostOnce` | src/Router.cpp:109-130 | in every interleaving of many requests and their IO events, a response is ended at most once across the wrapper, the empty-file path and the pump unless two sends of its handler can end it, or the handler threw and one can |
| `AsyncRoute.EndsTwiceExactly` | src/Router.cpp:109-130 | for any sends of a handler, returned or thrown: some run from the start ends the response twice if and only if at least two of the sends can end it, or the handler threw and at least one can |
| `AsyncRoute.TwoSendsEndTwice` | src/Router.cpp:109-130 | a run from the start in which two sends of empty files end a response twice |
| `AsyncRoute.EndsPerEnder` | src/StreamTransfer.cpp:144-251 | transfers end the response no more often than there are sends that can, and those have all taken it over |
| `AsyncRoute.TrackerCountsInFlight` | src/Router.cpp:107-130 | the tracker always equals the number of tasks dispatched and not finished |
| `AsyncRoute.TaskCanFinish` | src/Router.cpp:107-130 | a task that is not wrapped up can be in at most three steps of its own, and the wrapper then ends the response exactly as WrapperEndsExactly says |
| `AsyncRoute.WrapperEndsExactly` | src/Router.cpp:110-129 | the wrapper ends a response if and only if the writer had not begun and the response was not handed over, or was handed over by a handler that then threw |
| `AsyncRoute.ThrowAfterHandoverEndsTwice` | src/Router.cpp:120-129 | for every send that can end the response, a run from the start in which its handler throws and the response is ended twice |
| `AsyncRoute.RunInv` | src/Router.cpp:100-141 | every request stays consistent with its transfer over every run |
| `BodyRoute.ReceiverSeesOwnBody` | src/Router.cpp:152-204 | over every interleaving of contexts, with closes before, between and inside events and any middlewares: a receiver is given a prefix of its own request's body; if no middleware calls next twice it completes at most once |
| `BodyFailure.OverForGood` | src/Router.cpp:152-204 | over every run: once a close, a parse error, a factory that throws or gives nothing, a write that throws, a chain that throws or the end of the message has come over a request, its receiver is given nothing more and completed no more, and never at all if it was not the end of the message |
| `BodyFailure.FinishExactly` | src/Router.cpp:171-203 | from the behaviour of the callbacks alone, what the rest of an event does: a failure ends the response when there is a writer and empties the slot of its own context, a final event empties it too, and a receiver stays exactly when neither a failure of its own event nor a close of its own slot takes it away |
| `BodyFailure.BeginFinds` | src/Router.cpp:155-170 | an event finds a state exactly when the close callback of its context holds one, and only a final event takes the entry out |
| `BodyFailure.CloseTakesReceiver` | src/Router.cpp:178-194 | a close takes the receiver in the slot and no other, and the slot can be emptied by others at any time |
| `BodyRoute.ReceiverMissesNothing` | src/Router.cpp:152-204 | over every run, while a request keeps its receiver and no event is under way, the receiver has been given the whole body so far and the map finds it |
| `BodyRoute.FinalEventReleases` | src/Router.cpp:155-203 | after an error or the end of a message, whatever the chain did, no map entry, callback or local reference keeps a state of that context |
| `BodyRoute.CompletesExactly` | src/Router.cpp:187-191 | for any chain: complete runs, with the whole body before it, if and only if the receiver is there when the event looks, every middleware reaches next, and none closes before; it runs again if and only if the handler is run twice before any close, and is called on no receiver if and only if the handler is run after a close |
| `BodyRoute.CompletesOnceExactly` | src/Router.cpp:187-191 | when no middleware calls next twice there is one call of complete or none, on the receiver or on none according to the closes on the way in |
| `BodyWalk.WalkExactly` | src/Router.cpp:178-191 | along any trace of work and runs of the handler, what is completed, completed again, called on no receiver and reset under its own call |
| `BodyWalk.OpenExactly` | src/Router.cpp:187-191 | whatever is called twice, thrown or caught, the handler is run before any close if and only if every middleware reaches next without a close |
| `BodyRoute.WritesExactly` | src/Router.cpp:184-186 | write gets the data of the event if and only if the receiver is there, is never called on no receiver, and has its receiver reset under it exactly when the connection closes inside it; and is there afterwards, in the slot, exactly when write has not thrown either |
| `BodyWalk.MessageMeets` | src/Router.cpp:187-191 | without a double next the handler is never run twice, and is run after a close exactly when a middleware closes on the way in |
| `BodyRoute.NullCallsExactly` | src/Router.cpp:187-191 | over every run, with any middlewares, complete has been called on no receiver if and only if some end of a message met a receiver and a chain that runs the handler after a close |
| `BodyRoute.TwiceExactly` | src/Router.cpp:187-191 | over every run, complete has run twice for some receiver if and only if some end of a message met a receiver and a chain that runs the handler twice before any close |
| `BodyRoute.OnceMeets` | src/Router.cpp:187-191 | what those two conditions come to when no middleware calls next twice |
| `BodyRoute.CloseBeforeNextMeetsNull` | src/Router.cpp:174-191 | a run from the empty framework in which that happens |
| `BodyRoute.ClosedInv` | src/Router.cpp:178 | a close keeps the invariant of all contexts at any point |
| `BodyRoute.NextTwiceCompletesTwice` | src/Router.cpp:187-191 | runs from the empty framework in which two calls of next complete twice, or, if the first completion closes, complete once and call once on no receiver |
| `BodyRoute.HeldOnlyByOwner` | src/Router.cpp:149-160 | a found entry is expired unless the close callback of its own context holds it |
| `BodyRoute.PurgeKeepsOwned` | src/Router.cpp:158-162 | purging expired entries drops none that a connection still needs |
| `BodyRoute.StepInv` | src/Router.cpp:152-204 | every part of every event, and every close, keeps the invariant of all contexts |
| `BodyRoute.BodyStates.Lookup` | src/Router.cpp:155-164 | the erasing loop leaves exactly the unexpired entries, the context's entry is found if it is among them, and a final event removes it |
| `Middleware.FinalCount` | src/Middleware.cpp:25-35 | the innermost handler runs as often as the product of the calls of next, and no more when somebody throws |
| `Middleware.AtMostOnce` | src/Middleware.cpp:21-35 | with no double call of next it runs at most once; with no exception it runs not at all exactly when some middleware does not call next |
| `Middleware.OnionOrder` | src/Middleware.cpp:25-35 | work before next runs outermost first, then the handler, then work after next innermost first |
| `Middleware.FirstFinal` | src/Middleware.cpp:25-35 | the handler runs if and only if every middleware reaches next, whatever is thrown and caught elsewhere, and what comes before it is exactly the work before the first calls of next |
| `Middleware.FirstCodeWins` | src/Middleware.cpp:25-35 | when nobody throws, the outermost middleware with a code of its own decides the result, else it is the handler's, or 0 when one on the way never calls next |
| `Middleware.CatchStops` | src/Middleware.cpp:25-35 | a middleware that catches what next throws and throws nothing itself lets nothing out |
| `Middleware.ThrowPasses` | src/Middleware.cpp:25-35 | an exception at the end of the first way in that nobody on it catches ends the whole chain |
| `Middleware.AddedIsInnermost` | src/Middleware.cpp:8-19 | a middleware added last is the innermost: the ways to the handler multiply by its calls of next, and its work is the last before the handler |
| `Middleware.MiddlewareChain.Run` | src/Middleware.cpp:25-35 | running the acts one by one, with next as the run from the following index, gives the trace that the lemmas are about |
| `Middleware.MiddlewareChain.Execute` | src/Middleware.cpp:21-23 | the handler runs no more often than there are ways through the chain, and at all exactly when every middleware reaches next |
| `Spsc.PoppedIsPrefix` | include/intertwine/fw/SPSCQueue.inl:34-82 | in every interleaving the values handed out are a prefix of those accepted, and at most capacity - 1 are held |
| `Spsc.PushFailsOnlyWhenFull` | include/intertwine/fw/SPSCQueue.inl:36-43 | a push fails if and only if capacity - 1 items were held as it loaded the read position |
| `Spsc.PopFailsOnlyWhenEmpty` | include/intertwine/fw/SPSCQueue.inl:70-75 | a pop fails if and only if nothing was held as it loaded the write position |
| `Spsc.WrittenSlotUnreadable` | include/intertwine/fw/SPSCQueue.inl:45-46 | the slot about to be written holds no published item and is not the one being taken |
| `Spsc.StepRefinesFifo` | include/intertwine/fw/SPSCQueue.inl:34-82 | every atomic step is an enqueue with room, a dequeue of the head, or no change of a bounded FIFO |
| `Spsc.RunInv` | include/intertwine/fw/SPSCQueue.inl:34-82 | slots, positions and both threads agree with the history over every run |
| `Spsc.MaskNext` | include/intertwine/fw/SPSCQueue.inl:37 | masking the next position is counting modulo the capacity |
| `Spsc.LeastPow2Is` | include/intertwine/fw/SPSCQueue.inl:115-128 | a power of two at least n whose half is below n is the least such power |
| `Spsc.DoublingEnds` | include/intertwine/fw/SPSCQueue.inl:123-126 | in 64 bits the doubling loop leaves its guard if and only if n <= 2^63 |
| `Spsc.NextPowerOfTwo` | include/intertwine/fw/SPSCQueue.inl:115-133 | for every n up to 2^63 the result is the least power of two not below n |
| `Spsc.PushAlone` | include/intertwine/fw/SPSCQueue.inl:34-49 | an uninterrupted push appends exactly when there is room, and keeps the invariant |
| `Spsc.PopAlone` | include/intertwine/fw/SPSCQueue.inl:68-82 | an uninterrupted pop removes the head exactly when there is one, whatever is left in the slot |
| `Spsc.PushRuns` | include/intertwine/fw/SPSCQueue.inl:34-49 | the atomic steps of such a push lead to exactly that state: with room the item is published and counted, without a drop is counted and nothing else changes |
| `Spsc.PopRuns` | include/intertwine/fw/SPSCQueue.inl:68-82 | likewise for a pop; on an empty queue nothing changes |
| `Spsc.CountersTell` | include/intertwine/fw/SPSCQueue.inl:34-82 | in every interleaving the counters add up: every push begun is counted as pushed or dropped or is under way, every pop as popped or failed or is under way |
| `Spsc.SpscQueue.constructor` | include/intertwine/fw/SPSCQueue.inl:12-25 | an empty queue with the least power of two as capacity |
| `Spsc.SpscQueue.Push` | include/intertwine/fw/SPSCQueue.inl:34-66 | appends the item when fewer than capacity - 1 are held, else counts a drop and changes nothing |
| `Spsc.SpscQueue.Pop` | include/intertwine/fw/SPSCQueue.inl:68-82 | removes and returns the first item, or fails on an empty queue |
| `Spsc.SpscQueue.Size` | include/intertwine/fw/SPSCQueue.inl:91-101 | with nothing in between, the number of items held, on both sides of the wrap |
| `Spsc.SpscQueue.Empty` | include/intertwine/fw/SPSCQueue.inl:84-89 | with nothing in between, equal positions mean that nothing is held |
| `Spsc.SizeBetweenLoads` | include/intertwine/fw/SPSCQueue.inl:84-101 | with any pushes and pops between the two loads, size is the number held at the first and accepted since, modulo the capacity: exact for one of the two moments on the consumer and on the producer, and that count at all if and only if it is below the capacity; empty likewise |
| `Spsc.SpscQueue.Clear` | include/intertwine/fw/SPSCQueue.inl:108-113 | ends, with an empty queue |
| `Base64.RoundTrip` | src/PasswordUtil.cpp:15-73 | decoding an encoding gives back every byte string (section 4 of RFC 4648) |
| `Base64.Alphabet` | src/PasswordUtil.cpp:16-55 | the table in its order, and the decoding table as its inverse |
| `Base64.EncodesNumber` | src/PasswordUtil.cpp:20-31 | a group is the 24-bit number of its bytes cut into sextets, with padding for the missing bytes |
| `Base64.UrlSpelling` | src/JwtUtil.cpp:47-70 | base64url spells two characters differently and the rest alike, both ways |
| `Base64.DecodesExactly` | src/PasswordUtil.cpp:35-73 | decoding any text: where it ends, and how many bytes of the number each group gives |
| `Base64.EncodeShape` | src/PasswordUtil.cpp:15-33 | an encoding is table characters and then exactly the padding that the length calls for |
| `Base64.UrlRoundTrip` | src/JwtUtil.cpp:28-113 | base64url decoding an encoding gives back every byte string (section 5 of RFC 4648) |
| `Base64.UrlAlphabet` | src/JwtUtil.cpp:28-59 | only letters, digits, '-' and '_', and ceil(4n/3) of them for n bytes |
| `Base64.PadRestores` | src/JwtUtil.cpp:61-73 | respelling and padding again recovers the text before it was stripped |
| `Base64.UrlInjective` | src/JwtUtil.cpp:28-59 | equal texts come from equal byte strings only |
| `Base64.GroupRoundTrip` | src/JwtUtil.cpp:34-46 | the round trip of one group of one to three bytes |
| `Base64.Base64Encode` | src/PasswordUtil.cpp:15-33 | the loop with shifts, ORs and masks computes the arithmetic encoding that the round trip is about |
| `Base64.Base64Decode` | src/PasswordUtil.cpp:35-73 | likewise for decoding, ill-formed input and early end included |
| `Base64.Base64UrlEncode` | src/JwtUtil.cpp:28-59 | the in-place substitution and the stripping loop compute the specified text |
| `Base64.Base64UrlDecode` | src/JwtUtil.cpp:61-113 | likewise for the reverse substitution, the padding loop and the decoding |
| `Jwt.VerifyIssued` | src/JwtUtil.cpp:125-195 | a token issued at t0 for e seconds verifies at t if and only if t0+e > 0, t < t0+e, it was not issued before the start time, and it is not listed (section 4.1.4 of RFC 7519) |
| `Jwt.AcceptedExactly` | src/JwtUtil.cpp:151-195 | any text of three parts, whoever made it, verifies if and only if the last is the encoded HMAC of its own first two, its own payload holds a live expiry and a good issue time, and it is not listed |
| `Jwt.SignatureExactly` | src/JwtUtil.cpp:165-173 | the signature covers the header and payload that the token carries, whatever they hold |
| `Jwt.ThreeParts` | src/JwtUtil.cpp:152-163 | a text without exactly two dots is refused |
| `Jwt.IssuedDecodes` | src/JwtUtil.cpp:138-148 | the signed parts of an issued token decode to its header and its payload, written out |
| `Jwt.IssuedToken` | src/JwtUtil.cpp:125-262 | from the printed, encoded and joined token the signature checks and the expiry and issue time are read back exactly |
| `Jwt.OtherSecret` | src/JwtUtil.cpp:151-173 | under another secret the signature is accepted if and only if the two HMACs of the signing input are equal |
| `Jwt.IssuedDistinct` | src/JwtUtil.cpp:129-148 | different random bytes give different tokens |
| `Jwt.SplitSigned` | src/JwtUtil.cpp:143-166 | a token has exactly two dots and splits into what was signed, the payload and the signature (section 7.1 of RFC 7515) |
| `Jwt.NumberField` | src/JwtUtil.cpp:215-231 | the decimal after the first occurrence of a key is read back; a negative one reads as 0 |
| `Jwt.FieldExactly` | src/JwtUtil.cpp:215-231 | in any payload: the digits behind the first occurrence of the key, the first colon after it and the blanks after that, if their value fits 64 bits, else 0 |
| `Jwt.FieldMissing` | src/JwtUtil.cpp:215-222 | a payload without the key, or without a colon behind it, gives 0 |
| `Jwt.FieldOfExactly` | src/JwtUtil.cpp:204-214 | the times are read from what stands between the first two dots |
| `Jwt.FieldOfMalformed` | src/JwtUtil.cpp:204-212 | and are 0 for a text without two dots |
| `Jwt.ReadExp` | src/JwtUtil.cpp:204-232 | the expiry is found in every payload, although it follows another number |
| `Jwt.ReadIat` | src/JwtUtil.cpp:234-262 | the issue time is found in every payload |
| `Jwt.HexInjective` | src/JwtUtil.cpp:131-136 | different random bytes have different hexadecimal texts |
| `Jwt.HexRead` | src/JwtUtil.cpp:131-136 | every random byte is printed as two lower-case hexadecimal digits, the higher first |
| `Jwt.VerifyAgreesWithIdeal` | src/JwtUtil.cpp:151-195 | over every harmless run of calls on the list, loads of any entries and evictions included, verification answers as with an unpurged set of all tokens ever revoked |
| `Jwt.OrdinaryRunAgrees` | src/JwtUtil.cpp:151-195 | so it does over every run without eviction whose loaded entries carry at least the expiry of their tokens |
| `Jwt.JwtUtil.Sign` | src/JwtUtil.cpp:125-149 | produces the token that the lemmas are about, and an empty one without random bytes |
| `Jwt.JwtUtil.RandomHex` | src/JwtUtil.cpp:131-136 | nibbles by shift and mask are the hexadecimal text |
| `Jwt.JwtUtil.GetField` | src/JwtUtil.cpp:204-262 | what the two readers share: 0 for every malformed token, else the number |
| `Jwt.JwtUtil.GetExp` | src/JwtUtil.cpp:204-232 | the expiry that VerifyIssued and Revoke rest on |
| `Jwt.JwtUtil.GetIat` | src/JwtUtil.cpp:234-262 | the issue time |
| `Jwt.JwtUtil.Verify` | src/JwtUtil.cpp:151-195 | accepts exactly the tokens with a good signature, a live expiry, a good issue time and no listing |
| `Jwt.JwtUtil.EraseExpired` | src/JwtUtil.cpp:276-282 | the erasing iterator loop keeps exactly the unexpired entries, in order |
| `Jwt.JwtUtil.EvictOldest` | src/JwtUtil.cpp:284-293 | the nested loops end and leave what repeated removal of the least expiry leaves |
| `Jwt.JwtUtil.Revoke` | src/JwtUtil.cpp:268-302 | purge, evict, insert and persist, and nothing at all for a token without expiry |
| `Jwt.JwtUtil.Cleanup` | src/JwtUtil.cpp:312-322 | purges at the time it is given |
| `Jwt.JwtUtil.LoadEntries` | src/JwtUtil.cpp:329-337 | inserts in order, without a bound |
| `Revocation.RunAgrees` | src/JwtUtil.cpp:268-337 | over every harmless run with a clock that does not go back, the list refuses at every later time exactly what the ideal set refuses |
| `Revocation.RunAgreesExactly` | src/JwtUtil.cpp:268-337 | over every run, with loads of any entries and with evictions, the list stands for the ideal set throughout if and only if each call drops only dead tokens or the one it revokes |
| `Revocation.StepAgreesExactly` | src/JwtUtil.cpp:268-337 | the same for any one call |
| `Revocation.OrdinaryIsHarmless` | src/JwtUtil.cpp:268-337 | without evictions, and with loaded expiries not before the tokens' own, no call drops too early |
| `Revocation.PurgeAgreesExactly` | src/JwtUtil.cpp:276-322 | a purge keeps the agreement if and only if every entry it drops is of a token that has expired or has no expiry |
| `Revocation.VictimsAre` | src/JwtUtil.cpp:284-293 | the eviction loop splits the list into what it keeps and what it removes |
| `Revocation.RevokeAgreesExactly` | src/JwtUtil.cpp:283-297 | one revocation keeps the agreement if and only if no eviction is needed, or the one entry evicted is the token's own |
| `Revocation.EvictionRevives` | src/JwtUtil.cpp:283-293 | at capacity 1 a second revocation makes the first token acceptable |
| `Revocation.ShortLoadRevives` | src/JwtUtil.cpp:312-337 | a run in which a loaded entry that expires before its token revives it |
| `Revocation.RevokeBounds` | src/JwtUtil.cpp:268-298 | from any list, overfilled ones included: the token is present, the bound holds, what is kept was there and unexpired, something unexpired goes only for want of room, and every victim comes before what is kept, by expiry and then by token |
| `Revocation.SetMaxTakesHold` | src/JwtUtil.cpp:284-293 | a bound that was set holds from the next revocation on, which lists its token |
| `Revocation.EvictKeeps` | src/JwtUtil.cpp:284-293 | exactly as many entries go as needed, and all of them come before all that are kept, by expiry and then by token |
| `Revocation.InsertKeeps` | src/JwtUtil.cpp:294-297 | the set stays ordered without duplicates; an entry whose token is there is not replaced |
| `Revocation.PurgeKeeps` | src/JwtUtil.cpp:276-282 | exactly the entries with a later expiry stay |
| `Revocation.PurgeAgrees` | src/JwtUtil.cpp:312-322 | purging revives no token when entries are kept at least as long as their tokens live |
| `Revocation.LoadKeeps` | src/JwtUtil.cpp:329-337 | loading drops nothing, adds only what it is given, and lists every token of it |
| `Text.StrtollPrintInt` | src/JwtUtil.cpp:140-141 | a printed integer is read back by the number reader |
| `Text.CharClasses` | src/JwtUtil.cpp:224-227 | the ten digits and the six spaces that the readers tell apart |
| `Text.StrtollReads` | src/PasswordUtil.cpp:127-128 | reading any number text: spaces, one sign or none, and the digits up to the first other character |
| `Snowflake.IncreasingWithoutFailure` | src/IdUtil.cpp:50-91 | on a clock that does not go back, any number of calls of which none returns 0 gives that many positive, strictly increasing ids |
| `Snowflake.RepeatsExactly` | src/IdUtil.cpp:50-91 | after any run on any clock in range, failures and steps back included, a non-zero id is a repetition if and only if its millisecond was used before up to its number |
| `Snowflake.RepeatsOnForwardClock` | src/IdUtil.cpp:52-91 | on a clock that does not go back that is so only in the millisecond of the last id, after a failure in it |
| `Snowflake.NextExactly` | src/IdUtil.cpp:50-91 | one call on any clock: numbers start from 0 in every other millisecond and go on in the same one; once they are used up, the first of five more readings that differs decides, a later one giving its number 0 and an earlier one, or none, a failure |
| `Snowflake.Issued` | src/IdUtil.cpp:79-91 | the ids of a millisecond are always those up to its highest number, so an id is new exactly when its number is above it |
| `Snowflake.RegressionRepeats` | src/IdUtil.cpp:52-84 | one step back and forth of the clock gives the same id twice |
| `Snowflake.Decode` | src/IdUtil.cpp:86-90 | every id gives back time, datacenter, worker and sequence, is positive and fits 63 bits |
| `Snowflake.GeneratorsNeverCollide` | src/IdUtil.cpp:86-90 | two ids are equal if and only if all four fields are; other machine fields never collide |
| `Snowflake.FieldBits` | include/intertwine/fw/IdUtil.hpp:19-28 | shift and OR put the fields side by side |
| `Snowflake.WaitFacts` | src/IdUtil.cpp:58-77 | the overflow loop reads the clock at most five times and gives up only after five |
| `Snowflake.SnowflakeGenerator.WaitForNext` | src/IdUtil.cpp:58-71 | the wait loop reads the clock at most five times and stops at once on a step back |
| `Snowflake.RunInv` | src/IdUtil.cpp:50-91 | over every run on any clock the generator stands in a millisecond it has used, at or below the highest number given out there |
| `Snowflake.SnowflakeGenerator.constructor` | src/IdUtil.cpp:30-35 | sequence 0 and no timestamp |
| `Snowflake.SnowflakeGenerator.Create` | src/IdUtil.cpp:30-42 | refuses exactly the machine fields outside 0..31 |
| `Snowflake.SnowflakeGenerator.Next` | src/IdUtil.cpp:50-91 | the method with its loop, masks and shifts is the step that the runs are made of, in at most six readings |
| `Snowflake.Assemble` | src/IdUtil.cpp:86-90 | the OR of shifted fields is the number that Decode reads |
| `Password.VerifyRecord` | src/PasswordUtil.cpp:75-171 | for every salt and both passwords, q verifies against the record of p if and only if their derived keys are equal |
| `Password.VerifyPrinted` | src/PasswordUtil.cpp:106-175 | a record with any iteration count, salt and key verifies if and only if the count is positive and fits an int, neither is empty, and the password derives that key under that salt and that count |
| `Password.FieldsDecide` | src/PasswordUtil.cpp:113-171 | a record with two separators is judged by its own three fields, whatever they hold |
| `Password.OnlyRecords` | src/PasswordUtil.cpp:106-125 | nothing without the prefix and both separators is accepted |
| `Password.IsHashedExactly` | src/PasswordUtil.cpp:173-175 | a text is taken for a record exactly when something follows the prefix |
| `Password.RecordIs` | src/PasswordUtil.cpp:83-99 | the record in full, made with 310000 iterations and 32 bytes of key |
| `Password.DiffIsZero` | src/PasswordUtil.cpp:160-165 | the accumulated XOR is zero if and only if the arrays are equal |
| `Password.SplitFields` | src/PasswordUtil.cpp:113-134 | fields without '$' are cut apart as they were joined |
| `Password.PrintedIterations` | src/PasswordUtil.cpp:95-129 | every iteration count that fits an int is read back as printed, and no other is |
| `Password.EncodedNoDollar` | src/PasswordUtil.cpp:15-33 | no encoding contains the separator |
| `Password.Hash` | src/PasswordUtil.cpp:75-104 | yields the record, or nothing when salt or derivation fails |
| `Password.Verify` | src/PasswordUtil.cpp:106-175 | accepts exactly the well-formed records whose key is the derived one; every malformed record is refused |
| `Password.SameBytes` | src/PasswordUtil.cpp:156-165 | the constant-time loop decides equality |
| `ContentDisposition.HeaderRoundTrip` | src/FileTransferHeaders.hpp:9-30 | a quote-aware reader recovers the disposition, the fallback, and by percent-decoding exactly the bytes of every name (section 3.2.1 of RFC 8187) |
| `ContentDisposition.HeaderPrintable` | src/FileTransferHeaders.hpp:9-30 | every character is printable ASCII, whatever the name |
| `ContentDisposition.FallbackSafe` | src/FileTransferHeaders.hpp:14-15 | the fallback has the length of the name and no quote or backslash |
| `ContentDisposition.FallbackKeeps` | src/FileTransferHeaders.hpp:14-15 | printable ASCII but the quote and the backslash is kept in the fallback, everything else is an underscore |
| `ContentDisposition.EncodesExactly` | src/FileTransferHeaders.hpp:17-26 | the characters of attr-char stand for themselves, any other byte is its two capital hexadecimal digits behind a percent sign |
| `ContentDisposition.DecodeEncoded` | src/FileTransferHeaders.hpp:17-26 | percent-decoding inverts the encoding |
| `ContentDisposition.FileContentDisposition` | src/FileTransferHeaders.hpp:9-30 | yields the header that the round trip is about |
| `ContentDisposition.BuildParts` | src/FileTransferHeaders.hpp:10-27 | the one loop builds both texts |
| `HeaderText.ParseBuildParse` | src/HttpTransport.cpp:114-152 | parsing, printing in any key order and parsing again gives the same map, for every text |
| `HeaderText.ParseGood` | src/HttpTransport.cpp:114-143 | keys come out lower-case, trimmed, unbroken and without a colon, values trimmed and unbroken |
| `HeaderText.LowerIs` | src/HttpTransport.cpp:136-139 | keys keep every character but the capital letters, which become the small ones |
| `HeaderText.LastLineWins` | src/HttpTransport.cpp:138-139 | a key has the value of the last line that mentions it |
| `HeaderText.ReadBuilt` | src/HttpTransport.cpp:145-152 | reading a printed map adds exactly its entries and keeps the others |
| `HeaderText.FirstLine` | src/HttpTransport.cpp:120-121 | a printed line is cut off whole, and the rest is read as if alone |
| `HeaderText.TrimIs` | src/HttpTransport.cpp:133-134 | trimming cuts a stretch without blanks at either end |
| `HeaderText.Split` | src/HttpTransport.cpp:120-121 | the splitting loop yields the lines, adjacent breaks counting as one |
| `HeaderText.ParseHeaders` | src/HttpTransport.cpp:114-143 | the loop adds to any given map the lines that the round trip is about |
| `HeaderText.BuildHeadersString` | src/HttpTransport.cpp:145-152 | prints every entry once per key |
| `ThreadPool.TasksConserved` | src/SupervisedThreadPool.cpp:40-124 | in every run with abnormal exits and restarts, an accepted task is in exactly one of the queue, one worker's hands, or over |
| `ThreadPool.FifoAndBounded` | src/SupervisedThreadPool.cpp:40-124 | tasks leave the queue in the order of acceptance, start at most once, and a fixed bound is never exceeded |
| `ThreadPool.OneLiveThreadPerWorker` | src/SupervisedThreadPool.cpp:126-159 | no worker id ever has two threads that are not over |
| `PoolProgress.EveryWorkerStaffed` | src/SupervisedThreadPool.cpp:78-159 | over every run, while the pool runs, the slot of every worker holds a thread of that worker that has not left, or whose exit notice is under way, or whose notice was lost |
| `PoolProgress.SpawnReplaces` | src/SupervisedThreadPool.cpp:153-157 | the last step of the supervisor puts a new thread of the same worker, at the top of its loop, into the slot, and touches no other |
| `PoolProgress.LeftCanBeReplaced` | src/SupervisedThreadPool.cpp:126-159 | from every state a run reaches while the pool runs, some run puts a new thread into the slot of any worker whose notice is under way |
| `PoolProgress.LeaversCanBeReplaced` | src/SupervisedThreadPool.cpp:78-159 | so over every run without leftover notices a worker that has left without losing its notice can still be replaced |
| `PoolProgress.WorkerCanRunHead` | src/SupervisedThreadPool.cpp:98-123 | a worker in its loop that has the task mutex or finds it free can take and run the first task |
| `PoolProgress.QueueCanDrain` | src/SupervisedThreadPool.cpp:98-123 | from every state a run reaches while the pool runs and some worker is in its loop, some run empties the queue with every task of it over |
| `PoolProgress.IdleWorkerSleeps` | src/SupervisedThreadPool.cpp:98-104 | with nothing queued a worker goes to sleep without the mutex, and tries again when woken |
| `PoolProgress.IdleSupervisorSleeps` | src/SupervisedThreadPool.cpp:127-134 | so does the supervisor without notices |
| `PoolProgress.NoEmptyWake` | src/SupervisedThreadPool.cpp:102-110 | over every run, a worker or supervisor past its wait while the pool runs has something to take, so the second test for an empty queue never holds |
| `PoolProgress.CriticalSections` | src/SupervisedThreadPool.cpp:78-143 | whoever is inside a critical section is the only one to change the queue it guards |
| `PoolProgress.ExceptionGivesNotice` | src/SupervisedThreadPool.cpp:85-121 | a worker taken out of its wait, or out of the logging of a failed task, by an exception gives its notice on the way out |
| `PoolProgress.StopsForGood` | src/SupervisedThreadPool.cpp:60-66 | the pool runs exactly as long as no stop has come |
| `PoolProgress.NothingTakenAfterStop` | src/SupervisedThreadPool.cpp:40-124 | over every run after the stop no task is taken, and only submissions that had passed their check before it are accepted |
| `PoolProgress.StopCanEnd` | src/SupervisedThreadPool.cpp:60-76 | from every state a run reaches after the stop, some run leaves no thread live and the supervisor gone, which is what stop() waits for |
| `ThreadPool.SupervisorBlocked` | src/SupervisedThreadPool.cpp:147-152 | a supervisor that has taken an id moves if and only if that worker's thread is over |
| `ThreadPool.SupervisorWaitsExactly` | src/SupervisedThreadPool.cpp:24-159 | some run makes the supervisor wait for a worker that has not left its loop if and only if an exit notice for one of the workers is left over at the start |
| `ThreadPool.RunNotices` | src/SupervisedThreadPool.cpp:78-159 | over every run without such a leftover, each notice under way is the only one for its worker, and that worker has left |
| `ThreadPool.StaleNoticeBlocks` | src/SupervisedThreadPool.cpp:24-38 | wherever the leftover notice stands in the queue, the supervisor alone gets to it and waits for a worker that has not moved |
| `ThreadPool.RunInv` | src/SupervisedThreadPool.cpp:40-159 | queue, hands, locks, slots and threads stay consistent over every run |
| `ThreadPool.SupervisedThreadPool.constructor` | src/SupervisedThreadPool.cpp:15-38 | a pool at its first start meets the hypothesis of the results about runs, with no notice left over |
| `ThreadPool.SupervisedThreadPool.Submit` | src/SupervisedThreadPool.cpp:40-53 | the two steps of a submitter: a real task is accepted exactly while running with room under the bound |
| `ThreadPool.SupervisedThreadPool.Fetch` | src/SupervisedThreadPool.cpp:105-112 | the step of a worker after its wait: it leaves, finds nothing, or takes the earliest accepted task not yet taken |
| `ThreadPool.SupervisedThreadPool.PushFinished` | src/SupervisedThreadPool.cpp:78-96 | the step of a leaving worker: its notice is queued, and from then on, not before, it counts as having left |
| `ThreadPool.SupervisedThreadPool.TakeFinished` | src/SupervisedThreadPool.cpp:135-142 | the step of the supervisor after its wait: notices are taken in order, and none after the pool has been stopped |

## Left out

- StreamTransfer.CompletesExactlyOnce: a posted event may be delayed for ever, in which case the state is never destroyed; a loop torn down with the event inside it is that case, and no run is claimed to end. The callback itself is assumed to be set and not to re-enter the transfer.
- StreamTransfer.TransferState.CallBack: a callback nested inside a callback is not modelled beyond what the guards make of it, since under a running pump onwrite returns at once and a second onclose finds the state finished.
- SyncCall.ResultTellsRun: the same-thread call, the returns for a missing writer or loop, and a closure that throws are not steps of the machine.
- LegacyTransfer.LegacyTransfer.Send: the bodies that serveFile and the fallback without a writer produce are not modelled, only the outcome they report, which is success also when the read fails; time is counted in polls.
- AsyncRoute.TrackerCountsInFlight: the wrapper's last look at the writer, its End and the count down are one step; a tracker or dispatcher that throws is not modelled, nor that a second transfer on the same writer takes the callbacks of the first, other than as a loss of those callbacks.
- BodyRoute.ReceiverSeesOwnBody: the parser gives the events of one context one after another. A call on a receiver that is gone is counted and otherwise has no effect, where the source has none defined. The response is ended by a failed event only; its status and body are not modelled.
- Jwt.VerifyAgreesWithIdeal: each public call is atomic; verify reads the clock before it looks at the list, and a purge between the two is not modelled.
- Jwt.JwtUtil.Sign: times are unbounded integers, and the lemmas about issued tokens require the expiry to fit 64 bits.
- Snowflake.IncreasingWithoutFailure: readings lie strictly between the epoch and the epoch plus 2^41 ms; outside that range the source shifts negative or overflowing numbers.
- ThreadPool.OneLiveThreadPerWorker: one epoch from start to stop, with tasks and notices left from earlier ones; the joins of stop and their race with a replacement are not modelled. What is said of progress is that a run exists, not that a scheduler takes it. The class holds the critical sections, the machine the waits between them.
- HeaderText.ParseBuildParse: std::map order is generalised to any order of the keys; character classes are those of the classic locale.
- Memory orders: a release publication and an acquire load are one atomic step each; nothing weaker is modelled, and no fairness is assumed or claimed anywhere.
- Library internals: libhv's writer and loops, OpenSSL, Boost and the file system are arguments of the model or are left out.
- Reading the bearer token, the size of the blacklist, sync routes, route registration and bind, and the setters of Router: they would only add easy members.
- Network clients (TcpTransport, WebSocketTransport, request sending), LockfreeQueue, Base64.cpp, IniConfig, factories and logging: wrappers over libraries.
- Host, MAC and thread hashing in IdUtil: the results of system calls, with no promise of uniqueness.
