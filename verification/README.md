# Verified models of the CLI's protocols and of the repository's code transforms

This project models, in Dafny, the parts of the code base whose correctness is hardest
to see from reading one function, and proves what they promise on every input and in
every run.

| file | models |
|---|---|
| `delivery.dfy`, `streams.dfy`, `stream_system.dfy`, `stream_drain.dfy`, `write_loop.dfy` | the duplex streams of the RPC dispatcher: the mutex-guarded table, every interleaving of its users with the spawned write loops, liveness after removal, and the write loop run against an arbitrary environment |
| `rpc_pump.dfy`, `rpc_order.dfy`, `rpc_answers.dfy`, `rpc_replies.dfy`, `rpc_streams.dfy`, `rpc_calls.dfy` | the message pump: dispatch, the reply channel, stream registration, handlers and readers as concurrent activities; the pump together with the streams it feeds; outbound calls and their callbacks |
| `framing.dfy` | incremental decoding of self-delimiting messages |
| `await_flow.dfy`, `await_paths.dfy`, `await_checker.dfy`, `await_loops.dfy`, `await_tries.dfy`, `await_limits.dfy`, `await_examples.dfy` | the lint rule against using a services accessor after `await`: the walk, its exactness against execution paths, the mutable checker that runs it, what it makes of every kind of loop and of exceptions, and when its flag may fall |
| `keyring.dfy`, `credential_store.dfy`, `device_polling.dfy` | credentials cut into keyring entries, the choice between keyring and file across process restarts, and the polling of the token endpoint |
| `download_cache.dfy` | the least-recently-used download cache over a persisted list |
| `imports.dfy`, `edits.dfy`, `line_buffer.dfy`, `layers.dfy`, `localize_strings.dfy` | import merging, back-to-front edits, line buffering of a process stream, expansion of layered import rules, and the string-literal lint |
| `sequences.dfy` | options and flattening |

## How the models are built

*Concurrency.* A protocol is a datatype of states, a datatype of events, and the pair
`Enabled`/`Next`. One event is one lock region, or one piece of work between two
suspension points, so every schedule of the original is a list of events. An invariant
is proved event by event, and what holds in every reachable state follows from it.
Lock regions also appear as class methods that reassign a field, each proved equal to
the function the state machine uses. `WriteLoops.WriteLoop` is the same write loop in
its own form: a loop that takes turns at the table while a script of other
operations runs at each await.

*State changed in place.* Rust structs with `&mut self` methods, the lint rules'
closures over mutable variables and the buffers are classes; each method states its
whole new state by a function of the old one, and the properties are lemmas about
those functions.

*Outside world.* Parsing, sealing, globbing, the clock, disk failures and scheduling are
parameters: a parser is any function whose verdict does not depend on what follows, a
failed keyring write may leave anything behind, a sleep lasts at least as long as it
should.

## Findings

Places where the code does less than its documentation or its reader may expect. Each is
a lemma with a concrete input or an exact condition.

- `insert` overwrites whatever stands under an id. An id may be inserted, again or for
  the first time, exactly when no record stands under it (`StreamSystem.ReuseExactly`);
  otherwise a write half ends up with no owner, as when one id is inserted twice
  (`StreamSystem.InsertedTwice`).
- `call` sends before it registers its callback. A response that is dispatched in
  between is dropped and the caller waits for ever (`RpcCalls.EarlyResponseLost`,
  `RpcCalls.OvertakingResponse`); it
  completes if and only if a response is dispatched later (`RpcCalls.CompletesOnce`). The
  dispatcher panics on a message that has neither a method nor an id
  (`RpcCalls.RpcCaller.DispatchResponse`).
- A sealed credential whose length is a multiple of the piece size, or whose last piece
  ends in the continuation marker, is not read back (`Keyring.StoreThenReadExactly`,
  `Keyring.TwoFullPieces`); with
  stale entries behind it, it is run together with them (`Keyring.StaleEntriesLeakIn`).
- Clearing the keyring fails when nothing is stored, because the read that comes first
  opens an entry that cannot be deleted (`Keyring.EmptyKeyringNotCleared`). After a store
  it works, for a fresh process, exactly when the text is storable or the stale entries
  behind it happen to read as a text of their own (`Keyring.ClearAfterStoreExactly`,
  `Keyring.TwoFullPieces`, `Keyring.StaleMakesClearable`); otherwise every piece is deleted
  before it fails (`Keyring.UnclearedPieces`).
- The await rule walks every part of a loop once, in source order. What a loop of any kind
  and any number of rounds does wrong can be read off walks in execution order
  (`AwaitLoops.LoopExactly`). The rule misses what only a later round does
  (`AwaitLoops.WhileMissed`). What the first round does it judges rightly in a `while`, and
  in the other kinds exactly under the conditions of `AwaitLoops.OrderExactly` and
  `AwaitLoops.OrderWithoutRepeat`; `do` loops show both kinds of mistake
  (`AwaitLoops.DoWhileMissed`, `AwaitLoops.DoWhileBlamed`).
- The rule starts the handler of a `try` from the flag before its block. It misses a use in
  the handler that an exception thrown after an await in the block leads to
  (`AwaitExamples.CatchMissed`), and a use in the finalizer after an await that is followed
  by an exit. This is all it misses, and nothing it reports is wrong
  (`AwaitTries.TryMissedExactly`).
- A `switch` without cases lowers the flag (`AwaitLimits.EmptySwitchForgets`); with a case
  it never does (`AwaitLimits.SwitchKeepsFlagExactly`), and nothing else can lower it
  (`AwaitLimits.FlagNeverFalls`).
- The download cache can list more than five names (`DownloadCache.SixListed`): exactly
  when an eviction failed and no use since took the list from six names to five
  (`DownloadCache.OverfullExactly`).
- Merging imports twice can differ from merging once: exactly when a name comes from an
  `import type` and from an inline `type` of the same module (`Imports.SecondRun`,
  `Imports.ClashExample`). A third
  run never changes anything (`Imports.ThirdRun`).

## Model

| member | source | states |
|---|---|---|
| Streams.Streams.Insert | quantumide/cli/src/rpc.rs:575-584 | a record holding the half, with an empty queue, whatever was there |
| Streams.Streams.Write | quantumide/cli/src/rpc.rs:564-573 | the segment goes to the end of the queue of an existing record; if the record held the half, it is handed to a new write loop |
| Streams.Streams.Remove | quantumide/cli/src/rpc.rs:543-562 | with the half in the record, record and half leave together; otherwise the record is only marked ended |
| Streams.Streams.TakeTurn | quantumide/cli/src/rpc.rs:603-621 | a write loop's lock region: take the queue, park the half, or remove an ended record |
| WriteLoops.WriteLoop | quantumide/cli/src/rpc.rs:596-631 | whatever others do at every await, the loop delivers a prefix of each segment that was queued before or during its run, in order: all of them if no write failed, and always all of those queued during or after the last failure; it shuts the half down exactly when the stream was ended and parks it otherwise, and leaves other records to their users |
| WriteLoops.WriteBatch | quantumide/cli/src/rpc.rs:623-627 | item by item, with others running at each await, the inner loop keeps what was sent, what is left of the batch and what is queued in step with what others asked for |
| WriteLoops.AllSafe | quantumide/cli/src/rpc.rs:596-631 | without a failed write nothing can have been dropped |
| WriteLoops.Perform | quantumide/cli/src/rpc.rs:543-584 | a list of concurrent operations changes each record as if it were the only one |
| WriteLoops.OwnedRecordKept | quantumide/cli/src/rpc.rs:543-573 | while a loop holds the half, no operation of others can make its record vanish or hand out the half again |
| StreamSystem.InvKept | quantumide/cli/src/rpc.rs:543-631 | every lock region and every piece of work between awaits keeps each stream in exactly one of four stages: idle, busy with one loop, ending, closed |
| StreamSystem.RunInv | quantumide/cli/src/rpc.rs:543-631 | the stages hold after every run from the empty table |
| StreamSystem.EveryHalfOwned | quantumide/cli/src/rpc.rs:543-631 | in every reachable state each half has, over all records and tasks, as many owners and shutdowns together as one |
| StreamSystem.FirstInFirstOut | quantumide/cli/src/rpc.rs:564-627 | what is delivered, then in flight, then queued is a prefix of each accepted segment, in order, and all of every segment while no write has failed |
| StreamSystem.NoLostWakeup | quantumide/cli/src/rpc.rs:564-627 | a record is without its half exactly when a loop is at work on it; a record with its half has an empty queue and is not ended |
| StreamSystem.RecordNeverGone | quantumide/cli/src/rpc.rs:605-608 | as long as no standing record is overwritten, a loop never finds its record missing |
| StreamSystem.DrainedBeforeShutdown | quantumide/cli/src/rpc.rs:543-631 | a half is shut down at most once, and only when everything accepted was delivered, unless a write failed |
| StreamSystem.ReuseExactly | quantumide/cli/src/rpc.rs:575-616 | from any reachable state, inserting under an id leaves every half owned in all continuations if and only if no record stands under that id |
| StreamSystem.InsertedTwice | quantumide/cli/src/rpc.rs:575-584 | inserting twice under one id leaves the first half without an owner |
| Delivery.PlacedKeeps | quantumide/cli/src/rpc.rs:623-627 | a batch of which each segment is written in full, or up to a failure that drops the rest, delivers prefixes of the segments in order |
| StreamDrain.OwnerStep | quantumide/cli/src/rpc.rs:602-630 | after removal each step of the owner decreases the measure over queue, batch and phase |
| StreamDrain.OtherStep | quantumide/cli/src/rpc.rs:543-631 | no event of another stream or caller changes the measure |
| StreamDrain.OwnerCanStep | quantumide/cli/src/rpc.rs:602-630 | a stream that is not closed after removal always has an owner with a step to take |
| StreamDrain.RemoveWinds | quantumide/cli/src/rpc.rs:543-562 | `remove` starts the winding down of any known stream |
| StreamDrain.Drains | quantumide/cli/src/rpc.rs:543-631 | in every infinite fair run a winding stream without further writes is closed, with everything accepted delivered first unless a write failed |
| StreamDrain.RemovedStreamDrains | quantumide/cli/src/rpc.rs:543-631 | the same from the call of `remove` on |
| RpcOrder.InvKept | quantumide/cli/src/rpc.rs:100-302 | every event of pump, handlers, readers and peer keeps the protocol's invariant |
| RpcOrder.StartedFirst | quantumide/cli/src/rpc.rs:453-524 | on the reply channel `streams_started` precedes every data and end message of its streams, and its duplex call's reply |
| RpcOrder.StreamContents | quantumide/cli/src/rpc.rs:453-524 | a stream's data messages are the bytes read from its handler, in order; exactly one end once the reader is done |
| RpcOrder.NothingAfterEnd | quantumide/cli/src/rpc.rs:488-521 | no message of a stream follows its end message |
| RpcOrder.NothingDropped | quantumide/cli/src/msgpack_rpc.rs:71-101 | a peer that waits for `streams_started` never has a segment dropped for want of a record |
| RpcOrder.OneReply | quantumide/cli/src/rpc.rs:100-272 | a request with an id gets at most one reply, with that id and a verdict its case can have; one without an id gets none; nothing pending means it was answered |
| RpcAnswers.RightAnswers | quantumide/cli/src/rpc.rs:100-272 | in every run each reply carries the verdict its call deserves: code -1 for an unknown method, code 0 for parameters that cannot be decoded, success for a stream message, and otherwise success exactly if the handler of that call returned without error, code -1 if not |
| RpcAnswers.AnswersKept | quantumide/cli/src/rpc.rs:100-272 | every event keeps the result of each handler with its call, from the lock on the context to the reply |
| RpcAnswers.StartedFor | quantumide/cli/src/rpc.rs:236-261 | `streams_started` names the request that asked for the streams, or 0 if it has no id |
| RpcAnswers.EndedIsRemoved | quantumide/cli/src/rpc.rs:275-290 | the stream of a `stream_ended` is being removed by the time that message is answered or no longer pending |
| RpcReplies.StepFor | quantumide/cli/src/rpc.rs:420-450 | each step made for a call brings its reply nearer |
| RpcReplies.StepForOthers | quantumide/cli/src/rpc.rs:420-450 | nothing else moves it away |
| RpcReplies.CanStepFor | quantumide/cli/src/msgpack_rpc.rs:71-97 | an unanswered call always has a step to take |
| RpcReplies.ServedWorks | quantumide/cli/src/msgpack_rpc.rs:71-97 | the steps taken for a call and the work left for it add up to at most the work it needed |
| RpcReplies.AnsweredWhenServed | quantumide/cli/src/msgpack_rpc.rs:71-97 | a call served as often as it needs, in any interleaving, has exactly its one reply, or none without an id |
| RpcReplies.EventuallyAnswered | quantumide/cli/src/msgpack_rpc.rs:71-97 | in every infinite run that serves the call fairly and is not stopped, that reply is sent at some point and none is added later |
| RpcStreams.InvKept | quantumide/cli/src/rpc.rs:275-302 | pump and stream table stay coupled: the same records stand, an ended record is being removed, and what the peer said on a stream is what the stream accepted and what still waits |
| RpcStreams.PeerIsHeard | quantumide/cli/src/rpc.rs:275-302 | in every joint run, what a waiting peer sent on a stream reaches its handler's side in order: a prefix of each accepted segment is delivered, in flight or queued, all of it while no write fails, and the rest waits to be dispatched |
| RpcStreams.ShutAfterAllHeard | quantumide/cli/src/rpc.rs:543-631 | the handler's side is shut down only when everything the peer ever said has reached it, unless a write failed |
| RpcCalls.RpcCaller.SendCall | quantumide/cli/src/rpc.rs:342-382 | takes the next id and sends; with the channel closed nothing is left to register |
| RpcCalls.RpcCaller.RegisterCallback | quantumide/cli/src/rpc.rs:362-380 | from now on, and not before, a response with the id finds the callback |
| RpcCalls.RpcCaller.DispatchResponse | quantumide/cli/src/rpc.rs:420-450 | a message without a method runs and forgets the callback with its id, is dropped when there is none, and panics without an id |
| RpcCalls.CompletesOnce | quantumide/cli/src/rpc.rs:342-450 | in every interleaving a call completes at most once, exactly when a response with its id is dispatched after its registration, with the first such response |
| RpcCalls.EarlyResponseLost | quantumide/cli/src/rpc.rs:356-362 | a response that overtakes the registration, if it is the only one, leaves the caller waiting for ever |
| RpcCalls.OvertakingResponse | quantumide/cli/src/rpc.rs:356-362 | a response between sending and registering leaves the call waiting |
| Framing.Reader.Decode | quantumide/cli/src/msgpack_rpc.rs:139-162 | takes one whole message off the buffer's front; an incomplete or malformed one leaves the buffer as it was |
| Framing.Reader.Receive | quantumide/cli/src/msgpack_rpc.rs:68-98 | one read dispatches every message completed by it |
| Framing.Reader.ReceiveAll | quantumide/cli/src/msgpack_rpc.rs:66-110 | a connection's reads, up to the first malformed message |
| Framing.DecodeConserves | quantumide/cli/src/msgpack_rpc.rs:139-162 | the messages' bytes followed by the rest are the buffer, and the rest holds no whole message |
| Framing.DecodeSplit | quantumide/cli/src/msgpack_rpc.rs:139-162 | bytes that arrive later only add messages |
| Framing.ChunkingIrrelevant | quantumide/cli/src/msgpack_rpc.rs:68-98 | chunk by chunk gives the same messages, verdict and rest as all bytes at once |
| Framing.ChunksConserve | quantumide/cli/src/msgpack_rpc.rs:68-98 | over a connection, messages and rest are the bytes received |
| Framing.AnyTwoChunkings | quantumide/cli/src/msgpack_rpc.rs:68-98 | two ways to cut the same bytes give the same messages and verdict |
| AwaitPaths.WalkExact | quantumide/.eslint-plugin-local/code-no-accessor-after-await.ts:116-272 | on the fragment the walk's reports and flag are exact against the set of execution paths from either starting flag, and `blockAlwaysExits` holds exactly of statements no path runs through |
| AwaitPaths.ReportsExactly | quantumide/.eslint-plugin-local/code-no-accessor-after-await.ts:116-253 | a body is reported if and only if some path uses the accessor after an await, and each report names such a use |
| AwaitTries.TryExact | quantumide/.eslint-plugin-local/code-no-accessor-after-await.ts:219-231 | where block and handler can be run through and no exception crosses from one to the other, reports and flag of a `try` are exact against the paths through block or handler, and then the finalizer |
| AwaitTries.FlagJoins | quantumide/.eslint-plugin-local/code-no-accessor-after-await.ts:219-231 | the finalizer, or the code after the `try`, is walked with the flag up if and only if it was up before, or some path can finish the block suspended, or some path of the handler entered from the start can |
| AwaitTries.TryReally | quantumide/.eslint-plugin-local/code-no-accessor-after-await.ts:219-231 | what a `try` does wrong with an exception possible at every point of block and handler: something wrong in the block, in a handler that knows of every await of the block, or in a finalizer that knows of every await of both |
| AwaitTries.TryMissedExactly | quantumide/.eslint-plugin-local/code-no-accessor-after-await.ts:219-231 | what is reported of a `try` is really wrong, and what is missed is exactly a late use in the handler after an await in the block, or in the finalizer after an await in either |
| AwaitTries.AwaitsTold | quantumide/.eslint-plugin-local/code-no-accessor-after-await.ts:278-296 | some prefix of an execution suspends exactly if an `await` is written in the code outside nested functions |
| AwaitTries.SwitchExact | quantumide/.eslint-plugin-local/code-no-accessor-after-await.ts:205-217 | a `switch` whose cases can be run through is judged exactly, as a choice of one case |
| AwaitTries.ForAwaitExact | quantumide/.eslint-plugin-local/code-no-accessor-after-await.ts:233-244 | a `for await` suspends before its body, and its first round is judged exactly |
| AwaitTries.FunctionExact | quantumide/.eslint-plugin-local/code-no-accessor-after-await.ts:130-137 | a nested function is not entered: it reports nothing and leaves the flag alone |
| AwaitExamples.GetReported | quantumide/.eslint-plugin-local/code-no-accessor-after-await.ts:278-296 | `await x; accessor.get(S)` is reported, at the use |
| AwaitExamples.PassedReported | quantumide/.eslint-plugin-local/code-no-accessor-after-await.ts:278-296 | `await x; f(accessor)` is reported, at the argument |
| AwaitExamples.OthersPassed | quantumide/.eslint-plugin-local/code-no-accessor-after-await.ts:278-296 | naming the accessor in a statement of its own, or using another one, is not reported |
| AwaitExamples.PropertyWalked | quantumide/.eslint-plugin-local/code-no-accessor-after-await.ts:124-248 | an await in a computed property raises the flag, a plain property name is not walked |
| AwaitExamples.AfterTryReported | quantumide/.eslint-plugin-local/code-no-accessor-after-await.ts:219-231 | `try { await x } catch {} accessor.get(S)` is reported |
| AwaitExamples.CatchMissed | quantumide/.eslint-plugin-local/code-no-accessor-after-await.ts:219-231 | `try { await x } catch { accessor.get(S) }` passes although an exception makes the use late |
| AwaitLimits.FlagNeverFalls | quantumide/.eslint-plugin-local/code-no-accessor-after-await.ts:124-248 | in code of any kind without an empty `switch`, a raised flag stays raised |
| AwaitLimits.SwitchKeepsFlagExactly | quantumide/.eslint-plugin-local/code-no-accessor-after-await.ts:205-217 | a switch keeps a raised flag if and only if it has a case |
| AwaitLoops.LoopExactly | quantumide/.eslint-plugin-local/code-no-accessor-after-await.ts:359-379 | some execution of a loop, of any kind and any number of rounds, uses the accessor after an await if and only if its once-only part and one round, walked in execution order, report something, or another round can follow after an await and would |
| AwaitLoops.OrderExactly | quantumide/.eslint-plugin-local/code-no-accessor-after-await.ts:359-379 | where the body can be run through, the walk in source order answers for the first round as execution order does exactly if the parts it walks early and late give the same answer in either order or something else decides it; always for `while` |
| AwaitLoops.OrderWithoutRepeat | quantumide/.eslint-plugin-local/code-no-accessor-after-await.ts:359-379 | where the body always exits, exactly if the part walked before it, which is never executed, changes nothing |
| AwaitLoops.SwapExactly | quantumide/.eslint-plugin-local/code-no-accessor-after-await.ts:359-379 | when two neighbouring parts report the same in either order |
| AwaitLoops.WhileMissed | quantumide/.eslint-plugin-local/code-no-accessor-after-await.ts:375-379 | `while (c) await accessor.get(...)` passes although its second round is wrong |
| AwaitLoops.DoWhileMissed | quantumide/.eslint-plugin-local/code-no-accessor-after-await.ts:375-379 | `do await x; while (accessor.get(...))` passes although its first round is wrong |
| AwaitLoops.DoWhileBlamed | quantumide/.eslint-plugin-local/code-no-accessor-after-await.ts:375-379 | a `do` that uses the accessor and returns is blamed for the await in its test |
| AwaitLoops.AwaitedOnce | quantumide/.eslint-plugin-local/code-no-accessor-after-await.ts:365-374 | `for (const s of await accessor.get(...))` is rightly passed |
| AwaitLoops.WrongRound | quantumide/.eslint-plugin-local/code-no-accessor-after-await.ts:359-379 | what goes wrong in any round, or in the last test, goes wrong in the first round or in one entered after an await |
| AwaitLimits.EmptySwitchForgets | quantumide/.eslint-plugin-local/code-no-accessor-after-await.ts:205-217 | a switch without cases lowers the flag |
| AwaitChecker.Checker.Walk | quantumide/.eslint-plugin-local/code-no-accessor-after-await.ts:124-248 | on a tree the mutable flag, restored at branches, and the visited set compute the walk's flag and reports |
| AwaitChecker.Checker.WalkIf | quantumide/.eslint-plugin-local/code-no-accessor-after-await.ts:159-192 | saving and restoring the flag gives each branch the flag before the branches |
| AwaitPaths.IfExact | quantumide/.eslint-plugin-local/code-no-accessor-after-await.ts:159-192 | after an if-statement the flag is up exactly when some path through a branch that does not exit has suspended, and both branches' reports are true |
| AwaitChecker.Checker.WalkSwitch | quantumide/.eslint-plugin-local/code-no-accessor-after-await.ts:205-217 | every case starts from the flag before the cases, which are joined |
| AwaitChecker.Checker.WalkTry | quantumide/.eslint-plugin-local/code-no-accessor-after-await.ts:219-231 | the handler starts from the flag before the block, the finalizer from both joined, which FlagJoins and TryExact measure against the execution paths |
| AwaitChecker.CheckBody | quantumide/.eslint-plugin-local/code-no-accessor-after-await.ts:250-252 | one check of a function body makes exactly the walk's reports, in order: those WalkExact, TryExact, TryMissedExactly and LoopExactly speak of |
| Keyring.KeyringStorage.GetNextEntry | quantumide/cli/src/auth.rs:312-324 | entry `k` has name `k`, opened once |
| Keyring.KeyringStorage.Read | quantumide/cli/src/auth.rs:327-347 | the entries up to the first unmarked one, joined without their markers; missing or failing entries decide the result |
| Keyring.KeyringStorage.Store | quantumide/cli/src/auth.rs:349-371 | the first entries become the text's pieces, up to the first write that fails; every entry written is within the entry limit, and each but the last fills it |
| Keyring.KeyringStorage.Clear | quantumide/cli/src/auth.rs:373-384 | succeeds exactly when every entry opened so far exists and can be deleted, and a read then finds nothing; otherwise the entries before the first that cannot are deleted |
| Keyring.EmptyKeyringNotCleared | quantumide/cli/src/auth.rs:373-384 | an empty keyring cannot be cleared |
| Keyring.ClearAfterStoreExactly | quantumide/cli/src/auth.rs:349-384 | over any keyring, what was stored can be cleared if and only if it is storable or what stands behind it reads as a text of its own, and the entries opened before exist |
| Keyring.UnclearedPieces | quantumide/cli/src/auth.rs:373-384 | otherwise every piece is there to be deleted, and the clear goes on to an entry that is not |
| Keyring.StaleMakesClearable | quantumide/cli/src/auth.rs:327-384 | a stale entry behind a text of two full pieces makes it readable, as another text, and clearable |
| Keyring.ReachReads | quantumide/cli/src/auth.rs:327-347 | a read gives a value exactly when every entry it looks at exists |
| Keyring.FailsExactly | quantumide/cli/src/auth.rs:327-347 | a read fails exactly if it comes, over pieces that continue, to an entry that cannot be read |
| Keyring.TwoFullPieces | quantumide/cli/src/auth.rs:327-384 | a text of two full pieces is neither read back nor cleared |
| Keyring.ReachOfChunks | quantumide/cli/src/auth.rs:327-347 | a read of a storable text looks at its pieces alone, of any other text also at what a read of the entries behind it does |
| Keyring.KeptIs | quantumide/cli/src/auth.rs:334-342 | what is kept of a text is all but the marker its last piece ends in |
| Keyring.ReadChunks | quantumide/cli/src/auth.rs:327-371 | reading what was stored gives the text if it is storable, and otherwise the text run together with what follows |
| Keyring.StoreThenRead | quantumide/cli/src/auth.rs:327-371 | a storable text is read back exactly, whatever stale entries follow |
| Keyring.StoreThenReadExactly | quantumide/cli/src/auth.rs:327-371 | without later entries it is read back if and only if it is storable, and otherwise nothing is |
| Keyring.StaleEntriesLeakIn | quantumide/cli/src/auth.rs:327-371 | a text that is not storable is continued by the stale entries |
| Keyring.LastPieceLength | quantumide/cli/src/auth.rs:349-371 | the last piece is what remains after whole steps |
| Keyring.ChunksFit | quantumide/cli/src/auth.rs:227-232 | a piece with its marker is within the step and the marker together, and each but the last fills that room |
| CredentialStore.Auth.WithStorage | quantumide/cli/src/auth.rs:439-488 | opened once; the file when asked for, when it exists or when the keyring cannot be read, else the keyring with the file as its fallback |
| CredentialStore.ChoosesStorage | quantumide/cli/src/auth.rs:439-488 | the file is used exactly if the user asks for it, if it exists, or if a read of the keyring comes to an entry that cannot be read; only the keyring leaves a fallback; and what is in the file is what is read there |
| CredentialStore.Auth.StoreCredentials | quantumide/cli/src/auth.rs:614-636 | a failed keyring write moves the session to the fallback and stores there; the last-read credential is replaced either way |
| CredentialStore.Auth.ClearCredentials | quantumide/cli/src/auth.rs:515-521 | the credential is forgotten only if the storage in use was cleared |
| CredentialStore.Auth.GetCurrentCredential | quantumide/cli/src/auth.rs:506-512 | gives the credential last read or stored by the session, which is opened if need be, and leaves the disk alone |
| CredentialStore.CurrentCredential | quantumide/cli/src/auth.rs:506-521 | after any run, an open session gives out the credential of its latest store, whether or not a storage took it; none after a clear that succeeded; otherwise what it read when it was opened; a failed clear changes nothing |
| CredentialStore.SessionBelieves | quantumide/cli/src/auth.rs:506-636 | the same from any state on |
| CredentialStore.StoreSucceeds | quantumide/cli/src/auth.rs:614-636 | a store is durable exactly if the storage in use takes the credential or, for a failing keyring, the file does; and exactly a failing keyring is left for the file |
| CredentialStore.StoreIsDurable | quantumide/cli/src/auth.rs:614-636 | a store, also over a partly written keyring, keeps the invariant that a fresh process reads the durable credential if that one is retrievable |
| CredentialStore.FreshProcessReads | quantumide/cli/src/auth.rs:439-488 | after any run, failures and restarts included: if the last store succeeded somewhere, a fresh process reads that credential, provided it went to the file or its own sealed text is storable; after a successful clear, none |
| CredentialStore.FallsBackOnce | quantumide/cli/src/auth.rs:623-631 | a process that left the keyring stays with the file |
| CredentialStore.SurvivesRestartExactly | quantumide/cli/src/auth.rs:439-488 | from an empty machine a credential survives a restart if and only if its sealed text is storable |
| DevicePolling.PollLoop | quantumide/cli/src/auth.rs:815-834 | each poll is begun while the code was valid when the previous answer was in, and sent exactly one interval, longer with each slow-down, and the overrun of the sleep after that answer; polling stops with a grant, or once an answer came after expiry |
| DevicePolling.IntervalGrows | quantumide/cli/src/auth.rs:815-834 | the interval is five seconds at first, and five more after each answer that asks to slow down or has status 429, and after no other |
| DevicePolling.Spacing | quantumide/cli/src/auth.rs:815-834 | consecutive polls are sent at least 5 + 5k seconds apart after k slow-down answers |
| DevicePolling.PollsBounded | quantumide/cli/src/auth.rs:815-834 | the first k sleeps take at least 5k seconds |
| DevicePolling.SlowPollsBounded | quantumide/cli/src/auth.rs:815-834 | with slow-down answers only they take exactly 5k(k+1)/2 |
| DevicePolling.PollBounds | quantumide/cli/src/auth.rs:798-834 | n polls imply 5(n-1) < expiry, and 5n(n-1) < 2 expiry when every answer slows down |
| DownloadCache.Cache.Load | quantumide/cli/src/state.rs:46-59 | the list in memory, or the one on disk at first use |
| DownloadCache.Cache.Save | quantumide/cli/src/state.rs:61-70 | the new list counts in memory even when writing it fails |
| DownloadCache.Cache.Touch | quantumide/cli/src/download_cache.rs:119-139 | the name moves to the front; one folder beyond five is evicted if it is gone or can be removed; every folder stays listed, and every listed folder stays |
| DownloadCache.Cache.Exists | quantumide/cli/src/download_cache.rs:52-60 | tells whether the folder exists; if so it is touched, and is now the most recent and still there; otherwise nothing changes; no folder goes that stays listed |
| DownloadCache.Cache.Delete | quantumide/cli/src/download_cache.rs:63-72 | folder and name go, unless the folder cannot be removed, when both stay; an error exactly then or when writing the list fails; every other folder is left alone |
| DownloadCache.Cache.Create | quantumide/cli/src/download_cache.rs:78-117 | succeeds exactly when the folder was there, or was built and one of the rename attempts works; a built folder is touched first, so no finished folder is ever unlisted; no other folder comes, and none goes that stays listed |
| DownloadCache.TouchTracks | quantumide/cli/src/download_cache.rs:119-139 | touching keeps names unique and folders listed, and spares the touched name |
| DownloadCache.TouchingKeeps | quantumide/cli/src/download_cache.rs:119-139 | a touch removes no folder that stays listed, and none at all while no more than five names are listed |
| DownloadCache.FoldersStay | quantumide/cli/src/download_cache.rs:52-139 | in every run of operations a folder goes only when it is deleted by name, or drops out of a list of more than five names; and comes only when it is created |
| DownloadCache.ListIsRecent | quantumide/cli/src/download_cache.rs:119-139 | after any history, failed evictions included, the list is in strict order of last touch and without duplicates |
| DownloadCache.ListIsMostRecent | quantumide/cli/src/download_cache.rs:119-139 | without deletions every name ever touched is listed or has five more recent names listed |
| DownloadCache.TouchOverfills | quantumide/cli/src/download_cache.rs:126-135 | a touch leaves more than five names exactly when more than five stood there and none, or not enough, was evicted |
| DownloadCache.SixListed | quantumide/cli/src/download_cache.rs:126-135 | six names are listed after a failed eviction |
| DownloadCache.OverfullExactly | quantumide/cli/src/download_cache.rs:119-139 | after any history the list is too long exactly when an eviction failed and no use since took it from six names to five |
| DownloadCache.OverfullStep | quantumide/cli/src/download_cache.rs:119-139 | one use leaves it too long exactly if its own eviction fails, or it was too long and the use does not shrink it back |
| DownloadCache.RunIsHistory | quantumide/cli/src/download_cache.rs:52-139 | after any operations, with whatever trouble, the list is the one their touches and deletions lead to, and every finished folder is in it |
| DownloadCache.CacheIsRecent | quantumide/cli/src/download_cache.rs:52-139 | a cache in use lists its names in order of last use, every folder among them, and more than five exactly when an eviction failed and was not made up for |
| DownloadCache.AtMostFive | quantumide/cli/src/download_cache.rs:119-139 | while evictions succeed it is at most five long |
| DownloadCache.CalmCache | quantumide/cli/src/download_cache.rs:52-139 | a cache whose folders can all be removed never lists more than five names, whatever its operations |
| DownloadCache.FiveListed | quantumide/cli/src/download_cache.rs:19-21 | five names are kept, and a sixth drives out the least recent |
| Imports.MergeDuplicateImports | quantumide/scripts/sync-agent-host-protocol.ts:111-169 | the two passes over maps and placeholders compute the merge; it fails exactly when a placeholder-like line names no imported module |
| Imports.MergeKeepsShape | quantumide/scripts/sync-agent-host-protocol.ts:118-147 | exactly one line for each imported module, at its first occurrence, and all other lines in order |
| Imports.AtFirstOccurrence | quantumide/scripts/sync-agent-host-protocol.ts:118-147 | the merged lines stand, one for one and in order, for exactly the lines that are no import or the first import of their module |
| Imports.UniqueInOrder | quantumide/scripts/sync-agent-host-protocol.ts:149-156 | the names of a merged line keep the order of their first places |
| Imports.MergeKeepsBindings | quantumide/scripts/sync-agent-host-protocol.ts:149-168 | the merged file binds the same names, from the same modules, as types or as values |
| Imports.RenderedRepeats | quantumide/scripts/sync-agent-host-protocol.ts:153-164 | a merged line repeats a name exactly in case of a clash |
| Imports.SecondRun | quantumide/scripts/sync-agent-host-protocol.ts:111-169 | merging again changes nothing if and only if no module has a name from a type line and from an inline `type` |
| Imports.ClashExample | quantumide/scripts/sync-agent-host-protocol.ts:111-169 | `import type { A }` beside `import { type A }` is changed by a second run |
| Imports.ThirdRun | quantumide/scripts/sync-agent-host-protocol.ts:111-169 | a third run never changes anything |
| Edits.ApplyEdits | quantumide/scripts/sync-agent-host-protocol.ts:50-54 | applying sorted, disjoint, in-range edits from the last to the first is simultaneous replacement on the original |
| Edits.UntouchedSurvives | quantumide/scripts/sync-agent-host-protocol.ts:50-54 | every character outside the edits is kept, at its shifted place |
| Edits.NewTextAppears | quantumide/scripts/sync-agent-host-protocol.ts:50-54 | every new text stands where its edit started, shifted by the edits before it |
| Edits.LengthsAddUp | quantumide/scripts/sync-agent-host-protocol.ts:50-54 | nothing else is added or lost |
| LineBuffers.LineBuffer.Write | quantumide/src/bootstrap-fork.ts:126-131 | flushes the whole buffer beyond the limit, else up to its last newline |
| LineBuffers.RunConserves | quantumide/src/bootstrap-fork.ts:118-137 | for any chunking, the pieces taken and the buffer are the input; the buffer has no newline and is within the limit |
| LineBuffers.CalmRunIsExact | quantumide/src/bootstrap-fork.ts:118-137 | without an overflow the console gets exactly the complete lines and the buffer is exactly the incomplete one |
| LineBuffers.CalmExactly | quantumide/src/bootstrap-fork.ts:126-131 | no overflow flush happens if and only if every incomplete line with the chunk after it is within the limit |
| LineBuffers.AnyTwoChunkings | quantumide/src/bootstrap-fork.ts:118-137 | for input whose lines fit, the chunking does not matter |
| LineBuffers.ShortInputFits | quantumide/src/bootstrap-fork.ts:127 | input within the limit fits however it is cut |
| LineBuffers.LongLineOverflows | quantumide/src/bootstrap-fork.ts:126-131 | a single line of more than 1048576 characters is flushed at once |
| Layers.GenerateConfig | quantumide/.eslint-plugin-local/code-import-patterns.ts:134-184 | production and test config of a layer from the allowances and the option's restrictions |
| Layers.ImportPatterns.CollectAllowances | quantumide/.eslint-plugin-local/code-import-patterns.ts:107-123 | the last allow rule of each condition counts |
| Layers.ImportPatterns.ProcessOptions | quantumide/.eslint-plugin-local/code-import-patterns.ts:78-225 | the configs of an option list, also when they come from the cache |
| Layers.ImportPatterns.ConfigFor | quantumide/.eslint-plugin-local/code-import-patterns.ts:57-74 | the first config whose target matches the file, or none |
| Layers.ImportPatterns.CheckImport | quantumide/.eslint-plugin-local/code-import-patterns.ts:227-278 | the three reports an import can get, each with the condition under which it is made; the patterns judge the resolved path |
| Layers.GeneratedAllows | quantumide/.eslint-plugin-local/code-import-patterns.ts:134-184 | which imports a generated config allows, exactly, in terms of layer, allowances and restrictions |
| Layers.DependenciesWiden | quantumide/.eslint-plugin-local/code-import-patterns.ts:97-184 | with dependencies included, whatever layer A's config allows, layer B's allows, in production and in tests |
| Layers.LayeringExactly | quantumide/.eslint-plugin-local/code-import-patterns.ts:97-184 | this holds for all options exactly for pairs with included dependencies |
| Layers.MissingDependencyShows | quantumide/.eslint-plugin-local/code-import-patterns.ts:97-184 | without inclusion a single template separates the two layers |
| Layers.TestTwinIsWider | quantumide/.eslint-plugin-local/code-import-patterns.ts:172-183 | a production config allows no more than its test twin |
| Layers.LayeredConfigs | quantumide/.eslint-plugin-local/code-import-patterns.ts:212-218 | an option for all layers yields the generated pair of every layer |
| Layers.WhoImportsWhat | quantumide/.eslint-plugin-local/code-import-patterns.ts:97-105 | which of any two layers may import whatever the other may, spelled out |
| Layers.WhereGranted | quantumide/.eslint-plugin-local/code-import-patterns.ts:134-171 | the allowances for browsers count in two layers, those for node in three, those for electron in two, those for tests in every test config |
| Layers.TemplateAllows | quantumide/.eslint-plugin-local/code-import-patterns.ts:134-184 | a template allows, where its condition holds, the directory of every layer the importer depends on, and in tests also that of their tests |
| Layers.AlwaysAllowed | quantumide/.eslint-plugin-local/code-import-patterns.ts:195-199 | files under src/vs/ may always import `vs/nls.js` and `vs/amdX.js` |
| Layers.SingleLayer | quantumide/.eslint-plugin-local/code-import-patterns.ts:201-211 | an option for one layer yields one config, whose files are those of that layer under the base directory, or under its test directory if the option says so |
| Layers.LastGranted | quantumide/.eslint-plugin-local/code-import-patterns.ts:107-123 | of several allow rules for one condition the last one counts |
| Layers.ResolvedPaths | quantumide/.eslint-plugin-local/code-import-patterns.ts:248-256 | a relative import is judged by the resolved path, without `src/` if that lies under src/vs/, any other import as written |
| LocalizeStrings.Visitor.ExtractKey | quantumide/.eslint-plugin-local/code-no-unexternalized-strings.ts:58-83 | the key of a call, from the first property that settles it, and its literal excused |
| LocalizeStrings.Visitor.VisitLocalizeCall | quantumide/.eslint-plugin-local/code-no-unexternalized-strings.ts:53-104 | key and message are excused, the call is filed under its key, and reported when its message is not a literal |
| LocalizeStrings.Visitor.VisitL10nCall | quantumide/.eslint-plugin-local/code-no-unexternalized-strings.ts:106-123 | the message, or the first `message` property, is excused |
| LocalizeStrings.Visitor.Traverse | quantumide/.eslint-plugin-local/code-no-unexternalized-strings.ts:177-194 | on a tree, adding on enter and deleting on exit leaves the declarative set difference, and files every call under its key in order; it fails exactly when some call lacks an argument its visitor reads |
| LocalizeStrings.Visitor.ReportBadStringsAndBadKeys | quantumide/.eslint-plugin-local/code-no-unexternalized-strings.ts:125-175 | the reports made from the collected literals and calls |
| LocalizeStrings.DuplicateExactly | quantumide/.eslint-plugin-local/code-no-unexternalized-strings.ts:165-173 | comparing neighbours reports something exactly when two messages of a key differ |
| LocalizeStrings.CheckProgram | quantumide/.eslint-plugin-local/code-no-unexternalized-strings.ts:42-197 | a program's reports: the quoted strings that nothing excuses, the calls whose message is not a literal, exactly the calls filed under a key that is no valid one, and duplicates exactly when two messages of one key differ |
| LocalizeStrings.BadKeyCallsAre | quantumide/.eslint-plugin-local/code-no-unexternalized-strings.ts:157-163 | the calls reported for a bad key are exactly those filed under one |
| LocalizeStrings.Keys | quantumide/.eslint-plugin-local/code-no-unexternalized-strings.ts:29 | examples of valid and invalid keys, one for each part of the pattern |
| LocalizeStrings.PlainCall | quantumide/.eslint-plugin-local/code-no-unexternalized-strings.ts:53-104 | `localize("k", "m")` excuses both literals and is filed under k |
| LocalizeStrings.ObjectCall | quantumide/.eslint-plugin-local/code-no-unexternalized-strings.ts:58-104 | a key in an object literal is found behind another property, whose value is not excused |
| LocalizeStrings.L10nCalls | quantumide/.eslint-plugin-local/code-no-unexternalized-strings.ts:106-123 | `l10n.t` excuses its message, in either form, and files nothing |
| LocalizeStrings.ShortCalls | quantumide/.eslint-plugin-local/code-no-unexternalized-strings.ts:177-197 | a member call without its message throws, a bare one is not visited |
| LocalizeStrings.DirectiveExcuses | quantumide/.eslint-plugin-local/code-no-unexternalized-strings.ts:177-179 | a directive is excused, and a string in single quotes needs no excuse |

## Left out

- The 32-bit id counter and its wrap-around: ids are unbounded in the pump and call models. For streams, where a wrapped id matters, ReuseExactly says when it does harm.
- The reply channel's capacity of eight: the pump awaits sends that only the pump itself drains, so a full channel inside one batch of frames stops it. The channel is unbounded here and progress is claimed for calls that are served.
- A read of zero bytes: the pump does not treat it as the end of input, and nothing is claimed about it.
- Cancellation of tasks when the runtime shuts down, and `shutdown` calls that never finish (fair schedules finish them).
- Message encoding: the parser is any function whose verdict on a buffer does not change when bytes follow; that the actual decoder is one is a hypothesis.
- Sealing and encryption: inverse functions, with sealed texts of one byte per character.
- Keyring entry names: the prefix is dropped, entry `k` is named `k`. The five-second limit of the Linux wrapper is a failed operation that may leave anything written.
- Credential storage: one process at a time, under an unchanged environment variable; a file that exists is read back as last written.
- DownloadCache.Cache.Create: concurrent calls on one cache, where an eviction between listing and renaming unlists a folder; names that clash with the staging folder or the list file.
- AwaitPaths.WalkExact: `switch`, `try`, `for await` and nested functions inside other statements; each of them around code of the fragment is covered by SwitchExact, TryExact, TryMissedExactly, ForAwaitExact and FunctionExact, and loops by LoopExactly. Fall-through from one case of a `switch` to the next, which the rule ignores; statements after one that always exits; exceptions outside a `try`.
- The await rule's choice of functions to check, and syntax the walk does not enter.
- Imports: the regular expressions that recognise and split import lines, and the collapsing of multi-line imports; names contain no comma. A file with a line that looks like the placeholder is covered by the method only.
- Edits: that the formatter's edits are sorted and disjoint is a hypothesis. The conversion of leading spaces to tabs and the header handling would only add easy members.
- LineBuffers: decoding of bytes to characters, and the pass-through to the original stream.
- Layers.ImportPatterns.CheckImport: the glob engine and the joining of paths are parameters. The cache is keyed by the option list's value.
- The string lint's disabled quote fixer; the traversal of the syntax tree is the linter's.
- HTTP requests, token payloads, the file lock for single instances, server launch, Electron start-up, and the remaining one-selector lint rules.
