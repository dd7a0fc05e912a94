# Verification of the memcached front end

A Dafny model of the stateful core of the Couchbase memcached front end, with
proofs about it. `dafny verify dfyconfig.toml` checks the whole project.

| Files | What they model |
|---|---|
| `Buckets*.dfy` | creating, deleting and selecting buckets, by any number of interleaved threads over the slot table: the protocol (`Buckets`), its invariant (`BucketsSafety`), engines, answers and undisturbed operations (`BucketsEngines`, `BucketsAnswers`, `BucketsAlone`), progress (`BucketsProgress`) and runs that fall short (`BucketsRuns`, `BucketsDrift`, `BucketsKnot`) |
| `AppendPrepend*.dfy` | append and prepend by optimistic CAS, interleaved with each other and with other writers |
| `Executor.dfy`, `ExecutorTraces.dfy` | the task executor: run queue, wait queue, task mutexes, shutdown |
| `Output.dfy` | scatter/gather output: building the message list and draining it through short writes |
| `Input.dfy` | the read buffer, from the socket to complete packets |
| `Loans.dfy` | network buffers lent by a worker thread to its connections |
| `Ssl.dfy` | the staging buffers between socket and TLS library |
| `Wire.dfy`, `Dcp.dfy`, `DcpFormat.dfy`, `Tap.dfy`, `TapFormat.dfy` | packet layouts, the DCP and TAP encoders, decoders and validators, and their formats byte by byte |
| `Producers.dfy`, `TapShipping.dfy` | the DCP producers and the TAP log, which copy into a shared write buffer and queue references into it |
| `Responses.dfy` | the dynamic buffer and the responses collected in it |
| `Sasl.dfy`, `SaslNames.dfy` | SASL mechanism selection (sections 3.1 and 3.2 of RFC 4422) |
| `Basics.dfy` | shared value types and facts about sequences |

Components shared by several threads are transition systems: one action for
each critical section or foreign call, so that a run is any interleaving, and
the theorems are about every state of every run. The other components are
classes with the fields of the original, whose methods are proved against byte
sequences. Calls into the kernel, the allocator, the storage engine, snappy and
OpenSSL are parameters that may answer anything their contract allows.

## What is proved

- **Buckets.** In every interleaving a connected client holds the engine of its
  slot and that engine is alive; reference counts, names and uniqueness are
  exact for every slot but the first; slots move only along the lifecycle, and
  none is stuck on the way except by a failed TopKeys allocation; no engine is
  destroyed twice, none is forgotten, and at most one delete of an engine is
  accepted and is carried out; every answer is right when it is given; once a delete
  has seen no clients, none comes back until the slot is unused; buckets_lock is
  always given back, a create or delete makes few steps, and only deletes that
  wait for each other never end.
- **Append and prepend.** Whatever the interleaving, a document is the replay of
  the log of updates exactly if no update since its last write misread it; an
  update is in the log exactly if it was reported as done, or as FAILED because
  its mutation token was lost; every status is reported exactly when it should
  be; items are released exactly once and only held items are used; `step()`
  terminates; an update left alone puts its bytes where the command says.
- **Executor.** A scheduled task is in exactly one place; the run queue is FIFO;
  exactly the tasks whose execute() returned true are notified, once and without
  the task mutex, and the others are parked until woken; makeRunnable always
  finds its task; nothing is parked when the executor stops; a task is completed
  exactly if it is neither queued nor parked when shutdown is seen.
- **Output.** What the message list describes is the concatenation of the added
  ranges, across splitting and array doubling; after any short and blocked
  writes the bytes accepted, followed by the bytes still described, are the
  payload, and a socket that takes something often enough gets all of it, however
  often it blocks in between.
- **Input.** In any life of a connection the packets handed out, followed by
  what is begun, unparsed or still to arrive, are the bytes the peer sends; the
  packets handed out are the first ones the peer sent, and all of them if
  nothing gets in the way.
- **Wire formats.** Every field of every DCP and TAP message and of every
  response is at its place in the packet; decoding inverts encoding,
  streams of packets are split back into their messages, the validators admit
  exactly the messages described, and an admitted packet decodes inside its
  bounds exactly if the lengths it announces fit.
- **Producers and responses.** What is queued or appended is the concatenation
  of the packets of the accepted messages, in call order, and the other side
  recovers these messages; a call fails exactly if the room left by the earlier
  ones does not suffice or its item or body cannot be had.
- **Loans and staging.** Every allocated buffer has exactly one owner; spare
  buffers are clean, and so is what is lent; partial data never changes hands;
  the staging buffers are FIFO queues, and a drain ends in the state that its
  calls, taken round by round, lead to.
- **SASL.** The token search finds a name exactly if it is a whole token, in
  upper or lower case and between any of the separators, and a client shown a
  server's list picks the strongest mechanism both have enabled.

## Where the code differs from what it promises

- The comment on append/prepend (daemon/mcbp_executors.cc:2918-2925) speaks of a
  retry after a lost race. The code sets the reset state but returns
  KEY_EEXISTS, so `step()` ends; `ConflictIsFinal` states this, and `LostRace`
  is a run.
- A compressed document that inflates to nothing is taken for one that was not
  compressed. `DocumentsAreReplay` and `StoreIsSplice` give the exact condition
  under which documents are what the updates say, and
  `UnreadableDocumentIsMisread` a run in which they are not.
- A store that went through is reported as FAILED when the connection wants
  mutation tokens and the lookup of the token fails. `LoggedExactly` says that
  this is the only way, `StoredAppendReportedFailed` is a run.
- A create that fails to allocate its TopKeys leaves its slot in Creating for
  good. `LostExactly` says that a slot is lost exactly then, `AbandonedForever`
  that it stays lost; `RunThatLosesASlot` is a run.
- A delete takes the connection that asked for it out of the bucket without
  counting it in at slot 0. `NoBucketCount` says that the count of slot 0 is
  short by exactly the number of such deletes; `RunThatDrifts` is a run in which
  it falls below zero.
- Two connections that delete each other's bucket wait for each other for good: a
  delete releases the connection that asked for it from its own bucket only, and
  a connection that waits for a delete is not woken. `OnlyKnotsBlock` says that
  nothing else keeps deletes from going on, `KnotIsForever` that such deletes
  never end; `RunIntoAKnot` is a run.
- Tasks that are queued or parked when shutdown is seen are never executed. The
  parked ones are waited for, put into the run queue and left there.
  `ExactAtShutdown` and `RequestDecides` say which tasks are completed;
  `RunThatAbandonsATask` and `RunThatAbandonsAParkedTask` are runs.
- The expiration validator admits an encoded expiration only if its metadata is
  empty, although the producer sends metadata: `AcceptedExactly`.
- The validators do not look at the length of the metadata that a DCP packet
  announces, nor at engine data and key of a TAP packet together.
  `DecodesExactly` says which admitted packets decode inside their bounds;
  `AnnouncedMetaIsNotChecked` and `AnnouncedEngineIsNotChecked` describe admitted
  packets that do not.
- Shipping the TAP log does not check for room in the write buffer.
  `InsideExactly` gives the exact condition, `ModestEngineDataFits` and
  `LargerEngineDataDoesNot` what it means for a fresh buffer.
- After a full write transmit looks at the entry behind the last one of a
  message. The model lets it find any length there; the theorems hold whatever
  it is.

## Model

| member | source | states |
|---|---|---|
| BucketsSafety.RunHasInv | daemon/memcached.cc:1939-2049 | the protocol invariant (slot table, locks, scans in progress, owners, engines, counts) holds in every state of every interleaving of creates, deletes, selects, connects and closes |
| BucketsSafety.ConnectedEngineAlive | daemon/memcached.cc:171-217 | in every reachable state a connection with index other than 0 holds the engine of that slot, and that engine has not been destroyed |
| BucketsSafety.SlotTableExact | daemon/memcached.cc:1939-1980 | in every reachable state each slot from 1 on counts exactly its connections, has a name iff it is in use, and shares its name with no other slot |
| BucketsSafety.NextFollowsLifecycle | daemon/memcached.cc:1986-2049 | every action moves every slot along a lifecycle edge or leaves its state, and leaves the no-bucket Ready |
| BucketsSafety.SlotsFollowLifecycle | daemon/memcached.cc:2189-2195 | along every run slots move only along the lifecycle edges |
| BucketsSafety.EnginesDestroyedOnce | daemon/memcached.cc:2019-2034 | over any run no engine is destroyed twice and at most one delete of an engine is accepted, also when a delete races with a failing create |
| BucketsEngines.EnginesAccountedFor | daemon/memcached.cc:2019-2034 | in every reachable state every engine ever made is in a slot or destroyed, and both exactly while a thread is about to give the slot back |
| BucketsEngines.DeletesAreCarriedOut | daemon/memcached.cc:2173-2195 | the engine of an accepted delete is destroyed, or its slot is Destroying with a thread at work on it |
| BucketsEngines.NothingLeftToDestroy | daemon/memcached.cc:2173-2195 | when all threads are done, the engines of all accepted deletes have been destroyed |
| BucketsAnswers.DeleteAnswers | daemon/memcached.cc:2095-2125 | in any interleaving a delete answers KEY_ENOENT only if no slot has the name, KEY_EEXISTS only if one has it but is not Ready, and takes over only a Ready slot with that name |
| BucketsAnswers.CreateAnswers | daemon/memcached.cc:1939-1984 | in any interleaving a create takes over only an unused slot, and only if no slot has the name; it answers E2BIG only then, and KEY_EEXISTS exactly after it saw the name |
| BucketsAnswers.CreateInvalid | daemon/memcached.cc:1919-1925 | a create with an invalid name is refused with EINVAL and changes nothing |
| BucketsAnswers.ValidateName | daemon/buckets.cc:41-74 | a name is valid exactly if it has 1 to 100 legal characters |
| BucketsAnswers.LegalCodes | daemon/buckets.cc:57-70 | the codes of the legal characters: letters, digits, underscore, hyphen, full stop, percent sign |
| BucketsSafety.DrainedUntilUnused | daemon/memcached.cc:2136-2195 | once a destroyer has seen no clients the count stays 0 until the slot is unused |
| BucketsSafety.FailedTopKeysAbandons | daemon/memcached.cc:1967-1984 | a create whose top-keys allocation fails reports ENOMEM and leaves the slot Creating with no owner |
| BucketsSafety.AbandonedForever | daemon/memcached.cc:1967-1984 | such a slot stays Creating, with its name, for the rest of every run |
| BucketsSafety.NoBucketCountDrift | daemon/memcached.cc:171-184 | slot 0 counts the connections it counted in, minus the exits of connections it never counted; BucketsDrift.NoBucketCount has their cause |
| BucketsRuns.OnlyTopKeysAbandons | daemon/memcached.cc:1967-1984 | the only action that leaves a slot Creating with no owner is a create taking that slot whose TopKeys allocation fails |
| BucketsRuns.LostExactly | daemon/memcached.cc:1967-1984 | in every run a slot is Creating with no owner exactly if a TopKeys allocation for it failed earlier |
| BucketsRuns.NoOtherSlotStuck | daemon/memcached.cc:1986-2049 | a slot that is Initializing or Destroying always has a thread at work on it, and so has one that is Creating unless its TopKeys allocation failed |
| BucketsRuns.RunThatLosesASlot | daemon/memcached.cc:1967-1984 | a run that ends with slot 1 lost |
| BucketsDrift.NoBucketCount | daemon/memcached.cc:2128-2131 | in every run slot 0 counts the connections that rest there, less one for every delete that released the connection that asked for it |
| BucketsDrift.NextKeepsPark | daemon/memcached.cc:2077-2131 | a connection waiting for a delete stays parked, and waits for one delete only |
| BucketsDrift.RunThatDrifts | daemon/memcached.cc:171-184 | a run in which a connection deletes its own bucket and closes, and slot 0 counts -1 |
| BucketsProgress.LockHeldExactly | daemon/memcached.cc:1939-1984 | in every reachable state buckets_lock is held exactly by a thread that is scanning the table |
| BucketsProgress.StepsAreFew | daemon/memcached.cc:1939-2049 | in every run, whatever the others do, a create or delete makes no more steps of its own than there are slots, and eight more |
| BucketsProgress.OnlyKnotsBlock | daemon/memcached.cc:2136-2150 | unfinished threads that cannot go on, waiting for connections that cannot go on either, are deletes that wait for connections that asked for one of them |
| BucketsProgress.KnotIsForever | daemon/connection_mcbp.cc:1338-1344 | deletes that wait for each other in this way do so in every later state of the run |
| BucketsKnot.RunIntoAKnot | daemon/memcached.cc:2128-2150 | a run in which two connections delete the bucket of the other one, and both deletes wait for good |
| BucketsAlone.CreateAlone | daemon/memcached.cc:1939-2017 | left alone, a create puts a fresh engine into the first free slot, makes it Ready and changes no other slot |
| BucketsAlone.CreateWithoutEngine | daemon/memcached.cc:2035-2048 | a create that gets no engine answers FAILED and leaves the table as it was |
| BucketsAlone.CreateWithBadEngine | daemon/memcached.cc:2019-2034 | a create whose engine cannot be initialised answers NOT_STORED, destroys exactly that engine and leaves the table as it was |
| BucketsAlone.CreateTaken | daemon/memcached.cc:1939-1965 | a create for a taken name answers KEY_EEXISTS and changes nothing |
| BucketsAlone.CreateFull | daemon/memcached.cc:1939-1965 | a create in a full table answers E2BIG and changes nothing |
| BucketsAlone.ConnectAlone | daemon/memcached.cc:219-229 | left alone, a new connection gets into the default bucket wherever it is in the table |
| BucketsAlone.SelectAlone | daemon/memcached.cc:186-217 | left alone, a select moves the connection, and its count, from its bucket to the named one |
| BucketsAlone.SelectInVain | daemon/memcached.cc:206-214 | a select of a bucket that is not in service moves the connection, and its count, to the no-bucket |
| BucketsAlone.DeleteAlone | daemon/memcached.cc:2077-2136 | left alone, a delete from another bucket takes the named one out of service and waits for its clients |
| BucketsAlone.DeleteWholly | daemon/memcached.cc:2077-2200 | left alone, a delete of a bucket without clients answers SUCCESS, empties the slot, destroys exactly its engine and changes nothing else |
| BucketsAlone.DeleteOwn | daemon/memcached.cc:2128-2131 | the same for the bucket of the only client, asked for by that client, who is at the no-bucket afterwards |
| BucketsAlone.DeleteUnknown | daemon/memcached.cc:2095-2125 | a delete of an unknown bucket answers KEY_ENOENT and changes nothing |
| BucketsAlone.DeleteBusy | daemon/memcached.cc:2095-2125 | a delete of a bucket that is not Ready answers KEY_EEXISTS and changes nothing |
| AppendPrependSafety.RunHasInv | daemon/mcbp_executors.cc:2977-3158 | the invariant over contexts, items, documents and log holds in every state of every interleaving, with any pattern of blocking |
| AppendPrependSafety.DocumentsAreReplay | daemon/mcbp_executors.cc:3029-3140 | in every reachable state the documents are those of the replayed log, and each is the replay (none lost, none done twice) exactly if no update since its last write misread it |
| AppendPrependSafety.ReadableLogReadsWell | daemon/mcbp_executors.cc:3085-3090 | if no compressed document that inflates to nothing is ever written, nothing is misread |
| AppendPrependSafety.LoggedExactly | daemon/mcbp_executors.cc:3109-3140 | in every run a context that replied has its update in the log exactly if it reported success, or its store went through and the lookup of the mutation token failed, in which case it reported FAILED |
| AppendPrependSafety.RepliesMatchLog | daemon/mcbp_executors.cc:3178-3213 | a context has at most one logged update, the requested one; success has one, an error other than FAILED none; LoggedExactly settles FAILED |
| AppendPrependSafety.StoreIsSplice | daemon/mcbp_executors.cc:3065-3140 | a store that goes through changes only its key, logs one update, and makes the document the then-current content followed (append) or preceded (prepend) by the fragment iff that document is readable |
| AppendPrependSafety.SourceIsContent | daemon/mcbp_executors.cc:3085-3090 | the bytes copied from are the content of the old document iff it is not a compressed document that inflates to nothing |
| AppendPrependRuns.UnreadableDocumentIsMisread | daemon/mcbp_executors.cc:3065-3107 | a run in which appending to a compressed empty document keeps the compressed bytes |
| AppendPrependRuns.StoredAppendReportedFailed | daemon/mcbp_executors.cc:3114-3122 | a run in which an append takes effect and is reported as FAILED |
| AppendPrependSafety.RefusedLeavesDocuments | daemon/mcbp_executors.cc:3109-3140 | a call that does not store leaves all documents and the log unchanged |
| AppendPrependSafety.StoredYetReportedFailed | daemon/mcbp_executors.cc:3114-3134 | after a successful store the context reports FAILED iff the connection wants mutation extras and the item information cannot be read, and is done otherwise |
| AppendPrependSafety.StepLowersRank | daemon/mcbp_executors.cc:2977-3006 | every state function that lets step() continue lowers a rank, so step() terminates |
| AppendPrependSafety.ConflictIsFinal | daemon/mcbp_executors.cc:3135-3139 | in every run a lost race is reported as KEY_EEXISTS and step() never runs from the reset state |
| AppendPrependAnswers.ReportedExactly | daemon/mcbp_executors.cc:3008-3140 | for each status, exactly when a command reports it; it waits exactly if the engine would block |
| AppendPrependAnswers.ResumedReports | daemon/mcbp_executors.cc:3178-3213 | a woken command goes on where it stopped, or reports the error it was woken with, a missing key as NOT_STORED |
| AppendPrependAnswers.UpdateAlone | daemon/mcbp_executors.cc:2977-3140 | left alone, an append or prepend of any request to any readable document puts the (inflated) request behind or in front of the (inflated) content and reports success |
| AppendPrependAnswers.WaitAlone | daemon/mcbp_executors.cc:3178-3200 | blocking and being woken without an error brings a context back to where it was |
| AppendPrependAnswers.DestroyAlone | daemon/mcbp_executors.cc:3002-3004 | a waiting or finished context can be destroyed, and has released all its items then |
| AppendPrependAnswers.PrependRun | daemon/mcbp_executors.cc:3097-3101 | a run in which prepending 8 to the document 9 makes it 8, 9 |
| AppendPrependRuns.LostRace | daemon/mcbp_executors.cc:3135-3139 | a run in which another writer comes between fetch and store: the append ends with KEY_EEXISTS in the reset state, and the other document stays |
| AppendPrependSafety.ItemsReleasedOnce | daemon/mcbp_executors.cc:3142-3158 | over any life of a context no item is released twice, a destroyed context has released all its items, and only held items are used |
| Executor.RunHasInv | daemon/executor.cc:34-121 | the invariant over queues, mutexes, wakes and history holds in every interleaving |
| Executor.TaskInOnePlace | daemon/executor.cc:40-82 | a scheduled task is in exactly one of run queue, wait queue, execution and notified; an unscheduled one in none |
| Executor.RunQueueIsFifo | daemon/executor.cc:50-51 | what was pushed is what was popped followed by the run queue |
| Executor.NotifiedOnce | daemon/executor.cc:58-72 | completions are notified once each, in the order in which execute() returned true, with the task mutex released |
| ExecutorTraces.CompletedIsFinished | daemon/executor.cc:58-59 | in every run, complete are the tasks whose execute() returned true, in that order |
| ExecutorTraces.NotifiedAreFinished | daemon/executor.cc:59-72 | notified are the tasks whose execute() returned true, in that order, but for one on the way |
| ExecutorTraces.QueueIsFifo | daemon/executor.cc:50-51 | what was made runnable, by schedule and makeRunnable, is what was taken followed by the run queue |
| ExecutorTraces.ParkedExactly | daemon/executor.cc:73-81 | a task is in the wait queue, or on its way there, exactly if it was scheduled as waiting or answered with false once more than made runnable |
| ExecutorTraces.ParkingHoldsMutex | daemon/executor.cc:73-81 | a task answered with false goes to the wait queue with its mutex held, which is released right afterwards |
| ExecutorTraces.RunIsTrace | daemon/executor.cc:34-121 | every run comes from some sequence of actions |
| ExecutorTraces.RunThatCompletes | daemon/executor.cc:57-72 | a run in which a task is executed and notified |
| ExecutorTraces.RunThatParksAndCompletes | daemon/executor.cc:57-121 | a run in which a task is parked, made runnable, executed again and notified |
| Executor.WakesFindTheirTask | daemon/executor.cc:106-121 | under the task-mutex discipline makeRunnable finds its task in the wait queue, even if the backend thread was started before schedule, and every parked task has a wake |
| Executor.StopLeavesNothingParked | daemon/executor.cc:84-92 | when `running` turns false the wait queue is empty and every scheduled task is notified or still in the run queue |
| Executor.DrainingNext | daemon/executor.cc:41-48 | after shutdown was seen no action takes a task off the run queue |
| Executor.ShutdownAbandonsRunQueue | daemon/executor.cc:46-48 | once shutdown is seen no task is taken and none is notified; what is queued stays queued, and what is parked stays parked or becomes queued |
| Executor.StopFinishesExactly | daemon/executor.cc:84-92 | when the executor stops, every task scheduled until shutdown was seen has been notified exactly if nothing was queued or parked then |
| Executor.ExactAtShutdown | daemon/executor.cc:41-92 | a task scheduled when shutdown is seen is ever notified exactly if it is neither in the run queue nor in the wait queue then |
| Executor.FinishedExactlyAtShutdown | daemon/executor.cc:41-92 | all of them are exactly if both queues are empty then |
| Executor.LateTasksAreLost | daemon/executor.cc:95-104 | a task scheduled after shutdown was seen is never notified |
| Executor.RequestDecides | daemon/executor.cc:41-48 | from the request for shutdown on nothing is taken; a task not notified by then is notified exactly if it is in execution then and its execute() returns true |
| Executor.RunThatAbandonsATask | daemon/executor.cc:41-48 | a run that stops with a scheduled task in the run queue |
| Executor.RunThatAbandonsAParkedTask | daemon/executor.cc:84-121 | a run in which a task parked when shutdown is seen is made runnable and never executed |
| Output.Connection.AddMsgHdr | daemon/connection_mcbp.cc:794-819 | starts a message; a reset leaves one empty message and no entries, otherwise the entries stay |
| Output.Connection.EnsureIovSpace | daemon/connection_mcbp.cc:877-899 | leaves room for an entry, keeps all entries, and repoints the messages so that they still partition them |
| Output.Connection.Repoint | daemon/connection_mcbp.cc:891-895 | each message starts at the sum of the lengths of the ones before it |
| Output.Connection.AddPiece | daemon/connection_mcbp.cc:830-872 | one round queues exactly a non-empty front part of the range and returns the rest; a new message is started exactly if the last one has 1024 entries, or is the first one and has 1400 bytes, and the range is cut exactly where the first message has 1400 bytes |
| Output.Connection.QueueRange | daemon/connection_mcbp.cc:821-875 | the loop ends, and the added entries cover the range without gaps, in order |
| Output.Connection.AddIov | daemon/connection_mcbp.cc:821-875 | flattening gains exactly the added bytes; no entry is empty, the messages partition the entries, no message has more than 1024 of them, and the first message has at most 1400 bytes |
| Output.Connection.BuiltIsSendable | daemon/connection_mcbp.cc:371-376 | what was built is what is pending when sending starts |
| Output.Connection.SkipSentEntries | daemon/connection_mcbp.cc:386-392 | entries sent completely are dropped, and what is left of the count is within the first remaining entry |
| Output.Connection.Advance | daemon/connection_mcbp.cc:386-400 | after `sent` bytes the current message describes what remains of it, and the other messages are untouched |
| Output.Connection.Transmit | daemon/connection_mcbp.cc:371-455 | what is pending loses exactly the accepted bytes; Complete exactly when the last message is passed, and only when nothing is pending; a positive write on a non-empty list makes progress; a failed one sends nothing and is soft exactly if it would block and the event could be updated |
| Output.Connection.SendAll | daemon/statemachine_mcbp.cc:392-428 | for any sequence of short and blocked writes the pending entries are the original ones less the bytes sent, which are no more than the socket offered to take; Complete means all were sent; if no write fails for good and more of them take something than there are bytes, it is Complete, whatever blocks in between |
| Output.Connection.SendPayload | daemon/statemachine_mcbp.cc:392-428 | the same in bytes: what is still described is the payload without the bytes sent |
| Output.WirePlusPending | daemon/connection_mcbp.cc:386-401 | the bytes sent followed by the bytes still described are the payload |
| Output.DropTwice | daemon/connection_mcbp.cc:386-401 | accounting for two short writes is accounting for their sum |
| Output.FlattenDrop | daemon/connection_mcbp.cc:386-401 | dropping n bytes from the entries drops the first n bytes of what they describe |
| Input.Reader.TryRead | daemon/connection_mcbp.cc:463-524 | only appends what recv delivered, drops the data only when a reallocation fails, and ends with the bytes, the buffer size and the result that its calls, taken one by one, lead to |
| Input.Reader.FillLoop | daemon/connection_mcbp.cc:476-523 | the loop: unparsed bytes and bytes to come are conserved, and it ends where the rounds, call by call, lead |
| Input.FilledFacts | daemon/connection_mcbp.cc:476-523 | what the rounds lead to: nothing is lost but for a failed reallocation, data is reported exactly if some came, the first call that can deliver does, and without failures there is no error |
| Input.FilledSize | daemon/connection_mcbp.cc:479-497 | the buffer grows at most 16-fold |
| Input.Reader.Shrink | daemon/connection_mcbp.cc:206-225 | keeps the unparsed bytes; a buffer of more than 8192 bytes with less than 2048 unparsed ones is packed and, if realloc works, reduced to 2048; any other is left alone |
| Input.Reader.ReadChunk | daemon/mcbp_executors.cc:112-154 | keeps the unparsed bytes, leaves room for header and body at ritem; a buffer in which they fit behind read.curr is left alone, otherwise it is packed and grows to the first sufficient doubling; a failed allocation closes the connection |
| Input.Reader.Parse | daemon/mcbp_executors.cc:4925-5001 | the header is taken and the body begun, and nothing of the input is lost; a header that is not admitted closes the connection |
| Input.Reader.TakeLeftover | daemon/statemachine_mcbp.cc:321-334 | bytes already in the buffer become part of the body where they are |
| Input.Reader.ReceiveBody | daemon/statemachine_mcbp.cc:336-373 | bytes received for the body are put right behind it |
| Input.Reader.HandOut | daemon/statemachine_mcbp.cc:311-320 | a packet handed out is as long as its header says and is the front of what was ahead |
| Input.Reader.Rest | daemon/statemachine_mcbp.cc:119-140 | resetting a command changes neither unparsed nor begun bytes |
| Input.Reader.Step | daemon/statemachine_mcbp.cc:221-256 | a packet is handed out exactly when its body is complete, an admitted header starts a body, and packet plus what is ahead is what was ahead |
| Input.Reader.Run | daemon/statemachine_mcbp.cc:304-373 | in any life of a connection that is not closing, the packets handed out followed by what is ahead are the bytes of the peer; if these are whole packets and reading, parsing and completing take turns unhindered for long enough, nothing is left ahead |
| Input.Reader.SomethingIsDue | daemon/statemachine_mcbp.cc:221-256 | while whole packets are ahead there is always an event that moves them on |
| Input.HandedOutInOrder | daemon/mcbp_executors.cc:4925-5001 | if the peer sends whole packets, those handed out are the first of them, and all of them if nothing is left ahead |
| Loans.Worker.LoanSingle | daemon/connections.cc:534-570 | a connection with a buffer keeps it; otherwise it gets the thread's clean spare buffer or a new one; nobody else's buffer changes |
| Loans.Worker.ReturnSingle | daemon/connections.cc:575-595 | a clean buffer becomes the thread's spare one or is freed, a partial one stays; nobody else's buffer changes |
| Loans.Worker.LoanBuffers | daemon/connections.cc:366-388 | existing buffers are kept, missing ones are provided unless allocation fails, and what is provided is clean |
| Loans.Worker.ReturnBuffers | daemon/connections.cc:390-414 | partial data stays with its connection, clean buffers go unless the connection is TAP or DCP |
| Loans.Worker.NoBuffers | daemon/connections.cc:398-403 | the null-buffer assertions for a connection without a thread cannot fire |
| Loans.Worker.CloseConnection | daemon/connections.cc:247-282 | after cleanup the connection has no buffers and no thread, and no other connection is affected |
| Loans.Worker.Step | daemon/connections.cc:366-414 | every operation keeps single ownership and leaves the buffers of all other connections alone; a loan provides clean buffers only |
| Loans.Worker.Run | daemon/connections.cc:247-414 | ownership, clean spare buffers and bounds hold after any run of loans, returns, uses, resizes and closes |
| Loans.OneOwner | daemon/connections.cc:534-595 | an allocated buffer is held by exactly one owner |
| Loans.MoveKeepsOwned | daemon/connections.cc:548-555 | handing a clean buffer over keeps single ownership |
| Loans.NothingLeaks | daemon/connections.cc:247-282 | when all connections are closed only the thread's clean spare buffers are allocated |
| Ssl.Stage.Flush | daemon/connection_mcbp.cc:695-709 | a partial write moves a front part of the staged bytes to the sink and nothing else |
| Ssl.Stage.Fetch | daemon/connection_mcbp.cc:711-726 | a partial read appends to the staged bytes |
| Ssl.Stage.MorePending | daemon/connection_mcbp.h:129-131 | output is pending iff bytes are staged |
| Ssl.DrainMoves | daemon/connection_mcbp.cc:690-766 | a drain conserves sink, staged bytes and source together; every round but the last moves something, the first one as far as its calls allow; the last one ends for the reason found in its own calls, which also decide whether it is an error |
| Ssl.RoundMoves | daemon/connection_mcbp.cc:694-728 | the same for one round |
| Ssl.Stage.DrainRecv | daemon/connection_mcbp.cc:690-729 | the stage ends up where the rounds, call by call, lead; it ends because the TLS library refuses staged bytes or the socket delivers nothing, and it is an error exactly if the socket ends or fails |
| Ssl.Stage.DrainSend | daemon/connection_mcbp.cc:731-766 | the same towards the socket: staged bytes are left only if the socket refused them in the last round, and it is an error exactly if that call failed |
| Wire.UnpackPack | include/memcached/protocol_binary.h:547-560 | members written to a structure are read back, whatever follows |
| Wire.PackUnpack | include/memcached/protocol_binary.h:547-560 | writing back the members that were read restores the bytes |
| Wire.HeaderMember | include/memcached/protocol_binary.h:547-560 | each header member is read at its offset: 0, 1, 2, 4, 5, 6, 8, 12, 16 |
| Wire.HeaderBytes | include/memcached/protocol_binary.h:547-560 | the header, byte by byte |
| Wire.NumberOfBytes | include/memcached/protocol_binary.h:547-560 | how one, two or four bytes make up a number, in network order and in host order |
| Wire.LongNumber | include/memcached/protocol_binary.h:547-560 | how eight bytes do in network order |
| Wire.NetworkOrder | include/memcached/protocol_binary.h:547-560 | in network order the first bytes weigh most |
| Wire.Minus32Wraps | daemon/mcbp_executors.cc:2420-2421 | a difference below zero wraps around in 32 bits |
| Wire.FramesOfJoin | daemon/mcbp_executors.cc:4925-5001 | packets as long as their headers say are separated again wherever they are concatenated |
| Dcp.RoundTrip | daemon/mcbp_executors.cc:2404-2431 | decoding an encoded stream request, marker, mutation, deletion, expiration or control message gives back all its fields |
| DcpFormat.MutationOnTheWire | daemon/mcbp_executors.cc:1636-1665 | each field of a mutation is at its place in the packet: header, extras, key, value, metadata |
| DcpFormat.DeletionOnTheWire | daemon/mcbp_executors.cc:1687-1757 | the same for a deletion and an expiration |
| DcpFormat.MarkerOnTheWire | daemon/mcbp_executors.cc:1580-1594 | the same for a snapshot marker |
| DcpFormat.StreamReqOnTheWire | daemon/mcbp_executors.cc:1424-1442 | the same for a stream request |
| DcpFormat.ControlOnTheWire | daemon/mcbp_executors.cc:1869-1905 | the same for a control message |
| DcpFormat.DecodedFields | daemon/mcbp_executors.cc:2404-2540 | what the decoders make of any complete packet that is admitted, field by field |
| DcpFormat.AdmitsExactly | daemon/mcbp_validators.cc:88-243 | which packets the header check and the validators admit, byte by byte |
| DcpFormat.EncodableExactly | include/memcached/protocol_binary.h:1455-1546 | the results about encoding are about the messages whose numbers and lengths fit their fields |
| Dcp.AcceptedExactly | daemon/mcbp_validators.cc:88-243 | the validators admit an encoded message iff its key is not empty where one is needed, a control value is not empty, and an expiration has no metadata |
| Dcp.MutationIsCanonical | daemon/mcbp_executors.cc:1640-1661 | a complete mutation packet that is admitted and decodes is the encoding of what it decodes to |
| Dcp.DecodesExactly | daemon/mcbp_executors.cc:4776-4822 | a complete packet that the header check and its validator admit decodes inside its bounds exactly if the metadata it announces fits behind extras and key |
| Dcp.AnnouncedMetaIsNotChecked | daemon/mcbp_validators.cc:154-169 | an expiration that announces metadata it does not have is admitted all the same |
| Dcp.MutationMember | include/memcached/protocol_binary.h:1518-1532 | the extras of a mutation are read at offsets 24, 32, 40, 44, 48, 52 and 54 |
| Dcp.ExtrasSizes | include/memcached/protocol_binary.h:1455-1546 | the fixed parts behind the header take 48, 20, 31, 18, 18 and 0 bytes |
| Dcp.StreamRoundTrip | daemon/mcbp_executors.cc:1907-1958 | a stream of encoded messages is received as exactly these messages |
| Tap.RoundTrip | daemon/mcbp_executors.cc:1216-1298 | an encoded TAP event passes its validator, its kind is recovered from the opcode, and it is delivered with all its fields and one hop less; with no hops left it is refused |
| TapFormat.EventOnTheWire | daemon/mcbp_executors.cc:819-985 | each field of a TAP event is at its place in the packet, item flags in the order that the TAP flags ask for, the value unless they leave it out |
| TapFormat.DecodedFields | daemon/mcbp_executors.cc:1216-1298 | what the executor tells its engine about any complete packet whose parts fit, field by field |
| TapFormat.NotDelivered | daemon/mcbp_executors.cc:1245-1247 | other opcodes, and packets without hops left, are not delivered |
| TapFormat.AcceptsExactly | daemon/mcbp_validators.cc:812-821 | which packets the validator admits, byte by byte |
| TapFormat.FlagBits | include/memcached/protocol_binary.h:1170-1180 | bit 1 of the TAP flags leaves the value out, bit 2 is about the order of the item flags |
| Tap.EncodedMembers | daemon/mcbp_executors.cc:819-952 | header, tap part, item part in the byte order its flags ask for, engine data, key and value are where the receiver looks for them |
| Tap.DecodesExactly | daemon/mcbp_validators.cc:812-821 | a complete packet that the validator admits is decoded inside its bounds exactly if it has no hops left or fixed parts, engine data and key fit together |
| Tap.AnnouncedEngineIsNotChecked | daemon/mcbp_validators.cc:812-821 | a packet may announce engine data up to the length of its body, but decodes only up to that of its engine data and value |
| Tap.StreamRoundTrip | daemon/mcbp_executors.cc:1973-2041 | a shipment is cut into its packets and received event by event |
| TapShipping.InsideExactly | daemon/mcbp_executors.cc:762-985 | every copy of a shipment ends inside the write buffer exactly if its headers and engine data together fit |
| TapShipping.ModestEngineDataFits | daemon/mcbp_executors.cc:788-790 | ten events with at most 164 bytes of engine data each fit a fresh write buffer |
| TapShipping.LargerEngineDataDoesNot | daemon/mcbp_executors.cc:788-790 | ten mutations with 165 bytes each do not |
| TapShipping.ShipLog | daemon/mcbp_executors.cc:766-996 | a shipment that fits, of at most ten events, is queued as the stream of the events whose items can be had |
| Producers.Step.constructor | daemon/mcbp_executors.cc:1931-1942 | a step starts with nothing queued and an empty write buffer |
| Producers.Step.Copy | daemon/mcbp_executors.cc:1651-1654 | copying to write.curr changes no byte that is already queued |
| Producers.Step.SendFixed | daemon/mcbp_executors.cc:1406-1446 | E2BIG iff the packet does not fit, and then nothing changes; otherwise exactly the packet is queued |
| Producers.Step.SendInline | daemon/mcbp_executors.cc:1670-1712 | the same for deletion, expiration and control, whose range is queued before it is filled |
| Producers.Step.SendMutation | daemon/mcbp_executors.cc:1599-1665 | header and metadata go through the write buffer, key and value are queued in the item; a refusal or failure changes nothing |
| Producers.Step.Send | daemon/mcbp_executors.cc:1869-1905 | any producer call queues the packet of its message or changes nothing, and answers as the room left demands |
| Producers.Step.Ship | daemon/mcbp_executors.cc:1907-1958 | after any sequence of producer calls the queued bytes are the packets of the accepted messages in call order, and each call is refused exactly if the room left by the earlier ones does not suffice or its item cannot be had |
| Producers.TakenBelow | daemon/mcbp_executors.cc:1615-1618 | write.bytes stays below write.size |
| Producers.Step.ShipAndTransmit | daemon/mcbp_executors.cc:1943-1955 | after any short and blocked writes what is pending is the rest of these packets, Complete means all of them were sent, and it is reached if no write fails for good and enough of them take something |
| Producers.AcceptedAreReceived | daemon/mcbp_executors.cc:2404-2431 | the peer's decoders recover exactly the accepted messages from what was queued |
| Producers.RenderUnchanged | daemon/mcbp_executors.cc:1651-1661 | entries below write.curr keep their bytes when memory changes only above it |
| Responses.DynamicBuffer.Grow | daemon/dynamic_buffer.cc:22-50 | makes room or leaves everything as it was, keeps the contents, fails only if realloc does, and takes the first sufficient doubling |
| Responses.DoubledIsTight | daemon/dynamic_buffer.cc:33-37 | a grown buffer is smaller than twice what is needed |
| Responses.DynamicBuffer.TakeOwnership | daemon/dynamic_buffer.h:90-94 | nothing is left behind |
| Responses.DynamicBuffer.Emit | daemon/mcbp.cc:349-379 | exactly the packet is appended, and moveOffset does not throw |
| Responses.DynamicBuffer.Respond | daemon/mcbp.cc:282-381 | it succeeds exactly if the body can be inflated where needed and the packet fits or realloc works; then it appends header, extras, key and body, inflated and without datatype for a client that does not know datatypes; failure appends nothing; and the room left is the one this leads to |
| Responses.DynamicBuffer.AppendStats | daemon/mcbp_executors.cc:691-743 | exactly if the packet fits or realloc works it appends a STAT header, the name and the value, and nothing otherwise |
| Responses.DynamicBuffer.Collect | daemon/mcbp.cc:282-381 | after any sequence of appends the buffer has gained the packets of those that succeeded, in order, and each succeeds exactly if it can, given the room that the earlier ones left |
| Responses.NeededIsPacket | daemon/mcbp.cc:311-330 | the room asked for is exactly the size of the packet |
| Responses.RoundTrip | daemon/mcbp.cc:331-347 | one response packet is read back as its extras, key, body and header fields |
| Responses.ResponseOnTheWire | daemon/mcbp.cc:331-347 | each field of a response is at its place in the packet |
| Responses.StatisticIsReceived | daemon/mcbp_executors.cc:691-724 | a client reads a statistic as its name and its value |
| Responses.CompressedBit | include/memcached/protocol_binary.h:477-493 | bit 1 of the datatype says that a body is compressed |
| Responses.StreamRoundTrip | daemon/mcbp.cc:331-379 | a header-driven client splits the collected bytes into exactly the appended responses |
| Responses.CollectedIsReceived | daemon/mcbp_executors.cc:691-743 | from a buffer that started empty the client reads the responses that were appended |
| Sasl.ContainsMechanism | cbsasl/mechanismfactory.cc:268-292 | the search ends and is true iff the name stands in the list with a space or an end on both sides |
| Sasl.Find | cbsasl/mechanismfactory.cc:273-276 | the first occurrence at or behind a position, or none |
| Sasl.TokensArePieces | cbsasl/mechanismfactory.cc:268-292 | standing between delimiters is the same as being one of the pieces the list splits into |
| Sasl.MechanismFactory.Select | cbsasl/mechanismfactory.cc:302-315 | the first enabled mechanism whose name is a token of the normalised list, unknown if there is none |
| Sasl.MechanismFactory.List | cbsasl/mechanismfactory.cc:317-370 | prefix, enabled names with separators between them, suffix; and their number |
| Sasl.SelectOfList | cbsasl/mechanismfactory.cc:302-370 | applied to such a list, with wrappers and separators that delimit, selection gives the strongest enabled mechanism, unknown if none is enabled |
| Sasl.SelectFromPeer | cbsasl/mechanismfactory.cc:302-370 | a client shown the list of a server with other mechanisms enabled selects the strongest one that both have, if the separator delimits at both ends and no wrapper names a mechanism |
| SaslNames.SelectedIsStrongest | cbsasl/mechanismfactory.cc:302-315 | the mechanism selected is enabled and named in the list, and no stronger one is |
| SaslNames.WrittenNameIsFound | cbsasl/mechanismfactory.cc:268-310 | a name in upper or lower case between separators or ends is found |
| SaslNames.CaseIsIgnored | cbsasl/mechanismfactory.cc:303-305 | upper and lower case make no difference to selection and configuration |
| SaslNames.SeparatorsAre | cbsasl/mechanismfactory.cc:294-300 | the characters that separate names are the punctuation other than the hyphen |
| SaslNames.SpacesAre | cbsasl/mechanismfactory.cc:201-203 | the characters between the words of the option |
| Sasl.DefaultIsNeutral | cbsasl/mechanismfactory.cc:317-370 | the separator used when none is given delimits at both ends |
| Sasl.TokensTogether | cbsasl/mechanismfactory.cc:268-292 | where two strings meet at a delimiter, the tokens of both together are those of each |
| Sasl.MechanismFactory.SetEnabled | cbsasl/mechanismfactory.cc:74-81 | an unsupported mechanism is never enabled |
| Sasl.MechanismFactory.SetAvailable | cbsasl/mechanismfactory.cc:184-222 | a mechanism is enabled iff it is supported and one of the words of the option |
| Sasl.MechanismFactory.ListThenSetAvailable | cbsasl/mechanismfactory.cc:184-370 | configuring with the server's own list enables the same mechanisms |

## Left out

- The shutdown path cleanup_buckets, and deletion of all buckets at shutdown: bucket results are about the time before it.
- Bucket counts are integers: the wrap-around of the unsigned count of slot 0 is not modelled.
- BucketsSafety.NoBucketCountDrift: speaks of exits by a history variable; BucketsDrift.NoBucketCount states their cause.
- One thread at a time is taken to change the bucket index of a connection; the connection that asks for a delete is parked meanwhile.
- ON_DELETE_BUCKET callbacks, statistics and event handlers of a bucket; new_engine_instance is taken to give a fresh engine or none.
- The storage engine is a contract: a CAS store succeeds iff the versions match, and every mutation gets a fresh version; topkeys, expiry and vbucket ownership are not modelled.
- ExecutorPool's round-robin choice and its check that the task mutex is held; the discipline is part of the enabling conditions of Executor.
- Executor.WakesFindTheirTask: assumes one makeRunnable for each park, as the bucket and password-refresh tasks do.
- sendmsg over TLS and over a pipe goes on to the next entry after a short write; Output.Connection.Transmit is about the plain socket call, which accepts a prefix.
- Allocation failures of vectors in addMsgHdr, addIov and ensureIovSpace.
- Input.Reader.ReadChunk: read.size is a 32-bit field and the new size is cast to int; sizes are taken to stay below 2^31.
- Input.Reader.Run: nothing is claimed for a connection that is closing, whose data may be dropped.
- BucketsProgress.OnlyKnotsBlock: a fair scheduler, and clients that react when they are woken, are not part of the model; it says that something can go on, not that it does.
- conn_nread's memmove of leftover bytes: it is not modelled because ritem equals read.curr in every run (part of Ready).
- Dcp.RoundTrip: numbers are taken to fit their fields, the 32-bit body length included (Encodable).
- Decoding a packet whose length fields point outside it gives no message in the model; what the executors do with such pointers is not modelled.
- The host is taken to be little-endian, which is visible only in members copied without conversion (opaque, item flags).
- The DCP messages without a key or extras (flush, noop, stream end, buffer acknowledgement, responses): they would repeat SendFixed.
- Tap.RoundTrip: the JSON check that may replace the datatype on the receiving side, and inflating before sending, are not modelled.
- TapShipping.ShipLog: is about shipments that stay inside the write buffer, because what a copy behind its end does has no meaning in the model; InsideExactly says which these are.
- TAP no-op, flush, opaque and vbucket events in a shipment.
- Responses.DynamicBuffer.Respond: snappy is taken to refuse an empty body and to inflate to the length it announced.
- Ssl.Stage.DrainRecv: the staging buffer is taken to have room for a byte; with an empty one the original would not end.
- The log messages of cbsasl_set_available_mechanisms, which report known mechanisms as unknown and the other way round.
- SASL back ends, the password file, privileges, the other opcodes, audit, configuration and logging: each is settled by reading one function.
