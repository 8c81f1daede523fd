# Multi-reactor NIO server and concurrency exercises, modelled in Dafny

This project models the core of the `JDK8-java` study repository in two parts.

The first part is the non-blocking socket server under `com.io.nio.socket`. Its components are:

- one **accept reactor** (`SelectorManager.startNIO`). It accepts connections and deals them out round robin to the read reactors.
- **read reactors** (`ReadSelector`). Each drains a readable connection into request text and submits a `SelectedServiceHandler` task to a worker pool. That task carries the request and the write selector paired with the read reactor.
- **worker tasks** (`SelectedServiceHandler.run`). Each computes the reply and registers the channel for writing on the paired write selector, with the reply attached.
- **write reactors** (`WriteSelector`). Each writes the attached reply once, then cancels the key and closes the connection.
- `SelectorManager`'s constructor opens the selector pairs, and `SelectorManagerBuilder.build` guards the reactor count.

Each reactor's selector is a `Selector` object whose selected-key set the reactors edit. One iteration of a reactor's `while (true)` loop is a method (`RunOnce`, `AcceptOnce`). It returns the side effects it performed, in order: registrations, wakeups, cancellations, key removals, hand-offs, writes and closes. Each of these methods is proved equal to a specification function over the selected keys and the round's inputs. The properties are proved about those functions:

- round-robin dispatch, its balance over the read reactors, and the counter reset at `Integer.MAX_VALUE - 1`;
- a read reactor keeps stale buffer bytes after a short read;
- exactly one write per key whose guard holds, and every key ends cancelled and closed;
- the end-to-end path from a drained request to the reply written on the same channel.

The second part is the set of concurrency exercises under `com.concurrent`:

- the semaphore-guarded object pool;
- the prioritized and delayed tasks with their end sentinels;
- the horse race's barrier action;
- the toast pipeline;
- the car-assembly robots;
- the four accumulators of the performance comparison;
- the count-down task.

Each is a class whose methods update its fields as the Java code does. Threads are replaced by an explicit schedule of calls, and randomness and the clock are parameters.

Java `int` and `long` arithmetic is modelled explicitly where it can wrap:

- the accept counter;
- `countDown--`;
- the accumulators' `long` sum;
- a delayed task's trigger time.

`%` appears only with non-negative operands, and there it agrees with Dafny's. Truncating division is written out in `DelayedTasks.TruncDiv`.

## Model

| member | source | states |
|---|---|---|
| SelectorManagers.SelectorManager.constructor | src/main/java/com/io/nio/socket/selector/SelectorManager.java:24-27 | A manager keeps the port it was given and the shared static lists. |
| SelectorManagers.OpenPair | src/main/java/com/io/nio/socket/selector/SelectorManager.java:29-36 | One loop iteration opens a write selector, submits its reactor and appends it, then does the same for a read selector paired with that write selector. Earlier entries are kept, and the new read selector is fresh and not already in the list. A failing write-selector `open` changes nothing. A failing read-selector `open` leaves the new write selector appended and submitted. |
| SelectorManagers.Opened | src/main/java/com/io/nio/socket/selector/SelectorManager.java:28-36 | Of the `2 * Iterations(count)` calls to `Selector.open()`, the ones before the first throwing call succeed, and it is fewer than all of them exactly when a call throws. |
| SelectorManagers.OpenIteration | src/main/java/com/io/nio/socket/selector/SelectorManager.java:28-37 | An iteration after i finished ones either finishes iteration i + 1 or stops at the throwing `open`. Every earlier pairing, prefix and the distinctness of the read selectors is kept, and the selectors it appends are fresh. |
| SelectorManagers.NewSelectorManager | src/main/java/com/io/nio/socket/selector/SelectorManager.java:26-38 | `new SelectorManager(port, count)` fails exactly when one of its `Selector.open()` calls throws `IOException`. Either way the lists and the pool grow by the opens made before the throw. A failed read-selector open leaves the write list one entry longer than the read list, with that write reactor submitted. Each finished iteration k pairs its read reactor with write selector k. Earlier entries are untouched, every new selector is fresh, and the read selectors stay distinct. On success the manager has the given port. |
| SelectorManagers.Iterations | src/main/java/com/io/nio/socket/selector/SelectorManager.java:28 | The `for` loop runs `count` times for a positive count and never otherwise. |
| SelectorManagers.NextCounter | src/main/java/com/io/nio/socket/selector/SelectorManager.java:73-76 | `i++` followed by the reset: the counter moves on by one, wraps to 0 on reaching `MAX_VALUE - 1`, and so never overflows. |
| SelectorManagers.Chosen | src/main/java/com/io/nio/socket/selector/SelectorManager.java:65 | `i % readSelectors.size()` selects a valid index, and fails exactly when the list is empty. |
| SelectorManagers.ChosenIsPeriodic | src/main/java/com/io/nio/socket/selector/SelectorManager.java:65 | The chosen read selector repeats every `size` accepts. |
| SelectorManagers.NoReadyKeysChangesNothing | src/main/java/com/io/nio/socket/selector/SelectorManager.java:53-55 | `selectNow() == 0` leaves the keys and the counter alone and has no effect. |
| SelectorManagers.CounterStaysInRange | src/main/java/com/io/nio/socket/selector/SelectorManager.java:57-78 | After any pass over the selected keys the counter is in `[0, MAX_VALUE - 1)`. |
| SelectorManagers.AcceptKeysDispatches | src/main/java/com/io/nio/socket/selector/SelectorManager.java:60-76 | An acceptable key with a pending connection does the following, in order: registers the connection for `OP_READ` on read selector `i % N`, removes the key, wakes that selector, and advances the counter. |
| SelectorManagers.AcceptKeysSkips | src/main/java/com/io/nio/socket/selector/SelectorManager.java:58-60 | A key that is not acceptable is passed over and stays selected, with no effect and the counter unchanged. |
| SelectorManagers.DispatchTargets | src/main/java/com/io/nio/socket/selector/SelectorManager.java:65-72 | One accepted connection is registered on exactly one read selector. |
| SelectorManagers.TargetsAppend | src/main/java/com/io/nio/socket/selector/SelectorManager.java:57-78 | The read selectors targeted by consecutive parts of a pass concatenate. |
| SelectorManagers.TargetsShift | src/main/java/com/io/nio/socket/selector/SelectorManager.java:65 | Dealing from counter c is the selector for c followed by dealing from c + 1. |
| SelectorManagers.RoundRobin | src/main/java/com/io/nio/socket/selector/SelectorManager.java:57-78 | While the counter does not reach its reset, the j-th connection of a pass goes to read selector `(c + j) mod N`, and the counter ends at c plus the number of connections. |
| SelectorManagers.ShareIsBalanced | src/main/java/com/io/nio/socket/selector/SelectorManager.java:65 | Of m connections dealt round robin over N read selectors, selector r receives `m / N` of them, plus one when `r < m mod N`. |
| SelectorManagers.DealtShare | src/main/java/com/io/nio/socket/selector/SelectorManager.java:65-76 | Dealing round robin from counter c, over distinct read selectors, gives selector r as many of the next m connections as `Share` counts among c, ..., c + m - 1. |
| SelectorManagers.DealtIsBalanced | src/main/java/com/io/nio/socket/selector/SelectorManager.java:65 | Connections dealt from counter 0 over N distinct read selectors give selector r `M / N` of them, plus one when `r < M mod N`. |
| SelectorManagers.DispatchIsBalanced | src/main/java/com/io/nio/socket/selector/SelectorManager.java:57-78 | In one accept pass from `i = 0` over N distinct read selectors, read selector r receives `M / N` of the pass's M registrations, plus one when `r < M mod N`. Every read reactor gets the floor or the ceiling of M / N. |
| SelectorManagers.AcceptKeysRemovesOnlyAcceptable | src/main/java/com/io/nio/socket/selector/SelectorManager.java:58-70 | A pass never removes a key that is not acceptable, never invents a key, and leaves no acceptable key selected unless an exception ended it. |
| SelectorManagers.NoDivideByZeroWithReaders | src/main/java/com/io/nio/socket/selector/SelectorManager.java:65 | With at least one read selector the modulo never divides by zero. |
| SelectorManagers.AcceptKeys | src/main/java/com/io/nio/socket/selector/SelectorManager.java:57-78 | A pass over the selected keys never reports a failed `selectNow` and never leaves more keys selected than it was given. When no exception ends it, every key it takes out made exactly the four calls of one dispatch. |
| SelectorManagers.AcceptRound | src/main/java/com/io/nio/socket/selector/SelectorManager.java:51-78 | One iteration of the accept loop ends `startNIO` with the `selectNow` `IOException` exactly when `selectNow` throws. Without an exception, every key taken out made the four calls of one dispatch. |
| SelectorManagers.AcceptPass | src/main/java/com/io/nio/socket/selector/SelectorManager.java:57-78 | The iterator loop over the selected keys computes exactly the pass `AcceptKeys`: its effects, the keys left, the counter, and the exception that ends it. That is a null channel from `accept`, an `IOException` from `accept`, `configureBlocking` or `register`, or `% 0`, each raised in the order of the calls. |
| SelectorManagers.Acceptor.constructor | src/main/java/com/io/nio/socket/selector/SelectorManager.java:42-50 | The accept loop starts with `i = 0` on its own selector and the shared lists. |
| SelectorManagers.Acceptor.AcceptOnce | src/main/java/com/io/nio/socket/selector/SelectorManager.java:51-78 | One iteration of the accept loop sets the selected keys, the counter, the effects and the exception to those of `AcceptRound`. An `IOException` from `selectNow`, `accept`, `configureBlocking` or `register` ends `startNIO`, leaving the key and every later one selected. |
| SelectorManagers.PairedAtGrows | src/main/java/com/io/nio/socket/selector/SelectorManager.java:28-37 | Appending to the pool and the lists keeps the pairing of earlier iterations. |
| SelectorManagers.SelectorLists.constructor | src/main/java/com/io/nio/socket/selector/SelectorManager.java:20-22 | Both static lists start empty, so the read selectors are trivially distinct. |
| SelectorManagers.SocketPool.constructor | src/main/java/com/io/nio/socket/selector/SelectorManager.java:31 | The socket thread pool starts with no submitted reactor. |
| SelectorManagerBuilders.Build | src/main/java/com/io/nio/socket/selector/SelectorManagerBuilder.java:20-25 | `build` fails with `IllegalArgumentException` exactly when the count is 0, and then changes nothing. It fails with the constructor's `IOException` exactly when a `Selector.open()` throws. Otherwise it returns a manager on the given port whose lists grew by `Iterations(count)`. The read selectors stay distinct. |
| SelectorManagerBuilders.NegativeCountPassesGuard | src/main/java/com/io/nio/socket/selector/SelectorManagerBuilder.java:21-23 | A count of -1 passes the guard and opens no selector. With empty shared lists, the first accepted connection then divides by zero. |
| SelectorManagerBuilders.BuildPositive | src/main/java/com/io/nio/socket/selector/SelectorManagerBuilder.java:20-25 | The corrected guard fails exactly when the count is not positive, and an `open` failure is passed on as in `build`. On success at least one read selector exists, and the read selectors stay distinct. |
| SelectorManagerBuilders.BuildTestServer | src/main/java/com/io/nio/socket/TestNIO.java:17-18 | `build(8090, 4)` on empty static lists fails exactly when one of its eight `Selector.open()` calls throws. Otherwise the server holds four distinct read selectors, and an accept pass from the fresh counter gives each of them a quarter of its connections, rounded down or up. |
| SelectorManagerBuilders.PositiveCountNeverDividesByZero | src/main/java/com/io/nio/socket/selector/SelectorManager.java:65 | After a build that the corrected guard admits, no accept pass divides by zero. |
| SelectorManagerBuilders.GuardsDifferOnNegatives | src/main/java/com/io/nio/socket/selector/SelectorManagerBuilder.java:21 | The two guards agree on every count except the negative ones, which only the written guard admits. |
| ReadSelectors.Zeros | src/main/java/com/io/nio/socket/selector/ReadSelector.java:48 | `ByteBuffer.allocate(1024)` has 1024 zero bytes. |
| ReadSelectors.Successes | src/main/java/com/io/nio/socket/selector/ReadSelector.java:51 | The reads returning a positive count are exactly those before the first one that does not. |
| ReadSelectors.Drain | src/main/java/com/io/nio/socket/selector/ReadSelector.java:48-54 | The read loop fails only when some read throws. A successful drain holds whole 1024-byte arrays, one per positive read. |
| ReadSelectors.DrainLength | src/main/java/com/io/nio/socket/selector/ReadSelector.java:51-54 | The request holds 1024 bytes per successful read, whatever each read transferred. |
| ReadSelectors.DrainGot | src/main/java/com/io/nio/socket/selector/ReadSelector.java:51-54 | After a successful read, the request is the overwritten buffer followed by what the remaining reads drain from it. |
| ReadSelectors.DrainBlockStartsWithRead | src/main/java/com/io/nio/socket/selector/ReadSelector.java:51-54 | The k-th 1024-byte block of the request begins with the bytes of the k-th read. |
| ReadSelectors.StaleBytesAfterShortRead | src/main/java/com/io/nio/socket/selector/ReadSelector.java:51-54 | After a full read and a shorter one, the second block carries the tail of the first, because `clear()` neither zeroes nor truncates the array. |
| ReadSelectors.Prefixed | src/main/java/com/io/nio/socket/selector/ReadSelector.java:52 | Appending to the accumulated request keeps failure, and otherwise puts the prefix first. |
| ReadSelectors.PrefixedTwice | src/main/java/com/io/nio/socket/selector/ReadSelector.java:52 | Two appends are one append of the concatenation. |
| ReadSelectors.DrainChannel | src/main/java/com/io/nio/socket/selector/ReadSelector.java:48-54 | The drain loop over one array that each read overwrites from position 0 returns exactly `Drain`. A read that throws yields no request. |
| ReadSelectors.ReadKeysStep | src/main/java/com/io/nio/socket/selector/ReadSelector.java:43-63 | One key of a pass: a key that is not readable stays selected, a failing drain ends the pass with the rest of the batch selected, and a successful drain hands off, cancels and removes that key before the rest of the pass. |
| ReadSelectors.HandledInOrderCons | src/main/java/com/io/nio/socket/selector/ReadSelector.java:55-58 | Handling one more key in front keeps the effects in blocks of three: hand-off, cancel, remove. |
| ReadSelectors.ReadKeys | src/main/java/com/io/nio/socket/selector/ReadSelector.java:43-60 | A read pass only hands off, cancels and removes keys. It never writes to, registers or closes a channel. |
| ReadSelectors.ReadRound | src/main/java/com/io/nio/socket/selector/ReadSelector.java:34-63 | One iteration of the read loop does nothing when `select` returns 0 or throws. Otherwise it makes only hand-offs, cancellations and removals. |
| ReadSelectors.ReadPass | src/main/java/com/io/nio/socket/selector/ReadSelector.java:43-63 | The iterator loop over the selected keys computes exactly the pass `ReadKeys`: the keys left selected and the calls made, in order. |
| ReadSelectors.HandedOffAreReadable | src/main/java/com/io/nio/socket/selector/ReadSelector.java:43-59 | Every handed-off key is a readable key of the batch whose drain succeeded. |
| ReadSelectors.ReadKeysHandOffThenCancel | src/main/java/com/io/nio/socket/selector/ReadSelector.java:45-59 | Each handed-off key produces exactly three effects, in order: the hand-off of its drained request with its channel and the paired write selector, its cancellation, and its removal. |
| ReadSelectors.ReadKeysPartition | src/main/java/com/io/nio/socket/selector/ReadSelector.java:43-59 | The keys still selected and the keys handed off together make up the batch, as multisets. |
| ReadSelectors.NonReadableKeysStay | src/main/java/com/io/nio/socket/selector/ReadSelector.java:45 | A key that is not readable stays selected. |
| ReadSelectors.FailedDrainAbandonsBatch | src/main/java/com/io/nio/socket/selector/ReadSelector.java:51-63 | A drain that throws leaves its key and every later key selected. |
| ReadSelectors.ReadSelector.constructor | src/main/java/com/io/nio/socket/selector/ReadSelector.java:23-30 | The reactor keeps its own selector and the paired write selector. |
| ReadSelectors.ReadSelector.RunOnce | src/main/java/com/io/nio/socket/selector/ReadSelector.java:34-63 | One iteration of the read loop leaves the selected keys and returns the effects of `ReadRound`. When `select` returns 0 or throws, it does nothing. |
| WriteSelectors.Reply | src/main/java/com/io/nio/socket/selector/WriteSelector.java:43 | `String.valueOf(attachment)` is the attachment, or "null" when there is none. |
| WriteSelectors.IsStringEmpty | src/main/java/com/io/nio/socket/selector/WriteSelector.java:65-67 | Text with a character in it is not empty, so the "null" of a null attachment never counts as empty. |
| WriteSelectors.KeyEffects | src/main/java/com/io/nio/socket/selector/WriteSelector.java:40-59 | For one key, a write happens at most once and only as the first call. Every path ends with the `finally` block's cancel and close. |
| WriteSelectors.WriteKeys | src/main/java/com/io/nio/socket/selector/WriteSelector.java:39-61 | A write pass invents no key. An exception on one key does not stop the pass, so every key gets at least three calls. |
| WriteSelectors.WriteRound | src/main/java/com/io/nio/socket/selector/WriteSelector.java:28-61 | One iteration of the write loop invents no key. Unless `select` returns 0, the whole selected set is processed, even when `select` threw. |
| WriteSelectors.OnlyEmptyAttachmentIsEmpty | src/main/java/com/io/nio/socket/selector/WriteSelector.java:43-44 | `isStringEmpty` holds on the reply exactly when the attachment is the empty string. |
| WriteSelectors.WriteOnlyWhenGuardHolds | src/main/java/com/io/nio/socket/selector/WriteSelector.java:44-46 | A key is written only when it is valid and writable with a non-empty reply. The write is one call carrying the whole reply, and it comes first. |
| WriteSelectors.NullAttachmentIsWritten | src/main/java/com/io/nio/socket/selector/WriteSelector.java:43-46 | A valid, writable key with no attachment gets the text "null" written. |
| WriteSelectors.KeyEndsCancelledAndClosed | src/main/java/com/io/nio/socket/selector/WriteSelector.java:44-59 | Every key ends cancelled with its channel closed. It leaves the selected set exactly when no exception was thrown. |
| WriteSelectors.WriteKeysReachesEveryKey | src/main/java/com/io/nio/socket/selector/WriteSelector.java:39-61 | A pass cancels every key and closes its channel. |
| WriteSelectors.WriteKeysKeepsFailedKeys | src/main/java/com/io/nio/socket/selector/WriteSelector.java:39-61 | The keys left selected after a pass are exactly the batch's keys whose handling threw before `remove()`. |
| WriteSelectors.WritesAppend | src/main/java/com/io/nio/socket/selector/WriteSelector.java:39-61 | Write counts add up over consecutive effects. |
| WriteSelectors.NoWrites | src/main/java/com/io/nio/socket/selector/WriteSelector.java:48-58 | Effects with no write count no write. |
| WriteSelectors.OneWritePerGuardedKey | src/main/java/com/io/nio/socket/selector/WriteSelector.java:39-61 | A pass makes exactly one `write` call per key whose guard holds: no retry and no partial-write loop. |
| WriteSelectors.WriteKeysSnoc | src/main/java/com/io/nio/socket/selector/WriteSelector.java:39-61 | Handling one more key extends the pass's effects and remaining keys. |
| WriteSelectors.WriteKeysPrefix | src/main/java/com/io/nio/socket/selector/WriteSelector.java:39-61 | The pass over the first i + 1 keys extends the pass over the first i. |
| WriteSelectors.HandleKey | src/main/java/com/io/nio/socket/selector/WriteSelector.java:40-59 | The loop body for one key makes exactly the calls of `KeyEffects` and reaches `remove()` exactly when nothing was thrown. |
| WriteSelectors.WriteSelector.constructor | src/main/java/com/io/nio/socket/selector/WriteSelector.java:20-24 | The reactor keeps its selector. |
| WriteSelectors.WriteSelector.RunOnce | src/main/java/com/io/nio/socket/selector/WriteSelector.java:31-61 | One iteration of the write loop leaves the selected keys and returns the effects of `WriteRound`. A `select` returning 0 changes nothing. |
| SelectedService.Run | src/main/java/com/io/nio/socket/service/selected/SelectedServiceHandler.java:36-47 | The write selector is woken exactly when nothing was thrown, right after the channel is registered for `OP_WRITE` with the handler's reply attached. The handler sees the captured request exactly when the address was read. The task never closes or cancels. |
| SelectedService.DoGetReadsOnlyRequest | src/main/java/com/io/nio/socket/service/selected/SelectedServiceHandler.java:49-52 | `doGet` is the service handler applied to the request text captured at construction. Tasks with the same request get the same reply, whatever their write selector and channel. |
| Server.TaskOf | src/main/java/com/io/nio/socket/selector/ReadSelector.java:55 | A hand-off builds the worker task from its request, write selector and channel. |
| Server.WritableKey | src/main/java/com/io/nio/socket/service/selected/SelectedServiceHandler.java:40 | The key a registration creates carries its channel and attachment. |
| Server.ReplyReachesClient | src/main/java/com/io/nio/socket/selector/WriteSelector.java:39-61 | For the j-th connection a read pass hands off, the following hold. The hand-off goes to the paired write selector with the drained request. The worker registers that channel there with the handler's reply. When the key becomes writable, the reply is written to that same channel: "null" for a null reply, nothing for an empty one. The channel is always closed at the end. |
| SemaphorePool.Free | src/main/java/com/concurrent/f_concurrentClass/G_Semaphore.java:26-28 | The number of free slots is at most the pool size. |
| SemaphorePool.FirstFree | src/main/java/com/concurrent/f_concurrentClass/G_Semaphore.java:49-57 | `getItem` picks the lowest free slot, and finds none exactly when all are checked out. |
| SemaphorePool.IndexOf | src/main/java/com/concurrent/f_concurrentClass/G_Semaphore.java:59-69 | `items.indexOf(item)` is the first position holding the item, or -1 exactly when the item is absent. |
| SemaphorePool.Release | src/main/java/com/concurrent/f_concurrentClass/G_Semaphore.java:59-69 | `releaseItem` succeeds exactly for a checked-out slot of a known item. That slot ends free and no other slot changes. |
| SemaphorePool.FreeUpdate | src/main/java/com/concurrent/f_concurrentClass/G_Semaphore.java:49-69 | Flipping one flag changes the free count by exactly one, or not at all. |
| SemaphorePool.FreeIsPositive | src/main/java/com/concurrent/f_concurrentClass/G_Semaphore.java:71-82 | A permit is available exactly when `getItem` finds a free slot. |
| SemaphorePool.SecondReleaseChangesNothing | src/main/java/com/concurrent/f_concurrentClass/G_Semaphore.java:84-90 | Checking the same item in twice releases it once: the second call changes nothing and reports false. |
| SemaphorePool.ReleaseFreesOneSlot | src/main/java/com/concurrent/f_concurrentClass/G_Semaphore.java:59-69 | `releaseItem` succeeds exactly for a known, checked-out item, and then frees that one slot only. |
| SemaphorePool.AllFree | src/main/java/com/concurrent/f_concurrentClass/G_Semaphore.java:30-47 | A fresh pool has every slot free. |
| SemaphorePool.PermitsAtMostSize | src/main/java/com/concurrent/f_concurrentClass/G_Semaphore.java:24-91 | The permit count stays in `[0, size]`. |
| SemaphorePool.Pool.constructor | src/main/java/com/concurrent/f_concurrentClass/G_Semaphore.java:30-47 | A pool of `size` items starts with `size` permits and no item checked out. |
| SemaphorePool.Pool.GetItem | src/main/java/com/concurrent/f_concurrentClass/G_Semaphore.java:49-57 | The lowest free slot is marked checked out and its item returned. With no free slot, nothing changes. |
| SemaphorePool.Pool.ReleaseItem | src/main/java/com/concurrent/f_concurrentClass/G_Semaphore.java:59-69 | Exactly the `Release` of the item's first index: the flag is cleared when it was set, and the call reports whether it was. |
| SemaphorePool.Pool.CheckOut | src/main/java/com/concurrent/f_concurrentClass/G_Semaphore.java:71-82 | The call blocks exactly when no permit is left, and then nothing changes. Otherwise it takes one permit, marks the lowest free slot as checked out, changes no other slot, and returns that slot's item. |
| SemaphorePool.Pool.CheckIn | src/main/java/com/concurrent/f_concurrentClass/G_Semaphore.java:84-90 | A permit is returned exactly when `releaseItem` released a slot, so the permits always equal the free slots. |
| PrioritizedTasks.CompareTo | src/main/java/com/concurrent/f_concurrentClass/D_PriorityBlockingQueue.java:41-45 | Higher priority orders first: the result is -1, 0 or 1, negative exactly when this task's priority is greater. |
| PrioritizedTasks.CompareToIsAnOrder | src/main/java/com/concurrent/f_concurrentClass/D_PriorityBlockingQueue.java:41-45 | `compareTo` is antisymmetric, reflexive and transitive. |
| PrioritizedTasks.Summary | src/main/java/com/concurrent/f_concurrentClass/D_PriorityBlockingQueue.java:66-68 | `(id:priority)` reads back as the task's id and priority. |
| PrioritizedTasks.SummaryNamesTask | src/main/java/com/concurrent/f_concurrentClass/D_PriorityBlockingQueue.java:66-68 | Tasks with different ids have different summaries. |
| PrioritizedTasks.TaskRegistry.constructor | src/main/java/com/concurrent/f_concurrentClass/D_PriorityBlockingQueue.java:26-33 | The static counter starts at 0 and the static sequence empty. |
| PrioritizedTasks.TaskRegistry.New | src/main/java/com/concurrent/f_concurrentClass/D_PriorityBlockingQueue.java:26-38 | A new task takes the next id and is appended to the sequence. A sentinel has priority -1. |
| PrioritizedTasks.SentinelOrdersLast | src/main/java/com/concurrent/f_concurrentClass/D_PriorityBlockingQueue.java:74 | The sentinel's priority -1 orders it after every task of non-negative priority. |
| PrioritizedTasks.Produce | src/main/java/com/concurrent/f_concurrentClass/D_PriorityBlockingQueue.java:107-121 | The producer queues 20 tasks of random priority in `[0, 10)`, then 20 of priority 10, then the sentinel, which compares after all 40. |
| PrioritizedTasks.FifthStep | src/main/java/com/concurrent/f_concurrentClass/D_PriorityBlockingQueue.java:83-85 | Counting line breaks one task at a time gives `n / 5`. |
| PrioritizedTasks.Summaries | src/main/java/com/concurrent/f_concurrentClass/D_PriorityBlockingQueue.java:81-82 | One summary per task of the sequence, in order. |
| PrioritizedTasks.LinesStep | src/main/java/com/concurrent/f_concurrentClass/D_PriorityBlockingQueue.java:81-85 | Printing one more item adds that item's characters, plus a line break exactly when the count reaches a multiple of 5. |
| PrioritizedTasks.LinesKeepEveryText | src/main/java/com/concurrent/f_concurrentClass/D_PriorityBlockingQueue.java:81-85 | A character that occurs once in every item, and is not a line break, occurs once per item in the printed listing. |
| PrioritizedTasks.LinesBreakEveryFifth | src/main/java/com/concurrent/f_concurrentClass/D_PriorityBlockingQueue.java:81-85 | Items without line breaks print with `n / 5` line breaks in all. |
| PrioritizedTasks.SummaryCharacters | src/main/java/com/concurrent/f_concurrentClass/D_PriorityBlockingQueue.java:66-68 | Every summary holds one `(` and no line break. |
| PrioritizedTasks.ListingHasEverySummary | src/main/java/com/concurrent/f_concurrentClass/D_PriorityBlockingQueue.java:79-85 | The sentinel prints exactly one summary per task in the sequence. |
| PrioritizedTasks.ListingBreaksEveryFifth | src/main/java/com/concurrent/f_concurrentClass/D_PriorityBlockingQueue.java:79-85 | The listing has `n / 5` line breaks: one after every fifth summary. |
| PrioritizedTasks.SentinelRun | src/main/java/com/concurrent/f_concurrentClass/D_PriorityBlockingQueue.java:79-89 | The sentinel prints the listing followed by a line break, then shuts the executor down. |
| DelayedTasks.Trigger | src/main/java/com/concurrent/f_concurrentClass/C_DelayQueue.java:28-32 | The trigger time is `now + delta * 1e6` in `long` arithmetic, which is exact when no overflow occurs. |
| DelayedTasks.CompareTo | src/main/java/com/concurrent/f_concurrentClass/C_DelayQueue.java:35-38 | An earlier trigger orders first: the result is -1, 0 or 1 according to the trigger times. |
| DelayedTasks.CompareToIsAnOrder | src/main/java/com/concurrent/f_concurrentClass/C_DelayQueue.java:35-38 | `compareTo` is antisymmetric, reflexive and transitive. |
| DelayedTasks.UnitNanos | src/main/java/com/concurrent/f_concurrentClass/C_DelayQueue.java:49-51 | Every time unit is a positive number of nanoseconds, and only `NANOSECONDS` is one. |
| DelayedTasks.TruncDiv | src/main/java/com/concurrent/f_concurrentClass/C_DelayQueue.java:49-51 | Division rounds toward zero, as `TimeUnit.convert` does. |
| DelayedTasks.FromNanos | src/main/java/com/concurrent/f_concurrentClass/C_DelayQueue.java:49-51 | Converting to nanoseconds is the identity. |
| DelayedTasks.GetDelay | src/main/java/com/concurrent/f_concurrentClass/C_DelayQueue.java:49-51 | While `trigger - now` fits in a `long`, the delay is positive exactly when at least one whole unit remains before the trigger. |
| DelayedTasks.GetDelaySign | src/main/java/com/concurrent/f_concurrentClass/C_DelayQueue.java:49-51 | `getDelay` is positive exactly when at least one unit remains, and is never positive once the trigger has passed. In nanoseconds it is positive exactly before the trigger. |
| DelayedTasks.Summary | src/main/java/com/concurrent/f_concurrentClass/C_DelayQueue.java:62-64 | `(id:delta)` reads back as the task's id and delay. |
| DelayedTasks.TaskRegistry.constructor | src/main/java/com/concurrent/f_concurrentClass/C_DelayQueue.java:18-26 | The static counter starts at 0 and the static sequence empty. |
| DelayedTasks.TaskRegistry.New | src/main/java/com/concurrent/f_concurrentClass/C_DelayQueue.java:18-32 | A new task takes the next id, and its trigger is computed from the clock. It is appended to the sequence. |
| DelayedTasks.SentinelFallsDueLast | src/main/java/com/concurrent/f_concurrentClass/C_DelayQueue.java:118-121 | A task created earlier with delay below 5000 ms falls due before the sentinel created later with delay 5000. |
| DelayedTasks.Populate | src/main/java/com/concurrent/f_concurrentClass/C_DelayQueue.java:118-121 | `main` creates 20 tasks with random delays below 5000 and then the sentinel, which compares after all 20. |
| DelayedTasks.SummariesShape | src/main/java/com/concurrent/f_concurrentClass/C_DelayQueue.java:77-85 | The sentinel prints one summary per task and no line break between them. |
| DelayedTasks.SentinelRun | src/main/java/com/concurrent/f_concurrentClass/C_DelayQueue.java:77-85 | The sentinel prints every summary, then a line break, then shuts the executor down. |
| HorseRaces.Stars | src/main/java/com/concurrent/f_concurrentClass/B_CyclicBarrier.java:70-79 | Counts the leading `*` of a track line. |
| HorseRaces.TrackRoundTrip | src/main/java/com/concurrent/f_concurrentClass/B_CyclicBarrier.java:70-79 | A track line reads back as the horse's strides and id. |
| HorseRaces.StarsOfPrefix | src/main/java/com/concurrent/f_concurrentClass/B_CyclicBarrier.java:70-79 | Stars followed by a non-star count exactly those stars. |
| HorseRaces.Horse.constructor | src/main/java/com/concurrent/f_concurrentClass/B_CyclicBarrier.java:22-29 | A horse starts with no strides. |
| HorseRaces.Horse.Stride | src/main/java/com/concurrent/f_concurrentClass/B_CyclicBarrier.java:43 | A stride adds the draw in `[0, 3)`, so the strides never decrease and grow by at most 2. |
| HorseRaces.Horse.Tracks | src/main/java/com/concurrent/f_concurrentClass/B_CyclicBarrier.java:70-79 | The track line is `strides` stars followed by the id. |
| HorseRaces.FirstFinisher | src/main/java/com/concurrent/f_concurrentClass/B_CyclicBarrier.java:118-124 | The winner is the first horse, in list order, at or past the finish line. There is none exactly when no horse reached it. |
| HorseRaces.StridesOf | src/main/java/com/concurrent/f_concurrentClass/B_CyclicBarrier.java:33-35 | The horses' strides, read in list order. |
| HorseRaces.FirstFinisherIsFirst | src/main/java/com/concurrent/f_concurrentClass/B_CyclicBarrier.java:118-124 | If every horse before i is short of the line and horse i reached it, then i wins. |
| HorseRaces.HorseRace.constructor | src/main/java/com/concurrent/f_concurrentClass/B_CyclicBarrier.java:95-139 | `nHorses` fresh horses with consecutive ids from the static counter, all at zero strides. |
| HorseRaces.HorseRace.Header | src/main/java/com/concurrent/f_concurrentClass/B_CyclicBarrier.java:107-111 | The header is FINISH_LINE (75) `=` characters. |
| HorseRaces.HorseRace.TrackLines | src/main/java/com/concurrent/f_concurrentClass/B_CyclicBarrier.java:114-116 | One track line per horse, in list order: its strides as stars, then its id. |
| HorseRaces.HorseRace.Winner | src/main/java/com/concurrent/f_concurrentClass/B_CyclicBarrier.java:118-124 | The scan returns the first horse, in list order, at or past the finish line, or none. |
| HorseRaces.HorseRace.Round | src/main/java/com/concurrent/f_concurrentClass/B_CyclicBarrier.java:38-47 | Between two barrier trips, every horse moves forward by its draw. |
| HorseRaces.HorseRace.BarrierAction | src/main/java/com/concurrent/f_concurrentClass/B_CyclicBarrier.java:106-127 | The barrier action prints a header of 75 `=`, then one track line per horse, and names the first horse past the line. |
| ToastPipeline.Toast.constructor | src/main/java/com/concurrent/d_threadCooperation/D_BlockingQueue.java:24-29 | A new toast is dry. |
| ToastPipeline.Toast.Butter | src/main/java/com/concurrent/d_threadCooperation/D_BlockingQueue.java:30-32 | Buttering sets the status to buttered. |
| ToastPipeline.Toast.Jam | src/main/java/com/concurrent/d_threadCooperation/D_BlockingQueue.java:34-36 | Jamming sets the status to jammed. |
| ToastPipeline.Kitchen.constructor | src/main/java/com/concurrent/d_threadCooperation/D_BlockingQueue.java:164-173 | The three queues start empty, and both counters start at 0. |
| ToastPipeline.Kitchen.NoToastTwice | src/main/java/com/concurrent/d_threadCooperation/D_BlockingQueue.java:54-156 | No toast is in two places of the pipeline at once. |
| ToastPipeline.Kitchen.ToastOne | src/main/java/com/concurrent/d_threadCooperation/D_BlockingQueue.java:68-80 | The toaster appends a fresh dry toast with the next id. |
| ToastPipeline.Kitchen.ButterOne | src/main/java/com/concurrent/d_threadCooperation/D_BlockingQueue.java:93-106 | The butterer blocks exactly when the dry queue is empty. Otherwise it moves the head of the dry queue, buttered, to the end of the buttered queue. |
| ToastPipeline.Kitchen.JamOne | src/main/java/com/concurrent/d_threadCooperation/D_BlockingQueue.java:119-132 | The jammer blocks exactly when the buttered queue is empty. Otherwise it moves the head of the buttered queue, jammed, to the end of the finished queue. |
| ToastPipeline.Kitchen.EatOne | src/main/java/com/concurrent/d_threadCooperation/D_BlockingQueue.java:145-157 | The eater blocks exactly when the finished queue is empty. Its check always passes: the toast it takes has the next expected id and is jammed. |
| ToastPipeline.Kitchen.Run | src/main/java/com/concurrent/d_threadCooperation/D_BlockingQueue.java:164-176 | Under any interleaving of the four stages the eater's check never fails, and its counter counts the toasts eaten. |
| CarAssembly.Car.constructor | src/main/java/com/concurrent/g_emulation/A_Assignment.java:47-50 | A new chassis has its id and no parts. |
| CarAssembly.Car.Unnumbered | src/main/java/com/concurrent/g_emulation/A_Assignment.java:51-53 | The default car has id -1 and no parts. |
| CarAssembly.Car.AddEngine | src/main/java/com/concurrent/g_emulation/A_Assignment.java:59-61 | Adds the engine and leaves the other parts alone. |
| CarAssembly.Car.AddDriveTrain | src/main/java/com/concurrent/g_emulation/A_Assignment.java:62-64 | Adds the drive train and leaves the other parts alone. |
| CarAssembly.Car.AddWheels | src/main/java/com/concurrent/g_emulation/A_Assignment.java:65-67 | Adds the wheels and leaves the other parts alone. |
| CarAssembly.ChassisBuilder.constructor | src/main/java/com/concurrent/g_emulation/A_Assignment.java:121 | The id counter starts at 0. |
| CarAssembly.ChassisBuilder.IncrementCounter | src/main/java/com/concurrent/g_emulation/A_Assignment.java:140-142 | Returns the counter and then increments it. |
| CarAssembly.ChassisBuilder.BuildChassis | src/main/java/com/concurrent/g_emulation/A_Assignment.java:126-137 | n fresh chassis with consecutive ids and no parts. |
| CarAssembly.Assembler.constructor | src/main/java/com/concurrent/g_emulation/A_Assignment.java:145-160 | The assembler holds the car being assembled. |
| CarAssembly.Robot.constructor | src/main/java/com/concurrent/g_emulation/A_Assignment.java:205-223 | A robot belongs to its pool and starts unassigned and not engaged. |
| CarAssembly.Robot.PerformService | src/main/java/com/concurrent/g_emulation/A_Assignment.java:255-288 | Each kind of robot adds its own part to the assembler's car and leaves the other parts alone. |
| CarAssembly.Robot.PowerDown | src/main/java/com/concurrent/g_emulation/A_Assignment.java:241-248 | The robot disengages, drops its assembler and returns to its pool. |
| CarAssembly.RobotPool.constructor | src/main/java/com/concurrent/g_emulation/A_Assignment.java:82-84 | The pool starts empty. |
| CarAssembly.RobotPool.Add | src/main/java/com/concurrent/g_emulation/A_Assignment.java:86-89 | Adds the robot to the pool. |
| CarAssembly.RobotPool.Release | src/main/java/com/concurrent/g_emulation/A_Assignment.java:112-114 | Puts the robot back into the pool. |
| CarAssembly.RobotPool.Hire | src/main/java/com/concurrent/g_emulation/A_Assignment.java:95-110 | A robot of the requested kind is taken out of the pool, assigned to the assembler and engaged. None is found exactly when the pool holds no robot of that kind. |
| CarAssembly.AssembleCar | src/main/java/com/concurrent/g_emulation/A_Assignment.java:167-178 | Hiring the three robots, letting each serve and powering them down leaves the car with every part and the pool as it was. |
| CarAssembly.InstallParts | src/main/java/com/concurrent/g_emulation/A_Assignment.java:255-288 | While hired, the engine, drive-train and wheel robots together give the assembler's car all three parts. |
| CarAssembly.PowerDownAll | src/main/java/com/concurrent/g_emulation/A_Assignment.java:241-248 | Powering down the three robots puts all three back into their pool. |
| Accumulators.Step | src/main/java/com/concurrent/h_performanceOptimization/A_CompareConcurrentTech.java:127-213 | One `accumulate` of each kind keeps the index within that kind's range. A reset without an add leaves the value unchanged. |
| Accumulators.Steps | src/main/java/com/concurrent/h_performanceOptimization/A_CompareConcurrentTech.java:63-77 | Repeated `accumulate` keeps the index within range. |
| Accumulators.AddWrapped | src/main/java/com/concurrent/h_performanceOptimization/A_CompareConcurrentTech.java:146-188 | Wrapping an intermediate sum as a `long` before the next add gives the same `long` as wrapping once at the end. |
| Accumulators.LockedPrefix | src/main/java/com/concurrent/h_performanceOptimization/A_CompareConcurrentTech.java:146-188 | k synchronized or locked accumulates from index 0 add the first k preloaded values (wrapping as a `long`). |
| Accumulators.LockedFullCycle | src/main/java/com/concurrent/h_performanceOptimization/A_CompareConcurrentTech.java:146-188 | SIZE of those accumulates add every preloaded value once and bring the index back to 0. |
| Accumulators.LockedWrap | src/main/java/com/concurrent/h_performanceOptimization/A_CompareConcurrentTech.java:146-188 | The last call of a cycle adds the last element and wraps the index to 0. |
| Accumulators.AtomicPrefix | src/main/java/com/concurrent/h_performanceOptimization/A_CompareConcurrentTech.java:196-213 | k atomic accumulates from index 0 add the values at 1..k, because the index is incremented before it is read. |
| Accumulators.AtomicFullCycle | src/main/java/com/concurrent/h_performanceOptimization/A_CompareConcurrentTech.java:196-213 | SIZE atomic accumulates add every value except the first and bring the index back to 0. |
| Accumulators.BaseLinePrefix | src/main/java/com/concurrent/h_performanceOptimization/A_CompareConcurrentTech.java:127-143 | k baseline accumulates, k <= SIZE - N, add the first k values. |
| Accumulators.BaseLineFullCycle | src/main/java/com/concurrent/h_performanceOptimization/A_CompareConcurrentTech.java:127-143 | A baseline cycle is SIZE - N + 1 accumulates. It adds only the first SIZE - N values, then resets to 0 without adding. |
| Accumulators.Accumulator.constructor | src/main/java/com/concurrent/h_performanceOptimization/A_CompareConcurrentTech.java:41-58 | An accumulator starts at index 0 and value 0 over the preloaded array. |
| Accumulators.Accumulator.Accumulate | src/main/java/com/concurrent/h_performanceOptimization/A_CompareConcurrentTech.java:127-213 | One `accumulate` of the accumulator's kind takes the state to `Step` of it. |
| Accumulators.Accumulator.Read | src/main/java/com/concurrent/h_performanceOptimization/A_CompareConcurrentTech.java:141-160 | `read` returns the current value, a `long`. |
| Accumulators.Accumulator.Modify | src/main/java/com/concurrent/h_performanceOptimization/A_CompareConcurrentTech.java:63-77 | The modifier's loop of `cycles` accumulates (none when `cycles <= 0`) takes the state to `Steps` of it. |
| RunTasks.Status | src/main/java/com/concurrent/common/A_RunTask.java:19-21 | `#id(n),` reads back as the id and the count, or as `Liftoff!` when the count is not positive. |
| RunTasks.StatusReads | src/main/java/com/concurrent/common/A_RunTask.java:19-21 | A status line names the task's id and shows either the count or `Liftoff!`. |
| RunTasks.RunTask.Default | src/main/java/com/concurrent/common/A_RunTask.java:11-14 | The default task counts down from 10 and takes the next id. |
| RunTasks.RunTask.constructor | src/main/java/com/concurrent/common/A_RunTask.java:11-17 | The task counts down from the given value and takes the next id. |
| RunTasks.RunTask.Run | src/main/java/com/concurrent/common/A_RunTask.java:24-31 | From a count c > 0, `run` prints c statuses, showing c-1 down to 1 and then `Liftoff!`, and leaves the count at -1. A count that is not positive prints nothing and is decremented once, wrapping at `Integer.MIN_VALUE`. |
| RunTasks.CountdownEndsInLiftoff | src/main/java/com/concurrent/common/A_RunTask.java:24-31 | Every printed status names the task, the counts shown fall one at a time, and the last shows `Liftoff!`. |
| JavaLang.StaticCounter.PostIncrement | src/main/java/com/concurrent/common/A_RunTask.java:12-13 | `taskCount++` yields the old value and advances the counter by one. |
| JavaLang.WrapLong | src/main/java/com/concurrent/h_performanceOptimization/A_CompareConcurrentTech.java:43 | `long` wrap-around: the result is always a `long`. |
| JavaLang.WrapLongFits | src/main/java/com/concurrent/h_performanceOptimization/A_CompareConcurrentTech.java:43 | A sum that fits in a `long` is stored unchanged. |
| JavaLang.DecInt | src/main/java/com/concurrent/common/A_RunTask.java:26 | `int` decrement: one less, wrapping from `MIN_VALUE` to `MAX_VALUE`. |
| JavaLang.PairText | src/main/java/com/concurrent/f_concurrentClass/D_PriorityBlockingQueue.java:66-68 | The `(a:b)` text reads back as its two numbers. |
| JavaLang.IntText | src/main/java/com/concurrent/f_concurrentClass/D_PriorityBlockingQueue.java:67 | The decimal text of an `int`: digits, with a leading `-` exactly for a negative number. |
| JavaLang.IntTextRoundTrip | src/main/java/com/concurrent/f_concurrentClass/D_PriorityBlockingQueue.java:67 | Parsing the text of any `int` gives the number back. |
| JavaLang.IntTextInjective | src/main/java/com/concurrent/f_concurrentClass/D_PriorityBlockingQueue.java:67 | Distinct numbers have distinct texts. |
| JavaLang.PairTextCharacters | src/main/java/com/concurrent/f_concurrentClass/D_PriorityBlockingQueue.java:67 | `(a:b)` holds one `(` and no line break. |
| JavaLang.Repeat | src/main/java/com/concurrent/f_concurrentClass/B_CyclicBarrier.java:72-74 | The `for` loop of `append` gives n copies of the character, none when n is not positive. |

## Left out

- Threads, scheduling and blocking. The reactors' `while (true)` loops are modelled one iteration at a time. The worker and socket thread pools are modelled as the tasks submitted to them. Blocking calls (`take`, `put`, `acquire`, `wait`, barrier awaits) are modelled as an explicit `blocked` result or a precondition. Liveness, `wakeup` timing and `select` timeouts are not modelled.
- `startNIO`'s setup is not modelled: opening the accept selector and the server channel, binding the port, and registering for `OP_ACCEPT`. Nothing in the loop depends on it beyond the selector.
- `configureBlocking(false)` on accepted connections is not recorded as an effect, because it does not change the control flow of any reactor. Only the `IOException` it can throw is modelled.
- Charset conversion is not modelled. Request and reply text are byte sequences, and `new String(bytes)` and `getBytes()` are taken to be inverse to each other.
- `SimpleServiceImpl.handler` is not part of this model. It is a function parameter of the worker task.
- The operating system's readiness, the bytes each `read` returns, and which `write` calls throw are inputs of each round.
- Console output is not modelled: `printStackTrace`, `System.out` lines, and the `toString` methods of tasks, cars, horses, toasts and robots. Where the printed text is the point (summaries, statuses, tracks, the race header), it is modelled as returned strings.
- `Thread.sleep`, `TimeUnit.sleep` and `pause` are not modelled, and neither are the time measurements and the `report` ratios of the accumulator comparison, which are floating point.
- Randomness (`Random.nextInt`) and the clock (`System.nanoTime`) are parameters.
- ReadSelectors.ReadSelector.RunOnce, WriteSelectors.WriteSelector.RunOnce, SelectorManagers.Acceptor.AcceptOnce: the keys the iterator removes are taken out of the selected-key set in one assignment at the end of the pass, not one by one. Nothing reads the set during the pass.
- A cancelled key's deferred deregistration (the cancelled-key set) is not modelled: a cancellation is recorded as an effect.
- WriteSelectors.WriteSelector.RunOnce, WriteSelectors.WriteKeys: a key kept after a failed write keeps `valid == true` in the model. In Java the `finally` block's `cancel` makes `isValid()` false, and the next `select` deregisters the key. So only in the model would a later pass over the same selected set write that key again.
- PrioritizedTasks.TaskRegistry.New, DelayedTasks.TaskRegistry.New, RunTasks.RunTask.constructor, RunTasks.RunTask.Default, CarAssembly.ChassisBuilder.IncrementCounter, HorseRaces.HorseRace.constructor: the static id counters are unbounded. Their wrap after 2^31 objects is not modelled.
- SemaphorePool.Pool.constructor: the pool's items are given rather than created by reflection, so `newInstance` failures are not modelled. The size is a natural number, so the negative-size exception is not modelled.
- SemaphorePool.Pool.CheckOut: the semaphore's fairness and interruption are not modelled. An unavailable permit is reported as `blocked`.
- SemaphorePool.Pool: item identity is Dafny equality, standing in for `equals` as `indexOf` uses it.
- HorseRaces.HorseRace.constructor: requires at least one horse, because `CyclicBarrier` rejects a party count below 1. The horses' threads and the final `shutdownNow` are not modelled.
- CarAssembly.RobotPool.Hire: when no robot of the requested kind is in the pool, the source waits and retries. This is modelled as returning `None` with the pool unchanged.
- CarAssembly.Robot.PerformService: requires an assigned assembler. The source would throw a `NullPointerException` without one, and the assembly flow never calls it that way.
- The assembler's and robots' `run` loops, the barrier that joins them, the reporter and the car queues are not modelled. `CarAssembly.AssembleCar` is one assembly in sequence.
- Accumulators: the concurrent races between modifier threads (lost updates, `BaseLine`'s unsynchronized index) are not modelled. Each accumulator is modelled under one thread at a time. The `AtomicLine` subclass's own fields shadowing the base class's `index` and `value` only affect the printed report, so the shadowing is not modelled.
- The reader threads of the accumulator comparison and the `cycles` doubling of `main` are not modelled.
- The consumers that take tasks from `PriorityBlockingQueue` and `DelayQueue`, and the queues' own ordering, are not modelled. The tasks' `compareTo` and `getDelay`, which the queues rely on, are.
- ToastPipeline: the interrupt-driven shutdown, the random `TimeUnit` sleeps of the toaster and the eater's `System.exit(1)` on a failed check are not modelled. That check is proved never to fail.

## Findings

| source | as written | input that shows it | evidently intended | confidence | as-written member | corrected member |
|---|---|---|---|---|---|---|
| src/main/java/com/io/nio/socket/selector/SelectorManagerBuilder.java:21-23 | `build` rejects only a count of 0. A negative count passes the guard, and the constructor's loop then opens no selector. | `build(port, -1)` as the first manager: the shared read-selector list stays empty, and the first accepted connection evaluates `i % 0` at SelectorManager.java:65 and throws `ArithmeticException`. | Reject every count that is not positive, so at least one read selector exists. | not executed | SelectorManagerBuilders.NegativeCountPassesGuard | SelectorManagerBuilders.BuildPositive |
