# A verified model of telemetrix-db

telemetrix-db takes live vehicle positions from a feed, pushes them one record at a time
through a bounded blocking buffer, and stores what comes out in an in-memory spatial arena.
This project models that path in Dafny and proves what it promises, for any number of
threads, any interleaving, and any input.

There are three layers, and each is tied to a simple specification.

**The blocking buffer** (`src/ingestion/buffer.c`). The specification is a bounded
first-in first-out queue that can be shut down, and its legal logs (`BoundedQueue`). The
circular array is a value with its index arithmetic (`Rings.Ring`) and, updated in place with
32-bit fields, a class (`Rings.RingBuffer`); every arithmetic step of the class stays inside
32 bits, because its fields have a bounded integer type. `BlockingPush` and `BlockingPop` keep
the source's wait loops: between any two moments at which the thread holds the mutex, the other
threads run a *turn* of critical sections of any length, and a call may sleep for good when
nobody is left to wake it. `Monitor` is the same buffer as a step system: any number of
threads, each at its own point of a call, one mutex, two condition variables. Wait and signal
follow POSIX.1-2017, System Interfaces, `pthread_cond_wait` and `pthread_cond_signal`: waiting
releases the mutex and sleeps in one step, a signal wakes at least one sleeper or is lost,
sleepers may wake for no reason, and others may take the mutex first. `MonitorSafety` proves
linearizability, the wakeup accounting, deadlock freedom and shutdown; `Workload` gives every
thread a script, as the throughput benchmark does, and proves termination and completion.

**The spatial arena** (`src/storage/storage.cpp`, `include/arena.h`). The specification is the
replay of a log of samples, bucket by bucket, and what a bucket then shows (`Arena`). `Storage`
is the class updated in place, with its spin loop; `Spinlock` is the step system in which any
number of writers interleave field access by field access. H3's `latLngToCell` is a parameter:
any function from coordinates to an optional 64-bit cell id. Only the theorems that name it
assume that ids are not 0, or that they have H3's published cell index layout.

**The composition** (`src/ingestion/parser.c`, `src/main.cpp`). `Parser` and `Engine` are the
loops as methods over the two classes, with the string copies of `CStrings`. `Pipeline` puts
the ingestion thread, the consumer and any number of threads that shut the buffer down on top
of the step system of the buffer. A fetch brings an arbitrary decoded message or nothing.

Steps are sequentially consistent, as the mutex and the acquire/release pair of the spinlock
justify. `{:induction false}` stands on every lemma: inductions are written out.

## What the model settles

- **The spread of cells over buckets fails.** The repository's README.md:51-66 describes routing by bitmask
  over 131,072 buckets. In H3's cell index layout the digits finer than a cell's resolution are
  all 7, so at resolution 9 (src/storage/storage.cpp:14) the low 18 bits of every id are set and
  the 17-bit mask sends every cell to bucket 131071: `Arena.Resolution9Collapse`, and from end to
  end `Pipeline.EndToEndCollapse`. `Arena.NeighboursCollide` is a concrete pair of cells. The
  threshold is exact: the cells of a resolution share one bucket if and only if the resolution is
  at most 9, and spread from 10 on: `Arena.CollapseThreshold`.
- **Aliased cells do not mix.** The repository's README.md:149-152 says they may until collision handling is
  added; the code already resets the window (src/storage/storage.cpp:42-44), and
  `Arena.ArenaShowsLastCell` proves that a bucket holds samples of one cell only. It needs
  non-zero ids (`Arena.ZeroIdWouldMix`); for arbitrary ids `Arena.VisitIsOneCellIff` says exactly
  when cells mix: if the stretch since the last reset leads from id 0 to another id.
- **buffer_init lacks a capacity check.** Deadlock freedom needs a capacity of at least 1:
  `MonitorSafety.ZeroCapacityDeadlocks`. Safety is proved for capacity 0 as well.
- **Balance alone does not guarantee completion.** A balanced workload always completes when each
  thread only pushes or only pops, as in the benchmark. More generally it does when no thread
  pushes after a pop, and either none pops after a push or all the pushes fit into the buffer at
  once: `Workload.BalancedWorkloadCompletes`. This is sufficient, not necessary. Without any such
  order a balanced workload can stop asleep: `Workload.MixedRolesCanStop`.
- **The mark for a missing percentage is one value short of exact**, because the feed's field is
  unsigned and the record's is signed: `Parser.MissingPercentage`.

## Model

| member | source | states |
|---|---|---|
| BoundedQueue.LegalIsFifo | src/ingestion/buffer.c:52-54 | In every legal log the accepted records are the delivered ones followed by the queued ones, and their difference never exceeds the capacity. |
| BoundedQueue.KthPopIsKthPush | src/ingestion/buffer.c:75-77 | The k-th successful pop returns the k-th successfully pushed record. |
| BoundedQueue.ShutdownRefusesPushes | src/ingestion/buffer.c:47-50 | After the flag is set every push answers false, room or not, and the accepted records no longer change. |
| BoundedQueue.ShutdownDrains | src/ingestion/buffer.c:70-77 | After the flag is set the pops take the queued records in order, as many as there are pops or records, and the rest stay queued. |
| BoundedQueue.PopAfterShutdown | src/ingestion/buffer.c:70-73 | After shutdown a pop fails if and only if the pops since then have taken everything queued at that moment. |
| Rings.PushStores | src/ingestion/buffer.c:52-54 | Storing at head and advancing it appends to the records read from the tail, wrap-around included, and keeps head = (tail + count) mod capacity. |
| Rings.PopTakes | src/ingestion/buffer.c:75-77 | Taking at tail and advancing it removes the oldest record and no other. |
| Rings.RingIsQueue | src/ingestion/buffer.c:39-102 | Each critical section on the array waits exactly when the queue operation must, has its effect and gives its answer. |
| Rings.RingBuffer.constructor | src/ingestion/buffer.c:5-26 | A new buffer is the empty open queue, for every capacity from 0 that an int can hold and whatever the allocated memory held. |
| Rings.RingBuffer.CompletePush | src/ingestion/buffer.c:47-59 | After the wait loop: refuse if shut down, else store, advance and count, within 32 bits; the answer is the queue's. |
| Rings.RingBuffer.CompletePop | src/ingestion/buffer.c:70-82 | After the wait loop: fail if shut down and empty, else take, advance and count down, within 32 bits; the answer is the queue's. |
| Rings.RingBuffer.SignalShutdown | src/ingestion/buffer.c:85-94 | Sets the flag and changes nothing else. |
| Rings.RingBuffer.QueryShutdown | src/ingestion/buffer.c:96-102 | Answers the flag and changes nothing. |
| Rings.RingBuffer.BlockingPush | src/ingestion/buffer.c:39-60 | The call takes effect the first time the mutex is held and there is room or a shutdown, with the queue's answer; it stays asleep exactly when no such moment comes. |
| Rings.RingBuffer.BlockingPop | src/ingestion/buffer.c:62-83 | The same for pop: the first time the mutex is held and there is a record or a shutdown. |
| Rings.SettledCall | src/ingestion/buffer.c:39-83 | A call that took effect is the thread's one new event, whatever others did meanwhile; a refused push or an empty-handed pop means the buffer is shut down; no effect means it is still blocked. |
| Monitor.LocksKept | src/ingestion/buffer.c:39-102 | Every step keeps mutual exclusion and sensible program counters. |
| Monitor.LinearizedKept | src/ingestion/buffer.c:39-102 | Every step keeps the log a legal history of the queue in the array, and of what each thread was told. |
| Monitor.NotifyRouses | src/ingestion/buffer.c:56 | A signal or broadcast loses no woken thread, and a pending signal with a sleeper present makes one more. |
| Monitor.NoLostWakeupKept | src/ingestion/buffer.c:43-56 | Every step keeps the wakeup accounting, for either condition variable. |
| Monitor.NoSleepAfterShutdownKept | src/ingestion/buffer.c:85-94 | Every step keeps: with the flag set, a sleeper is one that the pending broadcast will wake. |
| Monitor.RunInv | src/ingestion/buffer.c:5-102 | All of the above hold in every state of every run, for any number of threads, with barging and spurious wakeups. |
| Monitor.EnvironmentIsFree | src/ingestion/buffer.c:43-56 | The step system leaves out no behaviour of callers and scheduler: any idle thread may call anything, any sleeper may wake spuriously, anyone wanting the free mutex may take it, and a signal may wake any sleepers of its condition. |
| Monitor.RunsBegin | src/ingestion/buffer.c:5-26 | Runs begin with any number of threads and whatever the allocated memory holds. |
| MonitorSafety.MutualExclusion | src/ingestion/buffer.c:39-102 | Two threads inside the critical section are the same thread. |
| MonitorSafety.Linearizability | src/ingestion/buffer.c:39-102 | In every reachable state the log is a legal queue history ending in the array's contents, and restricted to a thread it is what that thread's calls returned, plus at most one not yet returned. |
| MonitorSafety.FifoWithBackpressure | src/ingestion/buffer.c:43-54 | In every reachable state accepted records = delivered records followed by the ring read from tail, and 0 <= their difference = count <= capacity. |
| MonitorSafety.RealTimeOrder | src/ingestion/buffer.c:39-83 | A call that returned before another began comes before it in the log: that very call's event, the one preceded by just the events of its thread's earlier calls, is there before the other call decides. |
| MonitorSafety.WakeupsAreNotLost | src/ingestion/buffer.c:43-56 | While a thread sleeps on a condition, the records (or the room) available are at most the threads woken on it and undecided, plus one if the mutex holder is about to signal it. |
| MonitorSafety.StandsStillOnlyAsleep | src/ingestion/buffer.c:39-102 | Some step other than a new call or a spurious wakeup is possible if and only if some thread is neither outside nor asleep. |
| MonitorSafety.DeadlockFreedom | src/ingestion/buffer.c:39-83 | With capacity at least 1, when nothing can move all calls in progress are pops on an empty open buffer or all are pushes on a full open one; with a push and a pop in progress something can move. |
| MonitorSafety.ZeroCapacityDeadlocks | src/ingestion/buffer.c:5-26 | With capacity 0 a push and a pop can both be in progress with nothing left to move. |
| MonitorSafety.ShutdownReleases | src/ingestion/buffer.c:85-94 | Once the broadcasts of a shutdown are out nobody is asleep, then or ever after. |
| MonitorSafety.ShutdownTakesHold | src/ingestion/buffer.c:85-94 | From the moment a thread in buffer_signal_shutdown releases the mutex the flag is set and nobody is asleep. |
| MonitorSafety.ShutdownDrainsRun | src/ingestion/buffer.c:47-77 | From a shutdown on, in every run: no push is accepted, the array's records go out in order to the pops, and a pop fails if and only if count many pops came before it. |
| MonitorSafety.ShutdownCompletes | src/ingestion/buffer.c:39-94 | With the flag set and nobody asleep, every step that is not a new call lowers the sum of steps left over all calls in progress. |
| MonitorSafety.ShutdownTerminates | src/ingestion/buffer.c:39-94 | After shutdown, without new calls, at most six steps per thread are left, and when no step is left every call has returned. |
| Workload.MeasureDrops | src/ingestion/buffer.c:39-94 | Without spurious wakeups every step of scripted threads lowers one natural number, whichever and however many sleepers a signal wakes. |
| Workload.ScriptedRunsTerminate | tests/benchmark_buffer.cpp:12-25 | n threads making m calls take at most (4n + 7)m steps, for every mix of calls and every interleaving. |
| Workload.OutstandingKept | src/ingestion/buffer.c:39-83 | A scripted call of either kind stays outstanding until it takes effect, and takes effect once. |
| Workload.BalancedWorkloadCompletes | tests/benchmark_buffer.cpp:20-57 | With as many pops as pushes scripted, no push after a pop, no pop after a push unless all pushes fit at once, and capacity at least 1, a run that has stopped has returned every call, successfully and in script order, and left the buffer empty. |
| Workload.OneRoleIsOrderly | tests/benchmark_buffer.cpp:20-57 | Threads that only push or only pop, as in the benchmark, meet that condition for every capacity. |
| Workload.MixedRolesCanStop | src/ingestion/buffer.c:66-68 | With one thread that pops before it pushes, a balanced workload stops asleep. |
| Bits.BitAndDigits | src/storage/storage.cpp:37 | The conjunction used for routing is bit by bit. |
| Arena.RouteIsModulo | src/storage/storage.cpp:37 | For every 64-bit id the mask is reduction modulo 131072, the number of buckets. |
| Arena.BucketsAreIndependent | src/storage/storage.cpp:37-50 | Each bucket is the replay of the samples routed to it. |
| Arena.RoutedSelects | src/storage/storage.cpp:37-38 | Those samples are the ones whose id is the bucket's index modulo 131072, all of them and no others, in order. |
| Arena.UntouchedIsClear | include/arena.h:9-21 | A bucket to which nothing was routed has id 0, head 0 and 60 zero slots. |
| Arena.OnlyPerBucketOrderMatters | src/storage/storage.cpp:37-50 | Two logs with the same samples in the same order for every bucket give the same arena. |
| Arena.ShowsDetermines | include/arena.h:9-21 | What a bucket is said to show leaves no freedom: two buckets that show the same visit are equal. |
| Arena.BucketShowsLastVisit | src/storage/storage.cpp:42-50 | For arbitrary ids, a bucket holds the last 60 samples since the last reset, sample i in slot i mod 60 with its timestamp mod 2^32, untouched slots zero, head = length mod 60, and the last id. |
| Arena.LastVisitExists | src/storage/storage.cpp:42-44 | Every non-empty log has exactly one stretch since the last reset. |
| Arena.VisitIsOneCell | src/storage/storage.cpp:42-50 | With non-zero ids that stretch is exactly the longest tail of samples of one cell, and the bucket shows it. |
| Arena.VisitIsOneCellIff | src/storage/storage.cpp:42-44 | For arbitrary ids, the stretch since the last reset is the longest tail of one cell if and only if its first id is not 0 or its last id is. |
| Arena.ArenaShowsLastCell | src/storage/storage.cpp:37-50 | With non-zero ids each bucket of the arena is in its initial state if no sample was routed to it, and otherwise shows the longest tail of one cell among those that were. |
| Arena.ZeroIdWouldMix | src/storage/storage.cpp:42 | Without non-zero ids a window can hold samples of two cells. |
| Arena.CoarseCellsCollide | src/storage/storage.cpp:14-37 | Every id of resolution 9 or coarser in H3's published layout has its low 18 bits set and is routed to bucket 131071. |
| Arena.Resolution9Collapse | src/storage/storage.cpp:14-50 | After any log of resolution-9 ids every other bucket is in its initial state, and bucket 131071 shows the longest tail of one cell among all the updates together. |
| Arena.CollapseThreshold | src/storage/storage.cpp:14-37 | For each H3 resolution: all cell ids share one bucket if and only if the resolution is at most 9. |
| Arena.FinerCellsSpread | src/storage/storage.cpp:37 | For each resolution from 10 to 15 two well-formed cell ids go to different buckets. |
| Arena.NeighboursCollide | src/storage/storage.cpp:37-50 | After updates of two given cells of resolution 9, the last bucket shows the second sample only and no bucket has the first. |
| Storage.SpatialArena.constructor | src/storage/storage.cpp:17-21 | A new arena is the replay of the empty log with all locks clear. |
| Storage.SpatialArena.WriteSample | src/storage/storage.cpp:42-50 | The field-by-field writes amount to the sequential write of one sample, and touch no other bucket. |
| Storage.SpatialArena.Spin | src/storage/storage.cpp:40 | The loop ends with the lock at the first attempt that finds it clear, and without it exactly when every attempt found it set. |
| Storage.SpatialArena.Update | src/storage/storage.cpp:28-54 | A failed conversion changes nothing and answers false; otherwise the sample is written when the lock is first found clear, and the buckets are again the replay of all samples written. |
| Storage.LandedIsNewest | src/storage/storage.cpp:46-50 | An update that got the lock loses no earlier sample of the log and is the newest sample of its bucket, under its own cell. |
| Spinlock.AccessProgresses | src/storage/storage.cpp:42-52 | Each field access takes the lock holder one step along the sequential update, and the release completes it. |
| Spinlock.ExclusiveKept | src/storage/storage.cpp:40-52 | Every step of every writer keeps: a lock is set exactly while one writer is inside. |
| Spinlock.InvKept | src/storage/storage.cpp:28-54 | Every step keeps: free buckets are the replay of their samples, held ones that replay plus part of the holder's write. |
| Spinlock.SpinlockRefinesReplay | src/storage/storage.cpp:40-52 | In every run at most one writer is inside a bucket's lock, the lock is set if and only if one is, and a bucket whose lock is clear is the sequential replay of its samples in lock order. |
| Spinlock.HeadStaysCurrent | src/storage/storage.cpp:47-50 | The head a writer has read is the bucket's head until that writer advances it. |
| Spinlock.QuietArenaIsReplay | src/storage/storage.cpp:28-54 | With no writer inside, the whole arena is the sequential replay of the log, and the log holds each writer's updates begun, in order, but for those still spinning. |
| Spinlock.LogIsUpdates | src/storage/storage.cpp:28-54 | In every run the log holds, writer by writer, exactly the samples of the updates begun, in order and each once, but for one whose writer is still spinning. |
| Spinlock.UpdateIsLogged | src/storage/storage.cpp:40-52 | An update that is no longer spinning is in the log with its own sample, after everything logged before it began. |
| Spinlock.ReleaseShowsUpdate | src/storage/storage.cpp:46-52 | When an update is about to clear its lock, bucket id mod 131072 has its id and, in the slot before the head, the speed it was begun with and its timestamp mod 2^32. |
| Spinlock.UpdatesAdvance | src/storage/storage.cpp:40-52 | In every reachable state an idle writer may begin any update and any other has a next step, which brings it closer to its end unless another writer holds the lock; the last step clears the lock. |
| CStrings.StrNCpy | src/ingestion/parser.c:24 | strncpy: at most n characters, NUL up to n, nothing beyond. |
| CStrings.CopyField | src/ingestion/parser.c:24-25 | Copy and terminate determine every character of the array, whatever it held: the first size - 1 of the source, then NUL to the end. |
| CStrings.FieldRoundTrip | src/ingestion/parser.c:23-33 | Read back, a field is its source cut to size - 1 characters. |
| CStrings.EqualFields | src/ingestion/parser.c:23-33 | Two sources leave equal fields if and only if they agree on their first size - 1 characters. |
| CStrings.CompareField | src/main.cpp:143 | Comparing a field with a literal that fits succeeds if and only if the uncut source is the literal. |
| Parser.SentinelIsExact | src/ingestion/parser.c:27-29 | The consumer's test succeeds if and only if the chosen id is UNKNOWN, literal or for want of one; cutting an id short never causes a skip. |
| Parser.SentinelIsEightCharacters | src/main.cpp:143 | On any record the consumer's test succeeds if and only if the id field starts with the seven characters UNKNOWN and a NUL. |
| Parser.RecordsSelect | src/ingestion/parser.c:17-20 | The records of a message are those of its entities that have a vehicle with a position, all of them and no others, in order. |
| Parser.RecordReadsBack | src/ingestion/parser.c:23-69 | The four text fields of a record read back as the chosen sources, cut to what fits. |
| Parser.MissingPercentage | src/ingestion/parser.c:45-47 | The percentage is -1 if and only if it is missing or the largest unsigned value. |
| Parser.BuildRecord | src/ingestion/parser.c:21-69 | The local, uninitialised at first, ends up with every field determined by the entity: coordinates, speed, bearing, timestamp, statuses and percentage from their own fields or the written-out defaults, and the four texts from the chosen sources (label, else entity id; descriptor id; route; stop; else UNKNOWN), cut to what fits. |
| Parser.ParseAndQueue | src/ingestion/parser.c:8-80 | This thread's pushes are the records of the qualifying entities in order, up to the first refusal, which only a shutdown causes; the count is the number accepted, and when it finishes the number of entities that have a vehicle with a position; it sleeps on only at a full open buffer. |
| Engine.SentIsPrefix | src/main.cpp:100-114 | Shares that are complete but for the last make up a prefix of all records, as long as their sum. |
| Engine.RecordInStream | src/main.cpp:100-114 | Every record of every decoded feed has its place in the flattened records, after all those of the feeds before. |
| Engine.StreamLength | src/main.cpp:100-114 | And there are no others. |
| Engine.Conservation | src/main.cpp:139-149 | Records popped = skipped + rejected + stored, where the skipped are exactly those with the sentinel id and the rejected exactly the others without a cell. |
| Engine.KeptSelects | src/main.cpp:142-149 | The samples stored are the cell, speed and timestamp of the records that are not the sentinel and have a cell, all of them and no others, in order. |
| Engine.IngestionThread | src/main.cpp:93-116 | The records this thread got accepted are the feeds' records in order, share by share; it ends with all shares complete, or at a shutdown, or asleep on a full buffer; if the buffer is shut down already it parses nothing. |
| Engine.Handle | src/main.cpp:142-149 | A popped record that is not the sentinel and has a cell adds that cell with its speed and timestamp to the arena and is counted; any other changes nothing. |
| Engine.ConsumerLoop | src/main.cpp:136-149 | The arena is the replay of the samples of the records this thread popped, in order; the counter is their number, modulo 2^64; it pops a record in every iteration unless the buffer is shut down and empty, or open and empty for good. |
| Pipeline.InvKept | src/main.cpp:93-149 | Every step of the whole program keeps the buffer's invariant, the loops in step with their calls, what was sent in terms of the feeds, and what was stored in terms of what was delivered. |
| Pipeline.PrefixDelivery | src/main.cpp:100-114 | In every reachable state the accepted records are a prefix of the feeds' records, flattened; the reported counts are the feeds' shares, without a shutdown each the number of entities with a vehicle and a position, and between parses everything is in. |
| Pipeline.EndToEnd | src/main.cpp:93-149 | In every reachable state the arena and the counter are those of the first records of the feeds, as many as the consumer has dealt with. |
| Pipeline.DealWritesRecord | src/main.cpp:142-149 | In every run the consumer deals with the oldest record delivered and not yet dealt with: if it is not the sentinel and has a cell, its speed and timestamp mod 2^32 go into the slot before the head of bucket id mod 131072 and it is counted; nothing else changes. |
| Pipeline.EndToEndWindow | src/main.cpp:93-149 | With non-zero ids, in every reachable state each bucket is in its initial state or shows the longest tail of one cell among the samples routed to it. |
| Pipeline.ScheduleIndependence | src/main.cpp:93-149 | Two runs over the same feeds, with any interleaving, thread count, capacity and shutdown, have equal arenas and counters when the consumer has dealt with equally many records. |
| Pipeline.NothingAcceptedIsLost | src/main.cpp:139-149 | When the buffer is empty and the consumer is about to pop, the arena is the replay of everything ever accepted. |
| Pipeline.EndToEndCollapse | src/main.cpp:93-149 | If the conversion yields ids of resolution 9, then in every reachable state all buckets but the last are in their initial state and the last shows the longest tail of one cell among the samples so far. |
| Pipeline.NeverBothAsleep | src/main.cpp:93-149 | With capacity at least 1 the ingestion thread and the consumer are not both asleep in any reachable state. |
| Pipeline.AlwaysProgress | src/main.cpp:93-149 | With capacity at least 1 the program can take a step of its own in every reachable state, without spurious wakeups or new calls of other threads. |
| Pipeline.RunsOfAnyLength | src/main.cpp:93-149 | The program has runs of every length, for every capacity from 1, every number of threads from 2 and all feeds. |
| Pipeline.AnyoneMayShutDown | src/ingestion/buffer.c:85-94 | Any idle thread outside the two loops may shut the buffer down at any point of any run. |
| Pipeline.ShutdownEndsIngestion | src/main.cpp:100-114 | Once the flag is set, ingestion parses at most the feed at hand and does not get past the loop test after it. |
| Pipeline.ConservationAtLoop | src/main.cpp:139-149 | At each turn of the consumer's loop: pops = skipped (the sentinel records) + rejected (those without a cell) + stored, the counter is the number stored modulo 2^64, and accepted = popped + count. |

## Left out

- Network fetching (src/ingestion/fetcher.c) and protobuf decoding: a fetch brings an arbitrary decoded message, or nothing when it failed.
- H3's geometry and floating-point arithmetic: coordinates and speeds are bit patterns that are only copied, so the widening of coordinates to double is part of the conversion function.
- Static GTFS tables, occupancy strings and console output (src/main.cpp:25-91 and 151-166): display only.
- src/main.cpp:170-172: not reachable; a shutdown comes from other threads of the model, and the consumer runs for any finite time.
- buffer_destroy and ~SpatialArena: memory reclamation only.
- Rings.RingBuffer.constructor: a failed allocation, for a negative capacity or otherwise, is not modelled; the class is a buffer that was allocated.
- Rings.RingBuffer.CompletePush: the class has no condition variables, so the signal to not_empty is not in this contract; it is a step of Monitor.
- Rings.RingBuffer.CompletePop: likewise the signal to not_full.
- Rings.RingBuffer.SignalShutdown: likewise the two broadcasts.
- Fairness: nothing bounds spinning or spurious wakeups, so termination is proved without spurious wakeups, and for the spinlock only that its holder always has its next access to take.
- Weak memory, padding and alignment: the layout assertions are taken as given.
- The parser's pushed_count is not bounded by int: a feed with 2^31 records is outside what a message can hold in memory.
- An empty-handed pop leaves the caller's record as it was; the model returns no record instead, and the consumer does not look at it.
- Parser.ParseAndQueue: the scheduling of other threads is a finite list of turns; runs with threads in the middle of their calls are in Pipeline.
- Storage.SpatialArena.Update: coordinates are the single-precision values of the records, not doubles; other writers hold a lock without having written, and write all fields when they finish; interleaved field accesses are in Spinlock.
- Spinlock.AccessProgresses: clearing a window takes one step for each of its three fields, not one for each array element.
- Pipeline.ScheduleIndependence: the consumer's update is one step, since the program has a single consumer; several writers are in Spinlock.
