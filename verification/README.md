# Verified models of four concurrent and networked programs

The repository holds laboratory programs written in C. This project models the four that keep a non-trivial
state, and proves what their code guarantees over every input and every run. Constants such as the image size,
the number of workers, the ring size or the table size are parameters, so every result is unbounded.

* **Distributed Mandelbrot renderer** (Lab5/task5). `Bytes`, `Transport` and `Wire` model the byte streams and the
  four messages. `Chunks` models the ways an image is cut into rows. `Render` and `Mandelbrot` model the
  sequential renderer, the worker and the pixel loop. `Scheduler` specifies the master's state machine with its
  four failure paths, `Runs` proves what whole runs guarantee, and `Master` (module `Masters`) is the master with
  its arrays, proved to compute the specification. The outside world is an adversary: what `accept`, a request, a
  send, `select` and the bytes of a reply turn out to be are arbitrary functions. `Session` has the workers and both
  queues of every connection as asynchronous steps. `Projection` proves its interleavings to be runs of the scheduler
  and ties its queues to the bytes of `Wire`; `Termination` says which workers are told to terminate; `Pipe` (module
  `Pipes`) interleaves the two ends of a connection byte by byte.
* **Thread-pool queue** (Lab4/task3). `RingQueue` is the ring without a full check; `ThreadPool` interleaves the
  acceptor and the worker threads, with signals that wake one or more threads and with spurious wakeups.
* **Key-value store** (Lab3). `KvStore` is the slot table, proved to be a bounded map; `KvServers` has the client's
  requests and the two servers; `KvClient` is the retry loop over a channel that loses, delays, reorders
  and possibly duplicates.
* **VPN node** (FINAL VPN-PROJECT PART2/step6b authentication). `VpnPacket` is the datagram format, `VpnNode` the
  loop with its one packet buffer, `VpnTraffic` what it carries over whole runs, `VpnTiming` the liveness flag.

Where the code does not do what its comments or its purpose suggest, the model follows the code:

* The comment at Lab5/task5/master.c:23-26 promises that another worker finishes a timed-out chunk. When `select` is
  called every connected worker is busy, so a timeout disconnects all of them and the run aborts
  (`Runs.TimeoutIsFatal`, `Runs.HangingAborts`). Recovery does work through the disconnect branch, exactly when some
  busy worker survives the round (`Runs.RecoversIff`). A worker that never fails is therefore not enough: with a
  single chunk it is terminated before the chunk comes back (`Runs.HealthyWorkerNotEnough`).
* The comment at Lab5/task5/master.c:17-21 says that workers are told to terminate when all rows are dispatched. In
  every run that finishes at least one connected worker is not: those whose connection is still open when the last
  result has been read only see it closed (`Runs.SomeoneStaysConnected`, and for crash-free interleavings
  `Termination.SomeoneUntold`). Without crashes all others are told (`Termination.ToldIff`, `Termination.ExitTellsWhy`).
* The ring loses everything it holds each time it fills, and keeps its order exactly when it never does
  (`RingQueue.PutAppendsIff`, `ThreadPool.ServedInOrderIff`, `ThreadPool.BurstIsLost`).
* A retried delete may report NOT FOUND although it removed the key (`KvClient.LostDeleteAnswer`,
  `KvClient.OwnAnswerIff`).

Assumptions on the outside world are preconditions named in the contracts: `SelectObeys` (a positive `select` marks
some of the watched descriptors), `RepliesFit` (copying a received result stays inside the image, which `Honest`
workers guarantee), `Terminated` (strings end inside the payload buffer, which client requests guarantee),
`Monotone` and `Paced` (the clock), and `Channel` (loss and latency). `Runs.UnbrokenRun`,
`Runs.HealthyWorkerNotEnough`, `Session.CanFinish` and `VpnTiming.PairExists` give runs that meet them.

## Model

| member | source | states |
|---|---|---|
| Bytes.U32RoundTrip | Lab5/task5/protocol.c:89-105 | A 32-bit word survives `htonl` on one side and `ntohl` on the other |
| Bytes.U32BytesRoundTrip | Lab5/task5/protocol.c:180-184 | The four bytes are determined by the decoded word |
| Bytes.U32InOrder | Lab5/task5/protocol.c:89-105 | Network order puts the most significant byte first: words are ordered as their bytes are |
| Bytes.OverlayAt | FINAL VPN-PROJECT PART2/step6b authentication/src/main.c:210-222 | A received datagram comes first in the buffer, as far as it fits; the rest of the buffer keeps what it held |
| Transport.SendAll | Lab5/task5/protocol.c:16-41 | Over arbitrary partial sends: all bytes reach the stream, or a prefix does and the result is -1; on a healthy stream it never fails |
| Transport.RecvAll | Lab5/task5/protocol.c:49-74 | Over arbitrary partial receives: the buffer holds exactly the next `length` bytes and they are gone from the stream, or the result is -1 and fewer bytes are gone, which the buffer holds; on a healthy stream it succeeds exactly when enough bytes are there |
| Wire.SendTask | Lab5/task5/protocol.c:86-136 | Appends the 48-byte encoding of the work message, or a prefix of it when a call fails |
| Wire.RecvTask | Lab5/task5/protocol.c:146-208 | On a healthy stream, 0, 1 and -1 exactly as the reader finds a work message, a termination, or neither at the front of the stream; what follows stays, and a failure only takes bytes from the front |
| Wire.TaskLayout | Lab5/task5/protocol.c:79-136 | Where each field of a work message lies, and its opcode |
| Wire.SendResult | Lab5/task5/protocol.c:217-254 | Appends the encoding of the result, its pixels counted by the 32-bit product, or a prefix of it when a call fails |
| Wire.RecvResult | Lab5/task5/protocol.c:261-312 | Takes exactly one result off the stream; fails on a healthy stream exactly when there is none; a failure only takes bytes from the front |
| Wire.ResultLayout | Lab5/task5/protocol.c:213-254 | Where each field of a result lies, and the opcodes of the other messages |
| Wire.SendWorkRequest | Lab5/task5/protocol.c:317-325 | Appends the request opcode, or a prefix of it when a call fails |
| Wire.RecvWorkRequest | Lab5/task5/protocol.c:332-351 | Succeeds only, and on a healthy stream always, when the next four bytes are the request opcode; a failure only takes bytes from the front |
| Wire.SendTerminate | Lab5/task5/protocol.c:356-364 | Appends the termination opcode, or a prefix of it when a call fails |
| Wire.ReadEncodedTask | Lab5/task5/protocol.c:86-208 | Decoding an encoded work message gives it back and leaves what follows |
| Wire.ReadEncodedResult | Lab5/task5/protocol.c:217-312 | The same for results, whose length both sides compute as `num_rows * width` modulo 2^32 |
| Wire.ReadEncoded | Lab5/task5/protocol.c:86-364 | Each of the four messages is taken back by its own receiver, byte-exactly |
| Wire.TruncatedResultFails | Lab5/task5/protocol.c:261-312 | No proper prefix of an encoded result is read as a result |
| Wire.ReadAllEncoded | Lab5/task5/protocol.c:86-364 | A whole sequence of messages decodes to itself with no byte left over |
| Wire.WrongReceiverFails | Lab5/task5/protocol.c:160-169 | A receiver never takes a message meant for another one |
| Wire.Converse | Lab5/task5/protocol.c:16-364 | The socket calls carry any conversation, with sends and receives in any order and over any split into partial transfers: the same messages, the stream holding the encodings of the unread ones |
| Pipes.KeepsBytes | Lab5/task5/protocol.c:24-38 | Over every byte-wise interleaving of a sender and a receiver nothing is lost, repeated or reordered |
| Pipes.DecodesComplete | Lab5/task5/protocol.c:146-351 | From any prefix of a conversation the receivers get exactly the messages that are complete in it |
| Pipes.DeliversMessages | Lab5/task5/protocol.c:16-364 | Over every byte-wise interleaving the receiver has, at any moment, exactly the messages whose last byte has arrived, and in the end all of them |
| Chunks.SplitBounds | Lab5/task5/master.c:87-98 | Chunks are non-empty, at most CHUNK_SIZE rows long, and inside the image |
| Chunks.FullChunks | Lab5/task5/master.c:87-98 | Chunk i starts at row i * CHUNK_SIZE; all but the last are full, and the last ends at the height |
| Chunks.SplitPartitions | Lab5/task5/master.c:87-98 | Every row of the image is in exactly one chunk |
| Chunks.SplitRows | Lab5/task5/master.c:87-98 | The chunks' row counts add up to the height |
| Chunks.QueueIsSplit | Lab5/task5/master.c:75-98 | The indexed entries `i * CHUNK_SIZE` are, one for one, the chunks of a walk over the rows |
| Chunks.BuildQueue | Lab5/task5/master.c:75-98 | The prebuilt array holds exactly that split |
| Chunks.SplitOnTheFly | Lab5/task6/master.c:63-98 | Over any number of turns, whichever requests fail, the `next_row` splitter issues a prefix of the same chunk sequence, one chunk per request that arrives, and all of it once enough have |
| Chunks.AssignStatically | Lab5/task4-con/master.c:112-128 | Worker i gets the rows from i * (height / W) on, height / W of them: each row of [0, W * (height / W)) once and no other row |
| Chunks.StaticSplitComplete | Lab5/task4-con/master.c:112-128 | It covers the image exactly when W divides the height |
| Render.RowsSlice | Lab5/task5/test_render.c:42-52 | A separately computed block of rows is the corresponding slice of the image |
| Render.RowAt | Lab5/task5/worker.c:123-137 | Row i of a block is row lo + i of the picture |
| Render.ImageRow | Lab5/task5/test_render.c:42-52 | The image shows each row in its place |
| Render.ComputeRows | Lab5/task5/worker.c:111-137 | The row loop fills its buffer with the rows lo .. lo + n, row lo + i at offset i * width |
| Render.RenderLocally | Lab5/task5/test_render.c:26-52 | The sequential program computes the reference image: row i of the picture at offset i * width |
| Render.RunWorker | Lab5/task5/worker.c:77-162 | The request/compute/reply loop writes a prefix of the requests and row-echoing results that its input stream asks for, wherever a call fails, and all of them over healthy streams |
| Render.WorkerSession | Lab5/task5/worker.c:77-162 | A worker that is sent tasks and then a termination writes a request before each of them and after each task its result, and reads nothing behind the termination |
| Render.WorkerAnswers | Lab5/task5/worker.c:111-162 | From what a worker wrote for one chunk before it broke off, the master reads nothing or exactly the rows of that chunk, each in its place, and any bytes left belong to the next request |
| Mandelbrot.Escape | Lab5/task5/mandelbrot.c:32-46 | The loop's count is the escape time: a run of z * z + c that stays in the disc until it stops or reaches the cap |
| Mandelbrot.ComputeRow | Lab5/task5/mandelbrot.c:15-51 | Each pixel of the row is the shade of its own point's escape time; the other bytes are untouched |
| Mandelbrot.Shade | Lab5/task5/mandelbrot.c:48-49 | The grey level is the integer quotient of 255 * iter by max_iter, and 255 exactly at the cap |
| Mandelbrot.ComplexNumbers | Lab5/task5/mandelbrot.c:37-46 | The sums and products of `Add` and `Mul` are those of the complex numbers |
| Mandelbrot.NextSquares | Lab5/task5/mandelbrot.c:37-46 | One pass of the loop is z * z + c in them |
| Mandelbrot.EscapesAtOnceIff | Lab5/task5/mandelbrot.c:37-46 | A point escapes at once exactly when it lies outside the disc of radius 2 |
| Mandelbrot.OriginNeverEscapes | Lab5/task5/mandelbrot.c:37-46 | The origin reaches the cap |
| Mandelbrot.ShiftColumns | Lab5/task5/mandelbrot.c:26-27 | Moving the centre right by one zoom step moves the picture left by one column |
| Mandelbrot.ShiftRows | Lab5/task5/mandelbrot.c:28-30 | Moving the centre down by one zoom step moves the picture up by one row |
| Mandelbrot.MiddlePixel | Lab5/task5/mandelbrot.c:26-30 | The middle pixel of an image of even width and height shows the centre |
| Mandelbrot.EscapeTimeUnique | Lab5/task5/mandelbrot.c:37-46 | A point has only one escape time |
| Mandelbrot.RowUnique | Lab5/task5/mandelbrot.c:24-50 | A row has only one correct content |
| Mandelbrot.ConjugateEscapes | Lab5/task5/mandelbrot.c:26-46 | Conjugate points escape after the same number of steps |
| Mandelbrot.MirrorRows | Lab5/task5/mandelbrot.c:26-50 | With `center_y` zero, rows r and height - r have identical pixels |
| Scheduler.StartInv | Lab5/task5/master.c:75-185 | The start state satisfies the conservation invariant |
| Scheduler.HeadCounts | Lab5/task5/master.c:239-270 | In every reachable state `queue_head` is the number of outstanding plus finished chunks |
| Scheduler.HeldChunk | Lab5/task5/master.c:332-368 | A busy worker's chunk is one of the image's, and there is a slot below the head for it |
| Scheduler.SendKeeps | Lab5/task5/master.c:239-270 | Handing out the chunk at the head keeps waiting + outstanding + finished equal to all chunks |
| Scheduler.DropKeeps | Lab5/task5/master.c:213-237 | Dropping an idle worker moves no chunk |
| Scheduler.DispatchKeeps | Lab5/task5/master.c:203-276 | All of step 1 keeps the invariant |
| Scheduler.DispatchEffect | Lab5/task5/master.c:203-276 | After step 1 every connected worker is busy, busy workers are as before, and a worker that was idle is connected only if its request arrived and its task was sent |
| Scheduler.RequeueKeeps | Lab5/task5/master.c:357-364 | Rewinding the head and overwriting whatever stale chunk is there destroys no waiting chunk |
| Scheduler.TimeoutKeeps | Lab5/task5/master.c:332-368 | The timeout branch keeps the invariant and strictly decreases the measure |
| Scheduler.TimeoutEffect | Lab5/task5/master.c:338-365 | It disconnects exactly the busy workers |
| Scheduler.AcceptKeeps | Lab5/task5/master.c:402-419 | Accepting a result moves one chunk from outstanding to finished, whatever rows the result names |
| Scheduler.CollectFromKeeps | Lab5/task5/master.c:371-419 | Either outcome of reading a ready worker keeps the invariant and decreases the measure |
| Scheduler.Collect | Lab5/task5/master.c:370-420 | Step 3 keeps the invariant, and makes progress when some ready worker is busy |
| Scheduler.Round | Lab5/task5/master.c:201-420 | A round keeps the invariant and, unless it stops the loop, strictly decreases waiting + outstanding + connected |
| Scheduler.RunFrom | Lab5/task5/master.c:201-421 | The loop ends, with all rows counted exactly when it leaves through its condition |
| Runs.HonestIncoming | Lab5/task5/worker.c:111-162 | What the master reads from a worker that follows the worker program is nothing or exactly the rows it asked for |
| Runs.HonestFits | Lab5/task5/master.c:402-405 | With such workers every copy into the image stays in bounds |
| Runs.RowAccounts | Lab5/task5/master.c:201-420 | Waiting, outstanding and finished rows add up to the height |
| Runs.MissingRows | Lab5/task5/master.c:308-311 | `height - completed_rows` equals the queued plus the outstanding rows |
| Runs.AllRowsDone | Lab5/task5/master.c:402-407 | When all rows are counted, nothing is left over, every pixel is final, and each row was copied once |
| Runs.DistributedRender | Lab5/task5/master.c:201-455 | Under any mix of dispatches, results, disconnects, send failures and timeouts: all rows counted implies the sequential image and each row copied exactly once; otherwise the run knows how many rows it lacks |
| Runs.RunTerminates | Lab5/task5/master.c:201-421 | The loop runs for at most one round per chunk and per worker slot, whatever the workers send, provided each call returns |
| Runs.AbortCount | Lab5/task5/master.c:302-313 | The number printed on abort is exactly the rows left in the queue |
| Runs.SelectErrorStops | Lab5/task5/master.c:302-330 | With rows missing, the loop ends as soon as `select` fails, and else only once nobody is connected |
| Runs.NothingSentNothingDone | Lab5/task5/master.c:252-266 | A run in which no request arrives whose task is then sent counts no row and aborts at once |
| Runs.AcceptedSocks | Lab5/task5/master.c:156-170 | A connection open at the end of a run is the one accepted for its slot |
| Runs.BelievesResult | Lab5/task5/master.c:402-407 | A result's pixels go to the rows that it names, every other byte of the image stays, and the count grows by its row number; a failed read changes neither |
| Runs.TimeoutClosesAll | Lab5/task5/master.c:332-368 | A timeout disconnects every connected worker |
| Runs.TimeoutIsFatal | Lab5/task5/master.c:23-26 | A run that takes the timeout branch always aborts with rows missing: the announced recovery cannot happen |
| Runs.HangingAborts | Lab5/task5/master.c:332-368 | Such runs exist: with workers that never answer in time, the run takes the timeout branch and aborts |
| Runs.CollectSlots | Lab5/task5/master.c:370-420 | After step 3 a ready worker is closed if its result did not arrive whole, and idle otherwise; the others are as before |
| Runs.CollectPending | Lab5/task5/master.c:392-398 | Step 3 puts exactly the chunks of the closed workers back, before the waiting ones |
| Runs.LiveAfterRound | Lab5/task5/master.c:371-420 | After a round that reaches step 3, exactly the busy workers whose result is not due or arrives whole are connected |
| Runs.DisconnectRequeues | Lab5/task5/master.c:382-400 | A worker that breaks off is closed, and its chunk is dispatchable again and was not copied |
| Runs.SomeoneStaysConnected | Lab5/task5/master.c:402-465 | Whatever fails, a run that counts all rows ends with a worker still connected, which only sees its connection closed |
| Runs.CompletesIff | Lab5/task5/master.c:201-421 | Once failures stop, a run completes exactly when all rows are in or some worker is still connected, and aborts with all workers gone otherwise |
| Runs.FailureFreeRun | Lab5/task5/master.c:156-421 | A run without failures completes exactly when the image is empty or some worker connected |
| Runs.RecoversIff | Lab5/task5/master.c:382-400 | When a worker breaks off and nothing fails later, the image is completed, the worker's chunk included, exactly when some busy worker survived that round |
| Runs.UnbrokenRun | Lab5/task5/master.c:156-421 | A concrete run without failures completes the image |
| Runs.HealthyWorkerNotEnough | Lab5/task5/master.c:228-237 | When the first worker breaks off once and nothing else ever fails, the image is completed exactly when it has a second chunk; otherwise the healthy workers were terminated while the only chunk was out |
| Masters.Master.constructor | Lab5/task5/master.c:74-185 | Queue, worker table and image start as the specification's start state |
| Masters.Master.DispatchChunks | Lab5/task5/master.c:203-276 | Step 1 on the arrays computes `Dispatch`; a worker that was idle stays connected only if its request arrived and its task was sent |
| Masters.Master.WatchActive | Lab5/task5/master.c:282-300 | The watched set is the connected busy workers |
| Masters.Master.RequeueChunk | Lab5/task5/master.c:392-398 | The rewind computes `Requeue` |
| Masters.Master.CloseOverdue | Lab5/task5/master.c:332-368 | The timeout loop computes `TimeoutSweep` |
| Masters.Master.CopyRows | Lab5/task5/master.c:402-405 | The copy changes exactly the addressed bytes of the image |
| Masters.Master.AcceptResult | Lab5/task5/master.c:402-419 | Booking a result computes `Accept` |
| Masters.Master.ReceiveResult | Lab5/task5/master.c:380-382 | The receive call finds a result in the arriving bytes exactly when the reader does, in whatever pieces they come |
| Masters.Master.CollectResults | Lab5/task5/master.c:370-420 | Step 3 on the arrays computes `Collect` |
| Masters.Master.Loop | Lab5/task5/master.c:201-421 | The loop over arrays computes `RunFrom`, so every theorem about runs holds of it |
| Masters.RenderDistributed | Lab5/task5/master.c:74-455 | The whole program saves an image exactly when all rows were counted, and with workers following the worker program it is the sequential one |
| Session.StepKeeps | Lab5/task5/master.c:203-420 | Every step of the master or a worker keeps the invariant of all connections |
| Session.ChannelBounds | Lab5/task5/worker.c:77-162 | Worker to master: at most one result, then one request; master to worker: at most one message; nobody reads an unexpected opcode |
| Session.NoDeadlock | Lab5/task5/master.c:203-420 | Without crashes, an unfinished system always has an actor that can move |
| Session.StepSpends | Lab5/task5/worker.c:77-162 | Every step, of whichever actor, decreases one measure of the whole system |
| Session.SchedulesEnd | Lab5/task5/master.c:201-421 | Every interleaving is at most as long as the start state's measure |
| Session.CompleteSchedule | Lab5/task5/master.c:371-421 | An interleaving that cannot go on has counted every row, and all workers have exited |
| Session.CrashFreeRun | Lab5/task5/master.c:201-421 | From the accept loop on: every interleaving is bounded, loses nobody to a protocol error, and can go on until image and workers are finished |
| Session.CanFinish | Lab5/task5/master.c:201-421 | From every reachable state some interleaving finishes the image |
| Termination.ClosedByTelling | Lab5/task5/master.c:227-237 | Until the last result is in, a connection is closed by a termination and by nothing else |
| Termination.ToldIff | Lab5/task5/master.c:203-276 | A connected worker is told to terminate exactly if its connection is closed before the step that finishes the image |
| Termination.SomeoneUntold | Lab5/task5/master.c:19-21 | Every finishing run leaves a connected worker untold; told are exactly those closed before the finish |
| Termination.ExitTellsWhy | Lab5/task5/worker.c:90-104 | Once all have left, the workers that were told are those that exited on a termination, the others on end of file |
| Projection.PushBytes | Lab5/task5/protocol.c:16-41 | Putting a message in a connection's queue appends its encoding to the connection's bytes |
| Projection.QueueReads | Lab5/task5/protocol.c:146-351 | Receiving from these bytes takes the queue's first message, and fails exactly if it is meant for another receiver |
| Projection.LinkFits | Lab5/task5/master.c:203-420 | Along a run both queues of every connection hold only chunks of the image, so their bytes can be received |
| Projection.ServeProjects | Lab5/task5/master.c:203-276 | Serving a worker in the asynchronous system is the scheduler's dispatch to it |
| Projection.TakeProjects | Lab5/task5/master.c:371-419 | Reading a result in the asynchronous system is the scheduler's acceptance of it |
| Projection.MasterProjects | Lab5/task5/master.c:201-421 | Each step of the asynchronous master continues the same scheduler run |
| Projection.ScheduleProjects | Lab5/task5/master.c:201-421 | So does every interleaving; it only decides which results are ready in which round |
| Projection.SessionRenders | Lab5/task5/master.c:201-455 | A crash-free interleaving that finishes is a run of the scheduler, and leaves the sequential image |
| RingQueue.PutAppendsIff | Lab4/task3/http_threadpool.c:89-99 | `enqueue` appends exactly when a slot stays free; the one that fills the ring makes it read as empty |
| RingQueue.TakeRemoves | Lab4/task3/http_threadpool.c:101-117 | Removing from a non-empty ring removes the oldest entry, across wraparounds |
| RingQueue.Queue.Enqueue | Lab4/task3/http_threadpool.c:89-99 | On the array: contents become old contents plus the descriptor, or nothing when the ring fills |
| RingQueue.Queue.IsEmpty | Lab4/task3/http_threadpool.c:105-108 | The wait loop's test is true exactly when the ring holds nothing |
| RingQueue.Queue.Dequeue | Lab4/task3/http_threadpool.c:110-116 | The returned descriptor is the oldest, and the rest stays in order |
| ThreadPool.StepWakes | Lab4/task3/http_threadpool.c:89-131 | Every critical section, even one that overflows the ring, keeps: some thread asleep implies pending <= woken |
| ThreadPool.StepInOrder | Lab4/task3/http_threadpool.c:89-117 | A critical section that does not fill the ring keeps: dequeued, then pending, are the accepted connections in order |
| ThreadPool.TakesOldest | Lab4/task3/http_threadpool.c:101-128 | A thread that finds something pending turns to the oldest connection accepted and not yet taken |
| ThreadPool.StepLost | Lab4/task3/http_threadpool.c:89-99 | Connections get lost only when an enqueue fills the ring, and then exactly a ringful |
| ThreadPool.OverflowLosesAll | Lab4/task3/http_threadpool.c:93-94 | An enqueue keeps the account exactly when it does not fill the ring |
| ThreadPool.NoLostWakeup | Lab4/task3/http_threadpool.c:96-108 | With connections pending, not every thread is asleep |
| ThreadPool.AlwaysSomeoneAwake | Lab4/task3/http_threadpool.c:89-131 | Over every interleaving, with spurious wakeups and overflows, a pending connection finds some thread awake |
| ThreadPool.ServedInOrderIff | Lab4/task3/http_threadpool.c:89-131 | Over every interleaving a ringful of connections is lost for each overflow; the dequeued and the pending connections are the enqueued ones in order exactly when there is none |
| ThreadPool.ServedAreDequeued | Lab4/task3/http_threadpool.c:119-131 | Over every interleaving each connection has been dequeued as often as it has been handled and closed or is in a thread's hands |
| ThreadPool.BurstIsLost | Lab4/task3/http_threadpool.c:93-94 | QUEUE_SIZE connections before the threads come to run fill the ring: it reads as empty with none of them served |
| ThreadPool.PoolRests | Lab4/task3/http_threadpool.c:101-131 | Without new connections and spurious wakeups the threads come to rest within a bound |
| ThreadPool.RestMeansDrained | Lab4/task3/http_threadpool.c:101-131 | At rest nothing is pending, and unless the ring filled up every accepted connection has been dequeued, in order of arrival, and served as often as it was accepted |
| KvStore.WriteSlot | Lab3/lab3_kv_store/src/kv_store.c:25-44 | Writing the key's slot, or a free slot for a new key, is a map update and keeps keys unique and slots well-formed |
| KvStore.ClearSlot | Lab3/lab3_kv_store/src/kv_store.c:70-77 | Zeroing the key's slot removes it from the map |
| KvStore.MapSize | Lab3/lab3_kv_store/src/kv_store.c:34-46 | The map has `MAX_ITEMS` keys exactly when no slot is free |
| KvStore.StrNCpyReads | Lab3/lab3_kv_store/src/kv_store.c:56-57 | A truncated copy reads as the first size - 1 bytes |
| KvStore.Store.constructor | Lab3/lab3_kv_store/src/kv_store.c:15-18 | The zeroed table is the empty map |
| KvStore.Store.Find | Lab3/lab3_kv_store/src/kv_store.c:26-32 | The search returns the slot that holds the key, or none exactly when the map lacks it |
| KvStore.Store.FindFree | Lab3/lab3_kv_store/src/kv_store.c:35-44 | The search returns a free slot, or none exactly when the map is full |
| KvStore.Store.Set | Lab3/lab3_kv_store/src/kv_store.c:20-47 | Fails exactly on bad lengths or on a new key in a full map; otherwise it is a map update |
| KvStore.Store.Get | Lab3/lab3_kv_store/src/kv_store.c:49-63 | Copies the key's value, cut to the caller's buffer; fails exactly on a missing key and then writes nothing |
| KvStore.Store.Del | Lab3/lab3_kv_store/src/kv_store.c:65-80 | Removes the key; fails exactly when it is missing |
| KvStore.FullBufferReadsBack | Lab3/lab3_kv_store/src/kv_store.c:56-57 | With the full value size the value comes back whole |
| KvStore.LookupIsLastWrite | Lab3/lab3_kv_store/src/kv_store.c:20-80 | Over every operation sequence a lookup gives the last value set since any delete |
| KvStore.HistoryBounded | Lab3/lab3_kv_store/src/kv_store.c:20-80 | Over every operation sequence the map stays within `MAX_ITEMS` and holds only pairs of legal lengths |
| KvStore.RunOps | Lab3/lab3_kv_store/src/kv_store.c:20-80 | Any list of operations run on the table leaves the map of that list |
| KvStore.RunAndLookUp | Lab3/lab3_kv_store/src/kv_store.c:20-80 | After any list of operations on the table a full-buffer get returns the last value set since any delete |
| KvServers.HeaderFields | Lab3/lab3_kv_store/include/kv_protocol.h:22-27 | The fields of an encoded header read back, whatever follows it |
| KvServers.BuildRequest | Lab3/lab3_kv_store/src/kv_client.c:178-211 | The client's buffer code emits header and payload of the request |
| KvServers.RequestLayout | Lab3/lab3_kv_store/src/kv_client.c:178-211 | Where version, opcode, length, key and value of a request lie |
| KvServers.ParsePayload | Lab3/lab3_kv_store/src/kv_server_udp.c:97-133 | A client's payload is seen as the request it came from, whatever follows it in the buffer |
| KvServers.GetBody | Lab3/lab3_kv_store/src/kv_server_tcp.c:80-87 | A GET answer's body is the stored value and its NUL |
| KvServers.ReplyExplains | Lab3/lab3_kv_store/src/kv_server_tcp.c:65-104 | The answer to a request tells what happened to the store, in the statuses 0, 1 and 2 of the protocol |
| KvServers.SetMalformedIff | Lab3/lab3_kv_store/src/kv_server_tcp.c:66-71 | A SET is malformed exactly when no NUL before the last byte of its payload ends the key |
| KvServers.TcpSwitch | Lab3/lab3_kv_store/src/kv_server_tcp.c:65-104 | The TCP handler's switch does to the store, and answers, what the parsed request says: a SET is answered 0 exactly when the key then has the value and 2 otherwise, a GET 0 with value and NUL or 1, a DEL 0 exactly when the key was there |
| KvServers.UdpSwitch | Lab3/lab3_kv_store/src/kv_server_udp.c:97-143 | The UDP server's switch does and answers the same, building the answer in a response buffer that held anything before |
| KvServers.RecvPayload | Lab3/lab3_kv_store/src/kv_server_tcp.c:51-63 | The payload loop accepts any fragmentation, and fails exactly when the bytes run out before `length` of them have come |
| KvServers.HandleTcp | Lab3/lab3_kv_store/src/kv_server_tcp.c:34-105 | Store and answer bytes of the TCP handler are those of the request it sees; the status tells what happened to the store, and a refused message changes nothing |
| KvServers.UdpServer.constructor | Lab3/lab3_kv_store/src/kv_server_udp.c:64 | The server starts with an arbitrary buffer |
| KvServers.UdpServer.HandleDatagram | Lab3/lab3_kv_store/src/kv_server_udp.c:70-143 | Store and answer bytes of the UDP turn are those of the request it sees; the status tells what happened to the store, a refused datagram changes nothing, a runt gets no answer |
| KvServers.TcpRefusesIff | Lab3/lab3_kv_store/src/kv_server_tcp.c:34-104 | The TCP handler refuses exactly a wrong version, a length over the limit, a short payload, an unknown opcode and a SET without a value |
| KvServers.UdpRefusesIff | Lab3/lab3_kv_store/src/kv_server_udp.c:82-143 | The UDP server refuses exactly the same, with the payload that the datagram brought |
| KvServers.TcpEndsKey | Lab3/lab3_kv_store/src/kv_server_tcp.c:48-81 | The TCP handler's zeroed buffer ends a key that comes without its NUL |
| KvServers.TcpSeesRequest | Lab3/lab3_kv_store/src/kv_server_tcp.c:34-71 | The TCP handler sees exactly the request the client built |
| KvServers.UdpSeesRequest | Lab3/lab3_kv_store/src/kv_server_udp.c:82-110 | The UDP server sees exactly the request the client built, whatever its buffer held before |
| KvServers.ServersAgree | Lab3/lab3_kv_store/src/kv_server_udp.c:80-143 | Both servers turn a well-formed request into the same store and the same answer: the reference ones |
| KvServers.AskBoth | Lab3/lab3_kv_store/src/kv_server_tcp.c:48-104 | The two handlers' code, given one client request: equal response bytes, which tell what happened to the store, and equal stores, over any payload fragmentation and any leftovers in the UDP buffer |
| KvClient.ApplyTwice | Lab3/lab3_kv_store/src/kv_store.c:20-80 | A repeated request changes nothing more |
| KvClient.ReplyTwice | Lab3/lab3_kv_store/src/kv_store.c:65-80 | It is answered like the first, except that a repeated delete finds nothing |
| KvClient.RetriedCall | Lab3/lab3_kv_store/src/kv_client.c:93-134 | Even if datagrams are duplicated: at most MAX_RETRIES + 1 sends; an answer means one application, a timeout none or one; an answer is the operation's own or NOT FOUND to a delete; a delete reporting OK found the key |
| KvClient.RetriedAnswerMeans | Lab3/lab3_kv_store/src/kv_client.c:93-148 | What an answer to a retried call says about the store that the call leaves: a SET is confirmed exactly when the key has the value; a GET reports the value or its absence; after a DEL the key is gone, and OK means it was there |
| KvClient.LostDeleteAnswer | Lab3/lab3_kv_store/src/kv_client.c:119-123 | The exception occurs: a lost first answer makes a successful delete report NOT FOUND |
| KvClient.DuplicatedDelete | Lab3/lab3_kv_store/src/kv_client.c:108-116 | A duplicated delete may report NOT FOUND without any retry |
| KvClient.OwnAnswerIff | Lab3/lab3_kv_store/src/kv_client.c:93-134 | A retried call is sure to report the operation's own answer exactly unless it deletes a present key and may reach the server twice, by a retry or a duplicating channel |
| KvClient.SilentCall | Lab3/lab3_kv_store/src/kv_client.c:93-123 | A call nobody answers makes all MAX_RETRIES + 1 sends and waits out the doubling timeouts |
| KvClient.BrokenCall | Lab3/lab3_kv_store/src/kv_client.c:119-126 | A call whose i-th wait is the first to end in a socket error has sent i + 1 datagrams and fails |
| KvClient.ServeOne | Lab3/lab3_kv_store/src/kv_server_udp.c:70-143 | The real UDP server handles one copy of the client's datagram as the abstract server does |
| KvClient.SendUdp | Lab3/lab3_kv_store/src/kv_client.c:86-134 | The retry loop against the real UDP server reports what `Call` says and leaves its store |
| VpnPacket.XorBitsTwice | FINAL VPN-PROJECT PART2/step6b authentication/src/crypto.c:10-13 | Exclusive or with the same key twice is the identity |
| VpnPacket.XorAllTwice | FINAL VPN-PROJECT PART2/step6b authentication/src/crypto.c:5-14 | Decryption is encryption again |
| VpnPacket.XorBitAt | FINAL VPN-PROJECT PART2/step6b authentication/src/crypto.c:3-13 | A bit of the result is set exactly when it differs between the two operands |
| VpnPacket.XorFlips | FINAL VPN-PROJECT PART2/step6b authentication/src/crypto.c:3-13 | Encryption flips bits 1, 3, 4 and 6 of every byte and no other |
| VpnPacket.XorCrypt | FINAL VPN-PROJECT PART2/step6b authentication/src/crypto.c:5-14 | The in-place loop changes exactly the given range, byte by byte |
| VpnPacket.StampedPrefix | FINAL VPN-PROJECT PART2/step6b authentication/src/protocol.h:11-18 | Any prefix of a stamped buffer that holds the header is authentic and gives back command, sequence number and payload bytes |
| VpnNode.Node.constructor | FINAL VPN-PROJECT PART2/step6b authentication/src/main.c:53-75 | The node starts with sequence number 1, current time stamps, a live peer, and an arbitrary buffer |
| VpnNode.Node.WriteHeader | FINAL VPN-PROJECT PART2/step6b authentication/src/main.c:163-171 | Writing the fields through the header pointer is `Stamp`; padding and the token's last two bytes keep what they held |
| VpnNode.Node.SendKeepalive | FINAL VPN-PROJECT PART2/step6b authentication/src/main.c:105-127 | The keepalive branch computes `Keepalive` |
| VpnNode.Node.ForwardFromTun | FINAL VPN-PROJECT PART2/step6b authentication/src/main.c:144-195 | The TUN branch computes `Forward` |
| VpnNode.Node.ReceiveFromPeer | FINAL VPN-PROJECT PART2/step6b authentication/src/main.c:200-293 | The UDP branch computes `Receive` |
| VpnNode.Node.Iterate | FINAL VPN-PROJECT PART2/step6b authentication/src/main.c:100-293 | A turn of the loop computes `Step` |
| VpnTraffic.KeepaliveBytes | FINAL VPN-PROJECT PART2/step6b authentication/src/main.c:107-122 | A keepalive's 24 bytes depend on the sequence number only |
| VpnTraffic.DataDatagram | FINAL VPN-PROJECT PART2/step6b authentication/src/main.c:151-187 | What is sent for a TUN packet is a data datagram with that packet, encrypted, behind its header, whatever the buffer held |
| VpnTraffic.Unauthorized | FINAL VPN-PROJECT PART2/step6b authentication/src/main.c:222-248 | A datagram without the token leaves no trace but in the buffer; any other refreshes the peer and, unless it is a keepalive, is decrypted and written |
| VpnTraffic.PacketRoundTrip | FINAL VPN-PROJECT PART2/step6b authentication/src/main.c:144-275 | Any packet sent by one node is accepted and written by the other, unchanged up to BUFFER_SIZE - 24 bytes, whatever either buffer held |
| VpnTraffic.RunSends | FINAL VPN-PROJECT PART2/step6b authentication/src/main.c:105-187 | Over a run the datagrams are authentic, consecutively numbered modulo 2^32, and carry exactly the packets read from TUN |
| VpnTraffic.SequenceNumbers | FINAL VPN-PROJECT PART2/step6b authentication/src/main.c:53-187 | The i-th datagram of a node carries sequence number i modulo 2^32 |
| VpnTraffic.RunWrites | FINAL VPN-PROJECT PART2/step6b authentication/src/main.c:200-275 | Over a run exactly the packets carried by the received datagrams are written |
| VpnTraffic.TunnelTransparent | FINAL VPN-PROJECT PART2/step6b authentication/src/main.c:77-294 | If the far end receives what the near end sent, it writes exactly the packets the near end read, in order |
| VpnTraffic.NothingInvented | FINAL VPN-PROJECT PART2/step6b authentication/src/main.c:200-275 | Over a channel that loses, repeats or reorders, every packet written was read at the near end |
| VpnTiming.Stamps | FINAL VPN-PROJECT PART2/step6b authentication/src/main.c:105-126 | The two time stamps are those of the last keepalive and of the last accepted datagram |
| VpnTiming.AliveIff | FINAL VPN-PROJECT PART2/step6b authentication/src/main.c:132-139 | With a monotone clock, right after each check `peer_alive` holds exactly when the last accepted datagram is at most PEER_TIMEOUT old |
| VpnTiming.KeepaliveGap | FINAL VPN-PROJECT PART2/step6b authentication/src/main.c:105-126 | Keepalives follow each other within KEEPALIVE_INTERVAL - 1 plus the loop's delay |
| VpnTiming.KeepaliveSpacing | FINAL VPN-PROJECT PART2/step6b authentication/src/main.c:105-126 | Keepalives are at least KEEPALIVE_INTERVAL apart |
| VpnTiming.SendsWhenDue | FINAL VPN-PROJECT PART2/step6b authentication/src/main.c:105-126 | A turn sends a keepalive exactly when one is due |
| VpnTiming.Window | FINAL VPN-PROJECT PART2/step6b authentication/src/main.c:77-127 | k + 1 such gaps hold k + 1 consecutive keepalives |
| VpnTiming.NoFalseTimeout | FINAL VPN-PROJECT PART2/step6b authentication/src/main.c:77-257 | If (k + 1) gaps, one more loop delay and the latency fit into PEER_TIMEOUT, and at most k consecutive keepalives get lost, the far end finds the near end alive, from that time after the near end's first keepalive on and within PEER_TIMEOUT of its own start; the clocks may differ by a constant |
| VpnTiming.PairExists | FINAL VPN-PROJECT PART2/step6b authentication/src/main.c:77-257 | Two ends and a channel that meet these assumptions |

## Left out

- Sockets, `select` and epoll internals, fork, the TUN device, signals, printing and PPM files: only their outcomes appear, as parameters.
- Failing allocations and null pointers: `malloc` succeeds and arguments are present.
- IEEE 754 rounding: doubles travel as opaque eight bytes, the rendered row is a fixed function of its parameters, and `Mandelbrot` computes over the reals.
- Masters.Master.CopyRows: results that name rows outside the image are excluded by `RepliesFit`, because the C copy is then undefined.
- Render.RunWorker: work messages whose pixel count or row numbers wrap in 32 bits, or whose width exceeds `int`, are excluded by `TasksFit`, because the worker then writes outside its buffer or leaves it unwritten; converting a row number to `int` is part of the row function.
- Runs.RunTerminates: every call is taken to return; `recv_result` waits for ever on a worker that sends part of a result and stays connected.
- Chunks.BuildQueue: sizes whose sums overflow `int` are excluded, as they would be undefined in C.
- Chunks.SplitOnTheFly: the splitter of Lab5/task6 is modelled without the results it receives and its `completed` counter, which only decide when the turns end.
- Session.NoDeadlock: reading a request and answering it is one step of the master, and a message is one unit; its bytes are in `Wire`, `Pipe` and `Projection`.
- KvServers.HandleTcp: the header arrives whole and the payload loop is not interrupted by a stale error code at end of file; resynchronisation after a rejected header has no framing and is not modelled.
- KvServers.RecvPayload: an end of file met with a stale error code, on which the loop tries again, is not modelled; the stream's end is a failure.
- KvServers.UdpServer.HandleDatagram: a failing `recvfrom` changes nothing and is not a turn.
- KvClient.SendUdp: datagrams do not outlive the call that sent them, and answers shorter than a header, which this server never sends, are not modelled.
- VpnNode.Node.ReceiveFromPeer: `recvfrom` succeeds when it is called; a negative result, which the comparison at main.c:222 lets through, is not modelled.
- VpnNode.Node.Iterate: what `sendto` and `write` report is ignored, as in the code; the model lists what they are given.
- VpnTiming.NoFalseTimeout: takes the loop's delay to be at least one second, the clock's resolution.
- Mandelbrot.Escape: exact real arithmetic, where the loop rounds each operation.
- Mandelbrot.Shade: the quotient is exact, where the code rounds it before it is cut to a byte.
- The other programs of Lab5/task6 and Lab5/task4-con beyond their splitters, HTTP serving, Lab1, Lab2, kv_clients.c, kv_bench.c and the earlier VPN steps: they repeat the modelled code, or have no state of their own.
