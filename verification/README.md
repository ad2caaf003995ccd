# A verified model of libircbot

libircbot runs IRC bots: one event loop, a pool of worker threads for blocking jobs, and per server a connection with a
parser on the receiving side and a rate-limited queue on the sending side. This project models the parts in which state
is shared, reordered or cut up, and proves what they keep. `dafny verify dfyconfig.toml` checks all of it.

**The thread pool** (`threadpool.c`). `Handshake.dfy` is the protocol between the main thread and any number of
workers as interleaved atomic steps: program counters, owners of the two mutexes of each thread, who waits for which
condition, bytes in the pipe. Its invariant is inductive, and `HandshakeLiveness.dfy` draws from it that no signal is
lost, that `t->job` is never raced, that every operation returns, and when exactly stopThreads does.
`HandshakeStartup.dfy` adds workers that are still starting: what holds if the main thread finds them up, and what is
lost if not. `JobRing.dfy` is the bounded queue in which a cancelled job leaves a hole, as a ring, as the code on the
array and as the sequence of live jobs. `ThreadPool.dfy`, `ThreadPoolProofs.dfy` and `ThreadTable.dfy` put both
together: jobs are conserved over every run. `ThreadPoolLiveness.dfy` shows that the pool comes to rest, with every
accepted job finished, and `ThreadPoolEffects.dfy` says what cancelling and ticking mean for a job over whole runs.
`ThreadPoolStartup.dfy` carries all this back to ThreadPool_init.

**Receiving** (`ircserver.c`, `ircmessage.c`, `irccommand.c`). `Reassembly.dfy` is the 8192-byte buffer, against a
function that cuts the whole stream at CR LF. `IrcMessage.dfy` is the parser over the byte buffer, `MessageFormat.dfy`
its printer and the round trip, `IrcCommand.dfy` the table of names, `Text.dfy` what they search for.

**Sending** (`ircserver.c`, `connection.c`, `service.c`, `queue.c`). `Segmentation.dfy` cuts a text into lines,
`SendPipeline.dfy` is the machine of queue, command in flight, credit and pending write on one connection, with its
run-level laws; `ServerLife.dfy` is the life of a server object over all its connections: login, ticks, closing and
reconnecting. `IrcServer.dfy` is the code that follows both. `WritePipe.dfy` is the stream that pending write records
stand for, `Connection.dfy` the ring of records and the interest it registers with `Service.dfy`. `Delivery.dfy` joins
both directions: the commands given at one end are the messages handled at the other, and a text sent among them
arrives as that text.

**Containers.** `Queue.dfy`, `Event.dfy` with `EventCode.dfy`, and `Hashtable.dfy` with `HashtableCode.dfy`: each the
code on its mutable structure, proved against a sequence or a map. `ThreadJob.dfy`, `Wrappers.dfy` and `Sequences.dfy`
hold what several modules need.

Methods follow the code of the C functions; the functions they are proved against are their specifications, and the
lemmas say what those keep. A byte is a `char`, a pointer that is only compared is a number, a NULL pointer is `None`.
Results of system calls, the schedule of threads and what event handlers do are inputs.

## Where the code does less than it seems

In these places the property one would expect is false of the code. The model keeps the code as it is; a lemma gives
the exact condition.

- stopThreads can wait for ever for a worker that has been given a job but has not passed line 110 yet: it sees
  `stoprq`, leaves, and never signals `done` (`HandshakeLiveness.StopReturnsExactly`, `StopCanHang`).
- ThreadPool_init does not wait for its workers. A job given to one that has not locked `startlock` yet never runs
  (`HandshakeStartup.JobRunsExactly`, `FirstJobCanBeLost`), and stopThreads never returns if it sets `stoprq` before
  such a worker has cleared it (`StopJoinsExactly`, `EarlyStopCanHang`). Where the main thread is never that early
  everything else said here about the handshake holds from ThreadPool_init on (`StartupRefines`), for the pool too
  (`ThreadPoolStartup.PoolStartupRefines`).
- `expand` in `queue.c` gives memcpy a number of entries where bytes are meant: a ring that has wrapped loses entries
  when it grows (`Queue.ExpandAsWritten`; `Queue.FullAndWrapped` leads to such a ring). `IBQueue.Expand` is the
  intended copy.
- Registering on an event while it is raised can compact the array under the loop index, and handlers are passed over:
  `Event.RaiseExactly` says for which raises, `Event.CompactionSkips` how many. `waitjoin` in `ircchannel.c` does that
  on the tick event (`Event.SkipHappens`).
- activeTick stays registered when a connection closes; only the ping timeout takes it off. With nothing in flight,
  the first or second tick then calls IBQueue_dequeue with a null pointer, long before the next connection
  (`ServerLife.IdleCloseCrashes`). Nothing crashes until the next login if and only if activeTick was not registered
  at the close (`ServerLife.SafeUntilLogin`).
- `sending` outlives a connection as well: with a command in flight when it closes, nothing is ever handed to a later
  one (`ServerLife.CloseInFlightSilences`). The object can send on a later connection if and only if, when the last
  one closed, nothing was in flight and activeTick was not registered (`ServerLife.ReconnectSends`).
- `recvbufsz` outlives a connection, too. Where a next one is reached at all, and as long as its lines fit, its first
  line is misread exactly if bytes were buffered (`Reassembly.FirstLineMisread`); all lines of all its streams come
  out right exactly if none were (`ReconnectNeedsEmptyBuffer`). The other lemmas on receiving speak of one connection.
- Connection_destroy unregisters the descriptor before the final `dataSent` events. A handler that gets a write
  accepted there would register it again for good (`Connection.WriteDuringFlush`); `WritePipe.FlushAccepts` says from
  the pending records and the handlers' writes when that happens. This is a hazard of the interface that no handler in
  this repository triggers: connDataSent returns at its guard (ircserver.c:268), since connClosed has cleared `conn`.
- The receiver depends on the chunks it gets as soon as a line is longer than 4095 bytes
  (`Reassembly.ChunkingIndependent`).
- Section 2.3.1 of RFC 2812 lets a fifteenth parameter contain spaces without a colon in front; the parser splits it
  (`MessageFormat.TrailingWithoutColon`).
- `hashtable.c` passes the number of bits where `hashstr` expects a mask, so only few buckets are ever used. The index
  is in range all the same (`Hashtable.Index`).

## Model

| member | source | states |
|---|---|---|
| HandshakeStartup.BootInitialInv | src/lib/ircbot/threadpool.c:347-389 | With any number of workers just created, what start-up keeps, and in it the handshake invariant, holds. |
| Handshake.OwnStepOk | src/lib/ircbot/threadpool.c:106-120 | A worker's own step keeps what the main thread may rely on about that worker, whatever the main thread is doing. |
| Handshake.WorkerStepInv | src/lib/ircbot/threadpool.c:106-120 | Every worker step keeps the invariant for all workers, including the `done` signal that wakes the main thread. |
| Handshake.MainStepInv | src/lib/ircbot/threadpool.c:228-271 | Every step of startThreadJob, threadJobDone and stopThreads keeps the invariant. |
| Handshake.StepInv | src/lib/ircbot/threadpool.c:106-271 | The invariant is inductive: any enabled step of any thread keeps it. |
| Handshake.RunInv | src/lib/ircbot/threadpool.c:106-271 | It holds after every interleaving of every length. |
| HandshakeLiveness.NoLostWakeup | src/lib/ircbot/threadpool.c:228-256 | In every interleaving `start` is signalled only to a worker that waits for it and `done` only while the main thread waits for it, `t->job` is written only while its worker cannot read it, locks are released by their owner, and a pipe never holds more than one byte. |
| HandshakeLiveness.StepDecreases | src/lib/ircbot/threadpool.c:106-271 | Every step that is not a new decision of the event loop decreases a measure. |
| HandshakeLiveness.Progress | src/lib/ircbot/threadpool.c:158-271 | Whenever the main thread is inside an operation and not in the trap described below, it or the worker it waits for can step. |
| HandshakeLiveness.OperationsReturn | src/lib/ircbot/threadpool.c:228-271 | So every schedule of an operation is finite, with a bound, and ends back in the event loop or with all threads stopped, unless the trap was entered. |
| HandshakeLiveness.TrapEntry | src/lib/ircbot/threadpool.c:164-168 | The trap is entered by one step only: `stoprq` is set for a busy worker that has not yet passed line 110. |
| HandshakeLiveness.TrapIsForever | src/lib/ircbot/threadpool.c:164-170 | From there no step leads out: the worker leaves without signalling `done`, and stopThreads waits for ever. |
| HandshakeLiveness.StopReturnsExactly | src/lib/ircbot/threadpool.c:158-187 | stopThreads returns in every schedule if and only if it is called while no started worker is still before line 110. |
| HandshakeLiveness.StopCanHang | src/lib/ircbot/threadpool.c:158-187 | That condition can fail: a run is given after which stopThreads can hang. |
| HandshakeLiveness.StoppedMeansGone | src/lib/ircbot/threadpool.c:158-187 | When stopThreads has returned every worker has exited and its lock is free, so no join waits. |
| HandshakeStartup.StartupRefines | src/lib/ircbot/threadpool.c:75-271 | A run from ThreadPool_init on in which the main thread never takes the startlock of a worker that has yet to lock it first is, the start-up left out, a run of the handshake with all workers up: its invariant, and so all of the above, carry over. |
| HandshakeStartup.SafeFromInit | src/lib/ircbot/threadpool.c:75-271 | So such a run loses no signal and never races `t->job`. |
| HandshakeStartup.JobRunsExactly | src/lib/ircbot/threadpool.c:228-235 | When startThreadJob takes startlock, the job can run in some schedule if and only if the worker is up by then. |
| HandshakeStartup.StopJoinsExactly | src/lib/ircbot/threadpool.c:171-179 | stopThreads takes startlock of a worker that is not up; whatever others do before it sets `stoprq`, it can then get past that worker if and only if line 79 is behind it. |
| HandshakeStartup.FirstJobCanBeLost | src/lib/ircbot/threadpool.c:447-456 | A run: a job enqueued right after ThreadPool_init that never runs. |
| HandshakeStartup.EarlyStopCanHang | src/lib/ircbot/threadpool.c:158-187 | A run: stopThreads right after a thread's creation, as in the rollback, that never returns. |
| JobRing.EnqueueAppends | src/lib/ircbot/threadpool.c:189-201 | Enqueueing appends to the queue of live jobs and is refused exactly if no slot is left, holes counted as used. |
| JobRing.DequeueTakesOldest | src/lib/ircbot/threadpool.c:203-217 | Dequeueing skips the holes and returns the oldest live job, or nothing exactly if there is none. |
| JobRing.CancelRemoves | src/lib/ircbot/threadpool.c:475-490 | Cancelling finds a job if and only if it is queued, and takes just that job out of the sequence of live ones. |
| JobRing.EmptyIsEmpty | src/lib/ircbot/threadpool.c:408-410 | The ring that ThreadPool_init sets up stands for the empty queue. |
| JobRing.JobQueue.EnqueueJob | src/lib/ircbot/threadpool.c:189-201 | The code on the array does this, and keeps the indices and the number of free slots consistent. |
| JobRing.JobQueue.DequeueJob | src/lib/ircbot/threadpool.c:203-217 | The loop over the array terminates and returns the oldest live job. |
| JobRing.JobQueue.CancelQueued | src/lib/ircbot/threadpool.c:475-490 | The do-while loop visits each used slot at most once, also in a full ring, and removes the job if and only if it is there. |
| ThreadPool.AvailableThread | src/lib/ircbot/threadpool.c:219-226 | The first thread without a job, or none if all are busy. |
| ThreadPool.ThreadOf | src/lib/ircbot/threadpool.c:465-473 | The first thread with the given job, if any. |
| ThreadPoolProofs.EnqueueKeeps | src/lib/ircbot/threadpool.c:447-459 | ThreadPool_enqueue hands the job to the first thread without one; if all have one, appends it to the queue; and refuses it exactly if no slot is left either. An accepted job has its full timeout and nothing has happened to it; no other job is touched. |
| ThreadPoolProofs.WorkerEnqueueKeeps | src/lib/ircbot/threadpool.c:447-459 | Called by a running job, it only queues, or refuses exactly if no slot is left. |
| ThreadPoolProofs.StoreKeeps | src/lib/ircbot/threadpool.c:228-235 | Storing the job moves it from the main thread's hand to that thread and marks it started; nothing else changes. |
| ThreadPoolProofs.RaiseKeeps | src/lib/ircbot/threadpool.c:265-265 | The event of a thread's job is raised for the first time, after its proc has run once, and its handlers see `hasCompleted` 0 exactly if the job was cancelled or timed out. |
| ThreadPoolProofs.EndRaiseKeeps | src/lib/ircbot/threadpool.c:266-268 | Releasing the thread finishes its job, raised once by then, and no other. |
| ThreadPoolProofs.TakeNextKeeps | src/lib/ircbot/threadpool.c:269-270 | The oldest queued job, if there is one, leaves the queue and is in the main thread's hand; the others keep their order. |
| ThreadPoolProofs.CancelOnThreadKeeps | src/lib/ircbot/threadpool.c:463-474 | Cancelling a running job clears its `hasCompleted` and changes nothing else, of this job or any other. |
| ThreadPoolProofs.CancelQueuedKeeps | src/lib/ircbot/threadpool.c:475-490 | Cancelling a queued job takes just it out of the queue and finishes it at once, without running it: its handlers see `hasCompleted` 0. A job that is nowhere is left alone. |
| ThreadPoolProofs.TickThreadsEach | src/lib/ircbot/threadpool.c:273-288 | A tick takes one from a non-zero timeout of each job on a thread, and clears `hasCompleted` when that reaches 0; no other job is touched. |
| ThreadPoolProofs.PoolStepKeeps | src/lib/ircbot/threadpool.c:189-288 | Every step of the whole pool keeps the pool invariant. |
| ThreadPoolProofs.PoolRunKeeps | src/lib/ircbot/threadpool.c:189-288 | So does every run. |
| ThreadPoolProofs.JobsAreConserved | src/lib/ircbot/threadpool.c:189-288 | After any run every accepted job is in exactly one of queue, hand and thread, or finished; `finished` is raised at most once, and once when finished; a started job's proc has then run exactly once; and `hasCompleted` is 0 for its handlers exactly if the job was cancelled or used up a non-zero timeout. |
| ThreadPoolEffects.VerdictExactly | src/lib/ircbot/threadpool.c:189-490 | In any run from the acceptance of a job to its `finished` event: the handlers see `hasCompleted` 0 if and only if ThreadPool_cancel was called for it before the event was raised, or it has a timeout and that many ticks passed while a thread had it. |
| ThreadPoolProofs.RestMeansAllFinished | src/lib/ircbot/threadpool.c:265-270 | No job is stranded: a queued job is awaited by a busy thread or the main thread, and when no thread has a job every accepted one has finished. |
| ThreadPoolLiveness.OwnStepSettles | src/lib/ircbot/threadpool.c:106-271 | Every step of the pool that is no new request, cancellation or tick keeps the invariant and decreases a measure in which jobs still to be noticed count. |
| ThreadPoolLiveness.RestIsDone | src/lib/ircbot/threadpool.c:203-271 | Where no such step is possible the main thread is in its loop, no thread has a job, and every accepted job has finished and been raised once. |
| ThreadPoolLiveness.PoolSettles | src/lib/ircbot/threadpool.c:106-288 | So from any reachable state every schedule without new requests is finite, with a bound, and ends with every accepted job finished. |
| ThreadPoolStartup.PoolStartupRefines | src/lib/ircbot/threadpool.c:75-288 | A run of the whole pool from ThreadPool_init on in which the main thread never takes a startlock too early is, the start-up left out, one of the pool with all workers up. |
| ThreadPoolStartup.ConservedFromInit | src/lib/ircbot/threadpool.c:75-288 | So jobs are conserved in every such run from ThreadPool_init on. |
| ThreadPoolStartup.SettlesFromInit | src/lib/ircbot/threadpool.c:75-288 | And without new requests every such schedule is finite, with a bound, starting included, and ends with every accepted job finished. |
| ThreadTable.Threads.FindAvailable | src/lib/ircbot/threadpool.c:219-226 | The loop finds the first thread without a job. |
| ThreadTable.Threads.CheckThreadJobs | src/lib/ircbot/threadpool.c:273-288 | The loop ticks every thread's job, one after the other. |
| ThreadTable.Threads.CancelOnThread | src/lib/ircbot/threadpool.c:463-474 | The loop finds the thread that has the job and clears `hasCompleted` of that job alone. |
| IrcCommand.StrAfterParse | src/lib/ircbot/irccommand.c:7-106 | A parsed command that is not unknown has the parsed string as its name. |
| IrcCommand.ParseAfterStr | src/lib/ircbot/irccommand.c:108-324 | The name of every valid command parses back to it, padded numerics included. |
| IrcCommand.DeclaredAreNamed | include/ircbot/irccommand.h:14-227 | Every value of the enumeration has a name, and no other number has one: just those replies are recognised. |
| IrcCommand.CommandsInUse | src/lib/ircbot/ircserver.c:216-475 | The commands and replies that the library sends or acts upon are parsed from their names, 004 and PING among them. |
| IrcCommand.MessageCodesAreNotReplies | src/lib/ircbot/irccommand.c:9-17 | Three-digit numbers from 100 to 199 are never commands. |
| IrcMessage.FindEnd | src/lib/ircbot/ircmessage.c:24-33 | The 16-bit scan finds the first CR LF at or after the position, or reports that there is none. |
| IrcMessage.StrSep | src/lib/ircbot/ircmessage.c:91-91 | strsep cuts the first token in place and leaves the rest of the C string. |
| IrcMessage.SplitParams | src/lib/ircbot/ircmessage.c:84-92 | The loop over the cut-up copy yields the parameters of the uncut string. |
| IrcMessage.TakeParams | src/lib/ircbot/ircmessage.c:78-95 | The parameters are those of the copied bytes, and rawParams is restored after the cuts. |
| IrcMessage.TakePrefix | src/lib/ircbot/ircmessage.c:48-65 | Prefix and position of the command are those of the line. |
| IrcMessage.TakeCommand | src/lib/ircbot/ircmessage.c:67-95 | Command, parameters and raw parameters are those of the rest of the line. |
| IrcMessage.Create | src/lib/ircbot/ircmessage.c:21-98 | One call returns the parse of the first line and moves the position past its CR LF, skips an empty line, or moves nothing if no line is complete. |
| MessageFormat.ParamsOfPrinted | src/lib/ircbot/ircmessage.c:84-92 | Splitting printed parameters gives the parameters back, the trailing one included. |
| MessageFormat.ParsePrinted | src/lib/ircbot/ircmessage.c:43-97 | Parsing a printed line gives back prefix, command and parameters. |
| MessageFormat.RoundTrip | src/lib/ircbot/ircmessage.c:21-98 | For every well-formed message (section 2.3.1 of RFC 2812) with anything behind it, one call returns its parts and advances the position by its length and 2. |
| MessageFormat.ParamsBack | src/lib/ircbot/ircmessage.c:84-92 | The parameters of any string are the one way to split it at single spaces up to a parameter with a colon in front. |
| MessageFormat.LineBack | src/lib/ircbot/ircmessage.c:43-97 | From what the parser makes of any line without a NUL, well-formed or not, the line can be put together again. |
| MessageFormat.PartsAreCStrings | src/lib/ircbot/ircmessage.c:55-83 | If there is a NUL in a line, no part of the message goes beyond it. |
| MessageFormat.TrailingWithoutColon | src/lib/ircbot/ircmessage.c:84-92 | The grammar lets the parameter after fourteen others go without its colon; the parser agrees exactly if it has no space and no leading colon. |
| Reassembly.Receiver.Append | src/lib/ircbot/ircserver.c:189-190 | With at most 4096 bytes buffered, a chunk of at most 4096 fits into the 8192 bytes and is appended. |
| Reassembly.Receiver.TakeNext | src/lib/ircbot/ircserver.c:195-199 | One turn of the parse loop takes the first line, and the position grows by at least 2 or the buffer holds no more line. |
| Reassembly.Receiver.TakeMessages | src/lib/ircbot/ircserver.c:191-200 | The loop terminates and handles the messages of all complete lines in order. |
| Reassembly.Receiver.Keep | src/lib/ircbot/ircserver.c:201-214 | The unterminated rest is moved down, or dropped if it is longer than 4096 bytes; at most 4096 bytes remain. |
| Reassembly.Receiver.DataReceived | src/lib/ircbot/ircserver.c:189-214 | One call handles the lines of buffered and new bytes and leaves the rest in the buffer. |
| Reassembly.RestIsKept | src/lib/ircbot/ircserver.c:191-214 | Of each chunk all complete lines are handled, and the rest is kept exactly if it has at most 4096 bytes. |
| Reassembly.SplitAppend | src/lib/ircbot/ircserver.c:189-214 | Cutting a stream can be resumed from the unterminated tail. |
| Reassembly.FeedFits | src/lib/ircbot/ircserver.c:189-214 | Fed with any chunks of a stream that fits, the receiver handles the lines of the whole stream. |
| Reassembly.BytewiseLoses | src/lib/ircbot/ircserver.c:205-208 | A stream with a longer line loses bytes if it arrives byte by byte. |
| Reassembly.ChunkingIndependent | src/lib/ircbot/ircserver.c:189-214 | What is handled and what stays buffered does not depend on the chunks if and only if every line has at most 4095 bytes and the rest at most 4096. |
| Reassembly.FirstLineMisread | src/lib/ircbot/ircserver.c:158-177 | For streams that fit: behind bytes left from an earlier connection the lines come out as they would alone if and only if there were no such bytes; otherwise they lead its first line, unless a CR LF straddles the two. |
| Reassembly.ReconnectNeedsEmptyBuffer | src/lib/ircbot/ircserver.c:158-177 | Every stream with a line in it comes out as alone if and only if no bytes were left. |
| Segmentation.ShortLines | src/lib/ircbot/ircserver.c:580-607 | What a short message and a short action look like on the wire. |
| Segmentation.ChunkRoom | src/lib/ircbot/ircserver.c:592-594 | Every piece may have at least 236 bytes, and a full line has exactly 512. |
| Segmentation.ChunksJoin | src/lib/ircbot/ircserver.c:597-605 | The pieces are non-empty, make up the message, and all but the last are full, so the loop terminates. |
| Segmentation.LinesFit | src/lib/ircbot/ircserver.c:597-605 | Every line has at most 512 bytes, and all but the last exactly 512 (section 2.3 of RFC 2812). |
| Segmentation.BodyParses | src/lib/ircbot/ircserver.c:599-601 | Each line parses as PRIVMSG with the recipient and the piece, wrapped for an action. |
| Segmentation.SplitOfLines | src/lib/ircbot/ircserver.c:597-605 | Cutting the concatenated lines at CR LF gives back the lines and no rest. |
| Segmentation.EndToEnd | src/lib/ircbot/ircserver.c:580-607 | However the lines arrive, the receiving parser sees only PRIVMSGs to the recipient, and their payloads, with the wrapping of an action taken off, make up the message. |
| Segmentation.FormatHead | src/lib/ircbot/ircserver.c:590-593 | sprintf leaves the head of the line in the 513-byte buffer. |
| Segmentation.FormatLine | src/lib/ircbot/ircserver.c:599-601 | strncpy and strcpy stay inside the buffer and leave a C string of head, piece and end of line. |
| Queue.IBQueue.constructor | src/lib/ircbot/queue.c:40-49 | A new queue is empty. |
| Queue.IBQueue.Expand | src/lib/ircbot/queue.c:25-38 | Doubling a full ring, wrapped or not, keeps its contents in order. |
| Queue.IBQueue.Enqueue | src/lib/ircbot/queue.c:51-59 | Appends, whatever the wrap position and however often the ring has grown. |
| Queue.IBQueue.Dequeue | src/lib/ircbot/queue.c:61-68 | Removes and returns the oldest entry, or nothing exactly if the queue is empty. |
| Queue.IBQueue.Destroy | src/lib/ircbot/queue.c:70-83 | Calls the deleters of the remaining entries that have one, once each, oldest first. |
| Queue.ExpandAsWritten | src/lib/ircbot/queue.c:28-36 | With the byte count as written the contents of a full ring survive, whatever realloc left behind it, if and only if `front` is 0. |
| Queue.FullAndWrapped | src/lib/ircbot/queue.c:51-68 | From a new queue, filling it, taking one entry and putting one in gives a full ring with `front` not 0. |
| Service.Registry.TryReduceNfds | src/lib/ircbot/service.c:56-74 | After a removal the downward scan makes `nfds` one more than the largest registered descriptor again. |
| Service.Registry.RegisterRead | src/lib/ircbot/service.c:133-139 | Adds the descriptor; counts and `nfds` stay exact, also if it was there. |
| Service.Registry.UnregisterRead | src/lib/ircbot/service.c:141-147 | Removes the descriptor; counts and `nfds` stay exact, also if it was not there. |
| Service.Registry.RegisterWrite | src/lib/ircbot/service.c:149-155 | The same for writing. |
| Service.Registry.UnregisterWrite | src/lib/ircbot/service.c:157-163 | The same for writing. |
| Service.TightIsUnique | src/lib/ircbot/service.c:56-74 | The invariant determines `nfds`, which is 0 exactly if nothing is registered. |
| Event.RegisterAppends | src/lib/ircbot/event.c:38-68 | Registering, with or without compaction, appends to the list of registrations and leaves no tombstones if it compacted. |
| Event.UnregisterDrops | src/lib/ircbot/event.c:70-85 | Unregistering drops the oldest registration with that receiver, that handler and that id, and nothing exactly if there is none; all others stay in force, in order. |
| Event.CompactKeeps | src/lib/ircbot/event.c:41-57 | Compaction keeps the registrations and their order and removes all tombstones. |
| Event.DoAllRefines | src/lib/ircbot/event.c:38-85 | So does every sequence of both: the handler array refines a list of registrations. |
| Event.RaiseExactly | src/lib/ircbot/event.c:87-98 | A raise whose handlers register and unregister on the same event calls exactly the registrations in force at their turn, oldest first, each once and never a removed one, if and only if no handler leaves a newer registration that is due at or before the loop index. |
| Event.RaiseWithUnregistering | src/lib/ircbot/event.c:87-98 | Handlers that only unregister always meet that condition, so their raises are right. |
| Event.QuietRaise | src/lib/ircbot/event.c:87-98 | If handlers leave the event alone, a raise calls all registrations in force for its id and no others, in order. |
| Event.CompactionSkips | src/lib/ircbot/event.c:41-57 | A compaction under the loop index makes the loop pass over as many registrations as there were tombstones at or before it: it goes on with the right one if and only if there was none, or nothing was left to call. |
| Event.SkipHappens | src/lib/ircbot/ircchannel.c:135-137 | A handler that unregisters itself and registers another one, as here, makes the raise miss the handler behind it. |
| EventCode.EventObject.CompactInPlace | src/lib/ircbot/event.c:43-56 | The memmove loop removes exactly the tombstones. |
| EventCode.EventObject.RegisterHandler | src/lib/ircbot/event.c:38-68 | The code on the array, reallocation included, registers as specified. |
| EventCode.EventObject.UnregisterHandler | src/lib/ircbot/event.c:70-85 | The loop makes a tombstone of the first match and sets `dirty`. |
| EventCode.EventObject.RaiseEvent | src/lib/ircbot/event.c:87-98 | The loop, which reads size and array anew in every turn, calls what the specified raise calls. |
| Hashtable.HashStr | src/lib/ircbot/util.c:73-81 | The loop computes the 64-bit hash, and the result never exceeds the mask. |
| Hashtable.HashIsBase33 | src/lib/ircbot/util.c:73-81 | The hash is, modulo 2 to the 64, the number in base 33 whose digits are the bytes, behind 5381. |
| Hashtable.Index | src/lib/ircbot/hashtable.c:50-50 | With `bits` itself passed as the mask the index is still inside the table, for 2 to 8 bits. |
| Hashtable.IndexBits | src/lib/ircbot/hashtable.c:50-50 | Of the bits of the hash just those that are set in `bits` make up the index of a key's bucket. |
| Hashtable.SetUpdates | src/lib/ircbot/hashtable.c:47-76 | On the map that a table stands for, set changes the given key only; keys stay unique and in their buckets. |
| Hashtable.DeleteRemoves | src/lib/ircbot/hashtable.c:78-100 | And delete removes the given key only. |
| Hashtable.SetTotals | src/lib/ircbot/hashtable.c:59-75 | Set adds one pair unless the key was there, and exchanges the old object for the new one among those to destroy. |
| Hashtable.DeleteTotals | src/lib/ircbot/hashtable.c:89-99 | Delete takes away one pair and one object exactly if the key was there. |
| Hashtable.DroppedIs | src/lib/ircbot/hashtable.c:61-61 | The deleter runs for the object that goes, exactly if there is one and it came with a deleter. |
| Hashtable.FlattenOnce | src/lib/ircbot/hashtable.c:125-135 | Reading out all chains meets every key of the map exactly once, with its object. |
| HashtableCode.HashTable.Search | src/lib/ircbot/hashtable.c:50-58 | The walk along the linked entries ends at the key's entry, with the one before it, or behind the last one. |
| HashtableCode.HashTable.Get | src/lib/ircbot/hashtable.c:107-116 | Returns the object the map has for the key, or nothing. |
| HashtableCode.HashTable.Replace | src/lib/ircbot/hashtable.c:61-63 | Runs the old object's deleter once and changes no other entry. |
| HashtableCode.HashTable.Append | src/lib/ircbot/hashtable.c:67-73 | Links a new entry behind the last one of its bucket and changes no other chain. |
| HashtableCode.HashTable.UnlinkLater | src/lib/ircbot/hashtable.c:92-92 | Links past an entry that is not the first of its bucket. |
| HashtableCode.HashTable.UnlinkFirst | src/lib/ircbot/hashtable.c:93-93 | Takes the first entry out of its bucket. |
| HashtableCode.HashTable.Set | src/lib/ircbot/hashtable.c:47-76 | Updates the map; `count` is the summed length of the chains; every object stored with a deleter is still stored or was destroyed, once. |
| HashtableCode.HashTable.Delete | src/lib/ircbot/hashtable.c:78-100 | Removes the key, tells whether it was there, and keeps the same account. |
| HashtableCode.HashTable.Iterator | src/lib/ircbot/hashtable.c:118-137 | Fills exactly its `count` entries, one for every pair. |
| HashtableCode.HashTable.Destroy | src/lib/ircbot/hashtable.c:139-156 | Afterwards every object ever stored with a deleter has been destroyed exactly once. |
| HashtableCode.HashTableIterator.MoveNext | src/lib/ircbot/hashtable.c:158-163 | Moves on by one, and from behind the last entry to the first. |
| HashtableCode.HashTableIterator.VisitAll | src/lib/ircbot/hashtable.c:158-175 | A loop of moveNext over a fresh iterator sees every entry once, in order, and leaves it ready to start over. |
| WritePipe.WriteOk | src/lib/ircbot/connection.c:640-652 | A buffer and its id are accepted behind all others, or refused exactly if all 16 records are in use. Bytes written and bytes pending stay together the accepted bytes, ids raised and ids pending the accepted ids. |
| WritePipe.DoWriteOk | src/lib/ircbot/connection.c:246-279 | So does a write that takes all, some or none of the bytes, would block or fails. |
| WritePipe.DoWriteTakes | src/lib/ircbot/connection.c:246-279 | A write that takes n bytes sends the first n that are pending, and just those are no longer pending; the id is raised with the last byte of its record, and only then. A write that takes none, would block or fails sends nothing. |
| WritePipe.WireGrows | src/lib/ircbot/connection.c:246-279 | Over any run just as many bytes go over the wire as the writes take. |
| WritePipe.RunOk | src/lib/ircbot/connection.c:202-283 | So does every run, with calls of Connection_write from the handlers of `dataSent` among its steps. |
| WritePipe.FlushRaisesAll | src/lib/ircbot/connection.c:718-726 | The flush at destruction raises every id still due, in order, once, those of buffers accepted meanwhile included. |
| WritePipe.LifeOfAConnection | src/lib/ircbot/connection.c:640-726 | From creation to destruction every non-null id accepted is raised exactly once and in order, and the bytes written are a prefix of those accepted. |
| WritePipe.FlushAccepts | src/lib/ircbot/connection.c:718-726 | The flush accepts no write if and only if the handlers told about each pending id write nothing, the first of 16 records excepted, where a write is refused. |
| WritePipe.WriteAllIs | src/lib/ircbot/connection.c:640-652 | Of several buffers written at once, as many are accepted as there are free records, first come first served. |
| Connection.Connection.constructor | src/lib/ircbot/connection.c:452-537 | A new connection has nothing pending and the interest its mode asks for. |
| Connection.Connection.WantReadWrite | src/lib/ircbot/connection.c:122-153 | Registers for writing exactly while connecting or with records pending, and for reading exactly while no received data is being handled; no other descriptor is touched. |
| Connection.Connection.WriteBuf | src/lib/ircbot/connection.c:640-652 | Accepts a buffer and registers for writing, or refuses, exactly if all 16 records are in use, and then changes nothing. |
| Connection.Connection.DoWriteRecord | src/lib/ircbot/connection.c:246-279 | The ring of records follows the stream, and the bytes that write(2) took are those sent; write interest goes when the last record does. |
| Connection.Connection.WriteConnection | src/lib/ircbot/connection.c:285-341 | Finishes connecting, corrects the interest of an empty ring, or writes; the invariant of stream and interest holds afterwards. |
| Connection.Connection.CheckPendingConnection | src/lib/ircbot/connection.c:107-120 | Counts down while connecting and closes at 0. |
| Connection.Connection.ReadConnection | src/lib/ircbot/connection.c:380-440 | Whatever the handlers of received data do - start handling, confirm, write, close - the interest is right afterwards, and the connection closes if they or the read say so. |
| Connection.HandledWrites | src/lib/ircbot/connection.c:640-668 | Handlers of received data change the stream by their writes alone. |
| Connection.LastOneDecides | src/lib/ircbot/connection.c:662-668 | The last of them to start or confirm decides whether the data is still being handled. |
| Connection.Connection.ConfirmDataReceived | src/lib/ircbot/connection.c:662-668 | Resumes reading, or returns -1 exactly if nothing was being handled. |
| Connection.Connection.FlushRecords | src/lib/ircbot/connection.c:718-726 | The loop over the ring does what the specified flush does, and terminates. |
| Connection.Connection.Destroy | src/lib/ircbot/connection.c:711-761 | Every accepted id has been raised; the descriptor is unregistered afterwards if and only if, by the pending records and what handlers write for them, no write is accepted during the flush. |
| Connection.Connection.DeleteConnection | src/lib/ircbot/connection.c:442-450 | The same for a connection whose deletion was scheduled by Connection_close. |
| Connection.WriteDuringFlush | src/lib/ircbot/connection.c:711-726 | A connection whose handler writes while it is deleted leaves the descriptor registered. |
| SendPipeline.TrySendKeeps | src/lib/ircbot/ircserver.c:377-385 | With credit and nothing in flight the oldest queued command goes into flight and to the connection, whose ring is empty then, so the ignored result of Connection_write is never -1; otherwise nothing moves. |
| SendPipeline.SendRawKeeps | src/lib/ircbot/ircserver.c:371-386 | sendRaw appends the command to those given and loses none. |
| SendPipeline.WritableKeeps | src/lib/ircbot/ircserver.c:262-276 | A write that finishes the record confirms the command in flight; any other leaves it in flight and confirms nothing. |
| SendPipeline.StepKeeps | src/lib/ircbot/ircserver.c:262-386 | Every step keeps: given = confirmed, in flight, queued, in order; one pending record while sending and none otherwise; credit from 0 to 9. |
| SendPipeline.RunKeeps | src/lib/ircbot/ircserver.c:262-386 | Command conservation over every run of one connection that starts without a command in flight. |
| SendPipeline.WireIs | src/lib/ircbot/ircserver.c:371-386 | The bytes written are the confirmed commands, whole and in order, and a beginning of the one in flight. |
| SendPipeline.StepSpends | src/lib/ircbot/ircserver.c:314-321 | Twice the commands sent plus the credit grows by at most 1 in a tick and not at all in any other step but the refill. |
| SendPipeline.RateBound | src/lib/ircbot/ircserver.c:371-386 | Over any run without a refill twice the commands sent is at most 9 plus the calls of activeTick. |
| ServerLife.RateBound | src/lib/ircbot/ircserver.c:314-321 | While a connection lasts and until the next login, twice the commands handed to it is at most 9 plus, for each tick of the service, the number of activeTick's registrations. |
| ServerLife.AtMostFourBeforeLogin | src/lib/ircbot/ircserver.c:150-154 | Until the first login at most four commands leave on any connection, whatever the ticks, since activeTick is not registered yet. |
| SendPipeline.Prompt | src/lib/ircbot/ircserver.c:377-385 | After any step but the refill a queued command waits only for credit or for the one in flight. |
| SendPipeline.TwoTicksSend | src/lib/ircbot/ircserver.c:314-321 | Two ticks are enough for the next command. |
| SendPipeline.Drains | src/lib/ircbot/ircserver.c:262-321 | From every state all commands given so far can be confirmed with at most two ticks for each one queued. |
| SendPipeline.FourAfterLogin | src/lib/ircbot/ircserver.c:414-415 | After a login four commands can be sent and confirmed without a single tick. |
| SendPipeline.EveryScheduleDrains | src/lib/ircbot/ircserver.c:262-321 | In every schedule without new commands the writes that get on and the ticks that a command waits for are bounded, the ticks by two for each queued command and one, and when there are no more of either, all commands given are confirmed. |
| ServerLife.LifeKeeps | src/lib/ircbot/ircserver.c:136-386 | Over the whole life of a server object, through any closes, reconnections and logins, each connection either conserves commands as above or gets none at all. |
| ServerLife.UpIsPipeline | src/lib/ircbot/ircserver.c:262-386 | Between two pieces of received data a connection that is up does what the pipeline of `SendPipeline` does with the same commands, writes and ticks and the ping: all that is proved of that one holds. |
| ServerLife.PingThenClose | src/lib/ircbot/ircserver.c:323-335 | After any received data a connection stays up for another 182 ticks without data; the commands given in that time are those given by others and one ping, with the 180th tick; and the 183rd closes it. |
| ServerLife.OnePing | src/lib/ircbot/ircserver.c:323-328 | In ticks without data just one ping is given, or none if there are not enough of them. |
| ServerLife.DataRestarts | src/lib/ircbot/ircserver.c:180-200 | Received data starts the count of idle ticks again; the login reply also refills the credit and registers activeTick once more. |
| ServerLife.ClosingLeaves | src/lib/ircbot/ircserver.c:158-177 | A close drops queue and connection and leaves 5 or 300 ticks to wait; what is in flight, credit, idle ticks and registrations stay. |
| ServerLife.WaitsExactly | src/lib/ircbot/ircserver.c:278-296 | An object that waits tries to connect with the last of its ticks and not before, and waits for 300 more if that fails. |
| ServerLife.ConnectingGives | src/lib/ircbot/ircserver.c:136-156 | A connection that comes up gets an empty queue and full credit and keeps all else. |
| ServerLife.ReconnectSends | src/lib/ircbot/ircserver.c:158-177 | After a close, some command can be handed to a later connection if and only if none was in flight and activeTick was not registered any more. |
| ServerLife.SafeUntilLogin | src/lib/ircbot/ircserver.c:314-337 | After a close, no run until the next login uses a null pointer if and only if activeTick was not registered any more. |
| ServerLife.DownTickExactly | src/lib/ircbot/ircserver.c:314-337 | Without a queue activeTick uses a null pointer exactly if a command could be sent, a ping is due, or the ping has timed out and there is no connection; otherwise it closes a connection that is still being made once the ping has timed out. |
| ServerLife.FailedWriteCloses | src/lib/ircbot/ircserver.c:158-166 | A write that fails closes the connection like any other end of one that was up. |
| ServerLife.IdleCloseCrashes | src/lib/ircbot/ircserver.c:314-337 | A run: login, a close with nothing in flight, and the next tick dequeues from the queue that is gone. |
| ServerLife.CloseInFlightSilences | src/lib/ircbot/ircserver.c:158-177 | A run: a close with a command in flight, before login, and nothing is ever sent again. |
| IrcServer.IrcServer.constructor | src/lib/ircbot/ircserver.c:85-112 | A server object that has been created and is connecting starts the life modelled above. |
| IrcServer.IrcServer.ConnConnected | src/lib/ircbot/ircserver.c:136-156 | A connection that is up gets an empty queue and full credit; `sending` stays as it was. |
| IrcServer.IrcServer.ConnClosed | src/lib/ircbot/ircserver.c:158-177 | Queue and connection are gone; what is in flight, the credit, the idle ticks and activeTick's registration stay. |
| IrcServer.IrcServer.ConnWaitReconn | src/lib/ircbot/ircserver.c:278-296 | Counts down to the next attempt to connect, and starts over if that fails. |
| IrcServer.IrcServer.SendRaw | src/lib/ircbot/ircserver.c:371-386 | The code on queue, connection and fields follows the specified step. |
| IrcServer.IrcServer.ConnDataSent | src/lib/ircbot/ircserver.c:262-276 | Likewise for the confirmation, which restarts the sending. |
| IrcServer.IrcServer.ActiveTick | src/lib/ircbot/ircserver.c:314-337 | Likewise for the tick at any time, connected or not: credit, sending, the ping and its timeout; and it uses a null pointer exactly when the specified step does. |
| IrcServer.IrcServer.UpTick | src/lib/ircbot/ircserver.c:314-337 | While there is a queue the tick uses no null pointer. |
| IrcServer.IrcServer.PingTimeout | src/lib/ircbot/ircserver.c:329-335 | The timeout takes activeTick off before it closes the connection. |
| IrcServer.IrcServer.LoggedIn | src/lib/ircbot/ircserver.c:414-417 | The login reply gives full credit and registers activeTick once more. |
| IrcServer.IrcServer.WriteReady | src/lib/ircbot/ircserver.c:262-276 | Likewise when the descriptor becomes writable, through the connection's code and the event it raises; a write that fails closes the connection. |
| IrcServer.IrcServer.SendMsg | src/lib/ircbot/ircserver.c:580-607 | At any time, connected or not: refused exactly before login or for a recipient of more than 255 bytes; otherwise each line of the message is given to sendRaw in order. |
| Delivery.ArriveInOrder | src/lib/ircbot/ircserver.c:262-386 | Over any run of one connection, whatever is given, written, refused or ticked, and for any cutting of the bytes into packets, the messages handled at the other end are those of the confirmed commands, in order, and the rest is a part of the command in flight. |
| Delivery.LinesAreCommands | src/lib/ircbot/ircserver.c:580-607 | The lines of a message are such commands, and stand for PRIVMSGs to the recipient whose payloads make up the message. |
| Delivery.Delivered | src/lib/ircbot/ircserver.c:580-607 | So a message sent among any other commands, login and pongs included, is handled at the other end once its lines are confirmed, right behind what was given before it. |

## Left out

- TLS branches of `connection.c`; sockets, address resolution, blacklisting and the client connect code.
- `pselect`, signals, timers and the startup and shutdown shell of `Service_run`; only the descriptor registry remains,
  as sets and without the limit of FD_SETSIZE.
- Job panics, failed threads and their restart, SIGUSR1, and ThreadPool_done beyond stopThreads.
- HandshakeStartup.StartupRefines: locking a mutex and setting up signals are assumed to succeed.
- Handshake.StepInv: assumes condition waits without spurious wakeups, since the code has no loop around them, and
  treats lock, wait and signal as atomic. It is a state machine over values, since its threads interleave.
- HandshakeLiveness.OperationsReturn: job procs are assumed to finish, and handlers to return.
- ThreadPoolProofs.CancelQueuedKeeps: cancelling is one atomic step, although it reads the ring without `queuelock`
  and raises the event in between.
- ThreadPoolEffects.VerdictExactly: a timeout is a natural number.
- ThreadTable.Threads.CheckThreadJobs: the jobs are a map from identities to records, not heap objects.
- Queue.IBQueue.Expand: copies whole entries, which is what the code means to do; `Queue.ExpandAsWritten` is about what
  it does.
- Event.RaiseExactly: raising an event from its own handlers is not modelled.
- HashtableCode.HashTable.Set: deleters are recorded, not run, and do not use the table. Freed memory is not modelled.
- Connection.Connection.Destroy: of what handlers of `dataSent` may do during the flush, only writing is modelled.
- Connection.Connection.DeleteConnection: likewise.
- Connection.Connection.ReadConnection: the received bytes themselves are those of `Reassembly.dfy`.
- SendPipeline.RateBound: counts calls of activeTick; `ServerLife.RateBound` counts ticks of the service.
- IrcServer.IrcServer.LoggedIn: the RPL_MYINFO case only. Login commands, nick handling, channels and the log-in timeout
  are not modelled except as commands given and as a reason to close.
- IrcServer.IrcServer.constructor: gives the fields that IrcServer_create leaves unset a value; none is read before the
  code sets it.
- ServerLife.LifeKeeps: in a tick the handlers of other objects do not make the raise pass over this object's; what such
  a compaction does is in `Event.dfy`. IrcServer_disconnect is a command given or a close, without taking connWaitReconn
  off; IrcServer_destroy is not modelled.
- ServerLife.PingThenClose: for one registration of activeTick; a second login makes each tick count twice.
- ServerLife.SafeUntilLogin: a null pointer that is used ends the run as `crashed`.
- Delivery.ArriveInOrder: for commands of at most 4095 bytes that end in CR LF, with no other CR, LF or NUL.
- sendRawCmd: the truncation of commands that do not fit into its 513-byte buffer.
- IrcMessage.Create: logging and memory; IBList is a sequence.
- Allocation failure everywhere.
- `ircchannel.c`, `ircbot.c`, `client.c`, `list.c`, `stringbuilder.c`, `log.c`, `daemon.c` and the other helpers of
  `util.c`: timers that depend on the compaction above, or easier than what is here.
