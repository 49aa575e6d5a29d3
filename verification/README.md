# ThreadLibrary: verified model

ThreadLibrary is a reactor library: an event loop per thread, a poller, TCP connections with
growable buffers, a thread pool and an asynchronous logger.  This project models its concurrent
protocols, its index and storage structures, its send path and its printer in Dafny, and proves
what they promise.

Where several threads meet, there are two layers.

* A `...Spec` module holds a state machine: one step for each critical section or other access to
  shared state.  A step that is not enabled leaves the state alone, so every list of actions is a
  run, and the main results are about every run: any number of threads, any interleaving, spurious
  wake-ups, partial writes and errors included.
* The module without the suffix holds the class, with the source's fields and statements.  Its
  methods are proved to be steps or runs of the state machine; a method that gives up a lock, waits
  or calls user code takes the other threads' steps as a parameter and is correct for all of them.

| modules | source | what is proved |
|---|---|---|
| `EventLoopSpec`, `EventLoops` | `EventLoop.cpp` | no lost wake-up, progress, each task once and in order, fixed batches |
| `ThreadPoolSpec`, `ThreadPools` | `ThreadPool.cpp` | no lost signal, no deadlock before stop, conservation, bounded shutdown |
| `AsyncLoggingSpec`, `AsyncLoggings` | `AsyncLogging.cpp` | conservation of bytes, buffer ownership, spare buffers, exit |
| `PollerSpec`, `Pollers` | `Poller.cpp`, `Channel.cpp` | agreement of slots, map and positions held in channels; the scan |
| `BufferSpec`, `Buffers`, `Endian` | `Buffer.cpp`, `Endian.hpp` | refinement of a byte sequence, growth bound, network integers, CRLF search |
| `TcpSpec`, `TcpConnections` | `TcpConnection.cpp` | output stream order, interest and backlog, half-close |
| `Printing`, `FixedBuffers`, `LogStreams` | `utils.cpp`, `FixBuffer.hpp`, `LogStream.cpp` | exact decimal and hexadecimal text, bounded log line |

## Where the code does less than its names suggest

The model follows the code.  Each of these is proved, with the exact condition where there is one.

* `QueueInLoop` on the loop thread before `Loop` wakes nobody; entering `Loop` is safe exactly when
  the queue is empty or a wake-up is there or coming (`SafeEntryExactly`, `EarlyTaskIsStranded`).
* `Loop` clears `quit_` as it begins, so a `Quit` before it is lost (`EarlyQuitIsForgotten`,
  `QuitEndsLoop`).
* `UpdateChannel` mutes a slot without interest only on an update, not on a registration
  (`EveryRunAgrees`, `MutedIsSilent`).
* `stop` signals only `notEmpty_`; from then on a producer blocked in `runTask` can return exactly
  when a worker is still on its way to one more task, short of a spurious wake-up
  (`BlockedReturnsExactly`, `AbandonedForEver`, `StopStrandsProducer`).
* The back end of the logger leaves its loop without a last swap; what was waiting at `Stop` is lost
  unless the back end had a swap ahead of it (`FileAtExit`, `AtExit`, `LateLinesAreLost`,
  `LastLineIsLost`).
* A message sent while there is a backlog, or whose direct write fails with EAGAIN, is discarded
  whole, because `remainning` starts at 0 (`AcceptedExactly`, `SecondMessageIsLost`,
  `EagainLosesMessage`).
* A `Send` or a `Shutdown` of another thread breaks the half-close when its queued task is run too
  late: exactly when the `Send` reaches the socket after SHUT_WR, or the `Shutdown` finds the backlog
  a close has left (`HalfCloseBreaksExactly`, `LateWriteHappens`, `ShutdownOverBacklogHappens`).
* A `Shutdown` or `ForceClose` of another thread that assigns the status after a close revives a
  connection with a backlog nobody writes (`InterestFollowsBacklog`, `ForeignStatusHappens`).
* `RemoveChannel` does not reset `poll_index_`, and `HandleClose` updates the channel after removing
  it; that is a write past the end or breaks the agreement (`UpdateExactly`, `RemoveExactly`,
  `StaleUseBreaks`).
* `EventLoop` asks for a timeout of 1000, but `Poller::Poll` passes -1: the wait is infinite, and
  the model takes it so.  `Buffer` ignores its `initialSize` and starts at 1032 bytes.

## Model

| member | source | states |
|---|---|---|
| `EventLoopSpec.NeverLost` | framework/net/src/EventLoop.cpp:53-176 | in every state reached by any run without early queueing: in poll with a task queued or quit set, the eventfd is positive or a thread has its WakeUP to do; and HandleRead never finds the eventfd empty |
| `EventLoopSpec.StepKeepsInv` | framework/net/src/EventLoop.cpp:53-176 | the invariant over all loop phases and half-finished producers is inductive, for early queueing too when a wake-up is coming |
| `EventLoopSpec.SafeEntryExactly` | framework/net/src/EventLoop.cpp:53-76 | from an idle loop, no continuation of Loop loses a wake-up if and only if the queue is empty, the eventfd positive, or a WakeUP still to come |
| `EventLoopSpec.EarlyTaskIsStranded` | framework/net/src/EventLoop.cpp:95-103 | a task queued on the loop thread before Loop is stranded in poll: no counter, no waker |
| `EventLoopSpec.QuitEndsLoop` | framework/net/src/EventLoop.cpp:53-81 | after a Quit, from any thread, and whatever follows short of entering Loop anew, quit_ stays set and the next test leaves the loop |
| `EventLoopSpec.EarlyQuitIsForgotten` | framework/net/src/EventLoop.cpp:60-62 | a Quit before Loop is lost: a run that ends in poll with quit_ cleared |
| `EventLoopSpec.LoopMakesProgress` | framework/net/src/EventLoop.cpp:62-74 | from poll with work or a quit pending, the loop thread and at most one thread that already owes its wake-up run every queued task, and end the loop on quit |
| `EventLoopSpec.TurnRuns` | framework/net/src/EventLoop.cpp:62-74 | one turn of the loop with a readable eventfd executes exactly the queue, in order, leaves the eventfd empty, and returns to poll or leaves on quit |
| `EventLoopSpec.ExactlyOnceInOrder` | framework/net/src/EventLoop.cpp:95-176 | executed tasks, the rest of the batch, and the queue are always all queued tasks in lock order |
| `EventLoopSpec.QueuedExactly` | framework/net/src/EventLoop.cpp:95-103 | over every run the queued tasks are exactly those handed to QueueInLoop, in lock order |
| `EventLoopSpec.HandlerTaskRunsThisRound` | framework/net/src/EventLoop.cpp:70-73 | a task a handler queues is in the batch of the same round, without a wake-up |
| `EventLoopSpec.BatchIsFixed` | framework/net/src/EventLoop.cpp:165-176 | while one DoPendingTask runs, only its own batch is executed, one task at a time in order, and it can end only when all of it has been |
| `EventLoops.EventLoop.WakeUP` | framework/net/src/EventLoop.cpp:149-155 | the eventfd counter goes up by one, or stays at its maximum; it is positive afterwards |
| `EventLoops.EventLoop.HandleRead` | framework/net/src/EventLoop.cpp:157-163 | the read empties the counter and is the step Handle |
| `EventLoops.EventLoop.QueueInLoop` | framework/net/src/EventLoop.cpp:87-103 | from another thread: the task is queued next in lock order, anything at all may happen, and the wake-up leaves the counter positive |
| `EventLoops.EventLoop.QueueFromLoop` | framework/net/src/EventLoop.cpp:95-103 | from the loop thread: a push, with a wake-up exactly while a batch runs |
| `EventLoops.EventLoop.Quit` | framework/net/src/EventLoop.cpp:78-81 | from another thread: quit_ is set when it returns, unless Loop was entered meanwhile, and the loop is woken |
| `EventLoops.EventLoop.QuitFromLoop` | framework/net/src/EventLoop.cpp:78-81 | from the loop thread: sets quit_ and wakes the loop |
| `EventLoops.EventLoop.DoPendingTask` | framework/net/src/EventLoop.cpp:165-176 | whatever other threads and the called tasks do, exactly the tasks queued at the swap are executed, in order |
| `EventLoops.EventLoop.CallTask` | framework/net/src/EventLoop.cpp:172-174 | one task of the batch is executed, with its calls complete when it returns |
| `EventLoops.EventLoop.HandleAll` | framework/net/src/EventLoop.cpp:70-72 | the handlers called are those of the ready channels, each once and in order, whatever the handlers and other threads do |
| `EventLoops.EventLoop.Loop` | framework/net/src/EventLoop.cpp:53-76 | the whole loop, under any interference, is a run of the state machine and is left exactly when quit_ is set |
| `ThreadPoolSpec.StepHolds` | framework/thread/src/ThreadPool.cpp:40-94 | each step keeps: a sleeping worker means at most as many queued tasks as woken workers, a blocked producer at most as many free slots as woken producers, the bound on the queue, and no sleeping worker after stop |
| `ThreadPoolSpec.EveryRunHolds` | framework/thread/src/ThreadPool.cpp:40-94 | those signal invariants hold over every run, spurious wake-ups and barging included |
| `ThreadPoolSpec.NoDeadlock` | framework/thread/src/ThreadPool.cpp:61-94 | before stop, with a worker, no reachable state has a queued task or a blocked producer without a thread that is awake and can act |
| `ThreadPoolSpec.QueuedTaskIsTaken` | framework/thread/src/ThreadPool.cpp:49-77 | within three steps of one awake worker the oldest queued task is taken |
| `ThreadPoolSpec.TasksConserved` | framework/thread/src/ThreadPool.cpp:61-94 | over every run the tasks submitted are those taken followed by the queue, and a positive capacity is never exceeded |
| `ThreadPoolSpec.QueueMoves` | framework/thread/src/ThreadPool.cpp:40-94 | each step, stop included, moves the queue only by the submission of a producer that gets past the bound and by the take of the oldest task |
| `ThreadPoolSpec.OwnMove` | framework/thread/src/ThreadPool.cpp:49-94 | a worker sleeps exactly when it finds the queue empty and running_ set; a producer blocks exactly when it finds the queue full; a worker exits exactly when its test finds running_ false |
| `ThreadPoolSpec.SignalsOne` | framework/thread/src/ThreadPool.cpp:61-90 | each critical section wakes at most the one thread it picks |
| `ThreadPoolSpec.WorkersExit` | framework/thread/src/ThreadPool.cpp:40-59 | after stop no worker sleeps, each takes at most one more task and has at most three steps of its own before it exits |
| `ThreadPoolSpec.WorkerNeverStuck` | framework/thread/src/ThreadPool.cpp:40-59 | after stop a worker that has not exited always has its next step |
| `ThreadPoolSpec.BlockedReturnsExactly` | framework/thread/src/ThreadPool.cpp:40-47 | from any state after stop, a blocked producer can ever return without a spurious wake-up of its own if and only if a worker is on its way to one more task; with one, also if the queue is not full |
| `ThreadPoolSpec.AbandonedForEver` | framework/thread/src/ThreadPool.cpp:40-47 | once all workers have exited it never returns without one, the queue full or not |
| `ThreadPoolSpec.StopStrandsProducer` | framework/thread/src/ThreadPool.cpp:40-47 | a run from start in which stop leaves a producer blocked on a full queue with every worker gone, from where no run lets it return |
| `ThreadPools.ThreadPool.Take` | framework/thread/src/ThreadPool.cpp:61-77 | the wait loop is a run; it returns the oldest task, or none only when stopped with an empty queue |
| `ThreadPools.ThreadPool.RunTask` | framework/thread/src/ThreadPool.cpp:79-90 | runs inline without workers; otherwise the wait loop is a run that ends with the task submitted, or with the caller still blocked |
| `ThreadPools.ThreadPool.RunInThread` | framework/thread/src/ThreadPool.cpp:49-59 | the worker's loop is a run; it exits only when running_ is false |
| `ThreadPools.ThreadPool.StopAll` | framework/thread/src/ThreadPool.cpp:40-45 | the critical section clears running_, wakes every sleeping worker and no producer, and leaves the queue alone |
| `ThreadPools.ThreadPool.Stop` | framework/thread/src/ThreadPool.cpp:40-47 | stop with its joins is a run that begins with that step, and it returns exactly when every worker has exited |
| `AsyncLoggingSpec.EveryRun` | framework/log/src/AsyncLogging.cpp:49-131 | over every run: no null buffer is used and no assert fails, no buffer has two owners, spares are present and empty at each loop head, and accepted bytes are the swapped batches followed by what still waits |
| `AsyncLoggingSpec.SparesKept` | framework/log/src/AsyncLogging.cpp:49-127 | each step keeps currentBuffer_ non-null, a null nextBuffer_ only with buffers_ non-empty, and both local spares non-null and empty outside the unlocked work |
| `AsyncLoggingSpec.OwnedKept` | framework/log/src/AsyncLogging.cpp:49-127 | each step, the drop and the resize included, leaves every buffer with one owner |
| `AsyncLoggingSpec.ConservedKept` | framework/log/src/AsyncLogging.cpp:49-127 | each step conserves the accepted bytes and writes each batch whole and in order, or the notice and its first two buffers when over 25 |
| `AsyncLoggingSpec.FileAtExit` | framework/log/src/AsyncLogging.cpp:75-131 | from any state after Stop, with nothing logged from then on, the file ends up as the rendering of all batches, the one still ahead included, and the accepted bytes are those of the batches followed by what was waiting with no swap ahead |
| `AsyncLoggingSpec.AtExit` | framework/log/src/AsyncLogging.cpp:75-131 | so, with no batch dropped before or after, the file ends up with all accepted bytes if and only if the back end had a swap ahead of it or nothing was waiting; otherwise it lacks exactly what was waiting |
| `AsyncLoggingSpec.LateLinesAreLost` | framework/log/src/AsyncLogging.cpp:49-131 | after Stop, once no swap is ahead, nothing that front ends still log reaches the file |
| `AsyncLoggingSpec.LastLineIsLost` | framework/log/src/AsyncLogging.cpp:75-131 | a run from start in which an accepted line never reaches the file |
| `AsyncLoggingSpec.LoggerLineIsTaken` | framework/log/src/AsyncLogging.cpp:49-63 | any line a LogStream can hold is taken whole by Append, in any reachable state |
| `AsyncLoggingSpec.StopTerminates` | framework/log/src/AsyncLogging.cpp:37-41 | after Stop the back end has at most four steps left in any run |
| `AsyncLoggingSpec.NeverStuck` | framework/log/src/AsyncLogging.cpp:75-88 | until it exits the back end always has a step, because the wait is timed |
| `AsyncLoggingSpec.PhaseMoves` | framework/log/src/AsyncLogging.cpp:75-88 | the back end begins to wait exactly when it locks with no full buffer queued, and exits exactly on a test after Stop |
| `AsyncLoggingSpec.FullBuffersGoOut` | framework/log/src/AsyncLogging.cpp:76-87 | with a full buffer queued its next lock takes all full buffers and then the current one, whatever the front ends do before |
| `AsyncLoggingSpec.StopStays` | framework/log/src/AsyncLogging.cpp:37-41 | after Stop running_ is false in every later state, and the next test of it is the exit |
| `AsyncLoggingSpec.AppendedExactly` | framework/log/src/AsyncLogging.cpp:89-107 | over 25 buffers the notice and the first two are written, otherwise all, in order |
| `AsyncLoggingSpec.NoticeReadsBack` | framework/log/src/AsyncLogging.cpp:90-97 | the notice names the number of buffers dropped |
| `AsyncLoggings.AsyncLogging.Append` | framework/log/src/AsyncLogging.cpp:49-63 | with room left the line joins the current buffer and nothing else changes; otherwise that buffer is queued and the line goes to the spare or a new one |
| `AsyncLoggings.AsyncLogging.SwapOut` | framework/log/src/AsyncLogging.cpp:81-86 | the moves and the swap are the step that hands the batch over |
| `AsyncLoggings.AsyncLogging.Lock` | framework/log/src/AsyncLogging.cpp:76-87 | waits, with nothing moved, exactly when buffers_ is empty; otherwise hands over the full buffers and then the current one |
| `AsyncLoggings.AsyncLogging.WriteBatch` | framework/log/src/AsyncLogging.cpp:89-107 | the drop rule and the write loop append exactly the notice and the surviving buffers |
| `AsyncLoggings.AsyncLogging.Work` | framework/log/src/AsyncLogging.cpp:89-128 | the unlocked work is the step Work, with both asserts of the refill discharged |
| `AsyncLoggings.AsyncLogging.ThreadFunc` | framework/log/src/AsyncLogging.cpp:65-131 | the back end's loop, with front ends wherever the lock is free, is a run and is left only when running_ is false |
| `PollerSpec.EveryRunAgrees` | framework/net/src/Poller.cpp:43-87 | after any sequence of first registrations, updates, removals and polls, slots and channels agree both ways and stand for a plain map: each fd in it has a slot that gives poll the interest last set, or hides the fd if that was none |
| `PollerSpec.MutedIsSilent` | framework/net/src/Poller.cpp:54-63 | after an update without interest, until the fd is updated or removed, its slot is hidden and no poll makes it ready |
| `PollerSpec.PollSetsRevents` | framework/net/src/Poller.cpp:17-29 | any answer poll may give sets the revents and nothing else |
| `PollerSpec.RegisterExactly` | framework/net/src/Poller.cpp:45-53 | a registration keeps the agreement if and only if the fd is valid and not in the map |
| `PollerSpec.ModifyKeeps` | framework/net/src/Poller.cpp:54-63 | an update of a registered channel keeps the agreement; its slot is muted exactly when there is no interest |
| `PollerSpec.RemoveKeeps` | framework/net/src/Poller.cpp:71-87 | removal by swap with the last slot keeps the agreement, for the moved channel too |
| `PollerSpec.UpdateExactly` | framework/net/src/Poller.cpp:43-64 | an update of any channel with an fd from the system keeps the agreement if and only if it is fresh with a fresh fd, or registered, or rewrites a slot with what is there |
| `PollerSpec.RemoveExactly` | framework/net/src/Poller.cpp:71-87 | a removal keeps the agreement if and only if the position given is that of the registered fd |
| `PollerSpec.StaleUseBreaks` | framework/net/src/TcpConnection.cpp:262-265 | updating or removing a removed channel again uses a position past the end if its slot was the last, and otherwise always breaks the agreement or meets a null pointer |
| `PollerSpec.ScanIsPrefix` | framework/net/src/Poller.cpp:31-41 | the early exit finds the first numEvents ready slots, and all of them once numEvents reaches their number |
| `PollerSpec.ReadyIsRegistered` | framework/net/src/Poller.cpp:33-37 | the fd of a ready slot is always in the map, at that slot |
| `Pollers.Poller.UpdateChannel` | framework/net/src/Poller.cpp:43-64 | for any channel whose position is no further than the slots, removed ones included, is the update of the index that UpdateExactly speaks of: the slot is appended, or rewritten and muted exactly when there is no interest, and no other slot changes |
| `Pollers.Poller.RemoveChannel` | framework/net/src/Poller.cpp:71-87 | for any channel whose position lies in the slots, removed ones included, drops its fd and moves the last slot into its place; agreement is kept exactly when the position is that of the registered fd; the removed channel keeps its position |
| `Pollers.Poller.FillActiveChannels` | framework/net/src/Poller.cpp:31-41 | lists the ready channels in slot order, each once and with its slot's revents set on it; all of them when numEvents is their number |
| `Pollers.Poller.HasChannel` | framework/net/src/Poller.cpp:66-69 | the lookup by fd is true exactly for the channels registered under any fd at all |
| `Pollers.Channel.EnableReading` | framework/net/src/Channel.cpp:35-42 | sets or clears reading, leaves writing alone, and updates the index; agreement with the poller is kept exactly when the channel is fresh, registered, or changes nothing |
| `Pollers.Channel.EnableWriting` | framework/net/src/Channel.cpp:44-51 | sets or clears writing, leaves reading alone, and updates the index; agreement with the poller is kept exactly when the channel is fresh, registered, or changes nothing |
| `Pollers.Channel.DisableAll` | framework/net/src/Channel.cpp:65-68 | clears the interest and mutes the slot; agreement with the poller is kept exactly when the channel is fresh, registered, or changes nothing |
| `Pollers.InterestBits` | framework/net/src/Channel.cpp:35-63 | reading and writing are independent halves of the interest set |
| `Pollers.PollBits` | framework/net/src/Channel.cpp:35-63 | reading is POLLIN and POLLPRI, writing POLLOUT, and no other bit changes |
| `BufferSpec.GrowthBound` | framework/net/src/Buffer.cpp:127-141 | over any run from any geometry, with requests of at most L and at most R readable bytes, the size stays within the larger of the first size and R + L + 7 |
| `BufferSpec.GrowthBoundIsTight` | framework/net/src/Buffer.cpp:283-297 | for every L of at least 1024 a three-step run from the fresh buffer reaches that bound |
| `BufferSpec.Ensured` | framework/net/src/Buffer.cpp:137-141 | room is made without changing what is readable, by growth exactly when writable < len and size < readable + len + 8, and by compaction to eight bytes of head room otherwise |
| `BufferSpec.Search` | framework/net/src/Buffer.cpp:57-72 | the least CR LF at or after the start, or none |
| `BufferSpec.ResumeSearch` | framework/net/src/Buffer.cpp:62-72 | with no CR LF before an append, resuming one byte before the old end finds what a full search finds |
| `Buffers.Buffer.AppendAndResume` | framework/net/src/Buffer.cpp:62-131 | on the buffer itself, wherever the append moved the storage |
| `Buffers.Buffer.MakeSpace` | framework/net/src/Buffer.cpp:283-297 | growth or overlapping compaction keeps the readable bytes and makes the room, and both asserts hold |
| `Buffers.Buffer.CopyDown` | framework/net/src/Buffer.cpp:289-292 | the overlapping forward copy moves the readable bytes unchanged |
| `Buffers.Buffer.EnsureWritableBytes` | framework/net/src/Buffer.cpp:137-141 | keeps the readable bytes and leaves room for len |
| `Buffers.Buffer.Append` | framework/net/src/Buffer.cpp:127-131 | the readable bytes become the old ones followed by the data |
| `Buffers.Buffer.HasWritten` | framework/net/src/Buffer.cpp:151-156 | takes over bytes already stored, or aborts exactly when they do not fit |
| `Buffers.Buffer.Unwrite` | framework/net/src/Buffer.cpp:158-163 | drops the last len readable bytes, or aborts exactly when there are fewer |
| `Buffers.Buffer.Prepend` | framework/net/src/Buffer.cpp:262-269 | puts the data in front, or aborts exactly when the head room is too small |
| `Buffers.Buffer.Retrieve` | framework/net/src/Buffer.cpp:74-80 | drops the first len readable bytes, or all of them and restores the head room of eight bytes |
| `Buffers.Buffer.RetrieveAll` | framework/net/src/Buffer.cpp:108-111 | empties the buffer and restores the head room of eight bytes |
| `BufferSpec.EmptiedTakesPrepend` | framework/net/src/Buffer.cpp:74-111 | once emptied, whatever happened before, a Prepend succeeds exactly for up to eight bytes |
| `Buffers.Buffer.RetrieveUntil` | framework/net/src/Buffer.cpp:82-90 | drops the bytes before end, none or all when end is outside, in spite of the second Retrieve and the size_t conversion |
| `Buffers.Buffer.RetrieveAsString` | framework/net/src/Buffer.cpp:117-125 | the result followed by what is left is what was readable |
| `Buffers.Buffer.RetrieveAllAsString` | framework/net/src/Buffer.cpp:113-115 | returns everything and empties the buffer |
| `Buffers.Buffer.FindCRLF` | framework/net/src/Buffer.cpp:62-72 | the first CR LF of the readable bytes from the clamped start, none past the end |
| `Buffers.Buffer.ReadFd` | framework/net/src/Buffer.cpp:299-320 | appends exactly the bytes received, for every count the iovec allows, and nothing on an error |
| `Buffers.Buffer.AppendInt` | framework/net/src/Buffer.cpp:165-182 | appends the big-endian two's-complement bytes, on either host |
| `Buffers.Buffer.PrependInt` | framework/net/src/Buffer.cpp:243-260 | puts those bytes in front, or aborts exactly when the head room is too small |
| `Buffers.Buffer.PeekInt` | framework/net/src/Buffer.cpp:208-241 | loads the first bytes, or nothing exactly when there are too few |
| `Buffers.Buffer.ReadInt` | framework/net/src/Buffer.cpp:184-206 | loads and drops the first bytes |
| `Endian.NetworkOrder` | framework/net/include/Endian.hpp:9-19 | a value swapped for the network lies in memory most significant byte first, whichever order the host has |
| `Endian.NetworkLoad` | framework/net/include/Endian.hpp:21-31 | loading those bytes and swapping gives the value back |
| `Endian.LoadedFromWire` | framework/net/src/Buffer.cpp:208-241 | reading the wire form of any value of each signed width gives that value |
| `Endian.IntegersInOrder` | framework/net/src/Buffer.cpp:165-206 | any interleaving of writes and reads of mixed widths returns the values in order, one for each read that finds one, and leaves the wire form of the rest |
| `Buffers.Buffer.Exchange` | framework/net/src/Buffer.cpp:137-206 | the same of the buffer itself, on either host, with storage compacted and grown at will in between |
| `Endian.WidthBounds` | framework/net/src/Buffer.cpp:165-182 | the values of each width are those of int8_t, int16_t, int32_t and int64_t |
| `Endian.PrependThenRead` | framework/net/src/Buffer.cpp:184-269 | a prepended value is read back and the earlier content is intact |
| `TcpSpec.StreamOrder` | framework/net/src/TcpConnection.cpp:229-341 | over every run the bytes on the wire followed by the backlog are the accepted messages, whole and in order |
| `TcpSpec.AcceptedExactly` | framework/net/src/TcpConnection.cpp:117-341 | at any point of a run, a message sent on a CONNECTED connection is taken if and only if there is no backlog and its direct write does not fail; if so it goes whole behind everything before it, and if not nothing of it is kept |
| `TcpSpec.TakenExactly` | framework/net/src/TcpConnection.cpp:295-341 | the same for SendInLoop in any state |
| `TcpSpec.SecondMessageIsLost` | framework/net/src/TcpConnection.cpp:304-324 | a run in which the second of two messages is lost |
| `TcpSpec.EagainLosesMessage` | framework/net/src/TcpConnection.cpp:316-322 | a run in which a message is lost to EAGAIN |
| `TcpSpec.SendReports` | framework/net/src/TcpConnection.cpp:295-341 | completion is reported exactly when the socket takes all of the message, high water exactly when the rest reaches the mark |
| `TcpSpec.WriteReports` | framework/net/src/TcpConnection.cpp:229-255 | completion is reported, the interest dropped and SHUT_WR issued exactly with the write of the last of the backlog |
| `TcpSpec.InterestFollowsBacklog` | framework/net/src/TcpConnection.cpp:229-341 | in a run with calls from any threads, while not DISCONNECTED the channel is writing exactly when there is a backlog, in every state, if and only if no late status assignment meets a connection closed with a backlog |
| `TcpSpec.ForeignStatusExactly` | framework/net/src/TcpConnection.cpp:131-155 | a single step breaks that if and only if it is such an assignment |
| `TcpSpec.ForeignStatusHappens` | framework/net/src/TcpConnection.cpp:131-155 | such a run |
| `TcpSpec.GracefulHalfClose` | framework/net/src/TcpConnection.cpp:117-147 | with calls on the loop thread, in every state after SHUT_WR the backlog is empty, every accepted byte is on the wire and no write was tried since |
| `TcpSpec.HalfCloseBreaksExactly` | framework/net/src/TcpConnection.cpp:117-165 | in a run with calls from any threads, every state after SHUT_WR has an empty backlog and no write tried since, if and only if no queued Send goes to the socket after SHUT_WR and no queued Shutdown finds a backlog a close has left |
| `TcpSpec.StepBreaksExactly` | framework/net/src/TcpConnection.cpp:117-165 | a single step breaks that if and only if it runs such a queued Send or Shutdown; late status assignments and ForceClose never do |
| `TcpSpec.LateWriteHappens` | framework/net/src/TcpConnection.cpp:117-147 | a run in which a queued Send writes after SHUT_WR |
| `TcpSpec.CloseCloses` | framework/net/src/TcpConnection.cpp:149-165 | a close, forced ones on a connection that is up included, ends DISCONNECTED with no interest, moves no byte, and calls the close callback last |
| `TcpSpec.ForceCloseTaskCloses` | framework/net/src/TcpConnection.cpp:159-165 | so does a queued ForceClose that finds the connection up |
| `TcpSpec.StaysClosed` | framework/net/src/TcpConnection.cpp:117-274 | over every run without a late status assignment a closed connection stays closed and moves no byte |
| `TcpSpec.TasksInOrder` | framework/net/src/TcpConnection.cpp:117-155 | tasks of other threads are run first in, first out, and none is dropped |
| `TcpSpec.SendFromThread` | framework/net/src/TcpConnection.cpp:117-128 | left undisturbed, a Send from another thread does what it does on the loop thread |
| `TcpSpec.ShutdownFromThread` | framework/net/src/TcpConnection.cpp:131-147 | likewise Shutdown |
| `TcpSpec.ForceCloseFromThread` | framework/net/src/TcpConnection.cpp:149-165 | likewise ForceClose, which closes |
| `TcpSpec.RefusedCalls` | framework/net/src/TcpConnection.cpp:117-155 | a call from another thread on a connection in the wrong status is refused at its check |
| `TcpSpec.ShutdownOverBacklogHappens` | framework/net/src/TcpConnection.cpp:131-147 | a run in which a queued Shutdown half-closes over a backlog a close left behind |
| `TcpSpec.DrainsThenShuts` | framework/net/src/TcpConnection.cpp:117-255 | from DISCONNECTING with a backlog, in any run on the loop thread, exactly the bytes the writes take leave the backlog for the wire, SHUT_WR comes with the write that empties it and not before, and until then the channel is writing unless the connection was closed |
| `TcpConnections.TcpConnection.SendInLoop` | framework/net/src/TcpConnection.cpp:295-341 | the statements, on a real Buffer, are the step of the state machine |
| `TcpConnections.TcpConnection.QueueRest` | framework/net/src/TcpConnection.cpp:325-340 | the remainder is appended, the channel made writing, and the high-water mark reported with the resulting backlog exactly when it is reached |
| `TcpConnections.TcpConnection.HandleWrite` | framework/net/src/TcpConnection.cpp:229-255 | the write handler is the step of the state machine |
| `TcpConnections.TcpConnection.HandleClose` | framework/net/src/TcpConnection.cpp:196-274 | the poller aside: closing ends DISCONNECTED with no interest, keeps the backlog, and calls the callbacks in order |
| `TcpConnections.TcpConnection.Send` | framework/net/src/TcpConnection.cpp:117-122 | only a CONNECTED connection sends |
| `TcpConnections.TcpConnection.Shutdown` | framework/net/src/TcpConnection.cpp:131-147 | a CONNECTED connection becomes DISCONNECTING, with SHUT_WR at once unless it is writing |
| `TcpConnections.TcpConnection.ForceClose` | framework/net/src/TcpConnection.cpp:149-165 | ends a CONNECTED or DISCONNECTING connection DISCONNECTED with no interest and the backlog kept, and calls the callbacks, close last; any other is left alone |
| `TcpConnections.TcpConnection.ConnectEstablished` | framework/net/src/TcpConnection.cpp:183-194 | makes a CONNECTING connection CONNECTED and reading, and aborts in any other status |
| `Printing.DecimalExact` | framework/base/src/utils.cpp:10-28 | a text is the decimal text of a value if and only if it is canonical and parses to that value |
| `Printing.HexExact` | framework/base/src/utils.cpp:37-51 | the same for hexadecimal |
| `Printing.DecimalLength` | framework/base/src/utils.cpp:30-35 | at most 20 characters for every value of each instantiated type |
| `Printing.HexLength` | framework/base/src/utils.cpp:37-51 | at most 16 characters exactly for the 64-bit values |
| `Printing.SymmetricTable` | framework/base/src/utils.cpp:5-6 | the table gives the digit of the absolute remainder on both sides of zero |
| `Printing.Convert` | framework/base/src/utils.cpp:10-28 | writes exactly the decimal text and a NUL at the given place and nothing else |
| `Printing.WriteDigits` | framework/base/src/utils.cpp:12-18 | the digit loop writes the digits of the absolute value, least significant first, for negative values too |
| `Printing.ConvertHex` | framework/base/src/utils.cpp:37-51 | writes exactly the hexadecimal text and a NUL and nothing else |
| `Printing.ReverseRange` | framework/base/src/utils.cpp:25 | reverses the range in place and touches nothing else |
| `FixedBuffers.FixedBuffer.Append` | framework/log/include/FixBuffer.hpp:28-33 | takes the text only when strictly more room than its length is left |
| `FixedBuffers.FixedBuffer.AddCurrentPtr` | framework/log/include/FixBuffer.hpp:37 | takes over characters written at the cursor |
| `FixedBuffers.FixedBuffer.Reset` | framework/log/include/FixBuffer.hpp:39 | empties the buffer |
| `LogStreams.LineContent` | framework/log/src/LogStream.cpp:9-111 | after any insertions the line is strictly shorter than its buffer and is the concatenation of exactly the items that passed their check |
| `LogStreams.ShortLineKeepsAll` | framework/log/src/LogStream.cpp:9-111 | a line whose whole text leaves 32 characters free loses nothing |
| `LogStreams.LogStream.InsertInteger` | framework/log/src/LogStream.cpp:9-55 | guarded decimal insertion, with the unchecked write and its NUL inside the buffer |
| `LogStreams.LogStream.InsertPointer` | framework/log/src/LogStream.cpp:57-69 | guarded insertion of 0x and the hexadecimal text |
| `LogStreams.LogStream.InsertDouble` | framework/log/src/LogStream.cpp:71-79 | guarded insertion of what snprintf wrote |
| `LogStreams.LogStream.InsertBool` | framework/log/include/LogStream.hpp:21-24 | inserts "true " or "false" if five characters and one more fit |
| `LogStreams.LogStream.InsertCString` | framework/log/src/LogStream.cpp:91-98 | inserts the string, or "(null)" |
| `LogStreams.LogStream.InsertAll` | framework/log/src/LogStream.cpp:9-111 | a whole chain of insertions leaves the line LineContent speaks of |

## Left out

- Sockets, addresses, files and clocks (`Socket.cpp`, `InetAddress.cpp`, `Acceptor.cpp`, `FileUtils.cpp`, `LogFile.cpp`): write gives -1 or at most its length, readv at most the iovec total, poll is as in POSIX.1-2017, and the log file is the list of what is appended to it.
- `Connector.cpp` and `TcpClient.cpp`: an event with both error and write reaches a fatal branch, and RemoveConnection's thread check is inverted, so no claim about whole runs holds there.
- `EventLoopThreadPool.cpp` and `TcpServer.cpp`: the index never wraps as round robin and next_connect_id_ never advances, so neither the distribution nor the naming they are for holds.
- `BlockingQueue.hpp` and `BoundedBlockingQueue.hpp`: they do not compile; ThreadPoolSpec covers the protocol.
- `MutexLock`, `Condition`, `CountDownLatch`, `Thread`: taken as primitives with pthread semantics.
- Logging macros, colours, time and floating-point formatting: a formatted double is a text of at most 31 characters.
- Widths of size_t and int: sizes and indices are unbounded integers, except where the source converts a pointer difference to size_t; an overflow needs a buffer near 2^64 bytes.
- C strings: a `char` is a Dafny character, and a C string is the text before its NUL.
- HandleRead of TcpConnection: its input side is Buffers.Buffer.ReadFd and its close is the action Close; SO_ERROR is only logged.
- Callbacks of TcpConnection: recorded as events and taken not to re-enter the connection; the high-water callback runs before the remainder is queued.
- A read of `status_`, `running_` or `quit_` is atomic; the other steps of a call from another thread are steps of their own.
- A wait loop, Loop, ThreadFunc or runInThread is followed for a finite list of other threads' steps; that it may go on for ever is not modelled as a method, only as runs of any length.
- AsyncLoggings.AsyncLogging.Append: holds each buffer by value with its identity, as a unique_ptr permits; the in-place write into a buffer is FixedBuffers.FixedBuffer.Append.
- Pollers.Poller.UpdateChannel: a position past the slots, which the source writes through unchecked, has no behaviour to model; PollerSpec.StaleUseBreaks says when it comes to that.
- Pollers.Poller.RemoveChannel: likewise for such a position, and for the null pointer of an fd the map does not know.
- TcpConnections.TcpConnection.HandleClose: the poller is its interest flags here; the removal and the update after it are PollerSpec.StaleUseBreaks.
- fillZero of FixedBuffer: it clears bytes that no reader sees.
- FindEOL of Buffer: the same clamping as FindCRLF with a one-byte search.
- HandleEvent of Channel: its dispatch over event bits is a list of independent tests.
