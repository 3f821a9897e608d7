# Reactor server bookkeeping in Dafny

A functional model of the sequential bookkeeping under a small C++ reactor
server. It covers the following parts:

- the size-classed chunk memory pool;
- the input and output buffers built on it;
- the logger's bounded ring queue;
- the timer heap with lazy cancellation;
- the epoll interest map with its dispatch rule;
- what a TCP connection's `send`, `do_write`, `do_read` and `do_close` do
  to the pool, the poller and the server;
- the server's round-robin loop choice, connection list and idle timeouts;
- the two log-level settings.

Every system call that reports a result (`ioctl`, `read`, `write`,
`epoll_ctl`) is an outcome parameter; `close` appears only as an effect. The clock is an integer `now` in milliseconds. User
callbacks appear as entries in an ordered list of effects.

Modules, one per file:

- `Base` (`base.dfy`): bytes and `Option`.
- `Chunks` (`chunk.dfy`): one chunk as a capacity, a live window
  `data[head .. head + length)` and its storage.
- `MemPool` (`mem_pool.dfy`): the pool, modelled as follows:
  - one free list per class, as a sequence whose head is the list head;
  - the `totalKb` and `leftKb` counters;
  - the invariant that `leftKb` is what the lists hold.
- `DataBuf` (`data_buf.dfy`): a buffer is `None` or the one chunk it owns.
  Growing allocates a larger chunk, copies and gives the old one back.
- `LogQueue` (`log_queue.dfy`): the ring as an array with `first`, `last`
  and `size`. `Items` gives its contents oldest first.
- `Timers` (`timer.dfy`): the heap as a multiset of nodes, plus the id
  counter and the set of active ids.
  - Which node sits on top among equal fire times is left to the heap, so
    one tick takes the top node as an argument constrained by `IsTop`.
- `Epoll` (`epoll.dfy`): per-fd interest masks and callback slots. A mask is
  the set of positions of its set bits.
- `TcpServer` (`tcp_server.dfy`): the server's settings, the loop index, the
  connection list (connections are keys) and the server's timer.
- `TcpConn` (`tcp_conn.dfy`): one connection's operations, with these
  ingredients:
  - an environment of pool, poller and server;
  - the ghost `Elsewhere` count: pool memory not held by this connection's
    buffers, which every connection operation keeps fixed.
- `LogLevel` (`log_level.dfy`): the console printer's level and the logger's
  level.

Behaviour of the code that the model keeps as written:

- `do_close` neither checks whether the connection is already closed nor
  cancels its idle timeout. After a peer hang-up the still-armed timeout
  closes the connection again, so the close callback runs twice
  (`TcpConn.TimeoutOutlivesClose`, `TcpConn.CloseTwiceRunsCallbackTwice`).
- The pool ceiling `MAX_POOL_SIZE` is `4 * 1024 * 1024` and is compared with
  a kilobyte counter. The ceiling is therefore 4 GiB, not the 4 MB its
  comment gives.
- `mem_init` creates its first chunk before the loop. A chain therefore
  always has at least one chunk, while the total grows by
  `size / 1024 * chunk_num`.
- `read_from_fd` does not check capacity when `need_read` is 0 and a chunk is
  held. The requirement that the read fits is a precondition
  (`DataBuf.ReadFits`).
- A repeated timer node with count k is dispatched k + 1 times.
- `start` queues a listen task whenever the acceptor is not yet listening.
  When `start` runs off the acceptor loop's thread, two calls before the
  task runs queue two tasks. On that loop's own thread `add_task` runs the
  task at once, so the second call finds the acceptor listening.
- `do_clean`'s `lock_guard<mutex> lck(mutex);` declares a function rather
  than a lock. Locks are outside this sequential model either way.

## Model

| member | source | states |
|---|---|---|
| Chunks.New | memory/chunk.cpp:8-11 | a new chunk has the requested capacity, length 0, head 0 and no live bytes |
| Chunks.Clear | memory/chunk.cpp:23-26 | clear empties the live window and leaves capacity and storage untouched |
| Chunks.Adjust | memory/chunk.cpp:29-39 | adjust moves the window to offset 0 with the live bytes unchanged; with head 0 it changes nothing |
| Chunks.AdjustIdempotent | memory/chunk.cpp:31 | adjusting twice is adjusting once |
| Chunks.Copy | memory/chunk.cpp:42-47 | copy yields head 0 and other's length and live bytes, needing other's length to fit the capacity |
| Chunks.Pop | memory/chunk.cpp:50-54 | pop(len) drops the first len live bytes and keeps head + length |
| MemPool.ClassesShape | memory/mem_pool.h:13-24 | there are exactly six classes, from 4K to 4M, each four times the previous |
| MemPool.ClassFor | memory/mem_pool.cpp:47-62 | the class is the smallest one at least n, any n up to 4096 gets 4K, and there is none above 4M |
| MemPool.SelectClass | memory/mem_pool.cpp:47-62 | the multiply-by-four search loop finds exactly the class ClassFor names, or fails exactly above 4M |
| MemPool.Init | memory/mem_pool.cpp:33-42 | the constructor creates exactly the six class lists and sets left to the total |
| MemPool.MemInit | memory/mem_pool.cpp:7-30 | mem_init installs a chain of max(chunk_num, 1) empty chunks and adds size/1024 * chunk_num to the total |
| MemPool.InitInv | memory/mem_pool.cpp:33-42 | the constructed pool keeps the invariant, holds 2000/500/250/100/25/10 chunks and has left == total == 124160 KB |
| MemPool.AllocChunk | memory/mem_pool.cpp:45-89 | alloc returns null exactly above 4M and otherwise a chunk of the right class; it aborts at the ceiling and moves capacity/1024 KB out of the pool |
| MemPool.AllocFromList | memory/mem_pool.cpp:64-88 | with a non-empty list alloc pops its head and lowers left; with an empty one it aborts at the ceiling or creates a chunk and raises total |
| MemPool.AllocDefault | memory/mem_pool.h:40 | the no-argument alloc never returns null and hands out 4K chunks |
| MemPool.Retrieve | memory/mem_pool.cpp:92-107 | retrieve empties the chunk, pushes it on its class list and raises left by capacity/1024; other lists are unchanged |
| MemPool.GetListSizeByte | memory/mem_pool.cpp:110-125 | the list walk sums the capacities, which is the chunk count times the class |
| MemPool.AllocConserves | memory/mem_pool.cpp:67-88 | total = left + checked-out KB is kept by a successful alloc |
| MemPool.RetrieveConserves | memory/mem_pool.cpp:92-107 | total = left + checked-out KB is kept when a checked-out chunk is retrieved |
| DataBuf.Length | memory/data_buf.cpp:21-24 | length is the number of held bytes, 0 without a chunk |
| DataBuf.Pop | memory/data_buf.cpp:27-36 | pop drops len bytes; a buffer popped empty returns its chunk and holds none; pool memory is conserved |
| DataBuf.Clear | memory/data_buf.cpp:39-45 | clear returns any held chunk to the pool and leaves the buffer empty, otherwise it changes nothing |
| DataBuf.Reserve | memory/data_buf.cpp:60-79 | with no chunk it allocates the class for need; when the free tail is too small it allocates the class for need + length, keeps the held bytes and pushes the old chunk on its own class list; it fails exactly when no class is large enough, and exits only when that class's list is empty at the ceiling |
| DataBuf.ReserveSizing | memory/data_buf.cpp:60-79 | without a chunk the reserved chunk is of the class for need; growth takes the class for need + length and leaves the old chunk, emptied, at the head of its own class list; the process ends only when a new chunk is due, its class list is empty and that class's KB would reach the ceiling |
| DataBuf.ReadInto | memory/data_buf.cpp:81-97 | a read appends the bytes and returns their count; end of file returns 0 and an error -1, with contents unchanged |
| DataBuf.ReadFromFd | memory/data_buf.cpp:48-98 | once a chunk is reserved, a read of n bytes returns n > 0 with the bytes appended, and a positive return always means such a read; EOF gives 0, and a failed ioctl, allocation or read gives -1, each with contents unchanged; pool memory is conserved |
| DataBuf.AdjustInput | memory/data_buf.cpp:107-112 | adjust compacts a held chunk to offset 0 without changing its bytes |
| DataBuf.Write2Buf | memory/data_buf.cpp:115-143 | write2buf returns 0 with the data appended in the chunk and pool the len-byte growth gives, or -1 with nothing changed exactly when no class is large enough |
| DataBuf.Write2Fd | memory/data_buf.cpp:146-166 | write2fd drops the written prefix and compacts, keeping the chunk; EAGAIN reads as 0 and failure as -1, both with the buffer unchanged |
| DataBuf.DrainPreserves | memory/data_buf.cpp:146-166 | repeated write2fd sends a prefix of the held bytes and keeps the rest, in order |
| DataBuf.BufferRoundTrip | memory/data_buf.cpp:48-166 | bytes appended to an empty output buffer, drained completely and read into an empty input buffer arrive unchanged |
| DataBuf.TwoWriteRoundTrip | memory/data_buf.cpp:115-166 | two write2buf calls on an empty output buffer drain as d1 + d2; when the second needs growth the buffer moves to the class for the combined length and the first chunk, emptied, heads its own class list |
| LogQueue.CreateDefault | log/log_queue.h:21-24 | the default constructor as evidently intended: an empty queue with 1000 slots and debug off |
| LogQueue.CreateDefaultAsWritten | log/log_queue.h:21-24 | the array is sized by the not yet initialised capacity while the queue uses 1000; the ring invariant holds exactly when the array happens to have 1000 slots |
| LogQueue.PushAsWritten | log/log_queue.h:140-160 | push without presuming the array size: the store falls past the array exactly when the queue is not full and slot (last+1) mod capacity is beyond it; on a well-formed queue it is push |
| LogQueue.DefaultPushesPastArray | log/log_queue.h:21 | whenever the array got fewer than 1000 slots, the default queue accepts that many pushes and stores the next one past the array while not full |
| LogQueue.Create | log/log_queue.h:28-39 | the constructor rejects a non-positive size and otherwise gives an empty queue of that capacity |
| LogQueue.Clear | log/log_queue.h:42-53 | clear empties the queue with first = last = -1; the counters restart only in debug mode |
| LogQueue.GetSize | log/log_queue.h:88-93 | the size is the item count and stays within the capacity |
| LogQueue.IsFull | log/log_queue.h:96-100 | full exactly when the item count equals the capacity |
| LogQueue.IsEmpty | log/log_queue.h:103-107 | empty exactly when there are no items |
| LogQueue.ToInt32 | log/log_queue.h:63-85 | the long long to int conversion of the getters: a 32-bit signed value congruent to the counter mod 2^32, equal to it within the int range |
| LogQueue.GetRcnt | log/log_queue.h:63-73 | get_rcnt returns the pop counter narrowed to a 32-bit int in debug mode, the counter itself below 2^31, and -1 otherwise |
| LogQueue.GetWcnt | log/log_queue.h:75-85 | get_wcnt returns the push counter narrowed to a 32-bit int in debug mode, the counter itself below 2^31, and -1 otherwise |
| LogQueue.Push | log/log_queue.h:140-160 | push refuses a full queue without change; otherwise the item joins the back at slot (last+1) mod capacity |
| LogQueue.Pop | log/log_queue.h:169-192 | pop on an empty queue returns nothing and changes nothing; otherwise it returns and removes the oldest item |
| LogQueue.FrontAsWritten | log/log_queue.h:116-125 | front reads slot first+1 unwrapped, which is past the array exactly when first is the last slot |
| LogQueue.Front | log/log_queue.h:116-125 | front with a wrapped index returns the oldest item, the one pop would return |
| LogQueue.FrontReadsPastEnd | log/log_queue.h:123 | a one-slot queue after push, pop, push holds one item but front reads slot 1 |
| LogQueue.Back | log/log_queue.h:128-137 | back returns nothing on an empty queue and the newest item otherwise |
| LogQueue.RunIsFifo | log/log_queue.h:140-192 | on every sequence of pushes and pops the ring agrees with a reference bounded FIFO |
| LogQueue.RunCounts | log/log_queue.h:153-156 | in debug mode the counters count exactly the successful pushes and pops; otherwise they do not move |
| LogQueue.CountersReport | log/log_queue.h:63-85 | after any trace get_wcnt and get_rcnt report the earlier counts plus the successful pushes and pops, narrowed to int, in debug mode, and -1 otherwise |
| LogQueue.ClearThenCount | log/log_queue.h:42-53 | after a debug-mode clear the getters report exactly the pushes and pops that followed, while those fit in an int |
| Timers.Init | timer/timer.h:38-41 | a new timer starts its ids at 0 with nothing scheduled |
| Timers.RunAfter | timer/timer.h:68-80 | run_after queues a node due at now + ms with a fresh larger id, marked active |
| Timers.RunAt | timer/timer.h:85-96 | run_at queues a one-shot node due at the given time with a fresh larger id, marked active |
| Timers.RunRepeated | timer/timer.h:100-114 | run_repeated queues a repeated node with the count, due at now + ms, with a fresh active id |
| Timers.Cancel | timer/timer.h:117-123 | cancel removes the id from the active set, leaves the heap alone, and is a no-op for an inactive id |
| Timers.Tick | timer/timer.h:127-161 | one loop pass waits if the top is not due, drops a cancelled top, and otherwise dispatches it and re-queues it if it recurs |
| Timers.TopIsEarliest | timer/timer.h:33 | the inverted operator< puts a node with the earliest fire time on top |
| Timers.OneShotFiresOnce | timer/timer.h:141-158 | a dispatched one-shot node leaves no node with its id behind, and later ids are larger |
| Timers.RepeatedFiresCountPlusOne | timer/timer.h:151-156 | a repeated node with count k is dispatched k + 1 times, and a one-shot node once |
| Timers.PeriodicRecurs | timer/timer.h:146-150 | a due active periodic node is dispatched and re-queued one period later |
| Timers.TopsNonDecreasing | timer/timer.h:135-156 | after a due node is handled, the next top fires no earlier |
| Epoll.Attach | net/epoll.cpp:36-41 | the callback goes to the read slot for IN, else to the write slot for OUT, else nowhere; the other slot is untouched |
| Epoll.EpollAdd | net/epoll.cpp:21-55 | a new fd gets exactly the event bits and a known fd gets them ORed in; the map is updated regardless and the listen set grows only on ctl success |
| Epoll.EpollDel | net/epoll.cpp:87-94 | the fd leaves both the map and the listen set and nothing else changes |
| Epoll.EpollDelEvent | net/epoll.cpp:58-84 | an unknown fd changes nothing; the bits are cleared and an fd left with none is deregistered |
| Epoll.Dispatch | net/epoll.cpp:113-144 | IN runs the read callback, else OUT the write one, else HUP/ERR runs read, then write, then deregisters; at most one callback runs |
| Epoll.AddThenDelForgets | net/epoll.cpp:58-84 | removing exactly the interest that registered a new fd deregisters it |
| Epoll.AddThenDelRestoresMask | net/epoll.cpp:58-84 | adding new bits to a known fd and removing them restores its mask |
| Epoll.AddThenDispatch | net/epoll.cpp:113-144 | a callback registered for IN (or OUT) is the one a readable (or writable) event runs |
| TcpServer.Create | net/tcp_server.h:89-93 | defaults: one thread, loop index -1, 60000 ms timeout, no connections |
| TcpServer.SetThreadNum | net/tcp_server.h:38 | only the thread count changes |
| TcpServer.SetTimeoutMs | net/tcp_server.h:50 | only the timeout changes |
| TcpServer.SetMessageCb | net/tcp_server.h:56 | only the user message callback changes |
| TcpServer.GetNextLoop | net/tcp_server.cpp:64-71 | no loop when there are none; otherwise the index advances cyclically and stays in [0, N) |
| TcpServer.NextLoopsCycle | net/tcp_server.cpp:64-71 | successive calls hand out consecutive loops modulo N |
| TcpServer.RoundRobin | net/tcp_server.cpp:64-71 | from a fresh server the k-th call returns loop k mod N |
| TcpServer.RemoveFirst | net/tcp_server.cpp:76-82 | the erase loop removes the first equal entry, keeps the rest in order, and is a no-op if absent |
| TcpServer.RemoveFirstCount | net/tcp_server.cpp:76-82 | exactly one copy of the connection leaves the list when present |
| TcpServer.DoClean | net/tcp_server.cpp:74-83 | do_clean only shortens the connection list, by one exactly when the connection is listed |
| TcpServer.CleanRemovesOneEntry | net/tcp_server.cpp:76-82 | a connection listed twice is still listed after one clean |
| TcpServer.AddNewTcpConn | net/tcp_server.h:63-73 | a one-shot timeout of the configured length is armed with a fresh active id, and the connection is appended |
| TcpServer.UpdateConnTimeout | net/tcp_server.h:76-80 | the old timeout is cancelled and the connection moves to the end with a fresh timeout |
| TcpServer.UpdatePermutes | net/tcp_server.h:76-80 | refreshing a listed connection only reorders the list |
| TcpServer.OnMessage | net/tcp_server.cpp:25-31 | the wrapper refreshes the timeout, then runs the user callback exactly when one is set |
| TcpServer.StaleTimeoutDropped | net/tcp_server.h:76-80 | after a message the earlier timeout node is dropped, not dispatched, when it reaches the top |
| TcpServer.RefreshKeepsOneEntry | net/tcp_server.h:76-80 | a refreshed connection is listed once and last |
| TcpServer.TimeoutAppliesToNextConn | net/tcp_server.h:66 | a changed timeout applies to connections added afterwards |
| TcpServer.Start | net/tcp_server.cpp:57-61 | a listen task is queued exactly when the acceptor is not listening |
| TcpServer.StartTwiceQueuesTwice | net/tcp_server.cpp:57-61 | two starts before the acceptor listens queue two listen tasks |
| TcpConn.NewConn | net/tcp_conn.h:61 | a new connection has timer id -1 and no buffers |
| TcpConn.AddTask | net/tcp_conn.cpp:31 | the socket is watched for IN with the connection's do_read |
| TcpConn.ReleaseBuffers | net/tcp_conn.cpp:115-116 | clearing both buffers gives their kilobytes back to the pool |
| TcpConn.DoClose | net/tcp_conn.cpp:108-124 | in order: close callback if set, poller removal, buffers released, fd closed and set to -1, list entry removed; the timeout stays armed |
| TcpConn.TimeoutOutlivesClose | net/tcp_conn.cpp:108-124 | after a close the connection's timeout is still dispatched when due |
| TcpConn.CloseTwiceRunsCallbackTwice | net/tcp_conn.cpp:109-111 | two closes run the close callback twice |
| TcpConn.WatchOutput | net/tcp_conn.cpp:79-81 | OUT interest with do_write is added only when the buffer was empty before |
| TcpConn.Send | net/tcp_conn.cpp:68-84 | send appends the data and watches OUT only if the buffer was empty; on failure it returns false and changes nothing |
| TcpConn.WriteLoop | net/tcp_conn.cpp:88-98 | the write loop stops when empty, on 0 or on -1; the bytes sent plus those kept are what the buffer held |
| TcpConn.FinishWrite | net/tcp_conn.cpp:100-102 | OUT interest is dropped exactly when the output buffer ended empty |
| TcpConn.DoWrite | net/tcp_conn.cpp:87-105 | a failed write closes the connection; otherwise the unsent bytes stay and OUT is dropped once empty |
| TcpConn.Deliver | net/tcp_conn.cpp:62 | a delivered message refreshes the timeout, moves the connection last and records the message callback |
| TcpConn.AfterRead | net/tcp_conn.cpp:50-62 | -1 or 0 closes the connection without the message callback; otherwise the callback runs once |
| TcpConn.DoRead | net/tcp_conn.cpp:47-65 | read bytes are appended and delivered once; an error or end of file closes the connection |
| TcpConn.MessageRefreshesTimeout | net/tcp_conn.cpp:47-65 | whenever the input buffer can take the bytes, a message deactivates the old timeout id, activates a fresh one and moves the connection last |
| TcpConn.EofCloses | net/tcp_conn.cpp:55-58 | a peer hang-up closes the connection and returns its buffers to the pool |
| TcpConn.SendThenWrite | net/tcp_conn.cpp:68-105 | sent bytes reach the socket in order, and once all are written OUT interest is dropped |
| LogLevel.Initial | log/pr.cpp:3 | the printer's level starts at INFO; the logger's level starts at INFO too (log/log.cpp:10) |
| LogLevel.Clamp | log/pr.cpp:8-15 | above DEBUG becomes DEBUG, below ERROR becomes ERROR, an in-range level is kept |
| LogLevel.PrSetLevel | log/pr.cpp:5-21 | pr_set_level returns the previous level and stores the clamped one |
| LogLevel.PrSetLevelUndo | log/pr.cpp:17-20 | setting the returned level back restores the printer's state |
| LogLevel.ClampIdempotent | log/pr.cpp:8-15 | clamping twice is clamping once |
| LogLevel.PrEnabled | log/pr.h:19-24 | the PR macro prints a message of level m exactly when m is at most pr_level (see PrGateAfterSet) |
| LogLevel.PrGateAfterSet | log/pr.h:19-24 | after pr_set_level(n) the PR macro prints level m exactly when m is at most clamp(n) |
| LogLevel.GetLogLevel | log/log.h:91-94 | get_log_level reports the stored logger level |
| LogLevel.SetLogLevel | log/log.h:96-102 | set needs an in-range level and returns the previous one; get_log_level then returns the new level |
| LogLevel.SetLogLevelUndo | log/log.h:96-102 | setting the returned level back restores the logger's state |
| LogLevel.LogEnabled | log/log.h:105-162 | the LOG macros write a message of level m exactly when m is at most get_log_level() (see LogGateOrder) |
| LogLevel.LogGateOrder | log/log.h:105-162 | the LOG macros write exactly the levels up to the current one; errors always pass |

## Left out

- The thread pool, the event loop's task handoff and wakeup, and the timer
  thread's waiting: these are about concurrency. One `run_local` iteration
  is modelled instead.
- The blocking waits in `buffer_queue::pop` and the timed pop: condition
  variables and clock time. Only the non-blocking outcome is modelled.
- `notify` and `get_capacity` of the ring queue: the first is a condition
  variable and the second a plain field read.
- The logger's file output, formatting, rotation and async writer, plus the
  printf side of the `PR` and `LOG_*` macros. Only their level gates are
  modelled.
- The `start` loop that creates threads and loops, and the uninitialised
  `ts_started` flag. The number of connection loops is a parameter of
  `TcpServer.Create`.
- The acceptor: its accept loop is not shown. The model assumes it installs
  the server's message wrapper on every connection.
- Locks and atomics: the model is sequential.
- System calls: their results are parameters, with interrupted calls
  retried. `close` appears only as an effect.
- `new (std::nothrow)` failure in the pool: heap exhaustion is not
  modelled. The `exit(1)` at the ceiling is.
- The debug printers and the test programs.
- `execute_cbs`: only the handling of one ready event is modelled, not the
  loop over `epoll_wait`'s result.
- The `next` pointer of a chunk: list order stands for the chain. A chunk
  handed out is not on any list.
- User callbacks: they appear only as effects. Their own actions on the
  connection are not modelled.
- Timers.Tick: time is an integer number of milliseconds. The source's
  sub-millisecond clock and the `duration_cast` truncation are not modelled.
- Timers.RunAfter: the `atomic<int>` id counter is unbounded here. Its
  wrap-around after 2^31 ids is not modelled.
- MemPool.GetListSizeByte: the sum is an unbounded integer. The source adds
  into an `int`, which overflows (undefined behaviour) once a list holds
  2^31 bytes, such as 512 free 4M chunks. That many can be created below the
  ceiling. The overflow is not modelled; the contract is exact only below
  2^31 bytes in the source.
- TcpServer.GetNextLoop: the `int` index is unbounded. Its overflow after
  2^31 calls is not modelled.
- LogQueue.Push: the `long long` debug counters are unbounded. Their
  overflow after 2^63 operations is not modelled. The narrowing to `int` in
  `get_rcnt` and `get_wcnt` is modelled (`LogQueue.ToInt32`).
- DataBuf.ReadFromFd: requires the read to fit the chunk (`ReadFits`), as
  the source assumes. Two unchecked assumptions become this precondition:
  - the overflow of a 4096-byte read into a held chunk with less room is
    not modelled;
  - the `assert(already_read == need_read)` after a positive read is the
    clause that a non-zero `need_read` is read in full.

## Findings

| source | as written | input that shows it | evidently intended | confidence | as-written member | corrected member |
|---|---|---|---|---|---|---|
| log/log_queue.h:123 | `front` reads `b_array[b_first + 1]` without reducing modulo the capacity | capacity 1: push 7, pop, push 8; `first` is 0, so `front` reads `b_array[1]`, one past the array | read `b_array[(b_first + 1) % capacity]`, the slot `pop` takes next | not executed | LogQueue.FrontReadsPastEnd | LogQueue.Front |
| log/log_queue.h:21 | the default constructor's `b_array(new T[capacity])` runs before `capacity` is initialised to 1000, because `b_array` (line 225) is declared before `capacity` (line 232) | default-construct when the indeterminate `capacity` holds 0: the queue is not full, yet the first push stores to `b_array[0]` of a zero-length array | allocate the array after `capacity` is 1000, e.g. `new T[1000]` or declaring `capacity` first | high (the initialisation order is fixed by the language); not executed | LogQueue.DefaultPushesPastArray | LogQueue.CreateDefault |
