# A verified model of the HTTP server's concurrent core

The server accepts TCP connections on several I/O threads, runs each connection as a strand of
handlers, hands `POST /compute` requests to a pool of worker threads fed by a priority queue that
ages its tasks, logs through one consumer thread, and shuts all of this down in an orderly way. The
model covers the parts where these promises are hard to keep.

| file | what it models |
|---|---|
| `QueueModel.dfy` | the task queue as its callers see it: submissions in order, keys recomputed at every pop |
| `Heap.dfy`, `TaskQueue.dfy` | the array heap with cached priorities, and its refinement of `QueueModel` |
| `QueueRuns.dfy` | laws of whole runs: conservation, the inversion law, the starvation bound, draining |
| `Sums.dfy` | adding up weights over sequences of threads and workers |
| `PoolProtocol.dfy`, `PoolTheorems.dfy` | the pool as a monitor: every interleaving of submitters, workers, notifications, spurious wake-ups, shutdowns and aborts |
| `ThreadPool.dfy` | the worker and pool objects: joining with a deadline, aborting, abandoning |
| `ShutdownResult.dfy` | what the number a timed shutdown returns says about the tasks |
| `SessionModel.dfy`, `Session.dfy` | one connection as a state machine, and the object that implements it |
| `KeepAlive.dfy` | one request from its read to the end of its write, and when the connection is kept for another |
| `Silence.dfy` | which sessions can still answer, and so what the read timeout ends |
| `ServerModel.dfy`, `ServerProtocol.dfy`, `ServerTheorems.dfy` | accepting, the session books and draining, interleaved over the I/O threads |
| `LateSessions.dfy` | that the server goes on accepting while it serves, and lets hardly anybody in once it drains |
| `OpenConnections.dfy` | how many connections are open, as against how many are counted |
| `DrainTimer.dfy`, `DrainProgress.dfy` | which sessions the drain timer's forced close reaches and which it misses, and that the drain ends if it missed none |
| `Server.dfy` | the server object's handlers as in-place updates |
| `Service.dfy` | server and pool together: a request's way through the pool and back |
| `HttpTask.dfy`, `Logger.dfy`, `Router.dfy` | the completion callback, the asynchronous logger, and route selection |

Three styles meet. Objects whose methods change fields are classes, with methods proved against a
function on their abstract state (`TaskQueues.TaskQueue`, `ThreadPools.ThreadPool`,
`Sessions.Session`, `HttpServers.HttpServer`, `Loggers.MessageQueue`, `Routers.RouterTable`). Those
functions carry the properties. Where threads interleave, the same functions are the steps of a
transition system, and the properties are invariants over all its runs.

## What is assumed

- The steady clock never goes back between two reads under the queue lock. It is passed in as `now`
  (nanoseconds); `clock` is the last time read. A thread's `finish` says when it fulfils its promise
  in the execution at hand, if ever. All other delays are arbitrary and are added up in `slack`.
- `m_order` does not wrap around, and memory allocation succeeds.
- The timed part of `shutdownWithTimeout` needs no started pool: a thread that was never started is
  simply one that never finishes.
- Handlers of one session never run at the same time (its strand). Apart from that, handlers of
  sessions may run at any moment, also after the I/O context was stopped, and the drain timer may
  fire as soon as draining is set. These are more interleavings than the program has, so what holds
  of all of them holds of the program's. The runs that show a bound to be reached or a limit broken take
  only steps the program can take too: one accept handler per I/O thread, and handlers of sessions
  before anything is stopped.
- Fair behaviours, in `PoolTheorems.ShutdownTerminates`, `Loggers.FlushTerminates` and
  `DrainProgress.DrainEnds`, are those in which every thread that can run does run sooner or later (every
  `execute` and every write to the sink returns), every owed `notify_all` is made, every posted close
  runs, and a session that has ended gets the sessions lock.
- A wait of a session's timer runs, or has been cancelled and completes later: as aborted, or as over if it
  was over just before it was cancelled.
- In `ShutdownResults`, a step that reads the clock reads the time at which it is taken, and the moment at
  which a worker leaves its loop is the moment at which it fulfils its promise.
- In `Service`, submitting a request is one step with the end of the read handler that does it, and
  the end of an execution is one step with its completion callback, which is called once.
  `HttpTasks.Execute` shows when it is called twice and when it lets an exception escape.

## Where the code does less than its documentation

**The connection limit.** The documentation calls `max_connections` the maximal number of simultaneous TCP
connections (README.md:100). What the code compares with it is the count of sessions on its books
(src/server.cpp:122), and two things come between.

- A session that its read timeout has ended leaves the count and keeps its socket and its read
  (src/session.cpp:139-145). So the number of open connections has no bound at all: for every positive limit
  and every k there is a run after which k connections are open and waiting for a request while nobody is
  counted (`OpenConnections.OpenIsUnbounded`). The documented limit is kept if and only if it is zero
  (`OpenConnections.LimitKeptIffZero`). Open connections whose session has not ended are all counted
  (`OpenConnections.OpenAndNotEndedIsBounded`).
- The accept is re-armed before the accepted session is inserted (src/server.cpp:159-169), so every I/O
  thread can hold one connection that is not yet counted. With T = max(1, io_threads) + 1 threads running
  the I/O context, the count stays within `max_connections` + T (`ServerTheorems.ConnectionBound`), that
  many are reached for every positive limit (`ServerTheorems.BoundIsAttained`), and the count keeps the
  limit itself if and only if it is zero (`ServerTheorems.CountLimitKeptIffZero`).

**The read timeout.** It says that it closes the session (src/session.cpp:143) and only ends it. After it no
run starts another response if and only if the session was closed already, or had no read, no response and
no write to be followed by a read under way (`Silences.TimeoutSilencesIff`). A timer is set together with a
read, and while that read is pending the timeout silences nobody but a closed session
(`Silences.TimeoutOfReadNeverSilences`): the read goes on as if the timer had not expired
(`SessionModel.TimeoutLeavesReadPending`). From the very first state, a connection whose first read has
timed out can have its request answered (`Silences.TimedOutSessionAnswers`).

**The drain timeout.** It is there to force the remaining sessions closed (src/server.cpp:79-87). It closes
exactly the sessions inserted before its snapshot (`DrainTimers.TimerClosesExactlyTheSnapshot`). One that was
accepted before the signal and inserted after the snapshot is missed, which can happen if and only if the
limit is positive (`DrainTimers.TimerMissesIff`), and the I/O context is not stopped as long as that session
is on the books (`DrainTimers.DrainWaitsForEverySession`). If nobody was missed, the drain ends
(`DrainProgress.DrainEnds`).

**The result of a timed shutdown.** A result of 0 says that all workers have left, not that all tasks ran. If
there was no abort, everything accepted has been executed; if there was one, that is so if and only if the
queue was empty at the abort (`ShutdownResults.ShutDown`). For every positive timeout there is a pool and an
execution of it in which the call returns 0 and leaves a task queued (`ShutdownResults.ZeroWithATaskLeft`).

## Model

| member | source | states |
|---|---|---|
| QueueModel.BestIsUnique | include/thread_pool.hpp:40-48 | the comparator singles out one queued submission: a position is chosen if and only if it has the greatest key and no earlier position has the same |
| QueueModel.PopTakesChosen | src/thread_pool.cpp:25-42 | a pop hands out a submission if and only if, in the bag of queued submissions, no other has a greater key and none with the same key has a smaller order |
| QueueModel.BestLaw | src/thread_pool.cpp:59-77 | exact two-mode law of one pop: position i is taken iff either the oldest is aged and i is the oldest, or the oldest is not aged and i is the oldest of the highest submitted priority |
| QueueModel.AgedQueueIsFifo | src/thread_pool.cpp:17-18 | as soon as anything queued is aged a pop takes the oldest submission, even against an unaged one of priority INT_MAX |
| QueueModel.OneSecondRule | include/thread_pool.hpp:56 | the rule in numbers: an oldest submission that has waited for more than 1,000,000,000 ns is taken, until then the highest submitted priority, oldest first |
| QueueModel.PopConserves | src/thread_pool.cpp:25-42 | a pop moves exactly one submission out of the queue, or changes nothing |
| QueueModel.PushKeepsWellFormed | src/thread_pool.cpp:9-23 | after a push the queue is within its capacity, orders and stamps grow with the position, and no stamp is in the future |
| QueueModel.PopKeepsWellFormed | src/thread_pool.cpp:25-42 | the same after a pop |
| Heap.FrontIsGreatest | src/thread_pool.cpp:35 | no element of a heap is greater than its front |
| Heap.PushHeap | src/thread_pool.cpp:19 | the in-place sift-up turns a heap with one element appended into a heap of the same elements, touching nothing beyond |
| Heap.SiftDown | src/thread_pool.cpp:75 | the in-place sift-down extends the heap order by one position and keeps the elements |
| Heap.MakeHeap | src/thread_pool.cpp:75 | whatever was overwritten in the middle, the rebuilt array is a heap of the same elements |
| Heap.PopHeap | src/thread_pool.cpp:35 | the front moves to the back and the rest is a heap of the remaining elements |
| TaskQueues.BasesPermute | src/thread_pool.cpp:19 | reordering stored elements reorders the submissions and loses or doubles none |
| TaskQueues.FrontIsBest | src/thread_pool.cpp:34-36 | the front of a heap whose cached priorities are fresh is the submission that recomputing every key and scanning in submission order would choose |
| TaskQueues.TaskQueue.constructor | src/thread_pool.cpp:7 | an empty queue of the given capacity |
| TaskQueues.TaskQueue.Push | src/thread_pool.cpp:9-23 | refines the push of the reference queue; accepts exactly when neither shut down nor full, and then appends one submission |
| TaskQueues.TaskQueue.Append | src/thread_pool.cpp:17-19 | push_back and push_heap add one element to the heap, keeping the others with their cached priorities |
| TaskQueues.TaskQueue.ApplyAging | src/thread_pool.cpp:59-77 | after the in-place aging every cached priority is the key recomputed now, the array is a heap again, and no submission was lost |
| TaskQueues.TaskQueue.Pop | src/thread_pool.cpp:25-42 | refines the pop of the reference queue in all four branches: same result, same remaining submissions, and a task handed out is the one the bag chooses; in numbers, the oldest after one second, the highest priority before |
| TaskQueues.TaskQueue.Extract | src/thread_pool.cpp:35-38 | pop_heap and pop_back hand out the first maximal submission and leave the others |
| TaskQueues.TaskQueue.Shutdown | src/thread_pool.cpp:44-51 | only the done flag changes |
| TaskQueues.TaskQueue.Abort | src/thread_pool.cpp:79-86 | only the abort flag changes |
| QueueRuns.RunConserves | src/thread_pool.cpp:9-42 | over any run: initially queued plus accepted equals handed out plus still queued, each submission as often |
| QueueRuns.InversionLaw | src/thread_pool.cpp:25-42 | over any run under a monotone clock, a task leaves before an earlier submission, be that handed out later or still queued at the end, only with strictly greater priority and while the other was not yet aged |
| QueueRuns.JustifiedPair | src/thread_pool.cpp:25-42 | what that law says of one task handed out and one still queued |
| QueueRuns.OvertakingNeedsPriority | src/thread_pool.cpp:25-42 | the same for one pop against everything it leaves in the queue |
| QueueRuns.UnagedOldestIsOvertaken | src/thread_pool.cpp:25-42 | conversely, an unaged oldest task is overtaken whenever any queued one has a strictly greater priority |
| QueueRuns.AgedIsServedInTurn | src/thread_pool.cpp:59-77 | once the submission at position r is aged, the next r+1 tasks handed out are exactly positions 0 to r in order, whatever is pushed meanwhile; r is below the capacity |
| QueueRuns.StarvationBound | src/thread_pool.cpp:59-77 | an aged task with r older ones ahead is returned by the (r+1)-st successful pop |
| QueueRuns.AbortFreezes | src/thread_pool.cpp:29-30 | after abort no pop hands out anything, in any run |
| QueueRuns.ShutdownDrains | src/thread_pool.cpp:44-51 | after shutdown without abort, n pops serve exactly the smaller of n and the number queued, and nothing more is accepted |
| PoolProtocol.InitInv | src/thread_pool.cpp:144-161 | a new pool satisfies the invariant and has as many workers as asked for, one if none |
| PoolProtocol.StepConserves | src/thread_pool.cpp:101-116 | every step keeps accepted = queued + running + executed |
| PoolProtocol.LookKeepsWakeUps | src/thread_pool.cpp:27-30 | a worker that goes to sleep, takes a task or leaves does not strand a queued task |
| PoolProtocol.StepKeepsWakeUps | src/thread_pool.cpp:9-51 | every step keeps: if a worker sleeps and nobody aborted, the queued tasks are at most the awake workers plus the undelivered notifications |
| PoolProtocol.StepKeepsBroadcasts | src/thread_pool.cpp:44-51 | every step keeps: a shutdown or abort still owes its broadcast, or has delivered one and no worker sleeps |
| PoolProtocol.StepKeepsExits | src/thread_pool.cpp:107-114 | every step keeps: a worker has left only because of an abort, or of a shutdown with an empty queue |
| PoolProtocol.StepInv | src/thread_pool.cpp:9-51 | every step of every thread keeps the whole invariant |
| PoolProtocol.RunInv | src/thread_pool.cpp:9-116 | so does every interleaving |
| PoolTheorems.NoWakeUpIsLost | src/thread_pool.cpp:9-51 | in every reachable state without abort, while some worker sleeps every queued task is covered by an awake worker or an undelivered notification |
| PoolTheorems.NobodySleepsAfterBroadcast | src/thread_pool.cpp:44-51 | once done or abort is set and its broadcast delivered, no worker sleeps, then or later |
| PoolTheorems.EachTaskIsInOnePlace | src/thread_pool.cpp:101-116 | in every reachable state each accepted submission is in exactly one of queue, hand of a worker, executed; nothing else is in any |
| PoolTheorems.GracefulEndRanEverything | src/thread_pool.cpp:101-116 | without abort, when all workers have left the pool was shut down and exactly what was accepted has been executed |
| PoolTheorems.AbortKeepsTasksQueued | src/thread_pool.cpp:79-86 | after abort no task leaves the queue in any run; only tasks in hand can still finish |
| PoolTheorems.AbortedQueueIsFrozen | src/thread_pool.cpp:14-30 | shut down and aborted, the queue is the same after any run |
| PoolTheorems.AbortedEndRanEverythingIff | src/thread_pool.cpp:216-237 | when all workers have left an aborted shutdown, everything accepted has been executed if and only if the queue was empty at the abort |
| PoolTheorems.MoveDecreases | src/thread_pool.cpp:25-51 | after shutdown every wake, take, finish and exit lowers 2·queued + 2 per sleeping, running or unstarted worker + 1 per awake one, and no other step raises it |
| PoolTheorems.MovesAreBounded | src/thread_pool.cpp:25-51 | hence no run after shutdown has more worker moves than that number |
| PoolTheorems.NobodyIsStuck | src/thread_pool.cpp:101-116 | after the broadcast every worker that has not left is not asleep and can take a step that moves it |
| PoolTheorems.OwnStepMoves | src/thread_pool.cpp:107-113 | after shutdown no look at the queue blocks: each step of a worker's own thread moves it |
| PoolTheorems.ShutdownTerminates | src/thread_pool.cpp:178-182 | in every fair infinite behaviour after shutdown there is a moment at which all workers have left, and without abort all that was accepted has been executed by then |
| PoolTheorems.PoolRunIsQueueRun | src/thread_pool.cpp:168-171 | seen from the queue every interleaving of the pool is a run of the queue under a monotone clock |
| PoolTheorems.TasksStartInOrder | src/thread_pool.cpp:101-116 | so the inversion law, tasks still queued included, and the service order of aged tasks hold of the order in which the pool starts tasks |
| ThreadPools.RemainingIsTight | src/thread_pool.cpp:204-207 | waiting for the truncated remaining time never overshoots the deadline and stops less than 1 ms short of it, also for a deadline in the past |
| ThreadPools.ThreadPool.constructor | src/thread_pool.cpp:144-161 | an empty queue of the given capacity and at least one worker, none started, none abandoned; the pool is valid |
| ThreadPools.ThreadPool.Start | src/thread_pool.cpp:173-176 | every worker gets its thread; the pool stays valid |
| ThreadPools.WorkerThread.Join | src/thread_pool.cpp:118-122 | blocks forever exactly when there is a thread to join that never finishes; otherwise the thread is done and no longer joinable |
| ThreadPools.WorkerThread.WaitFor | src/thread_pool.cpp:129 | says ready only if the promise is fulfilled, and not ready only if it was not by the end of the time allowed |
| ThreadPools.WorkerThread.JoinWithTimeout | src/thread_pool.cpp:124-134 | false for an abandoned worker at once; otherwise joined, or not finished within the timeout and left as it was; never longer than the timeout |
| ThreadPools.WorkerThread.Loop | src/thread_pool.cpp:104-114 | on a queue shut down and left to it, a worker executes exactly what was queued and ends; after abort it executes nothing |
| ThreadPools.WorkerThread.Abandon | src/thread_pool.cpp:136-141 | abandoned, and with no thread left to join |
| ThreadPools.ThreadPool.JoinAll | src/thread_pool.cpp:190 | returns if and only if every thread still joinable finishes; then none is joinable, and nobody was abandoned |
| ThreadPools.ThreadPool.JoinOne | src/thread_pool.cpp:204-209 | one wait until the deadline: a worker not joined had not finished 1 ms before it, and the wait was not over before that |
| ThreadPools.ThreadPool.JoinByDeadline | src/thread_pool.cpp:198-211 | after the first loop everyone not in the pending list is joined or was abandoned before, and everyone in it is distinct and missed the deadline |
| ThreadPools.ThreadPool.JoinOrAbandonOne | src/thread_pool.cpp:222-234 | one turn of the second loop settles one worker, abandons it only if it was late again, and touches no other |
| ThreadPools.ThreadPool.JoinOrAbandon | src/thread_pool.cpp:219-237 | after the second loop everyone is joined or abandoned, and the count is the number newly abandoned |
| ThreadPools.ThreadPool.AbortAndAbandon | src/thread_pool.cpp:216-237 | the abort and the grace period take at most 500 ms plus delays |
| ThreadPools.ThreadPool.TimedShutdown | src/thread_pool.cpp:194-237 | the whole timed part takes at most timeout + 500 ms plus delays |
| ThreadPools.ThreadPool.Shutdown | src/thread_pool.cpp:178-182 | blocks if and only if a joinable thread never finishes; on a pool where all are joined or abandoned it waits for nobody |
| ThreadPools.ThreadPool.ShutdownWithTimeout | src/thread_pool.cpp:184-238 | with a positive timeout: returns within timeout + 500 ms plus delays; every worker joined or abandoned; result is the number newly abandoned; nobody abandoned who finished 2 ms before the whole time was up; abort only because of a worker that missed the first deadline, and without one returns within the timeout; a second call returns 0 and waits for nobody; without a timeout a call that returns has joined everybody and counts 0; all times in nanoseconds |
| ThreadPools.OneMoreSet | src/thread_pool.cpp:227-230 | abandoning one more worker raises the number of newly abandoned ones by exactly one |
| ShutdownResults.HasLeftIff | src/thread_pool.cpp:107-114 | a worker has left by time t if and only if its exit time says so: the promise and the loop agree |
| ShutdownResults.AbortedRanEverythingIff | src/thread_pool.cpp:216-237 | in a timed execution aborted after its shutdown, once all workers have left everything accepted has been executed if and only if the queue was empty at the abort |
| ShutdownResults.AllLeft | src/thread_pool.cpp:184-238 | if all exit times are past: without abort the queue is empty and executed equals accepted, with one the equivalence above |
| ShutdownResults.NewlySetIsZeroIff | src/thread_pool.cpp:219-237 | the count is zero if and only if nobody was newly abandoned |
| ShutdownResults.ShutDown | src/thread_pool.cpp:184-238 | for every execution whose exit times are the workers' promises, a timed shutdown of the running pool that returns 0 leaves exactly those outcomes |
| ShutdownResults.AbortLeavesATask | src/thread_pool.cpp:216-217 | an execution of a pool with one worker in which an aborted shutdown ends with all workers gone and an accepted task still queued |
| ShutdownResults.JustLate | src/thread_pool.cpp:209-237 | without other delays, workers that leave just after the first deadline make the call abort and return 0 |
| ShutdownResults.ZeroWithATaskLeft | src/thread_pool.cpp:184-238 | for every positive timeout such a call, on a pool whose worker follows such an execution, returns 0 with executed different from accepted |
| SessionModel.EventInv | src/session.cpp:21-186 | every handler of a session keeps its invariant: one turn until the end and never more, one end, one response per request, a timer for each read, keep-alive and drain limits |
| SessionModel.RunInv | src/session.cpp:21-186 | so does every sequence of handlers in any environment |
| SessionModel.OneTurnAtATime | src/session.cpp:29-47 | over every life of a connection at most one of read pending, task in the pool, response posted, response dispatched, write pending; and at most one response per request or oversized body |
| SessionModel.RequestsAreLimited | src/session.cpp:110-137 | at most max(1, max_keepalive_requests) requests per connection (one without keep-alive), and at most one parsed after draining is set |
| SessionModel.EndsAtMostOnce | src/session.cpp:163-169 | the read-error, write, timeout and close paths together tell the server of the end exactly once if the session has ended, never otherwise |
| SessionModel.NobodyIsForgotten | src/session.cpp:49-169 | over every life of a connection, until it has ended exactly one of its operations is under way: none is left with nothing to come and its end untold |
| SessionModel.IdleConnectionsAreTimed | src/session.cpp:29-51 | over every life of a connection, until it has ended its timer runs if and only if a read is pending |
| SessionModel.LastResponseStays | src/session.cpp:122-133 | once only a connection-closing response is left, every handler keeps it so, parses nothing, and a completed write ends the session |
| SessionModel.RejectionIsFinal | src/request_processor.cpp:89-95 | a rejected submit posts one response, after which no run parses another request and the completed write ends the session |
| SessionModel.OversizedIsFinal | src/session.cpp:59-67 | a body over the limit is answered once, after which no run parses another request and the completed write ends the session |
| SessionModel.TimeoutLeavesReadPending | src/session.cpp:139-145 | whatever the pending read brings after the timeout is treated exactly as if it had come first and cancelled the timer too late; a request is counted and processed as ever |
| Silences.SilentIff | src/session.cpp:29-186 | no run starts another response if and only if the session is closed, or has no read, no response and no write to be followed by a read under way |
| Silences.TimeoutSilencesIff | src/session.cpp:139-145 | after the read timeout no run starts another response if and only if that was so of the session before |
| Silences.TimeoutOfReadNeverSilences | src/session.cpp:37-46 | while its read is pending, the timeout silences a session if and only if it was closed |
| Silences.TimedOutSessionAnswers | src/session.cpp:139-145 | a run from the first state after which the server has been told of the end, nothing was read, and the next request is parsed and its answer written |
| KeepAlives.RequestWrites | src/request_processor.cpp:54-110 | a request on an open connection leads to exactly one write, at once, through the pool or by a posted 503, with the keep-alive decision of the request itself, enable_keepalive and the verdict of the pool |
| KeepAlives.KeptAliveIff | src/session.cpp:110-137 | a request answered and written leads to the next read, timer set and session not ended by it, if and only if it asked for that, was not turned away, keep-alive is enabled, the limit is not reached and the server does not drain at the write; otherwise the session ends and reads nothing more |
| KeepAlives.FailedWriteEnds | src/session.cpp:112-120 | a write that fails ends the session in any case |
| SessionModel.ClosedIsQuiet | src/session.cpp:147-161 | a closed session starts no further read or write, in any run |
| SessionModel.NeverRemoved | src/session.cpp:163-169 | no handler of a session takes it off the server's books; only the server does |
| Sessions.Session.constructor | src/session.cpp:6-19 | a session starts open, not ended, with nothing in flight, and in the invariant of a session |
| Sessions.Session.Start | src/session.cpp:21-27 | posts the first read and does nothing else; called once, it keeps the invariant |
| Sessions.Session.OnStart | src/session.cpp:26 | the posted first read takes its turn and keeps the invariant |
| Sessions.Session.DoRead | src/session.cpp:29-47 | sets the timer, cancelling an earlier wait, and starts one read; nothing at all if closed |
| Sessions.Session.OnRead | src/session.cpp:49-108 | takes the read's turn and cancels the timer; a failed read ends the session and tells the server; a body over the limit is answered with keep-alive off; a request is counted, and a `POST /compute` appends one entry with its own priority to the pool's queue unless that is shut down or full; keeps the invariant |
| Sessions.Session.Process | src/request_processor.cpp:79-110 | `POST /compute` appends exactly one entry, with the request's priority and this session, unless the queue is shut down or full, and makes the session wait for the task or posts a 503 without its request; anything else is answered at once and leaves the queue alone |
| Sessions.Session.Deliver | src/session.cpp:171-186 | stores the keep-alive decision it is given and starts one write; if closed, drops the response and changes neither |
| Sessions.Session.OnSend | src/session.cpp:174-185 | the dispatched response takes its turn and keeps the invariant |
| Sessions.Session.OnWrite | src/session.cpp:110-137 | reads again at once if and only if the write succeeded, the stored decision and enable_keepalive say so, fewer requests than the limit were made and the server does not drain; ends the session otherwise; keeps the invariant |
| Sessions.Session.OnTimeout | src/session.cpp:139-145 | an aborted wait changes nothing; any other ends the session and leaves socket and turn alone; keeps the invariant |
| Sessions.Session.OnClose | src/session.cpp:147-161 | closes and ends the session, once; keeps the invariant |
| Sessions.Session.EndSession | src/session.cpp:163-169 | ended afterwards, and the server told unless it had been |
| ServerModel.LoadInv | src/server.cpp:122-140 | comparing a possibly stale count with the limit keeps the accept bound |
| ServerModel.ArmInv | src/server.cpp:142-171 | arming an accept keeps the accept bound |
| ServerModel.AdmitDoneInv | src/server.cpp:146-159 | so does the completion of an accept, with any result |
| ServerModel.InsertMoves | src/server.cpp:165-170 | so do inserting, counting and starting the session |
| ServerModel.InsertBookInv | src/server.cpp:166-168 | inserting keeps the set equal to the sessions not yet removed, and the count within one of its size while the lock is held |
| ServerModel.EraseBookInv | src/server.cpp:195-198 | erasing a session that still owes its end takes exactly one out of the set |
| ServerModel.AdmissionsAreDecisions | src/server.cpp:116-122 | no thread admits without being the one that decides on the next accept |
| ServerProtocol.InitInv | src/server.cpp:97-114 | the server that calls doAccept for the first time satisfies the invariant |
| ServerProtocol.StepAccept | src/server.cpp:116-172 | every step keeps: at most one accept is outstanding or decided on; active + not yet counted + the next admission stay within max_connections + threads |
| ServerProtocol.StepBooks | src/server.cpp:165-201 | every step keeps set, count and lock in agreement, and the count above zero where it is decremented |
| ServerProtocol.StepDrain | src/server.cpp:205-213 | every step keeps: stopped only while draining; after the signal handler's check a count of zero with no end unfinished means stopped |
| ServerProtocol.StepLaunch | src/server.cpp:165-170 | every step keeps: a session is started by the thread that inserted it, and by no other |
| ServerProtocol.StepSessions | src/server.cpp:116-213 | every step keeps the invariant of every session, whatever the others do |
| ServerProtocol.StepInv | src/server.cpp:63-213 | every step of every thread keeps the whole invariant |
| ServerProtocol.RunInv | src/server.cpp:63-213 | so does every interleaving |
| ServerTheorems.ConnectionBound | src/server.cpp:116-172 | in every reachable state at most one accept is outstanding and, of the count (not of the open connections), 0 <= active <= max_connections + max(1, io_threads) + 1 |
| ServerTheorems.BoundIsAttained | src/server.cpp:159-169 | for every positive limit and every number of threads some run brings the count to that bound |
| ServerTheorems.ZeroAdmitsNobody | src/server.cpp:122-140 | with a limit of zero no run ever counts or inserts a session |
| ServerTheorems.CountLimitKeptIffZero | src/server.cpp:122-140 | the count of sessions stays within the limit over all runs if and only if the limit is zero |
| OpenConnections.OpenAndNotEndedIsBounded | src/server.cpp:165-169 | with the lock free, the open connections whose session has not ended are at most the count, and so at most max_connections + max(1, io_threads) + 1 |
| OpenConnections.TimeOutOneByOne | src/session.cpp:139-145 | for every positive limit and every k a run after which k sessions are off the books with socket open and read pending, the count zero and an accept armed |
| OpenConnections.OpenIsUnbounded | src/session.cpp:139-145 | so for every positive limit the number of open connections reaches every k with nobody counted |
| OpenConnections.LimitKeptIffZero | README.md:100 | the documented limit on simultaneous connections is kept over all runs if and only if it is zero |
| ServerTheorems.CountIsExact | src/server.cpp:190-203 | whenever the sessions lock is free the count is the size of the set, and the set is the sessions inserted and not yet ended |
| ServerTheorems.NoUnderflow | src/server.cpp:195-198 | no reachable decrement finds the count at zero, no erase finds its session gone |
| ServerTheorems.DrainCompletes | src/server.cpp:63-94 | no drain completion is lost: after the signal handler's locked check, a free lock and a count of zero mean the I/O context is stopped |
| ServerTheorems.StopsOnlyWhenDrained | src/server.cpp:205-213 | a step that stops the I/O context is taken while draining with a count of zero |
| ServerTheorems.EverySessionBehaves | src/server.cpp:116-203 | every connection of every run keeps the single turn, the single end and the request limits; until its end it has exactly one operation under way, with its timer running if that is a read; one on the books has something under way or owes its end |
| LateSessions.DrainingArmsNothing | src/server.cpp:118-119 | a doAccept that begins while draining or after the stop arms nothing and decides nothing |
| LateSessions.DrainingStep | src/server.cpp:116-172 | while draining no step adds to the sessions inserted and those still in prospect |
| LateSessions.FewEnterLate | src/server.cpp:116-172 | in every run from any draining state the sessions inserted later are at most those its threads and its outstanding accept hold in prospect |
| LateSessions.LateSessionsAreFew | src/server.cpp:116-172 | in numbers, at most max(1, io_threads) + 2 |
| LateSessions.ServingStep | src/server.cpp:129-171 | while serving every step but an aborted accept keeps exactly one accept outstanding or being decided on |
| LateSessions.ServerGoesOnAccepting | src/server.cpp:129-171 | over every run without an aborted accept, before any signal and with no thread deciding, exactly one accept is outstanding, whatever accepts failed or were rejected |
| DrainTimers.HandlersStaySo | src/session.cpp:147-161 | only a call of close() makes a session closed or about to be closed, and no handler undoes it |
| DrainTimers.SplitStep | src/server.cpp:82-87 | every step after the snapshot keeps: whoever was inserted later is untouched, whoever was on the books at the snapshot is removed, told to close, or still on the timer's list |
| DrainTimers.TimerClosesExactlyTheSnapshot | src/server.cpp:73-90 | once the timer's handler is through, a session still on the books has been told to close if and only if it was inserted before the snapshot, in every run |
| DrainTimers.TimerCanMissASession | src/server.cpp:159-170 | for every positive limit some run ends the timer's handler with the I/O context running and a session on the books that the timer never closes |
| DrainTimers.TimerMissesIff | src/server.cpp:82-90 | that can happen if and only if the limit is positive |
| DrainTimers.DrainWaitsForEverySession | src/server.cpp:205-213 | in every run, as long as a session on the books at the beginning is on them, the I/O context has not been stopped |
| DrainProgress.AllToldIff | src/server.cpp:82-90 | once the timer is through, everybody on the books has been told to close if and only if nobody entered after the snapshot |
| DrainProgress.StepDraining | src/server.cpp:190-213 | while nobody enters, every step keeps everybody told, and nobody comes back on the books |
| DrainProgress.Leaves | src/session.cpp:147-169 | in a fair behaviour each session told to close leaves the books |
| DrainProgress.DrainEnds | src/server.cpp:63-94 | in every fair behaviour after the signal handler's check with everybody told to close and nobody entering late, the I/O context is stopped |
| HttpServers.HttpServer.constructor | src/server.cpp:97-114 | the main thread is in doAccept, max(1, io_threads) others are free |
| HttpServers.HttpServer.DoAccept | src/server.cpp:116-172 | equals the flag test, count check and arming of the protocol: nothing, a rejecting accept or an admitting one; keeps the invariant of the protocol; in terms of the fields, arms nothing when draining or stopped, and otherwise exactly one accept, admitting if and only if the count is below the limit |
| HttpServers.HttpServer.OnAccept | src/server.cpp:146-171 | equals the protocol's steps for each result: aborted ends, failed re-arms, accepted re-arms and then inserts and starts the session; keeps the invariant of the protocol; in terms of the fields, arms one accept unless aborted, draining or stopped, and inserts, counts and starts exactly one session if and only if accepted |
| HttpServers.HttpServer.OnReject | src/server.cpp:130-138 | whatever the result, re-arms without inserting anything; keeps the invariant of the protocol; in terms of the fields, arms one accept unless draining or stopped |
| HttpServers.HttpServer.InsertSession | src/server.cpp:161-170 | equals insert, count and start of the protocol, in that order; keeps the invariant of the protocol; one session more in the set, counted, its first read posted, the others untouched |
| HttpServers.HttpServer.EndSession | src/server.cpp:190-203 | equals erase, decrement and drain check of the protocol under one lock; keeps the invariant of the protocol; that session out of the set, one less counted, stopped if and only if draining at zero |
| HttpServers.HttpServer.CheckDrainComplete | src/server.cpp:205-213 | stops the I/O context exactly when draining with a count of zero |
| HttpServers.HttpServer.OnSignal | src/server.cpp:63-94 | equals setting the flag and then the locked check of the protocol; keeps the invariant of the protocol; stopped if and only if nobody is counted |
| HttpServers.HttpServer.OnDrainTimer | src/server.cpp:74-90 | an aborted wait does nothing; otherwise every session of the snapshot, and no other, is closed once, and the drain check follows; keeps the invariant of the protocol; the number of close() calls goes up by one for each registered session and for no other |
| HttpServers.AfterTimerIsARun | src/server.cpp:74-90 | the handler is a run of the protocol: the snapshot, one close for each of its sessions, the check; so what is proved of those steps holds of it |
| HttpServers.HttpServer.CloseSessions | src/server.cpp:243-251 | close is posted exactly once to each session of the snapshot and to no other, in whatever order the set yields them |
| Service.StepAgrees | src/request_processor.cpp:54-110 | every step keeps: the tasks queued or running for a session are as many as that session waits for |
| Service.StepInv | src/request_processor.cpp:54-110 | every step of server and pool together keeps both invariants and their agreement |
| Service.RunInv | src/request_processor.cpp:54-110 | so does every interleaving |
| Service.OneTaskPerSession | src/request_processor.cpp:83-96 | in every reachable state a session has at most one task in the pool, and while it has one no read, write or response of its own is pending |
| Service.CompletionFindsItsSession | src/request_processor.cpp:54-76 | a worker running a task can always complete it: its session is there and waits for it |
| Service.ComputeQueuesItsTask | src/request_processor.cpp:83-95 | a parsed `POST /compute` puts one entry with its session and its priority into the queue and owes one notification, or, if the pool is shut down or full, puts none and has a 503 on its way |
| Service.GracefulEndAnswersEverything | src/thread_pool.cpp:101-116 | when all workers have left without an abort, no session waits for a task, and each request and oversized body is answered, dropped by a close, or a response on its way |
| HttpTasks.Execute | src/http_task.cpp:14-37 | at least one completion callback; exactly one if and only if computing threw or the callback did not; a second one always reports the error; an exception escapes if and only if an error is reported and that callback throws |
| Loggers.MessageQueue.Push | src/logger.cpp:52-59 | appends one message |
| Loggers.MessageQueue.TryPop | src/logger.cpp:61-74 | hands out and removes the oldest message; without one, blocks until shutdown and then says so |
| Loggers.AsyncLogger.Log | src/logger.cpp:160-165 | queues the message if and only if its level is the minimum or a more severe one, level by level |
| Loggers.PassesIff | src/logger.cpp:160-165 | a message is among those that pass if and only if it was logged with the minimum level or a more severe one of DEBUG, INFO, WARNING, ERROR |
| Loggers.AsyncLogger.Consume | src/logger.cpp:133-139 | after shutdown the consumer's loop writes everything queued, in order, and ends |
| Loggers.PassingPrefix | src/logger.cpp:160-165 | filtering by level preserves prefixes: what passed early stays ahead |
| Loggers.StepFifo | src/logger.cpp:52-74 | every step keeps: written, in hand and queued, in this order, are exactly the passing messages in push order |
| Loggers.StepInv | src/logger.cpp:52-141 | every step keeps the whole invariant, including wake-ups and the flush |
| Loggers.SinkIsFifoAndFlushed | src/logger.cpp:52-83 | in every interleaving the sink is a prefix of the passing messages in push order, each once; when the consumer has left, all pushed before shutdown are written |
| Loggers.NoMessageIsForgotten | src/logger.cpp:52-83 | a sleeping consumer has an undelivered notification for every queued message, and after shutdown an undelivered broadcast |
| Loggers.FlushIsBounded | src/logger.cpp:172-176 | after shutdown, once logging stops, the consumer makes at most 2·queued + 2 more moves |
| Loggers.ConsumerMoves | src/logger.cpp:133-139 | in a fair behaviour after shutdown with nobody logging, a consumer that has not left makes another move that lowers the measure |
| Loggers.FlushTerminates | src/logger.cpp:172-176 | in every such behaviour the consumer leaves, with everything pushed before the shutdown written |
| Routers.KeyPrefix | src/router.cpp:6-9 | one key begins another if and only if the methods are equal and the path begins the path |
| Routers.MakeKeyIsInjective | src/router.cpp:6-9 | different routes have different keys |
| Routers.LongestPrefixIsUnique | src/router.cpp:25-44 | at most one registered key is the longest prefix of a request key |
| Routers.SelectionIsUnique | src/router.cpp:25-44 | so prefix search has one possible result, whatever the iteration order |
| Routers.ExactIsLongest | src/router.cpp:55-59 | a registered request key is its own longest prefix: exact search never disagrees with prefix search |
| Routers.RouterTable.AddRoute | src/router.cpp:11-15 | adds or replaces one route and touches no other |
| Routers.RouterTable.FindHandler | src/router.cpp:17-23 | finds exactly the handler registered under the same method and path |
| Routers.RouterTable.FindPrefixHandler | src/router.cpp:25-44 | for every iteration order, the handler of the longest registered key that begins the request key, or none if there is none |
| Routers.Router.Route | src/router.cpp:52-65 | exact search followed by prefix search selects what prefix search alone selects |
| Routers.SelectedForSameMethod | src/router.cpp:25-44 | a selected handler was registered for the request's own method under a path that begins the target |

## Left out

- Sockets, HTTP parsing and timers of Boost.Asio and Beast: only their completions appear, in any order and with any result.
- The bodies of requests and responses, JSON, the sort behind `/compute`, `X-Priority` parsing and its sampled logging: a request is its kind, its outcome and whether it wants the connection kept.
- The text of the `Connection` header (src/server.cpp:216-235): only the resulting boolean.
- Configuration, static files, the status page, log formatting, sinks and `main`: they would add easy members only.
- Failures while starting up, and the destruction of a server that never ran.
- The vector behind the queue: modelled as an array of `max_queue_size` cells, so that its growth and reallocation do not appear.
- QueueModel.PushKeepsWellFormed: `m_order` is unbounded here; a wrap-around after 2^64 submissions is not modelled.
- ThreadPools.WorkerThread.Loop: one worker alone on a queue already shut down; several workers, and submissions while they run, are the subject of `PoolProtocol`.
- ThreadPools.ThreadPool.ShutdownWithTimeout: takes the moments at which the workers leave as given and says nothing of tasks; `ShutdownResults.ShutDown` does. The list of pending workers holds positions instead of pointers.
- PoolTheorems.ShutdownTerminates: termination of each `execute` is part of the fairness that is assumed.
- ServerTheorems.DrainCompletes: does not say that draining ends within the drain timeout, because it need not; `DrainTimers.TimerClosesExactlyTheSnapshot` says which sessions the timer reaches.
- HttpServers.HttpServer.OnAccept: like every method of that class it describes an undisturbed execution; what other threads do in between is the subject of `ServerProtocol`.
- HttpServers.HttpServer.CloseSessions: stands for the closing loops of the drain timer and of `shutdown()`; the rest of `HttpServer::shutdown()` is joining the I/O threads, the pool's timed shutdown and the logger's.
- SessionModel.EventInv: the read that follows a kept-alive response is an event of its own here, which allows one more interleaving than the program has; in `Sessions.Session.OnWrite` it is part of the handler.
- HttpTasks.Execute: says that an exception escapes when the error callback throws, not what the thread's end does to the program.
- DrainProgress.DrainEnds: sessions that end on their own are covered, connections inserted during the drain are not; for those see `DrainTimers.DrainWaitsForEverySession`.
- Loggers.AsyncLogger.Consume: the loop after shutdown with nobody logging; logging meanwhile is the subject of the interleavings in the same file. The minimum level is fixed during a run, so a concurrent `setMinLevel` is not modelled.
- Routers.Router.Route: selects the handler; what the handler then does is left out.
- Ownership and move semantics (`unique_ptr`, `shared_ptr`, `std::function`): tasks, sessions and handlers are identities.
