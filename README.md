# JobDispatcher model

A Dafny model of JMapViewer's `JobDispatcher`
(`src/org/openstreetmap/gui/jmapviewer/JobDispatcher.java`). This class runs
tile-loading jobs on a pool of worker threads. The class comment says the
pool holds between 1 and `workerThreadMaxCount` threads (8 by default).
That is the intent, not something the code enforces. An interrupt ends even
the first worker, so the count can reach 0, and `setMaxWorkers` can lower
the maximum below the current count without stopping any thread. Jobs wait
in a `LinkedBlockingDeque`. A job whose non-null tile equals the tile of a
queued job is dropped, so the job queued first for a tile survives
(`EarliestSubmissionSurvives`). Workers take from the head of the deque (FIFO) or from its
tail (LIFO). A worker that waits 30 seconds without getting a job ends
itself, except the first worker, which waits without a timeout.

Each operation is modelled as one atomic step on the dispatcher's state.
These are the steps of `addJob`, `cancelOutstandingJobs`, `setMaxWorkers`,
`setLIFO` and `addWorkerThread`, and the turns of a worker's loop.

- `jobs.dfy`, module `Jobs`: what a job is, the duplicate test, and the
  queue as a value. `Enqueue` is the queue after `addJob`, `TakeEnd` is one
  removal from the end the mode selects, and `Drain` is the order in which
  repeated removals hand jobs out.
- `workers.dfy`, module `Workers`: the four counters `workerThreadCount`,
  `workerThreadIdleCount`, `workerThreadId` and `workerThreadMaxCount`,
  kept together with the ids of the threads they count. `Valid` states that
  the counters equal the sizes of those id sets, so
  `0 <= idle <= count`. It also states that every live id has already been
  handed out. The module has one transition function per counter update in
  the source.
- `dispatcher.dfy`, module `Dispatcher`: the class `JobDispatcher`. It has
  the source's fields, plus ghost sets of live and waiting thread ids. Each
  method's `ensures` ties the new state to the functions above.
  `ExecuteJobs` and `Run` are the worker loop and `run()`. They are driven
  by a sequence of events, one per turn of the loop, that stand in for the
  timer, interrupts and the job's outcome.

## Model

| member | source | states |
|---|---|---|
| `Jobs.Enqueue` | src/org/openstreetmap/gui/jmapviewer/JobDispatcher.java:97-106 | `addJob` on the queue. Existing jobs stay where they were, and at most the new job is added, at the tail. A null-tile job is always appended. Afterwards the job's tile is pending. The queue stays deduplicated. |
| `Jobs.EarliestSubmissionSurvives` | src/org/openstreetmap/gui/jmapviewer/JobDispatcher.java:99-104 | A job whose non-null tile equals a queued job's tile leaves the queue unchanged. The earlier job survives. |
| `Jobs.EnqueueAll` | src/org/openstreetmap/gui/jmapviewer/JobDispatcher.java:97-106 | Any sequence of submissions keeps the queued jobs as a prefix, appends at most one job per submission, and keeps the queue deduplicated. |
| `Jobs.EnqueueAppends` | src/org/openstreetmap/gui/jmapviewer/JobDispatcher.java:99-106 | One submission appends either nothing or the job itself, and a job with a null tile is always appended. |
| `Jobs.EnqueueAllStep` | src/org/openstreetmap/gui/jmapviewer/JobDispatcher.java:97-106 | What a series of submissions appends is what the first one appends, followed by what the rest append to the resulting queue. |
| `Jobs.EnqueueAllKeepsOrder` | src/org/openstreetmap/gui/jmapviewer/JobDispatcher.java:97-106 | The appended jobs are a subsequence of the submitted ones: some submissions are dropped, and the others are appended in submission order. |
| `Jobs.EnqueueAllBounded` | src/org/openstreetmap/gui/jmapviewer/JobDispatcher.java:97-106 | No job is appended more often than it was submitted (the appended multiset is contained in the submitted one). |
| `Jobs.EnqueueAllKeepsNullTiles` | src/org/openstreetmap/gui/jmapviewer/JobDispatcher.java:99-106 | A job with a null tile is never dropped: it is appended exactly as often as it was submitted. |
| `Jobs.EnqueueAllPending` | src/org/openstreetmap/gui/jmapviewer/JobDispatcher.java:97-106 | After the submissions, every submitted non-null tile is pending, either through the submitted job or through an earlier one for the same tile. |
| `Jobs.PendingPrefix` | src/org/openstreetmap/gui/jmapviewer/JobDispatcher.java:106 | Appending to the queue never makes a pending tile stop being pending. |
| `Jobs.EnqueueAllDistinct` | src/org/openstreetmap/gui/jmapviewer/JobDispatcher.java:97-106 | Submissions with pairwise distinct tiles, none already queued, are all appended in submission order. |
| `Jobs.TakeEnd` | src/org/openstreetmap/gui/jmapviewer/JobDispatcher.java:154-164 | FIFO removes the head and LIFO removes the tail. The rest keep their order. A deduplicated queue stays deduplicated, and the taken job's tile is no longer pending. |
| `Jobs.Drain` | src/org/openstreetmap/gui/jmapviewer/JobDispatcher.java:154-164 | Repeated removals hand out every queued job exactly once, as a permutation of the queue. |
| `Jobs.DrainedStep` | src/org/openstreetmap/gui/jmapviewer/JobDispatcher.java:154-164 | One more removal extends the record of what a worker took from the queue, at the end the mode selects. |
| `Jobs.FifoDrainsInOrder` | src/org/openstreetmap/gui/jmapviewer/JobDispatcher.java:159-164 | In FIFO mode, jobs are handed out head to tail, in queue order. |
| `Jobs.LifoDrainsNewestFirst` | src/org/openstreetmap/gui/jmapviewer/JobDispatcher.java:154-158 | In LIFO mode, jobs are handed out tail to head, which is the reverse of queue order. |
| `Jobs.FifoRunsInSubmissionOrder` | src/org/openstreetmap/gui/jmapviewer/JobDispatcher.java:97-164 | Distinct submissions to an empty queue are handed out in submission order in FIFO mode. |
| `Jobs.LifoTakesNewest` | src/org/openstreetmap/gui/jmapviewer/JobDispatcher.java:154-158 | In LIFO mode, a job that was just inserted is the next one taken, and the older jobs are left as they were. |
| `Jobs.ReverseAt` | src/org/openstreetmap/gui/jmapviewer/JobDispatcher.java:154-158 | Position k of the LIFO hand-out order is position \|q\|-1-k of the queue. |
| `Workers.Unstarted` | src/org/openstreetmap/gui/jmapviewer/JobDispatcher.java:36-53 | The field defaults before the constructor runs form a valid pool with no threads, for any value of the maximum. |
| `Workers.AddWorkerThread` | src/org/openstreetmap/gui/jmapviewer/JobDispatcher.java:116-123 | The count and the id each go up by exactly 1. The new id is fresh and larger than every live id. Idle count and maximum are unchanged, and the pool stays valid. |
| `Workers.Initial` | src/org/openstreetmap/gui/jmapviewer/JobDispatcher.java:55-57 | The constructor leaves exactly one live worker, the first one with id 1, and none idle. The function takes the maximum as a parameter, so this is proved for every maximum, including the 0 that the static field still holds while the singleton is built. |
| `Workers.ScaleUp` | src/org/openstreetmap/gui/jmapviewer/JobDispatcher.java:107-110 | A worker is added exactly when none is idle and the count is below the maximum. An addition never takes the count above the maximum, and a count at or below the maximum stays there. |
| `Workers.Burst` | src/org/openstreetmap/gui/jmapviewer/JobDispatcher.java:107-110 | After any number of inserts, the count rises by at most the number of inserts. If it started at or below the maximum, it never exceeds it. |
| `Workers.BurstFillsPool` | src/org/openstreetmap/gui/jmapviewer/JobDispatcher.java:107-110 | With no worker idle, n inserts bring the count to min(count + n, maximum). |
| `Workers.BurstWithIdleWorker` | src/org/openstreetmap/gui/jmapviewer/JobDispatcher.java:107-110 | With a worker idle, inserts add no worker. |
| `Workers.EnterIdle` | src/org/openstreetmap/gui/jmapviewer/JobDispatcher.java:151-153 | Entering the wait raises the idle count by 1 and keeps it at most the total count. |
| `Workers.ExitIdle` | src/org/openstreetmap/gui/jmapviewer/JobDispatcher.java:167-171 | Leaving the wait, whatever ended it, lowers the idle count by 1 and never below 0. The thread stays counted. |
| `Workers.Retire` | src/org/openstreetmap/gui/jmapviewer/JobDispatcher.java:143-145 | The end of `run()` lowers the total count by exactly 1. The idle count is unchanged. |
| `Workers.WaitIsNetZero` | src/org/openstreetmap/gui/jmapviewer/JobDispatcher.java:151-171 | Entering and then leaving the wait restores the pool exactly. |
| `Workers.IdleWithinCount` | src/org/openstreetmap/gui/jmapviewer/JobDispatcher.java:38-46 | In every valid pool, 0 <= idle count <= total count. |
| `Dispatcher.Await` | src/org/openstreetmap/gui/jmapviewer/JobDispatcher.java:154-166 | A wait ends in an interrupt exactly when the thread is interrupted. Otherwise it gets a job exactly when the queue is non-empty: the head in FIFO mode, the tail in LIFO mode. It gets null exactly for a non-first worker whose timer expired on an empty queue. |
| `Dispatcher.Failures` | src/org/openstreetmap/gui/jmapviewer/JobDispatcher.java:174-178 | The count of jobs that threw is at most the number of turns, and it is 0 exactly when every job completed. |
| `Dispatcher.FirstThreadNeverTimesOut` | src/org/openstreetmap/gui/jmapviewer/JobDispatcher.java:155-161 | The first worker's unbounded `take` never yields null. |
| `Dispatcher.JobDispatcher.constructor` | src/org/openstreetmap/gui/jmapviewer/JobDispatcher.java:55-57 | The queue is empty, the mode is FIFO, and the counters equal `Workers.Initial(8)`. The first thread is a registered worker. |
| `Dispatcher.JobDispatcher.CancelOutstandingJobs` | src/org/openstreetmap/gui/jmapviewer/JobDispatcher.java:66-71 | The queue becomes empty. The counters and the mode are unchanged. |
| `Dispatcher.JobDispatcher.SetMaxWorkers` | src/org/openstreetmap/gui/jmapviewer/JobDispatcher.java:73-79 | Only the maximum changes. An already larger pool is not shrunk. |
| `Dispatcher.JobDispatcher.SetLIFO` | src/org/openstreetmap/gui/jmapviewer/JobDispatcher.java:81-88 | Only the mode changes. |
| `Dispatcher.JobDispatcher.IsQueued` | src/org/openstreetmap/gui/jmapviewer/JobDispatcher.java:99-104 | The scan answers true exactly when the job has a non-null tile equal to the tile of some queued job. |
| `Dispatcher.JobDispatcher.AddJob` | src/org/openstreetmap/gui/jmapviewer/JobDispatcher.java:97-114 | A duplicate leaves the queue and all counters unchanged. Otherwise the job is appended and the counters follow `Workers.ScaleUp`. The queue stays deduplicated and the mode is unchanged. |
| `Dispatcher.JobDispatcher.AddWorkerThread` | src/org/openstreetmap/gui/jmapviewer/JobDispatcher.java:116-123 | The counters follow `Workers.AddWorkerThread`. The returned thread has the new id, which was not live before, is a registered worker, and is the first thread exactly when its id is 1. |
| `Dispatcher.JobDispatcher.EnterIdle` | src/org/openstreetmap/gui/jmapviewer/JobDispatcher.java:151-153 | The counters follow `Workers.EnterIdle`. |
| `Dispatcher.JobDispatcher.AwaitJob` | src/org/openstreetmap/gui/jmapviewer/JobDispatcher.java:154-171 | The result is `Await`'s. Only a `Got` result removes a job, from the end `TakeEnd` names. Every result except a still-blocked `take` leaves the wait through `Workers.ExitIdle`. |
| `Dispatcher.JobDispatcher.Terminate` | src/org/openstreetmap/gui/jmapviewer/JobDispatcher.java:143-145 | The counters follow `Workers.Retire`. |
| `Dispatcher.JobDispatcher.ExecuteJobs` | src/org/openstreetmap/gui/jmapviewer/JobDispatcher.java:148-181 | The jobs run are exactly those drained from the queue in the mode's order. Every turn runs a job except the one that stops the loop, so a job that throws does not stop it. The number of failures equals the number of `Throws` outcomes among the turns that ran a job. No turn that ran a job saw an interrupt. The loop stops early only on an interrupt, on a null poll (only for a non-first worker whose timer expired on an empty queue), or when blocked (on an empty queue, with no interrupt, and for a non-first worker only before its timer expires). Turns that run a job leave the counters unchanged. |
| `Dispatcher.JobDispatcher.Run` | src/org/openstreetmap/gui/jmapviewer/JobDispatcher.java:141-146 | The guarantees of `ExecuteJobs` on the jobs run, the failures and the reason for stopping carry over. A thread that ended, by an interrupt or a null poll, is removed through `Workers.Retire`, which lowers the count by exactly 1. The first thread never ends through a null poll. |

## Left out

- Threads and locking. Every operation is one atomic step. The window
  between the duplicate scan and `put` is not modelled, and neither are
  concurrent takes. Under real concurrency, the "at most one queued job per
  tile" invariant is best-effort, not guaranteed.
- Time. The 30-second `poll` timeout (`workerThreadTimeout`) and blocking
  are replaced by the `Wake` parameter: `Pending`, `TimerExpired` or
  `Interrupt`. A `take` with nothing to return reports `StillWaiting` and
  leaves the state as it was.
- Interrupts at the top of the loop. `isInterrupted()` at the top of the
  loop and an interrupt during `take`/`poll` have the same net effect. Both
  are modelled as an `Interrupt` wake.
- The job body. `job.run()` and `TileJob.getTile()` are not part of this
  model. A job is its optional tile plus an opaque action number, and
  `Tile.equals` is Dafny equality on the key type.
- Failures thrown by a job. An `Exception` only prints a stack trace; the
  model counts it and continues. A thrown `Error` (not an `Exception`) is
  not modelled. In the source, such an `Error` ends the thread without the
  `workerThreadCount--` of `run()`.
- The `firstThread` flag. The source sets it after `start()`. The model
  gives the first thread the flag from its creation.
- The `job` field of `JobThread`. It is a local of the loop in the model.
- Thread names and the daemon flag. The name "OSMJobThread id" and
  `setDaemon` are not modelled.
- The singleton. The static `instance` and `getInstance` become one
  explicit `JobDispatcher` object. `workerThreadMaxCount` is static in the
  source and is a field of that object here. Java's static initialisation
  order builds `instance` while `workerThreadMaxCount` is still 0; the
  constructor never reads it, so the model sets it to 8 from the start.
- Interrupted insertion. `addJob` catches an `InterruptedException` from
  `put` (lines 111-113). `put` on an unbounded `LinkedBlockingDeque` never
  waits, so that handler is never reached, and the model has no such path.
- `Jobs.Job`: a model job is a value and cannot be null. In the source,
  `addJob(null)` throws a `NullPointerException` at `job.getTile()`
  (line 99) and leaves everything unchanged; the model has no such call.
- `Workers.AddWorkerThread`: ids and counters are unbounded integers. The
  Java `int` behind `++workerThreadId` wraps to a negative id after
  2^31 - 1 threads were started; the model does not capture that wrap.
- `src/GraphHopperAPI.java`. The routing wrapper around an external library
  is not part of this model.
