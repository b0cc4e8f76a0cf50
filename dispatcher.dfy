/** The dispatcher object: the job deque, the ordering mode and the pool
    counters, with one method per step that the source takes under its lock
    or inside one deque call. Every step is atomic here; threads are the
    callers of the worker steps, identified by their `JobThread` value. */
module Dispatcher {
  import opened Jobs
  import Workers

  /** A worker thread: its id and whether it is the first, never-timing-out one. */
  datatype JobThread = JobThread(id: int, firstThread: bool)

  /** What ends a worker's wait besides a job being available: nothing yet,
      the 30-second poll timer, or an interrupt of the thread. */
  datatype Wake = Pending | TimerExpired | Interrupt

  /** How a wait in `take`/`poll` ends: a job, a null result from `poll`, an
      `InterruptedException`, or not at all yet (the thread is still blocked). */
  datatype WaitResult<K> = Got(job: Job<K>) | Empty | Interrupted | StillWaiting

  /** Why a worker's loop stopped: the given events ran out, the worker is
      blocked in its wait, `poll` returned null, or the wait was interrupted. */
  datatype Stop = EventsUsed | Blocked | NullJob | WaitInterrupted

  /** Whether `job.run()` returns normally or throws an `Exception`. */
  datatype JobOutcome = Completes | Throws

  /** What happens to a worker in one turn of its loop. */
  datatype Event = Event(wake: Wake, outcome: JobOutcome)

  /** How many of the turns described by `events` ran a job that threw. */
  function Failures(events: seq<Event>): (n: nat)
    ensures n <= |events|
    ensures n == 0 <==> forall i :: 0 <= i < |events| ==> events[i].outcome == Completes
  {
    if events == [] then 0
    else
      var init, last := events[..|events| - 1], if events[|events| - 1].outcome == Throws then 1 else 0;
      assert forall i :: 0 <= i < |init| ==> init[i] == events[i];
      Failures(init) + last
  }

  /** One wait of a worker on a deque `q`: the first worker uses the
      unbounded `take`/`takeLast`, the others the timed `poll`/`pollLast`. */
  function Await<K(==)>(q: seq<Job<K>>, lifo: bool, firstThread: bool, wake: Wake): (r: WaitResult<K>)
    ensures r.Interrupted? <==> wake == Interrupt
    ensures r.Got? <==> wake != Interrupt && q != []
    ensures r.Got? && !lifo ==> r.job == q[0]
    ensures r.Got? && lifo ==> r.job == q[|q| - 1]
    ensures r.Empty? <==> !firstThread && q == [] && wake == TimerExpired
  {
    if wake == Interrupt then Interrupted
    else if q != [] then Got(TakeEnd(q, lifo).job)
    else if !firstThread && wake == TimerExpired then Empty
    else StillWaiting
  }

  /** The first worker is never handed a null result, so it never ends through the timeout path. */
  lemma FirstThreadNeverTimesOut<K>(q: seq<Job<K>>, lifo: bool, wake: Wake)
    ensures !Await(q, lifo, true, wake).Empty?
  {
  }

  class JobDispatcher<K(==)> {
    var jobQueue: seq<Job<K>>
    /** LIFO if true, FIFO if false. */
    var modeLIFO: bool
    var workerThreadMaxCount: int
    /** Worker threads currently idle or active. */
    var workerThreadCount: int
    /** Worker threads currently inside `take`/`poll`. */
    var workerThreadIdleCount: int
    /** The last id handed to a worker thread. */
    var workerThreadId: int
    /** Ids of the threads counted by `workerThreadCount`. */
    ghost var live: set<int>
    /** Ids of the threads counted by `workerThreadIdleCount`. */
    ghost var waiting: set<int>

    ghost function Counters(): Workers.Pool
      reads this
    {
      Workers.Pool(workerThreadCount, workerThreadIdleCount, workerThreadId, workerThreadMaxCount, live, waiting)
    }

    ghost predicate Valid()
      reads this
    {
      Deduplicated(jobQueue) && Workers.Valid(Counters())
    }

    /** `w` is a running worker of this dispatcher. */
    ghost predicate IsWorker(w: JobThread)
      reads this
    {
      w.id in live && w.firstThread == (w.id == Workers.FirstThreadId)
    }

    constructor ()
      ensures Valid()
      ensures jobQueue == [] && !modeLIFO
      ensures Counters() == Workers.Initial(Workers.DefaultMaxCount)
      ensures IsWorker(JobThread(Workers.FirstThreadId, true))
    {
      jobQueue := [];
      modeLIFO := false;
      workerThreadMaxCount := Workers.DefaultMaxCount;
      workerThreadCount := 0;
      workerThreadIdleCount := 0;
      workerThreadId := 0;
      live := {};
      waiting := {};
      new;
      var first := AddWorkerThread();
    }

    /** Removes every job that no worker has taken yet. */
    method CancelOutstandingJobs()
      requires Valid()
      modifies this`jobQueue
      ensures Valid()
      ensures jobQueue == []
      ensures Counters() == old(Counters()) && modeLIFO == old(modeLIFO)
    {
      jobQueue := [];
    }

    method SetMaxWorkers(workers: int)
      requires Valid()
      modifies this`workerThreadMaxCount
      ensures Valid()
      ensures Counters() == old(Counters()).(workerThreadMaxCount := workers)
      ensures jobQueue == old(jobQueue) && modeLIFO == old(modeLIFO)
    {
      workerThreadMaxCount := workers;
    }

    method SetLIFO(lifo: bool)
      requires Valid()
      modifies this`modeLIFO
      ensures Valid()
      ensures modeLIFO == lifo
      ensures jobQueue == old(jobQueue) && Counters() == old(Counters())
    {
      modeLIFO := lifo;
    }

    /** The duplicate scan of `addJob`: does a queued job carry the job's non-null tile? */
    method IsQueued(job: Job<K>) returns (queued: bool)
      ensures queued <==> IsDuplicate(jobQueue, job)
    {
      if job.tile.Some? {
        var i := 0;
        while i < |jobQueue|
          invariant 0 <= i <= |jobQueue|
          invariant forall j :: 0 <= j < i ==> jobQueue[j].tile != job.tile
        {
          if job.tile == jobQueue[i].tile {
            return true;
          }
          i := i + 1;
        }
      }
      return false;
    }

    /** Queues `job` unless it duplicates a queued one; after an insert, adds a
        worker when none is idle and the pool is below its maximum. */
    method AddJob(job: Job<K>)
      requires Valid()
      modifies this
      ensures Valid()
      ensures IsDuplicate(old(jobQueue), job) ==> jobQueue == old(jobQueue) && Counters() == old(Counters())
      ensures !IsDuplicate(old(jobQueue), job) ==>
                jobQueue == old(jobQueue) + [job] && Counters() == Workers.ScaleUp(old(Counters()))
      ensures jobQueue == Enqueue(old(jobQueue), job)
      ensures modeLIFO == old(modeLIFO)
    {
      var queued := IsQueued(job);
      if queued {
        return;
      }
      jobQueue := jobQueue + [job];
      if workerThreadIdleCount == 0 && workerThreadCount < workerThreadMaxCount {
        var spawned := AddWorkerThread();
      }
    }

    /** Starts a worker thread with the next id. */
    method AddWorkerThread() returns (t: JobThread)
      requires Workers.Valid(Counters())
      modifies this`workerThreadId, this`workerThreadCount, this`live
      ensures Counters() == Workers.AddWorkerThread(old(Counters()))
      ensures t.id == workerThreadId && t.firstThread == (t.id == Workers.FirstThreadId)
      ensures IsWorker(t) && t.id !in old(live)
    {
      workerThreadId := workerThreadId + 1;
      t := JobThread(workerThreadId, workerThreadId == Workers.FirstThreadId);
      workerThreadCount := workerThreadCount + 1;
      live := live + {t.id};
    }

    /** A worker enters the wait at the top of its loop. */
    method EnterIdle(w: JobThread)
      requires Valid() && IsWorker(w) && w.id !in waiting
      modifies this`workerThreadIdleCount, this`waiting
      ensures Valid() && IsWorker(w) && w.id in waiting
      ensures Counters() == Workers.EnterIdle(old(Counters()), w.id)
    {
      workerThreadIdleCount := workerThreadIdleCount + 1;
      waiting := waiting + {w.id};
    }

    /** A waiting worker's `take`/`poll` (at the end chosen by the mode) and the
        `finally` that lowers the idle count whatever the outcome. */
    method AwaitJob(w: JobThread, wake: Wake) returns (r: WaitResult<K>)
      requires Valid() && IsWorker(w) && w.id in waiting
      modifies this`jobQueue, this`workerThreadIdleCount, this`waiting
      ensures Valid() && IsWorker(w)
      ensures r == Await(old(jobQueue), modeLIFO, w.firstThread, wake)
      ensures r.Got? ==> jobQueue == TakeEnd(old(jobQueue), modeLIFO).rest
      ensures !r.Got? ==> jobQueue == old(jobQueue)
      ensures r.StillWaiting? ==> Counters() == old(Counters())
      ensures !r.StillWaiting? ==> Counters() == Workers.ExitIdle(old(Counters()), w.id)
    {
      if wake == Interrupt {
        r := Interrupted;
      } else if jobQueue != [] {
        var t := TakeEnd(jobQueue, modeLIFO);
        jobQueue := t.rest;
        r := Got(t.job);
      } else if !w.firstThread && wake == TimerExpired {
        r := Empty;
      } else {
        return StillWaiting;
      }
      workerThreadIdleCount := workerThreadIdleCount - 1;
      waiting := waiting - {w.id};
    }

    /** The end of a worker's `run()`: the thread leaves the count. */
    method Terminate(w: JobThread)
      requires Valid() && IsWorker(w) && w.id !in waiting
      modifies this`workerThreadCount, this`live
      ensures Valid() && w.id !in live
      ensures Counters() == Workers.Retire(old(Counters()), w.id)
    {
      workerThreadCount := workerThreadCount - 1;
      live := live - {w.id};
    }

    /** `executeJobs` driven by `events`, one per turn of the loop: the jobs
        the worker ran, how many of them threw, how many events it used, and
        why the loop stopped. Every turn but a stopping one runs a job, and a
        job that throws does not stop the loop. */
    method ExecuteJobs(w: JobThread, events: seq<Event>)
      returns (ran: seq<Job<K>>, failures: nat, consumed: nat, stop: Stop)
      requires Valid() && IsWorker(w) && w.id !in waiting
      modifies this`jobQueue, this`workerThreadIdleCount, this`waiting
      ensures Valid() && IsWorker(w)
      ensures consumed <= |events| && (stop.EventsUsed? <==> consumed == |events| && |ran| == consumed)
      ensures !stop.EventsUsed? ==> 0 < consumed && |ran| == consumed - 1
      ensures forall i :: 0 <= i < |ran| ==> events[i].wake != Interrupt
      ensures failures == Failures(events[..|ran|])
      ensures Drained(old(jobQueue), jobQueue, ran, modeLIFO)
      ensures stop.Blocked? ==> Counters() == Workers.EnterIdle(old(Counters()), w.id)
      ensures !stop.Blocked? ==> Counters() == old(Counters())
      ensures stop.Blocked? ==> jobQueue == [] && events[consumed - 1].wake != Interrupt &&
                                (w.firstThread || events[consumed - 1].wake == Pending)
      ensures stop.WaitInterrupted? ==> events[consumed - 1].wake == Interrupt
      ensures stop.NullJob? ==> events[consumed - 1].wake == TimerExpired && !w.firstThread && jobQueue == []
    {
      ghost var start := Counters();
      ran, failures, consumed := [], 0, 0;
      while consumed < |events|
        invariant Valid() && IsWorker(w) && w.id !in waiting && Counters() == start
        invariant consumed <= |events| && |ran| == consumed
        invariant forall i :: 0 <= i < consumed ==> events[i].wake != Interrupt
        invariant failures == Failures(events[..consumed])
        invariant Drained(old(jobQueue), jobQueue, ran, modeLIFO)
        decreases |events| - consumed
      {
        var event := events[consumed];
        consumed := consumed + 1;
        ghost var queue := jobQueue;
        EnterIdle(w);
        var r := AwaitJob(w, event.wake);
        match r {
          case StillWaiting =>
            return ran, failures, consumed, Blocked;
          case Interrupted =>
            Workers.WaitIsNetZero(start, w.id);
            return ran, failures, consumed, WaitInterrupted;
          case Empty =>
            Workers.WaitIsNetZero(start, w.id);
            return ran, failures, consumed, NullJob;
          case Got(job) =>
            Workers.WaitIsNetZero(start, w.id);
            DrainedStep(old(jobQueue), queue, ran, modeLIFO);
            ran := ran + [job];
            assert events[..consumed][..consumed - 1] == events[..consumed - 1];
            // An exception thrown by the job is caught and the loop goes on.
            if event.outcome == Throws {
              failures := failures + 1;
            }
        }
      }
      stop := EventsUsed;
    }

    /** A worker thread's `run()`: its loop, then, if the loop ended, its
        removal from the count. */
    method Run(w: JobThread, events: seq<Event>)
      returns (ran: seq<Job<K>>, failures: nat, consumed: nat, stop: Stop)
      requires Valid() && IsWorker(w) && w.id !in waiting
      modifies this`jobQueue, this`workerThreadIdleCount, this`waiting, this`workerThreadCount, this`live
      ensures Valid()
      ensures consumed <= |events| && (stop.EventsUsed? <==> consumed == |events| && |ran| == consumed)
      ensures !stop.EventsUsed? ==> 0 < consumed && |ran| == consumed - 1
      ensures forall i :: 0 <= i < |ran| ==> events[i].wake != Interrupt
      ensures failures == Failures(events[..|ran|])
      ensures Drained(old(jobQueue), jobQueue, ran, modeLIFO)
      ensures stop.EventsUsed? ==> Counters() == old(Counters()) && IsWorker(w) && w.id !in waiting
      ensures stop.Blocked? ==> Counters() == Workers.EnterIdle(old(Counters()), w.id)
      ensures stop.Blocked? ==> jobQueue == [] && events[consumed - 1].wake != Interrupt &&
                                (w.firstThread || events[consumed - 1].wake == Pending)
      ensures stop.WaitInterrupted? || stop.NullJob? ==> Counters() == Workers.Retire(old(Counters()), w.id)
      ensures stop.WaitInterrupted? ==> events[consumed - 1].wake == Interrupt
      ensures stop.NullJob? ==> events[consumed - 1].wake == TimerExpired && !w.firstThread && jobQueue == []
    {
      ran, failures, consumed, stop := ExecuteJobs(w, events);
      if stop.WaitInterrupted? || stop.NullJob? {
        Terminate(w);
      }
    }
  }
}
