/** The worker-pool bookkeeping of the dispatcher, as values: the four counters
    of the source together with the ids of the worker threads they count. */
module Workers {

  /** Id of the distinguished worker created by the constructor (`++workerThreadId` from 0). */
  const FirstThreadId := 1

  /** Initial value of `workerThreadMaxCount`. */
  const DefaultMaxCount := 8

  /** `live` holds the ids of the worker threads whose `run()` has not returned,
      `waiting` the ids of those currently inside `take`/`poll`. */
  datatype Pool = Pool(
    workerThreadCount: int,
    workerThreadIdleCount: int,
    workerThreadId: int,
    workerThreadMaxCount: int,
    live: set<int>,
    waiting: set<int>)

  /** The counters count the threads, and every thread id was handed out already. */
  predicate Valid(p: Pool) {
    && p.waiting <= p.live
    && 0 <= p.workerThreadId
    && p.workerThreadCount == |p.live|
    && p.workerThreadIdleCount == |p.waiting|
    && (forall id :: id in p.live ==> FirstThreadId <= id <= p.workerThreadId)
  }

  /** The fields before the constructor body runs, with the maximum it reads. */
  function Unstarted(maxCount: int): (p: Pool)
    ensures Valid(p) && p.live == {} && p.workerThreadMaxCount == maxCount
  {
    Pool(0, 0, 0, maxCount, {}, {})
  }

  /** `addWorkerThread`: a thread with a fresh, larger id joins the pool. */
  function AddWorkerThread(p: Pool): (r: Pool)
    requires Valid(p)
    ensures Valid(r)
    ensures r.workerThreadCount == p.workerThreadCount + 1
    ensures r.workerThreadId == p.workerThreadId + 1
    ensures r.workerThreadId !in p.live && r.live == p.live + {r.workerThreadId}
    ensures forall id :: id in p.live ==> id < r.workerThreadId
    ensures r.waiting == p.waiting && r.workerThreadIdleCount == p.workerThreadIdleCount
    ensures r.workerThreadMaxCount == p.workerThreadMaxCount
  {
    var id := p.workerThreadId + 1;
    p.(workerThreadId := id, workerThreadCount := p.workerThreadCount + 1, live := p.live + {id})
  }

  /** The constructor: exactly one worker, the first one, and nobody idle,
      whatever the maximum is when it runs. */
  function Initial(maxCount: int): (p: Pool)
    ensures Valid(p)
    ensures p.workerThreadCount == 1 && p.workerThreadIdleCount == 0
    ensures p.live == {FirstThreadId} && p.workerThreadId == FirstThreadId
    ensures p.workerThreadMaxCount == maxCount
  {
    AddWorkerThread(Unstarted(maxCount))
  }

  /** The scale-up guard checked after a successful insert. */
  predicate NeedsWorker(p: Pool) {
    p.workerThreadIdleCount == 0 && p.workerThreadCount < p.workerThreadMaxCount
  }

  /** The counters after a job was put into the queue. */
  function ScaleUp(p: Pool): (r: Pool)
    requires Valid(p)
    ensures Valid(r)
    ensures NeedsWorker(p) ==> r == AddWorkerThread(p)
    ensures !NeedsWorker(p) ==> r == p
    ensures r.workerThreadCount > p.workerThreadCount ==> r.workerThreadCount <= r.workerThreadMaxCount
    ensures p.workerThreadCount <= p.workerThreadMaxCount ==> r.workerThreadCount <= r.workerThreadMaxCount
    ensures r.workerThreadMaxCount == p.workerThreadMaxCount
    ensures r.workerThreadIdleCount == p.workerThreadIdleCount
  {
    if NeedsWorker(p) then AddWorkerThread(p) else p
  }

  /** The counters after `n` successful inserts with no worker step in between. */
  function Burst(p: Pool, n: nat): (r: Pool)
    requires Valid(p)
    ensures Valid(r)
    ensures r.workerThreadMaxCount == p.workerThreadMaxCount
    ensures p.workerThreadCount <= r.workerThreadCount <= p.workerThreadCount + n
    ensures p.workerThreadCount <= p.workerThreadMaxCount ==> r.workerThreadCount <= r.workerThreadMaxCount
    decreases n
  {
    if n == 0 then p else Burst(ScaleUp(p), n - 1)
  }

  /** A worker enters the wait of its loop (`workerThreadIdleCount++`). */
  function EnterIdle(p: Pool, id: int): (r: Pool)
    requires Valid(p) && id in p.live && id !in p.waiting
    ensures Valid(r) && id in r.waiting
    ensures r.workerThreadIdleCount == p.workerThreadIdleCount + 1
    ensures 0 < r.workerThreadIdleCount <= r.workerThreadCount == p.workerThreadCount
    ensures r.live == p.live && r.workerThreadId == p.workerThreadId
    ensures r.workerThreadMaxCount == p.workerThreadMaxCount
  {
    var r := p.(workerThreadIdleCount := p.workerThreadIdleCount + 1, waiting := p.waiting + {id});
    SubsetCard(r.waiting, r.live);
    r
  }

  /** A worker leaves the wait, whatever ended it (`workerThreadIdleCount--` in `finally`). */
  function ExitIdle(p: Pool, id: int): (r: Pool)
    requires Valid(p) && id in p.waiting
    ensures Valid(r) && id in r.live && id !in r.waiting
    ensures r.workerThreadIdleCount == p.workerThreadIdleCount - 1 >= 0
    ensures r.workerThreadCount == p.workerThreadCount && r.live == p.live
    ensures r.workerThreadId == p.workerThreadId && r.workerThreadMaxCount == p.workerThreadMaxCount
  {
    p.(workerThreadIdleCount := p.workerThreadIdleCount - 1, waiting := p.waiting - {id})
  }

  /** A worker's `run()` ends (`workerThreadCount--`). */
  function Retire(p: Pool, id: int): (r: Pool)
    requires Valid(p) && id in p.live && id !in p.waiting
    ensures Valid(r) && id !in r.live
    ensures r.workerThreadCount == p.workerThreadCount - 1 >= 0
    ensures r.workerThreadIdleCount == p.workerThreadIdleCount && r.waiting == p.waiting
    ensures r.live == p.live - {id}
    ensures r.workerThreadId == p.workerThreadId && r.workerThreadMaxCount == p.workerThreadMaxCount
  {
    p.(workerThreadCount := p.workerThreadCount - 1, live := p.live - {id})
  }

  /** One wait of a worker leaves the idle count where it found it. */
  lemma WaitIsNetZero(p: Pool, id: int)
    requires Valid(p) && id in p.live && id !in p.waiting
    ensures ExitIdle(EnterIdle(p, id), id) == p
  {
  }

  /** Every valid pool has `0 <= workerThreadIdleCount <= workerThreadCount`. */
  lemma IdleWithinCount(p: Pool)
    requires Valid(p)
    ensures 0 <= p.workerThreadIdleCount <= p.workerThreadCount
  {
    SubsetCard(p.waiting, p.live);
  }

  lemma SubsetCard(a: set<int>, b: set<int>)
    requires a <= b
    ensures |a| <= |b|
  {
    assert b == a + (b - a);
    assert a * (b - a) == {};
  }

  /** While no worker is idle, a burst of `n` inserts adds workers up to the maximum and no further. */
  lemma {:induction false} BurstFillsPool(p: Pool, n: nat)
    requires Valid(p) && p.workerThreadIdleCount == 0
    requires p.workerThreadCount <= p.workerThreadMaxCount
    ensures Burst(p, n).workerThreadCount == Min(p.workerThreadCount + n, p.workerThreadMaxCount)
    decreases n
  {
    if n > 0 {
      BurstFillsPool(ScaleUp(p), n - 1);
    }
  }

  /** While some worker is idle, inserts add no worker at all. */
  lemma {:induction false} BurstWithIdleWorker(p: Pool, n: nat)
    requires Valid(p) && p.workerThreadIdleCount > 0
    ensures Burst(p, n) == p
    decreases n
  {
    if n > 0 {
      BurstWithIdleWorker(ScaleUp(p), n - 1);
    }
  }

  function Min(a: int, b: int): int {
    if a <= b then a else b
  }
}
