/** The pending-job deque of the dispatcher, as values: what a job is, when a
    new job duplicates a queued one, and which end a worker removes from. */
module Jobs {

  datatype Option<T> = None | Some(value: T)

  /** A unit of work. `tile` is what `getTile()` returns (None for a null tile);
      `action` is an opaque handle for the job's `run()` body. */
  datatype Job<K> = Job(tile: Option<K>, action: nat)

  /** Result of removing one job from an end of the deque. */
  datatype Taken<K> = Taken(job: Job<K>, rest: seq<Job<K>>)

  /** Some queued job loads tile `k`. */
  predicate Pending<K(==)>(q: seq<Job<K>>, k: K) {
    exists i :: 0 <= i < |q| && q[i].tile == Some(k)
  }

  /** The job has a non-null tile that equals the tile of a queued job. */
  predicate IsDuplicate<K(==)>(q: seq<Job<K>>, job: Job<K>) {
    job.tile.Some? && Pending(q, job.tile.value)
  }

  /** At most one queued job per non-null tile. */
  predicate Deduplicated<K(==)>(q: seq<Job<K>>) {
    forall i, j :: 0 <= i < j < |q| && q[i].tile.Some? ==> q[i].tile != q[j].tile
  }

  /** The queue after `addJob`: a duplicate is dropped, anything else goes to the tail. */
  function Enqueue<K(==)>(q: seq<Job<K>>, job: Job<K>): (r: seq<Job<K>>)
    ensures |q| <= |r| <= |q| + 1 && r[..|q|] == q
    ensures |r| == |q| + 1 ==> r[|q|] == job
    ensures job.tile.None? ==> r == q + [job]
    ensures job.tile.Some? ==> Pending(r, job.tile.value)
    ensures Deduplicated(q) ==> Deduplicated(r)
  {
    if IsDuplicate(q, job) then q else q + [job]
  }

  /** Removing one job: the head in FIFO mode, the tail in LIFO mode. */
  function TakeEnd<K(==)>(q: seq<Job<K>>, lifo: bool): (r: Taken<K>)
    requires q != []
    ensures !lifo ==> [r.job] + r.rest == q
    ensures lifo ==> r.rest + [r.job] == q
    ensures Deduplicated(q) ==> Deduplicated(r.rest)
    ensures Deduplicated(q) && r.job.tile.Some? ==> !Pending(r.rest, r.job.tile.value)
  {
    if lifo then Taken(q[|q| - 1], q[..|q| - 1]) else Taken(q[0], q[1..])
  }

  /** The order in which successive removals hand out the jobs of `q`. */
  function Drain<K(==)>(q: seq<Job<K>>, lifo: bool): (r: seq<Job<K>>)
    ensures |r| == |q| && multiset(r) == multiset(q)
    decreases |q|
  {
    if q == [] then []
    else
      var t := TakeEnd(q, lifo);
      assert multiset(q) == multiset{t.job} + multiset(t.rest) by {
        if lifo { assert q == t.rest + [t.job]; } else { assert q == [t.job] + t.rest; }
      }
      [t.job] + Drain(t.rest, lifo)
  }

  /** `s` is `t` with some of its elements left out and the others kept in their order. */
  predicate Subsequence<T(==)>(s: seq<T>, t: seq<T>)
    decreases |t|
  {
    if t == [] then s == []
    else (s != [] && s[0] == t[0] && Subsequence(s[1..], t[1..])) || Subsequence(s, t[1..])
  }

  /** The queue after `addJob` is called on each of `jobs` in turn. */
  function EnqueueAll<K(==)>(q: seq<Job<K>>, jobs: seq<Job<K>>): (r: seq<Job<K>>)
    ensures |q| <= |r| <= |q| + |jobs| && r[..|q|] == q
    ensures Deduplicated(q) ==> Deduplicated(r)
    decreases |jobs|
  {
    if jobs == [] then q
    else
      var r := EnqueueAll(Enqueue(q, jobs[0]), jobs[1..]);
      assert r[..|q|] == r[..|Enqueue(q, jobs[0])|][..|q|];
      r
  }

  /** What a series of `addJob` calls appends: the first job, unless it is a
      duplicate, then what the rest append. */
  lemma EnqueueAllStep<K>(q: seq<Job<K>>, jobs: seq<Job<K>>)
    requires jobs != []
    ensures var q' := Enqueue(q, jobs[0]);
            EnqueueAll(q, jobs)[|q|..] == q'[|q|..] + EnqueueAll(q', jobs[1..])[|q'|..]
  {
  }

  /** The jobs a series of `addJob` calls appends are some of the submitted
      ones, in submission order. */
  lemma {:induction false} EnqueueAllKeepsOrder<K>(q: seq<Job<K>>, jobs: seq<Job<K>>)
    ensures Subsequence(EnqueueAll(q, jobs)[|q|..], jobs)
    decreases |jobs|
  {
    var r := EnqueueAll(q, jobs);
    if jobs == [] {
      assert r[|q|..] == [];
    } else {
      var q' := Enqueue(q, jobs[0]);
      EnqueueAllKeepsOrder(q', jobs[1..]);
      EnqueueAllStep(q, jobs);
      if |q'| > |q| {
        assert q'[|q|..] == [jobs[0]];
        assert r[|q|..][1..] == r[|q'|..];
      } else {
        assert r[|q|..] == r[|q'|..];
      }
    }
  }

  /** One `addJob` appends either nothing or the job itself, and never drops a job with a null tile. */
  lemma EnqueueAppends<K>(q: seq<Job<K>>, job: Job<K>)
    ensures Enqueue(q, job)[|q|..] == [] || Enqueue(q, job)[|q|..] == [job]
    ensures job.tile.None? ==> Enqueue(q, job)[|q|..] == [job]
  {
  }

  /** Each submitted job is appended at most as often as it was submitted. */
  lemma {:induction false} EnqueueAllBounded<K>(q: seq<Job<K>>, jobs: seq<Job<K>>)
    ensures multiset(EnqueueAll(q, jobs)[|q|..]) <= multiset(jobs)
    decreases |jobs|
  {
    if jobs == [] {
      assert EnqueueAll(q, jobs)[|q|..] == [];
    } else {
      var q' := Enqueue(q, jobs[0]);
      var first, rest := q'[|q|..], EnqueueAll(q', jobs[1..])[|q'|..];
      EnqueueAllBounded(q', jobs[1..]);
      EnqueueAllStep(q, jobs);
      EnqueueAppends(q, jobs[0]);
      assert multiset(jobs) == multiset{jobs[0]} + multiset(jobs[1..]) by {
        assert jobs == [jobs[0]] + jobs[1..];
      }
      assert multiset(first + rest) == multiset(first) + multiset(rest);
    }
  }

  /** A job with a null tile is appended exactly as often as it was submitted. */
  lemma {:induction false} EnqueueAllKeepsNullTiles<K>(q: seq<Job<K>>, jobs: seq<Job<K>>, j: Job<K>)
    requires j.tile.None?
    ensures multiset(EnqueueAll(q, jobs)[|q|..])[j] == multiset(jobs)[j]
    decreases |jobs|
  {
    if jobs == [] {
      assert EnqueueAll(q, jobs)[|q|..] == [];
    } else {
      var q' := Enqueue(q, jobs[0]);
      var first, rest := q'[|q|..], EnqueueAll(q', jobs[1..])[|q'|..];
      EnqueueAllKeepsNullTiles(q', jobs[1..], j);
      EnqueueAllStep(q, jobs);
      EnqueueAppends(q, jobs[0]);
      assert multiset(jobs) == multiset{jobs[0]} + multiset(jobs[1..]) by {
        assert jobs == [jobs[0]] + jobs[1..];
      }
      assert multiset(first + rest) == multiset(first) + multiset(rest);
      assert multiset(first)[j] == multiset{jobs[0]}[j];
    }
  }

  /** After a series of `addJob` calls every submitted non-null tile is pending. */
  lemma {:induction false} EnqueueAllPending<K>(q: seq<Job<K>>, jobs: seq<Job<K>>, i: nat)
    requires i < |jobs| && jobs[i].tile.Some?
    ensures Pending(EnqueueAll(q, jobs), jobs[i].tile.value)
    decreases |jobs|
  {
    var q' := Enqueue(q, jobs[0]);
    if i == 0 {
      PendingPrefix(q', EnqueueAll(q', jobs[1..]), jobs[0].tile.value);
    } else {
      assert jobs[i] == jobs[1..][i - 1];
      EnqueueAllPending(q', jobs[1..], i - 1);
    }
  }

  /** A tile pending in a queue stays pending once more jobs are appended. */
  lemma PendingPrefix<K>(q: seq<Job<K>>, r: seq<Job<K>>, k: K)
    requires |q| <= |r| && r[..|q|] == q && Pending(q, k)
    ensures Pending(r, k)
  {
  }

  function Reverse<T>(s: seq<T>): (r: seq<T>)
    ensures |r| == |s|
  {
    if s == [] then [] else [s[|s| - 1]] + Reverse(s[..|s| - 1])
  }

  lemma {:induction false} ReverseAt<T>(s: seq<T>, k: nat)
    requires k < |s|
    ensures Reverse(s)[k] == s[|s| - 1 - k]
  {
    if k > 0 {
      ReverseAt(s[..|s| - 1], k - 1);
    }
  }

  /** `ran` is what a worker took, one job at a time, from `q0` to leave `q`:
      from the head in FIFO mode, from the tail in LIFO mode. */
  predicate Drained<K(==)>(q0: seq<Job<K>>, q: seq<Job<K>>, ran: seq<Job<K>>, lifo: bool) {
    if lifo then q0 == q + Reverse(ran) else q0 == ran + q
  }

  /** One more removal extends the record of what was taken. */
  lemma DrainedStep<K>(q0: seq<Job<K>>, q: seq<Job<K>>, ran: seq<Job<K>>, lifo: bool)
    requires Drained(q0, q, ran, lifo) && q != []
    ensures Drained(q0, TakeEnd(q, lifo).rest, ran + [TakeEnd(q, lifo).job], lifo)
  {
  }

  /** A duplicate submission leaves the queue as it was: the job queued first survives. */
  lemma EarliestSubmissionSurvives<K>(q: seq<Job<K>>, job: Job<K>, i: nat)
    requires i < |q| && job.tile.Some? && q[i].tile == job.tile
    ensures Enqueue(q, job) == q
  {
  }

  /** Submitting jobs that are pairwise distinct (and distinct from the queue) appends all of them in order. */
  lemma {:induction false} EnqueueAllDistinct<K>(q: seq<Job<K>>, jobs: seq<Job<K>>)
    requires Deduplicated(q + jobs)
    ensures EnqueueAll(q, jobs) == q + jobs
    decreases |jobs|
  {
    if jobs != [] {
      var j := jobs[0];
      assert !IsDuplicate(q, j) by {
        forall i | 0 <= i < |q| && j.tile.Some?
          ensures q[i].tile != j.tile
        {
          assert (q + jobs)[i] == q[i] && (q + jobs)[|q|] == j;
        }
      }
      assert Enqueue(q, j) == q + [j];
      assert (q + [j]) + jobs[1..] == q + jobs;
      EnqueueAllDistinct(q + [j], jobs[1..]);
    }
  }

  /** In FIFO mode the jobs are handed out from head to tail. */
  lemma {:induction false} FifoDrainsInOrder<K>(q: seq<Job<K>>)
    ensures Drain(q, false) == q
    decreases |q|
  {
    if q != [] {
      FifoDrainsInOrder(q[1..]);
      assert q == [q[0]] + q[1..];
    }
  }

  /** In LIFO mode the jobs are handed out from tail to head. */
  lemma {:induction false} LifoDrainsNewestFirst<K>(q: seq<Job<K>>)
    ensures Drain(q, true) == Reverse(q)
    decreases |q|
  {
    if q != [] {
      LifoDrainsNewestFirst(q[..|q| - 1]);
    }
  }

  /** With no workers taking in between, FIFO mode runs distinct submissions in submission order. */
  lemma FifoRunsInSubmissionOrder<K>(jobs: seq<Job<K>>)
    requires Deduplicated(jobs)
    ensures Drain(EnqueueAll([], jobs), false) == jobs
  {
    assert [] + jobs == jobs;
    EnqueueAllDistinct([], jobs);
    FifoDrainsInOrder(jobs);
  }

  /** In LIFO mode the job submitted last is the next one handed out, and the rest stay as they were. */
  lemma LifoTakesNewest<K>(q: seq<Job<K>>, job: Job<K>)
    requires !IsDuplicate(q, job)
    ensures TakeEnd(Enqueue(q, job), true) == Taken(job, q)
  {
  }
}
