/** The job scheduler of src/runtime_core/scheduler.ts: a duplicate-free
    FIFO queue of jobs and a flag saying that a flush is already scheduled.
    `nextTick(flushJobs)` becomes a count of flush callbacks waiting in the
    microtask queue, and `Tick` runs the oldest of them. What a job does
    when it runs is a parameter `run`: the jobs it passes to `queueJobs`, in
    order. */
module Scheduler {

  /** A job, by identity (the source queues functions and compares them with `===`). */
  type Job = nat

  /** No job twice. */
  predicate NoDup(q: seq<Job>)
  {
    forall a, b :: 0 <= a < b < |q| ==> q[a] != q[b]
  }

  /** The queue after `queueJobs(job)`: `job` at the end unless it is already queued. */
  function Push(q: seq<Job>, job: Job): (r: seq<Job>)
    ensures job in r && |q| <= |r| <= |q| + 1 && r[..|q|] == q
    ensures forall j :: j in r <==> j in q || j == job
  {
    if job in q then q else q + [job]
  }

  /** The queue after `queueJobs` of each of `jobs` in turn. */
  function Enqueued(q: seq<Job>, jobs: seq<Job>): seq<Job>
  {
    if jobs == [] then q else Push(Enqueued(q, jobs[..|jobs| - 1]), jobs[|jobs| - 1])
  }

  lemma PushKeepsNoDup(q: seq<Job>, job: Job)
    requires NoDup(q)
    ensures NoDup(Push(q, job))
  {
  }

  /** Enqueueing only appends: the queue keeps its jobs in their places,
      keeps no job twice, and holds every job enqueued. */
  lemma {:induction false} EnqueuedAppends(q: seq<Job>, jobs: seq<Job>)
    ensures |Enqueued(q, jobs)| >= |q| && Enqueued(q, jobs)[..|q|] == q
    ensures NoDup(q) ==> NoDup(Enqueued(q, jobs))
    ensures forall j :: j in Enqueued(q, jobs) <==> j in q || j in jobs
  {
    if jobs != [] {
      var init := jobs[..|jobs| - 1];
      EnqueuedAppends(q, init);
      var before := Enqueued(q, init);
      if NoDup(q) {
        PushKeepsNoDup(before, jobs[|jobs| - 1]);
      }
      assert Push(before, jobs[|jobs| - 1])[..|before|] == before;
      assert Push(before, jobs[|jobs| - 1])[..|q|] == before[..|q|];
      assert jobs == init + [jobs[|jobs| - 1]];
    }
  }

  /** What a flush does: the jobs it runs in order, the jobs still queued
      when it stops, and whether a running job called `queueJobs`. */
  datatype Drained = Drained(ran: seq<Job>, rest: seq<Job>, enqueued: bool)

  /** `flushJobs` from queue `q`, running at most `fuel` jobs: each job is
      shifted out of the queue before it runs, and what it enqueues goes to
      the back. */
  function Drain(q: seq<Job>, run: Job -> seq<Job>, fuel: nat): Drained
    decreases fuel
  {
    if q == [] || fuel == 0 then Drained([], q, false)
    else
      var d := Drain(Enqueued(q[1..], run(q[0])), run, fuel - 1);
      Drained([q[0]] + d.ran, d.rest, run(q[0]) != [] || d.enqueued)
  }

  /** The drain runs the queued jobs first, in FIFO order: with fuel for
      `k` jobs, the first `k` run are the first `k` queued. */
  lemma {:induction false} DrainIsFifo(q: seq<Job>, run: Job -> seq<Job>, fuel: nat, k: nat)
    requires k <= |q| && k <= fuel
    ensures |Drain(q, run, fuel).ran| >= k && Drain(q, run, fuel).ran[..k] == q[..k]
    decreases k
  {
    if k > 0 {
      var q' := Enqueued(q[1..], run(q[0]));
      assert Drain(q, run, fuel).ran == [q[0]] + Drain(q', run, fuel - 1).ran;
      assert k - 1 <= |q'| && q'[..k - 1] == q[1..k] by {
        EnqueuedAppends(q[1..], run(q[0]));
        assert q'[..k - 1] == q[1..][..k - 1];
      }
      DrainIsFifo(q', run, fuel - 1, k - 1);
      var later := Drain(q', run, fuel - 1).ran;
      assert ([q[0]] + later)[..k] == [q[0]] + later[..k - 1];
      assert [q[0]] + q[1..k] == q[..k];
    }
  }

  /** A drain that empties the queue has run every job queued at its
      start and every job queued by a job it ran: what is queued during
      the flush runs in the same flush. */
  lemma {:induction false} DrainRunsAll(q: seq<Job>, run: Job -> seq<Job>, fuel: nat)
    requires Drain(q, run, fuel).rest == []
    ensures forall j :: j in q ==> j in Drain(q, run, fuel).ran
    ensures forall k, j :: k in Drain(q, run, fuel).ran && j in run(k) ==> j in Drain(q, run, fuel).ran
    decreases fuel
  {
    if q != [] {
      var q' := Enqueued(q[1..], run(q[0]));
      var d' := Drain(q', run, fuel - 1);
      EnqueuedAppends(q[1..], run(q[0]));
      DrainRunsAll(q', run, fuel - 1);
      assert Drain(q, run, fuel).ran == [q[0]] + d'.ran;
      assert forall j :: j in q ==> j == q[0] || j in q[1..];
    }
  }

  /** Jobs that enqueue nothing drain a queue completely with fuel for
      each: every queued job runs once, in order, and no flush is scheduled. */
  lemma {:induction false} DrainQuiet(q: seq<Job>, run: Job -> seq<Job>, fuel: nat)
    requires |q| <= fuel && forall j :: j in q ==> run(j) == []
    ensures Drain(q, run, fuel) == Drained(q, [], false)
  {
    if q != [] {
      assert run(q[0]) == [] by {
        assert q[0] in q;
      }
      assert Enqueued(q[1..], run(q[0])) == q[1..];
      assert forall j :: j in q[1..] ==> j in q;
      DrainQuiet(q[1..], run, fuel - 1);
      assert Drain(q, run, fuel) == Drained([q[0]] + q[1..], [], false);
      assert [q[0]] + q[1..] == q;
    }
  }

  /** A running job has left the queue, so it can queue itself again and
      runs a second time in the same flush. */
  lemma SelfRequeueRunsAgain(job: Job, run: Job -> seq<Job>, fuel: nat)
    requires run(job) == [job] && fuel >= 2
    ensures |Drain([job], run, fuel).ran| >= 2 && Drain([job], run, fuel).ran[..2] == [job, job]
    ensures Drain([job], run, fuel).enqueued
  {
    assert Enqueued([], [job]) == [job] by {
      assert [job][..0] == [];
    }
    assert Enqueued([job][1..], run(job)) == [job];
    var later := Drain([job], run, fuel - 2);
    assert Drain([job], run, fuel - 1).ran == [job] + later.ran;
    assert Drain([job], run, fuel).ran == [job, job] + later.ran;
  }

  class Scheduler {
    /** `queue` */
    var queue: seq<Job>
    /** `isFlushingPending` */
    var isFlushingPending: bool
    /** The `flushJobs` callbacks that `nextTick` has put in the microtask
        queue and that have not run yet. */
    var pendingFlushes: nat

    /** The queue holds no job twice, a flush marked pending is scheduled,
        and a job waiting in the queue always has a flush coming. */
    ghost predicate Valid()
      reads this
    {
      && NoDup(queue)
      && (isFlushingPending ==> pendingFlushes > 0)
      && (queue != [] ==> isFlushingPending)
    }

    /** The module's initial state: an empty queue and no flush pending. */
    constructor()
      ensures Valid() && queue == [] && !isFlushingPending && pendingFlushes == 0
    {
      queue := [];
      isFlushingPending := false;
      pendingFlushes := 0;
    }

    /** `queueFlush()`: schedules a flush unless one is already pending. */
    method QueueFlush()
      modifies this
      ensures queue == old(queue) && isFlushingPending
      ensures pendingFlushes == old(pendingFlushes) + (if old(isFlushingPending) then 0 else 1)
    {
      if isFlushingPending {
        return;
      }
      isFlushingPending := true;
      pendingFlushes := pendingFlushes + 1;
    }

    /** `queueJobs(job)`: the job is queued once, at the back, and a flush
        is scheduled unless one is pending; re-queueing a queued job leaves
        the queue unchanged. */
    method QueueJobs(job: Job)
      modifies this
      ensures queue == Push(old(queue), job) && isFlushingPending
      ensures job in old(queue) ==> queue == old(queue)
      ensures pendingFlushes == old(pendingFlushes) + (if old(isFlushingPending) then 0 else 1)
      ensures old(Valid()) ==> Valid()
    {
      if job !in queue {
        queue := queue + [job];
      }
      QueueFlush();
    }

    /** `queueJobs` of each of `jobs` in turn, as a caller would before the
        next microtask: however many jobs, at most one flush is scheduled. */
    method QueueAll(jobs: seq<Job>)
      modifies this
      ensures queue == Enqueued(old(queue), jobs)
      ensures isFlushingPending == (old(isFlushingPending) || jobs != [])
      ensures pendingFlushes == old(pendingFlushes) + (if old(isFlushingPending) || jobs == [] then 0 else 1)
    {
      for k := 0 to |jobs|
        invariant queue == Enqueued(old(queue), jobs[..k])
        invariant isFlushingPending == (old(isFlushingPending) || k > 0)
        invariant pendingFlushes == old(pendingFlushes) + (if old(isFlushingPending) || k == 0 then 0 else 1)
      {
        QueueJobs(jobs[k]);
        assert jobs[..k + 1][..k] == jobs[..k];
      }
      assert jobs[..|jobs|] == jobs;
    }

    /** `flushJobs()`, running at most `fuel` jobs: the flag is cleared
        first, then jobs are shifted off and run until the queue is empty.
        A job queued during the drain runs in the same drain, and because
        the flag was already cleared it also schedules one more flush. */
    method FlushJobs(run: Job -> seq<Job>, fuel: nat) returns (ran: seq<Job>)
      modifies this
      ensures var d := Drain(old(queue), run, fuel);
        && ran == d.ran && queue == d.rest
        && isFlushingPending == d.enqueued
        && pendingFlushes == old(pendingFlushes) + (if d.enqueued then 1 else 0)
      ensures NoDup(old(queue)) ==> NoDup(queue)
    {
      ghost var final := Drain(queue, run, fuel);
      ghost var q0 := queue;
      isFlushingPending := false;
      ran := [];
      var f := fuel;
      while queue != [] && f > 0
        invariant var d := Drain(queue, run, f);
          ran + d.ran == final.ran && d.rest == final.rest && (isFlushingPending || d.enqueued) == final.enqueued
        invariant pendingFlushes == old(pendingFlushes) + (if isFlushingPending then 1 else 0)
        invariant NoDup(q0) ==> NoDup(queue)
        decreases f
      {
        var job := queue[0];
        queue := queue[1..];
        ran := ran + [job];
        EnqueuedAppends(queue, run(job));
        QueueAll(run(job));
        f := f - 1;
      }
    }

    /** The oldest waiting `flushJobs` callback runs. */
    method Tick(run: Job -> seq<Job>, fuel: nat) returns (ran: seq<Job>)
      requires pendingFlushes > 0
      modifies this
      ensures var d := Drain(old(queue), run, fuel);
        && ran == d.ran && queue == d.rest
        && isFlushingPending == d.enqueued
        && pendingFlushes == old(pendingFlushes) - 1 + (if d.enqueued then 1 else 0)
      ensures old(Valid()) && queue == [] ==> Valid()
    {
      pendingFlushes := pendingFlushes - 1;
      ran := FlushJobs(run, fuel);
    }
  }
}
