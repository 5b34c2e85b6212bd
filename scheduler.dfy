/**
 * What one step of the batch loop does to the pending queue and the status
 * index, stated as functions of the state before the step, and the
 * invariants the queue keeps from one step (or one admission) to the next.
 */
module Scheduler {
  import opened Wrappers
  import opened ArrayOps
  import opened JobModel
  import opened Ordering

  predicate IsYetToStart(b: Batch) { b.status == YetToStart }

  predicate IsCompleted(b: Batch) { b.status == Completed }

  /** The position of the batch `job.batches.find(b => b.status === "yet_to_start")` finds. */
  function NextBatch(job: Job): (r: Option<nat>)
    ensures r.Some? ==> r.value < |job.batches| && job.batches[r.value].status == YetToStart
    ensures r.Some? ==> forall k :: 0 <= k < r.value ==> job.batches[k].status != YetToStart
    ensures r.None? <==> forall k :: 0 <= k < |job.batches| ==> job.batches[k].status != YetToStart
  {
    FindIndex(job.batches, IsYetToStart)
  }

  predicate HasYetToStart(job: Job) { NextBatch(job).Some? }

  /** `job.batches.every(b => b.status === "completed")`. */
  predicate AllCompleted(job: Job)
    ensures AllCompleted(job) <==> forall k :: 0 <= k < |job.batches| ==> job.batches[k].status == Completed
  {
    Every(job.batches, IsCompleted)
  }

  /** The position of the job the loop over the queue stops at: the first with a batch not yet started. */
  function SelectJob(q: seq<Job>): (r: Option<nat>)
    ensures r.Some? ==> r.value < |q| && HasYetToStart(q[r.value])
    ensures r.Some? ==> forall k :: 0 <= k < r.value ==> !HasYetToStart(q[k])
    ensures r.None? <==> forall k :: 0 <= k < |q| ==> !HasYetToStart(q[k])
  {
    FindIndex(q, HasYetToStart)
  }

  /** The job after its batch `b` went yet_to_start, then triggered, then completed. */
  function Advance(job: Job, b: nat): (r: Job)
    requires b < |job.batches|
    ensures r.ids == job.ids && r.priority == job.priority
    ensures r.ingestionId == job.ingestionId && r.createdAt == job.createdAt
    ensures |r.batches| == |job.batches|
    ensures r.batches[b].status == Completed
    ensures r.batches[b].batchId == job.batches[b].batchId && r.batches[b].ids == job.batches[b].ids
    ensures forall k :: 0 <= k < |job.batches| && k != b ==> r.batches[k] == job.batches[k]
  {
    job.(batches := job.batches[b := job.batches[b].(status := Completed)])
  }

  /** `queue.filter(j => j.ingestionId !== id)`. */
  function RemoveById(q: seq<Job>, id: string): (r: seq<Job>)
    ensures |r| <= |q|
    ensures forall k :: 0 <= k < |r| ==> r[k] in q && r[k].ingestionId != id
    ensures forall k :: 0 <= k < |q| && q[k].ingestionId != id ==> q[k] in r
  {
    Filter(q, (j: Job) => j.ingestionId != id)
  }

  /**
   * The pending queue after one step on a non-empty queue: the selected job
   * has its next batch completed, and leaves the queue once all its batches
   * are completed. With nothing selectable the queue is left as it was.
   */
  function StepQueue(q: seq<Job>): (r: seq<Job>)
    ensures SelectJob(q).None? ==> r == q
    ensures |r| <= |q|
  {
    match SelectJob(q)
    case None => q
    case Some(i) =>
      var job := Advance(q[i], NextBatch(q[i]).value);
      if AllCompleted(job) then RemoveById(q[i := job], job.ingestionId) else q[i := job]
  }

  /**
   * The status index after the same step: the entry of the selected job
   * follows its in-place update (the source shares one job object between
   * the queue and the index); every other entry stays.
   */
  function StepMap(q: seq<Job>, m: map<string, Job>): (r: map<string, Job>)
    ensures SelectJob(q).None? ==> r == m
    ensures SelectJob(q).Some? ==> r.Keys == m.Keys + {q[SelectJob(q).value].ingestionId}
  {
    match SelectJob(q)
    case None => m
    case Some(i) => m[q[i].ingestionId := Advance(q[i], NextBatch(q[i]).value)]
  }

  /** `StepQueue` and `StepMap` spelled out for the job and batch the loop selects. */
  lemma StepSelected(q: seq<Job>, m: map<string, Job>, i: nat, b: nat, advanced: Job)
    requires SelectJob(q) == Some(i) && NextBatch(q[i]) == Some(b)
    requires advanced == Advance(q[i], b)
    ensures StepMap(q, m) == m[q[i].ingestionId := advanced]
    ensures StepQueue(q) ==
      if AllCompleted(advanced) then RemoveById(q[i := advanced], q[i].ingestionId) else q[i := advanced]
  {
  }

  /**
   * The loop of `processNextBatch` over the queue: the first job whose
   * `find` turns up a yet_to_start batch has that batch triggered, then
   * completed, in the queue and in the index alike (the source holds one
   * job object in both); once all its batches are completed the job is
   * filtered out of the queue, and the loop stops after that one batch.
   */
  method ProcessNextBatch(q: seq<Job>, m: map<string, Job>) returns (q': seq<Job>, m': map<string, Job>)
    ensures q' == StepQueue(q) && m' == StepMap(q, m)
  {
    q', m' := q, m;
    var i := 0;
    while i < |q|
      invariant 0 <= i <= |q|
      invariant forall k :: 0 <= k < i ==> !HasYetToStart(q[k])
    {
      var job := q[i];
      var next := FindIndex(job.batches, IsYetToStart);
      if next.Some? {
        var b := next.value;
        var batch := job.batches[b].(status := Triggered);
        // Each id of the batch goes through `simulateProcessing` here.
        batch := batch.(status := Completed);
        var advanced := job.(batches := job.batches[b := batch]);
        FindIndexFirst(q, HasYetToStart, i);
        StepSelected(q, m, i, b, advanced);
        q' := q[i := advanced];
        m' := m[job.ingestionId := advanced];
        if AllCompleted(advanced) {
          q' := RemoveById(q', job.ingestionId);
        }
        return;
      }
      i := i + 1;
    }
  }

  /**
   * The delay before a batch may start, given the clock reading `now` and
   * the time `last` recorded by the previous step.
   */
  function WaitTime(now: int, last: int): (w: int)
    ensures w >= 0
    ensures now + w >= last + RateLimit
    ensures w > 0 ==> now + w == last + RateLimit
    ensures now >= last ==> w <= RateLimit
  {
    var timeSinceLastProcess := now - last;
    if timeSinceLastProcess < RateLimit then RateLimit - timeSinceLastProcess else 0
  }

  // ---------------------------------------------------------------------------
  // Invariants

  /** No two queued jobs share an ingestion id. */
  ghost predicate IdsDistinct(q: seq<Job>)
  {
    forall a, b :: 0 <= a < b < |q| ==> q[a].ingestionId != q[b].ingestionId
  }

  ghost predicate NoneTriggered(bs: seq<Batch>)
  {
    forall k :: 0 <= k < |bs| ==> bs[k].status != Triggered
  }

  /** Batches start in split order: every batch after one not yet started is not yet started either. */
  ghost predicate InSplitOrder(bs: seq<Batch>)
  {
    forall a, c :: 0 <= a < c < |bs| && bs[a].status == YetToStart ==> bs[c].status == YetToStart
  }

  function QueuedIds(q: seq<Job>): set<string>
  {
    set j | j in q :: j.ingestionId
  }

  /**
   * The state between steps: the queue is sorted, holds each job once, holds
   * only jobs of the index (the same values), and holds every job of the index
   * whose batches are not all completed, plus any job submitted without ids;
   * every queued job with batches still has one to start;
   * no batch anywhere is left triggered, and batches start in split order.
   */
  ghost predicate Consistent(q: seq<Job>, m: map<string, Job>)
  {
    && Sorted(q)
    && IdsDistinct(q)
    && QueueInIndex(q, m)
    && QueuedPending(q)
    && IndexWellFormed(m)
    && FinishedLeftQueue(q, m)
  }

  /** A queued job is the value the index holds under its ingestion id. */
  ghost predicate QueueInIndex(q: seq<Job>, m: map<string, Job>)
  {
    forall j | j in q :: j.ingestionId in m && m[j.ingestionId] == j
  }

  /** A queued job with batches still has a batch to start. */
  ghost predicate QueuedPending(q: seq<Job>)
  {
    forall j | j in q :: |j.batches| > 0 ==> HasYetToStart(j)
  }

  ghost predicate IndexWellFormed(m: map<string, Job>)
  {
    forall id | id in m ::
      && m[id].ingestionId == id
      && NoneTriggered(m[id].batches)
      && InSplitOrder(m[id].batches)
  }

  /** A job of the index is out of the queue only once all its batches are completed. */
  ghost predicate FinishedLeftQueue(q: seq<Job>, m: map<string, Job>)
  {
    forall id | id in m :: id in QueuedIds(q) || AllCompleted(m[id])
  }

  /** Jobs advance monotonically: same submission, same batches, no status moved back. */
  ghost predicate Progressed(j: Job, j': Job)
  {
    && j'.ids == j.ids && j'.priority == j.priority
    && j'.ingestionId == j.ingestionId && j'.createdAt == j.createdAt
    && |j'.batches| == |j.batches|
    && forall k :: 0 <= k < |j.batches| ==>
         && j'.batches[k].batchId == j.batches[k].batchId
         && j'.batches[k].ids == j.batches[k].ids
         && StatusRank(j.batches[k].status) <= StatusRank(j'.batches[k].status)
  }

  // ---------------------------------------------------------------------------
  // Lemmas

  /** A batch list without triggered batches that is not all completed has one not yet started. */
  lemma PendingUnlessCompleted(job: Job)
    requires NoneTriggered(job.batches)
    ensures HasYetToStart(job) <==> !AllCompleted(job)
  {
    if !AllCompleted(job) {
      var k :| 0 <= k < |job.batches| && !IsCompleted(job.batches[k]);
      assert IsYetToStart(job.batches[k]);
    }
  }

  /**
   * Advancing the next batch of a job changes that batch alone, from
   * yet_to_start to completed; the batches before it are all completed.
   */
  lemma AdvanceNextBatch(job: Job)
    requires NoneTriggered(job.batches) && InSplitOrder(job.batches)
    requires HasYetToStart(job)
    ensures var b := NextBatch(job).value;
      && job.batches[b].status == YetToStart
      && (forall k :: 0 <= k < b ==> job.batches[k].status == Completed)
      && var job' := Advance(job, b);
      && Progressed(job, job')
      && job'.batches[b].status == Completed
      && (forall k :: 0 <= k < |job.batches| && k != b ==> job'.batches[k] == job.batches[k])
      && NoneTriggered(job'.batches) && InSplitOrder(job'.batches)
  {
    var b := NextBatch(job).value;
    forall k | 0 <= k < b
      ensures job.batches[k].status == Completed
    {
      assert !IsYetToStart(job.batches[k]);
    }
  }

  /**
   * The step picks the first queued job with a batch to start; in a sorted
   * queue no job with a batch to start belongs before it.
   */
  lemma SelectedComesFirst(q: seq<Job>, k: nat)
    requires Sorted(q)
    requires k < |q| && HasYetToStart(q[k])
    ensures SelectJob(q).Some?
    ensures var i := SelectJob(q).value; i <= k && Compare(q[i], q[k]) <= 0
  {
  }

  /**
   * Removing the completed job by id drops exactly that job and keeps the
   * other jobs in their order.
   */
  lemma RemoveSelected(q: seq<Job>, i: nat)
    requires i < |q| && IdsDistinct(q)
    ensures RemoveById(q, q[i].ingestionId) == q[..i] + q[i + 1..]
  {
    var p := (j: Job) => j.ingestionId != q[i].ingestionId;
    forall k | 0 <= k < |q| && k != i
      ensures p(q[k])
    {
      if k < i {
        assert q[k].ingestionId != q[i].ingestionId;
      }
    }
    FilterDropsOne(q, p, i);
  }

  /** A sequence whose ids are distinct holds each job at most once. */
  lemma {:induction false} DistinctIdsOccurOnce(q: seq<Job>, v: Job)
    requires IdsDistinct(q)
    ensures multiset(q)[v] <= 1
  {
    if |q| > 0 {
      assert q == [q[0]] + q[1..];
      DistinctIdsOccurOnce(q[1..], v);
      if v == q[0] {
        assert v !in q[1..];
      }
    }
  }

  lemma RepeatCountsTwice(s: seq<Job>, a: nat, b: nat)
    requires a < b < |s| && s[a] == s[b]
    ensures multiset(s)[s[a]] >= 2
  {
    assert s == s[..b] + s[b..];
    assert s[a] in s[..b];
    assert s[b..][0] == s[b];
  }

  /**
   * Sorting keeps the queue's ids distinct: it only reorders the jobs, and
   * two queued jobs with one id would be the same index entry twice.
   */
  lemma PermutationKeepsIdsDistinct(q: seq<Job>, q': seq<Job>)
    requires multiset(q') == multiset(q)
    requires IdsDistinct(q)
    ensures IdsDistinct(q')
  {
    forall a, b | 0 <= a < b < |q'|
      ensures q'[a].ingestionId != q'[b].ingestionId
    {
      if q'[a].ingestionId == q'[b].ingestionId {
        assert q'[a] in multiset(q) && q'[b] in multiset(q);
        var x :| 0 <= x < |q| && q[x] == q'[a];
        var y :| 0 <= y < |q| && q[y] == q'[b];
        assert x == y;
        RepeatCountsTwice(q', a, b);
        DistinctIdsOccurOnce(q, q'[a]);
        assert false;
      }
    }
  }

  /** The jobs of a queue after one job is added and the queue is re-sorted. */
  lemma PermutedMembers(q: seq<Job>, job: Job, q': seq<Job>)
    requires multiset(q') == multiset(q + [job])
    ensures forall j :: j in q' <==> j in q || j == job
    ensures QueuedIds(q') == QueuedIds(q) + {job.ingestionId}
  {
    forall j
      ensures j in q' <==> j in q || j == job
    {
      assert j in q' <==> j in multiset(q');
      assert j in q + [job] <==> j in multiset(q + [job]);
    }
  }

  /**
   * Admission keeps the state consistent: a fresh job whose batches are all
   * yet to start, put into the queue (then sorted) and into the index.
   */
  lemma AddKeepsConsistent(q: seq<Job>, m: map<string, Job>, job: Job, q': seq<Job>)
    requires Consistent(q, m)
    requires job.ingestionId !in m
    requires forall k :: 0 <= k < |job.batches| ==> job.batches[k].status == YetToStart
    requires Sorted(q') && multiset(q') == multiset(q + [job])
    ensures Consistent(q', m[job.ingestionId := job])
  {
    var m' := m[job.ingestionId := job];
    var qj := q + [job];
    PermutedMembers(q, job, q');
    assert QueueInIndex(qj, m') by {
      forall j | j in qj
        ensures j.ingestionId in m' && m'[j.ingestionId] == j
      {
        if j != job {
          assert j in q;
        }
      }
    }
    assert IdsDistinct(qj) by {
      forall a, b | 0 <= a < b < |qj|
        ensures qj[a].ingestionId != qj[b].ingestionId
      {
        if b == |q| {
          assert qj[a] in q;
        } else {
          assert qj[a] == q[a] && qj[b] == q[b];
        }
      }
    }
    PermutationKeepsIdsDistinct(qj, q');
    assert QueuedPending(q') by {
      if |job.batches| > 0 {
        assert IsYetToStart(job.batches[0]);
      }
    }
  }

  /** Replacing a queued job by one with the same id keeps the set of queued ids. */
  lemma ReplaceKeepsIds(q: seq<Job>, i: nat, job: Job)
    requires i < |q| && job.ingestionId == q[i].ingestionId
    ensures QueuedIds(q[i := job]) == QueuedIds(q)
  {
    var q1 := q[i := job];
    forall id | id in QueuedIds(q)
      ensures id in QueuedIds(q1)
    {
      var j :| j in q && j.ingestionId == id;
      var k :| 0 <= k < |q| && q[k] == j;
      assert q1[k].ingestionId == id;
    }
    forall id | id in QueuedIds(q1)
      ensures id in QueuedIds(q)
    {
      var j :| j in q1 && j.ingestionId == id;
      var k :| 0 <= k < |q1| && q1[k] == j;
      assert q[k].ingestionId == id;
    }
  }

  /** Replacing a queued job by one with the same id, priority and time keeps the queue sorted with distinct ids. */
  lemma ReplaceKeepsOrder(q: seq<Job>, i: nat, job: Job)
    requires i < |q| && Sorted(q) && IdsDistinct(q)
    requires job.ingestionId == q[i].ingestionId
    requires job.priority == q[i].priority && job.createdAt == q[i].createdAt
    ensures Sorted(q[i := job]) && IdsDistinct(q[i := job])
  {
    var q1 := q[i := job];
    forall a, c | 0 <= a < c < |q1|
      ensures Compare(q1[a], q1[c]) <= 0
    {
      assert Compare(q1[a], q1[c]) == Compare(q[a], q[c]);
    }
    assert forall k :: 0 <= k < |q| ==> q1[k].ingestionId == q[k].ingestionId;
  }

  /**
   * Writing a job's new value into both the queue and the index, as the
   * shared object of the source is seen from both, keeps them in agreement.
   */
  lemma ReplaceKeepsIndex(q: seq<Job>, m: map<string, Job>, i: nat, job: Job)
    requires i < |q| && IdsDistinct(q)
    requires QueueInIndex(q, m) && IndexWellFormed(m) && FinishedLeftQueue(q, m)
    requires job.ingestionId == q[i].ingestionId
    requires NoneTriggered(job.batches) && InSplitOrder(job.batches)
    ensures QueueInIndex(q[i := job], m[job.ingestionId := job])
    ensures IndexWellFormed(m[job.ingestionId := job])
    ensures FinishedLeftQueue(q[i := job], m[job.ingestionId := job])
  {
    var q1 := q[i := job];
    var m' := m[job.ingestionId := job];
    forall j | j in q1
      ensures j.ingestionId in m' && m'[j.ingestionId] == j
    {
      var k :| 0 <= k < |q1| && q1[k] == j;
      if k != i {
        assert q[k] in q;
        assert k < i ==> q[k].ingestionId != q[i].ingestionId;
      }
    }
    ReplaceKeepsIds(q, i, job);
  }

  /**
   * The first half of a step: the selected job, its next batch completed,
   * replaces the old value in the queue and in the index.
   */
  lemma UpdateSelected(q: seq<Job>, m: map<string, Job>, i: nat)
    requires Consistent(q, m)
    requires SelectJob(q) == Some(i)
    ensures var job := Advance(q[i], NextBatch(q[i]).value);
      var q1 := q[i := job];
      var m' := m[q[i].ingestionId := job];
      && Sorted(q1) && IdsDistinct(q1)
      && QueueInIndex(q1, m') && IndexWellFormed(m') && FinishedLeftQueue(q1, m')
      && (forall k :: 0 <= k < |q1| && k != i ==> (|q1[k].batches| > 0 ==> HasYetToStart(q1[k])))
      && (AllCompleted(job) || HasYetToStart(job))
  {
    var job := Advance(q[i], NextBatch(q[i]).value);
    assert q[i] in q;
    AdvanceNextBatch(q[i]);
    PendingUnlessCompleted(job);
    ReplaceKeepsOrder(q, i, job);
    ReplaceKeepsIndex(q, m, i, job);
    forall k | 0 <= k < |q| && k != i
      ensures |q[k].batches| > 0 ==> HasYetToStart(q[k])
    {
      assert q[k] in q;
    }
  }

  /** Dropping one job keeps the queue sorted with distinct ids. */
  lemma DropKeepsOrder(q: seq<Job>, i: nat)
    requires i < |q| && Sorted(q) && IdsDistinct(q)
    ensures Sorted(q[..i] + q[i + 1..]) && IdsDistinct(q[..i] + q[i + 1..])
  {
    var q' := q[..i] + q[i + 1..];
    assert forall a :: 0 <= a < |q'| ==> q'[a] == if a < i then q[a] else q[a + 1];
  }

  /** Where each job left after dropping position `i` came from. */
  lemma DropIndex(q: seq<Job>, i: nat)
    requires i < |q|
    ensures var q' := q[..i] + q[i + 1..];
      |q'| == |q| - 1 && forall a :: 0 <= a < |q'| ==> q'[a] == q[if a < i then a else a + 1]
  {
  }

  /** Every job left after dropping position `i` was in the queue at another position. */
  lemma DropMembers(q: seq<Job>, i: nat, j: Job)
    requires i < |q| && j in q[..i] + q[i + 1..]
    ensures exists k :: 0 <= k < |q| && k != i && q[k] == j
  {
    DropIndex(q, i);
    var q' := q[..i] + q[i + 1..];
    var a :| 0 <= a < |q'| && q'[a] == j;
    assert q[if a < i then a else a + 1] == j;
  }

  /** A job stays queued when another position is dropped. */
  lemma DropKeepsOthers(q: seq<Job>, i: nat, k: nat)
    requires i < |q| && k < |q| && k != i
    ensures q[k] in q[..i] + q[i + 1..]
  {
    DropIndex(q, i);
    assert (q[..i] + q[i + 1..])[if k < i then k else k - 1] == q[k];
  }

  /** The second half of a step when the selected job is completed: it leaves the queue. */
  lemma DropCompleted(q1: seq<Job>, m: map<string, Job>, i: nat)
    requires i < |q1|
    requires Sorted(q1) && IdsDistinct(q1)
    requires QueueInIndex(q1, m) && IndexWellFormed(m) && FinishedLeftQueue(q1, m)
    requires forall k :: 0 <= k < |q1| && k != i ==> (|q1[k].batches| > 0 ==> HasYetToStart(q1[k]))
    requires AllCompleted(q1[i])
    ensures Consistent(q1[..i] + q1[i + 1..], m)
  {
    var q' := q1[..i] + q1[i + 1..];
    DropKeepsOrder(q1, i);
    assert QueueInIndex(q', m) && QueuedPending(q') by {
      forall j | j in q'
        ensures j.ingestionId in m && m[j.ingestionId] == j
        ensures |j.batches| > 0 ==> HasYetToStart(j)
      {
        DropMembers(q1, i, j);
        var k :| 0 <= k < |q1| && k != i && q1[k] == j;
        assert q1[k] in q1;
      }
    }
    assert FinishedLeftQueue(q', m) by {
      assert q1[i] in q1;
      forall id | id in m && !AllCompleted(m[id])
        ensures id in QueuedIds(q')
      {
        var j :| j in q1 && j.ingestionId == id;
        var k :| 0 <= k < |q1| && q1[k] == j;
        DropKeepsOthers(q1, i, k);
      }
    }
  }

  /** One step keeps the state consistent. */
  lemma StepKeepsConsistent(q: seq<Job>, m: map<string, Job>)
    requires Consistent(q, m)
    ensures Consistent(StepQueue(q), StepMap(q, m))
  {
    match SelectJob(q)
    case None =>
    case Some(i) =>
      var b := NextBatch(q[i]).value;
      var job := Advance(q[i], b);
      var q1 := q[i := job];
      var m' := m[q[i].ingestionId := job];
      StepSelected(q, m, i, b, job);
      UpdateSelected(q, m, i);
      if AllCompleted(job) {
        RemoveSelected(q1, i);
        DropCompleted(q1, m', i);
      } else {
        KeepUnfinished(q1, m', i);
      }
  }

  /** A job that still has a batch to start stays queued, and the state stays consistent. */
  lemma KeepUnfinished(q1: seq<Job>, m: map<string, Job>, i: nat)
    requires i < |q1|
    requires Sorted(q1) && IdsDistinct(q1)
    requires QueueInIndex(q1, m) && IndexWellFormed(m) && FinishedLeftQueue(q1, m)
    requires forall k :: 0 <= k < |q1| && k != i ==> (|q1[k].batches| > 0 ==> HasYetToStart(q1[k]))
    requires HasYetToStart(q1[i])
    ensures Consistent(q1, m)
  {
    forall j | j in q1
      ensures |j.batches| > 0 ==> HasYetToStart(j)
    {
      var k :| 0 <= k < |q1| && q1[k] == j;
    }
  }

  /**
   * One step on a queue with a selectable job advances exactly one batch: the
   * first yet_to_start batch of the first queued job that has one. Every other
   * entry of the index is untouched, and no status moves backwards.
   */
  lemma StepAdvancesOneBatch(q: seq<Job>, m: map<string, Job>)
    requires QueueInIndex(q, m) && IndexWellFormed(m)
    requires SelectJob(q).Some?
    ensures var i := SelectJob(q).value;
      var id := q[i].ingestionId;
      var b := NextBatch(q[i]).value;
      && (forall k :: 0 <= k < i ==> !HasYetToStart(q[k]))
      && id in m && m[id] == q[i]
      && m[id].batches[b].status == YetToStart
      && (forall k :: 0 <= k < b ==> m[id].batches[k].status == Completed)
      && var m' := StepMap(q, m);
      && m'.Keys == m.Keys
      && m'[id].batches[b].status == Completed
      && (forall k :: 0 <= k < |m[id].batches| && k != b ==> m'[id].batches[k] == m[id].batches[k])
      && (forall id' :: id' in m && id' != id ==> m'[id'] == m[id'])
      && (forall id' :: id' in m ==> Progressed(m[id'], m'[id']))
  {
    var i := SelectJob(q).value;
    assert q[i] in q;
    AdvanceNextBatch(q[i]);
  }

  /**
   * After a step the selected job is out of the queue exactly when all its
   * batches are completed; the remaining jobs keep their relative order.
   */
  lemma StepRemovesIffCompleted(q: seq<Job>, m: map<string, Job>)
    requires Consistent(q, m)
    requires SelectJob(q).Some?
    ensures var i := SelectJob(q).value;
      var job := StepMap(q, m)[q[i].ingestionId];
      && (AllCompleted(job) ==> StepQueue(q) == q[..i] + q[i + 1..])
      && (!AllCompleted(job) ==> StepQueue(q) == q[i := job])
      && (q[i].ingestionId in QueuedIds(StepQueue(q)) <==> !AllCompleted(job))
  {
    var i := SelectJob(q).value;
    var job := Advance(q[i], NextBatch(q[i]).value);
    var q1 := q[i := job];
    UpdateSelected(q, m, i);
    StepKeepsConsistent(q, m);
    if AllCompleted(job) {
      RemoveSelected(q1, i);
      assert q1[..i] + q1[i + 1..] == q[..i] + q[i + 1..];
    } else {
      assert q1[i] == job;
    }
  }

  /**
   * The loop only stops finding work while jobs are queued when every queued
   * job has no batch at all (a submission with no ids).
   */
  lemma NothingSelectable(q: seq<Job>, m: map<string, Job>)
    requires Consistent(q, m)
    requires SelectJob(q).None?
    ensures forall k :: 0 <= k < |q| ==> |q[k].batches| == 0
    ensures StepQueue(q) == q && StepMap(q, m) == m
  {
    forall k | 0 <= k < |q|
      ensures |q[k].batches| == 0
    {
      assert q[k] in q;
    }
  }
}
