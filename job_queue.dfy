/**
 * The `JobQueue` service: a pending queue of jobs, an index of every job
 * ever admitted by ingestion id, and the flag and timestamp that drive the
 * rate-limited batch loop.
 */
module JobQueueService {
  import opened Wrappers
  import opened ArrayOps
  import opened JobModel
  import opened Batching
  import opened Ordering
  import opened Scheduler

  class JobQueue {
    /** Jobs not yet finished, including any submitted without ids, in priority order. */
    var queue: seq<Job>
    /** Whether the batch loop is running (scheduled or mid-step). */
    var isProcessing: bool
    /** The clock reading taken at the end of the previous step, in milliseconds. */
    var lastProcessedTime: int
    /** Every job ever admitted, by ingestion id; completed jobs stay here. */
    var jobStatusMap: map<string, Job>

    /** Besides the queue invariant: the loop is running whenever work is queued. */
    ghost predicate Valid()
      reads this
    {
      && Consistent(queue, jobStatusMap)
      && (!isProcessing ==> queue == [])
    }

    constructor ()
      ensures Valid()
      ensures queue == [] && jobStatusMap == map[]
      ensures !isProcessing && lastProcessedTime == 0
    {
      queue := [];
      isProcessing := false;
      lastProcessedTime := 0;
      jobStatusMap := map[];
    }

    /**
     * `addJob`: splits the ids into batches, puts the job into the queue and
     * the index, re-sorts the queue, and starts the loop when it is idle.
     * The ingestion id and the batch ids are fresh tokens from the caller.
     * Here starting the loop only sets the flag; everything the source's
     * first run does, including the part it does before `addJob` returns
     * (triggering the new job's first batch, or for a job without ids the
     * whole run up to recording the time), happens in the next `Step`.
     */
    method AddJob(ids: seq<int>, priority: Priority, ingestionId: string, createdAt: int, batchIds: seq<string>)
      returns (started: bool)
      requires Valid()
      requires ingestionId !in jobStatusMap
      requires |batchIds| == NumBatches(|ids|)
      modifies this
      ensures Valid()
      ensures var job := Job(ids, priority, ingestionId, createdAt, Split(ids, batchIds));
        && jobStatusMap == old(jobStatusMap)[ingestionId := job]
        && multiset(queue) == multiset(old(queue)) + multiset{job}
      ensures started == !old(isProcessing) && isProcessing
      ensures lastProcessedTime == old(lastProcessedTime)
      ensures GetJobStatus(ingestionId) ==
        Some(JobStatusResponse(ingestionId, if |ids| == 0 then Completed else YetToStart, Split(ids, batchIds)))
    {
      var batches := SplitIntoBatches(ids, batchIds);
      var fullJob := Job(ids, priority, ingestionId, createdAt, batches);
      ghost var q0, m0 := queue, jobStatusMap;
      queue := queue + [fullJob];
      jobStatusMap := jobStatusMap[ingestionId := fullJob];
      SortQueue();
      started := !isProcessing;
      if started {
        isProcessing := true;
      }
      AddKeepsConsistent(q0, m0, fullJob, queue);
      SplitStatus(ids, batchIds);
    }

    /** `sortQueue`: puts the queue in priority order, keeping its jobs. */
    method SortQueue()
      modifies this`queue
      ensures Sorted(queue)
      ensures multiset(queue) == multiset(old(queue))
    {
      queue := SortByPriority(queue);
    }

    /**
     * `getJobStatus`: nothing for an id never admitted; otherwise the job's
     * id, its overall status and its batches in split order.
     */
    function GetJobStatus(ingestionId: string): (r: Option<JobStatusResponse>)
      reads this
      ensures r.None? <==> ingestionId !in jobStatusMap
      ensures r.Some? ==>
        var job := jobStatusMap[ingestionId];
        && r.value.ingestionId == job.ingestionId
        && r.value.batches == job.batches
        && (r.value.status == Completed <==> forall k :: 0 <= k < |job.batches| ==> job.batches[k].status == Completed)
        && (r.value.status == YetToStart <==>
              |job.batches| > 0 && forall k :: 0 <= k < |job.batches| ==> job.batches[k].status == YetToStart)
    {
      if ingestionId !in jobStatusMap then None
      else
        var job := jobStatusMap[ingestionId];
        Some(JobStatusResponse(job.ingestionId, Aggregate(Statuses(job.batches)), job.batches))
    }

    /**
     * One run of `processNextBatch`, taken as atomic. On an empty queue it
     * marks the loop idle. Otherwise it computes the rate-limit delay from
     * the clock reading `now`, advances the first yet_to_start batch of the
     * first queued job that has one, drops that job from the queue once all
     * its batches are completed, and records `doneAt`, the clock reading
     * when the step ends. It returns the delay waited before the batch.
     */
    method Step(now: int, doneAt: int) returns (wait: int)
      requires Valid()
      modifies this
      ensures Valid()
      ensures old(queue) == [] ==>
        && !isProcessing && wait == 0
        && queue == old(queue) && jobStatusMap == old(jobStatusMap)
        && lastProcessedTime == old(lastProcessedTime)
      ensures old(queue) != [] ==>
        && isProcessing
        && wait == WaitTime(now, old(lastProcessedTime))
        && queue == StepQueue(old(queue))
        && jobStatusMap == StepMap(old(queue), old(jobStatusMap))
        && lastProcessedTime == doneAt
    {
      if |queue| == 0 {
        isProcessing := false;
        return 0;
      }
      isProcessing := true;
      wait := WaitTime(now, lastProcessedTime);
      ghost var q0, m0 := queue, jobStatusMap;
      queue, jobStatusMap := ProcessNextBatch(queue, jobStatusMap);
      lastProcessedTime := doneAt;
      StepKeepsConsistent(q0, m0);
    }
  }
}
