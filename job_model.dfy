/**
 * The records of the job queue service: a submission (`Job`) split into
 * fixed-size chunks of work (`Batch`), each with its own progress state, and
 * the report a status query returns.
 */
module JobModel {
  import opened ArrayOps

  /** The three priority levels a submission may carry. */
  datatype Priority = High | Medium | Low

  /** A batch's progress: `yet_to_start`, `triggered` and `completed` in the source. */
  datatype BatchStatus = YetToStart | Triggered | Completed

  datatype Batch = Batch(batchId: string, ids: seq<int>, status: BatchStatus)

  /** `createdAt` is the submission time in milliseconds (`Date.getTime()`). */
  datatype Job = Job(ids: seq<int>, priority: Priority, ingestionId: string, createdAt: int, batches: seq<Batch>)

  /**
   * The answer to a status query. The per-batch entries of the source carry
   * exactly a batch's three fields, so they are batches here.
   */
  datatype JobStatusResponse = JobStatusResponse(ingestionId: string, status: BatchStatus, batches: seq<Batch>)

  /** Number of ids per batch (the `batchSize` field). */
  const BatchSize: nat := 3

  /** Minimum spacing in milliseconds between batch starts (the `rateLimit` field). */
  const RateLimit: nat := 5000

  /** Position of a status in its only legal progression. */
  function StatusRank(s: BatchStatus): nat
  {
    match s
    case YetToStart => 0
    case Triggered => 1
    case Completed => 2
  }

  /** The statuses of `bs`, in batch order (`job.batches.map(b => b.status)`). */
  function Statuses(bs: seq<Batch>): (r: seq<BatchStatus>)
    ensures |r| == |bs|
    ensures forall k :: 0 <= k < |bs| ==> r[k] == bs[k].status
  {
    seq(|bs|, k requires 0 <= k < |bs| => bs[k].status)
  }

  /**
   * The overall status of a job, derived from its batch statuses: completed
   * when every batch is, yet_to_start when there are batches and none has
   * started, triggered in every other case. A job without batches counts as
   * completed, since `every` holds of an empty array.
   */
  function Aggregate(s: seq<BatchStatus>): (r: BatchStatus)
    ensures r == Completed <==> forall k :: 0 <= k < |s| ==> s[k] == Completed
    ensures r == YetToStart <==> |s| > 0 && forall k :: 0 <= k < |s| ==> s[k] == YetToStart
    ensures r == Triggered <==>
              (exists k :: 0 <= k < |s| && s[k] != Completed) &&
              (exists k :: 0 <= k < |s| && s[k] != YetToStart)
  {
    if Every(s, (st: BatchStatus) => st == Completed) then Completed
    else if Any(s, (st: BatchStatus) => st == Triggered || st == Completed) then Triggered
    else YetToStart
  }
}
