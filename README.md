# Job queue service — a verified model

The service admits *jobs* — a list of integer ids with a priority (HIGH,
MEDIUM or LOW) — and runs them in *batches* of at most three ids, one batch
per loop step, with at least five seconds between batch starts. Each job
gets an ingestion id that a caller uses to ask for the job's status: the
status of every batch (yet_to_start, triggered, completed) and an overall
status derived from them.

The model covers the `JobQueue` class of `src/services/jobQueue.service.ts`:

- `addJob`: splits the ids into batches, queues the job, indexes it,
  re-sorts the queue and starts the loop when it is idle.
- `sortQueue`: the comparator and the sort.
- `getJobStatus`: the overall status and the batch list.
- `processNextBatch`: one run of the loop taken as a single atomic step.
  It handles an empty queue, computes the rate-limit delay, advances the
  first pending batch of the first queued job that has one, drops a
  finished job from the queue and records the time.

Modules:

- `Wrappers`: `Option`.
- `ArrayOps`: the JavaScript array methods the class uses (`every`, `some`,
  `find`/`findIndex`, `filter`).
- `JobModel`: the records, the two constants and the overall-status rule.
- `Batching`: how `addJob` splits ids into batches.
- `Ordering`: the comparator and the sort.
- `Scheduler`: one loop step as functions of the state before it, the
  invariant kept between steps, and the lemmas about both.
- `JobQueueService`: the class `JobQueue`, with the four fields the source
  updates in place.

Jobs and batches are values. In the source the queue and the status index
hold the same job object, so changing a batch's status in the loop shows
through both. The model writes the advanced job into both places. The
invariant `Scheduler.Consistent` states that every queued job equals the
index entry under its ingestion id, and every operation keeps it.

What is proved:

- Splitting gives ⌈L/3⌉ batches. Each batch holds 1 to 3 ids and starts
  yet_to_start. Joining the batches back together gives the ids.
- The sort returns a queue ordered by priority rank, then creation time,
  that is a permutation of its input.
- The status query returns nothing exactly for an unknown id. The overall
  status follows the every/some rule in both directions.
- A step on an empty queue only clears `isProcessing`. A step on a
  non-empty queue sets it. When a queued job has a yet_to_start batch, the
  step advances exactly one batch: the first yet_to_start batch of the
  first such job. Every other batch and index entry stays as it was, and no
  status moves backwards. When no queued job has one (only jobs submitted
  without ids are queued), the queue and the index stay as they were.
- The advanced job leaves the queue exactly when all its batches are
  completed. The other jobs keep their order, and the index keeps every job.
- Between steps these all hold:
  - the queue is sorted and has no two jobs with the same id;
  - no batch is triggered;
  - batches start in split order;
  - every queued job with batches still has one to start;
  - the loop is flagged as running whenever jobs are queued.
- The rate-limit delay is never negative. It brings the batch start to at
  least `lastProcessedTime + 5000`, and is at most 5000 when the clock has
  not gone backwards.

## Model

| member | source | states |
|---|---|---|
| ArrayOps.Every | src/services/jobQueue.service.ts:92 | `every` holds iff the predicate holds at every index (true on an empty array) |
| ArrayOps.Any | src/services/jobQueue.service.ts:94-96 | `some` holds iff the predicate holds at some index |
| ArrayOps.FindIndex | src/services/jobQueue.service.ts:158-160 | `find` reports the first index whose element satisfies the predicate; none only when no element does |
| ArrayOps.FindIndexFirst | src/services/jobQueue.service.ts:158-160 | an index that satisfies the predicate with no earlier index doing so is the one `find` reports |
| ArrayOps.Filter | src/services/jobQueue.service.ts:203-205 | `filter` keeps only elements of the input that pass, keeps every element that passes, and is no longer than the input |
| ArrayOps.FilterAppend | src/services/jobQueue.service.ts:203-205 | filtering a concatenation gives the concatenation of the filtered parts, so the result is the passing elements in their original order |
| ArrayOps.FilterKeepsAll | src/services/jobQueue.service.ts:203-205 | filtering where every element passes returns the array unchanged |
| ArrayOps.FilterDropsOne | src/services/jobQueue.service.ts:203-205 | filtering where only element `i` fails removes exactly that element and keeps the order of the rest |
| JobModel.Statuses | src/services/jobQueue.service.ts:89 | the status list has one entry per batch, in batch order |
| JobModel.Aggregate | src/services/jobQueue.service.ts:88-98 | overall status is completed iff every batch is completed; yet_to_start iff there are batches and none has started; triggered iff some batch is not completed and some batch has started |
| Batching.NumBatches | src/services/jobQueue.service.ts:62 | the loop runs ⌈n/3⌉ times: enough batches for all ids, and no batch left over |
| Batching.Slice | src/services/jobQueue.service.ts:65 | `slice` clamps both bounds to the length |
| Batching.Split | src/services/jobQueue.service.ts:60-68 | ⌈L/3⌉ batches, each holding 1 to 3 ids, each carrying the k-th fresh batch id and status yet_to_start |
| Batching.SplitStatus | src/services/jobQueue.service.ts:66 | a freshly split job reports yet_to_start, or completed when it has no ids |
| Batching.FlattenSnoc | src/services/jobQueue.service.ts:63-67 | appending one more batch appends its ids to the joined ids |
| Batching.SplitPrefix | src/services/jobQueue.service.ts:62-67 | the first m batches hold exactly the first 3m ids (or all ids) |
| Batching.SplitRebuildsIds | src/services/jobQueue.service.ts:60-68 | concatenating the batches in order gives back the submitted ids |
| Batching.SplitIntoBatches | src/services/jobQueue.service.ts:61-68 | the batching loop produces exactly `Split(ids, batchIds)` |
| Ordering.Rank | src/services/jobQueue.service.ts:114-118 | the `priorityOrder` table: ranks 0 to 2, rank 0 exactly for HIGH and rank 2 exactly for LOW |
| Ordering.Compare | src/services/jobQueue.service.ts:112-129 | negative iff `a` has a lower priority rank, or the same priority and an earlier creation time; zero iff both keys tie |
| Ordering.CompareAntisymmetric | src/services/jobQueue.service.ts:112-129 | swapping the comparator's arguments flips the sign of its result |
| Ordering.CompareTransitive | src/services/jobQueue.service.ts:112-129 | the comparator is transitive, so the sort has a consistent order to reach |
| Ordering.NeighboursGiveSorted | src/services/jobQueue.service.ts:111-130 | a queue whose neighbours are in order is sorted throughout |
| Ordering.SortByPriority | src/services/jobQueue.service.ts:111-130 | the sorted queue is in comparator order and is a permutation of the input |
| Ordering.InsertLast | src/services/jobQueue.service.ts:112 | inserting the next job into the ordered prefix keeps the jobs and extends the ordered prefix by one |
| Ordering.SwapKeepsMultiset | src/services/jobQueue.service.ts:112 | swapping two neighbours keeps the same jobs |
| Scheduler.NextBatch | src/services/jobQueue.service.ts:158-160 | the position of the first yet_to_start batch of a job; none exactly when no batch is yet_to_start |
| Scheduler.AllCompleted | src/services/jobQueue.service.ts:198 | holds iff every batch of the job is completed |
| Scheduler.SelectJob | src/services/jobQueue.service.ts:157-162 | the position of the first queued job with a yet_to_start batch; none exactly when no queued job has one |
| Scheduler.Advance | src/services/jobQueue.service.ts:173-190 | the selected batch ends completed with its id and ids kept; every other batch and every other field of the job is unchanged |
| Scheduler.RemoveById | src/services/jobQueue.service.ts:203-205 | the queue without the jobs carrying the given id: no kept job has it, every job without it is kept, nothing new appears |
| Scheduler.StepQueue | src/services/jobQueue.service.ts:157-206 | the queue after one step: never longer than before, and unchanged when no job is selectable (its full effect is stated by StepRemovesIffCompleted and StepKeepsConsistent) |
| Scheduler.StepMap | src/services/jobQueue.service.ts:157-190 | the index after one step: unchanged when no job is selectable; otherwise the old keys plus the selected job's id, under which the advanced job is stored (StepAdvancesOneBatch states the entries) |
| Scheduler.StepSelected | src/services/jobQueue.service.ts:157-206 | the step functions, written out for the job and batch the loop selects |
| Scheduler.ProcessNextBatch | src/services/jobQueue.service.ts:157-209 | the loop over the queue produces exactly `StepQueue` and `StepMap` of the state before it |
| Scheduler.WaitTime | src/services/jobQueue.service.ts:141-149 | the delay is non-negative; the batch starts no sooner than `last + 5000`; a positive delay ends exactly then; it is at most 5000 when `now >= last` |
| Scheduler.PendingUnlessCompleted | src/services/jobQueue.service.ts:158-160 | without triggered batches, a job has a batch to start iff not all its batches are completed |
| Scheduler.AdvanceNextBatch | src/services/jobQueue.service.ts:158-190 | the batch found is yet_to_start and all earlier ones are completed; afterwards it alone is completed, the job has only progressed, and no batch is triggered |
| Scheduler.SelectedComesFirst | src/services/jobQueue.service.ts:157-162 | in a sorted queue with pending work, the loop picks a job no later than any pending job, which belongs no later in the order |
| Scheduler.RemoveSelected | src/services/jobQueue.service.ts:203-205 | with distinct ids, filtering by the selected job's id removes exactly that position |
| Scheduler.DistinctIdsOccurOnce | src/services/jobQueue.service.ts:75-77 | a queue without repeated ids holds each job at most once |
| Scheduler.PermutationKeepsIdsDistinct | src/services/jobQueue.service.ts:75-77 | re-sorting a queue with distinct ids keeps them distinct |
| Scheduler.PermutedMembers | src/services/jobQueue.service.ts:75-77 | after push and sort the queue holds exactly the old jobs and the new one |
| Scheduler.AddKeepsConsistent | src/services/jobQueue.service.ts:59-82 | admitting a fresh job with unstarted batches and re-sorting keeps the queue invariant |
| Scheduler.ReplaceKeepsOrder | src/services/jobQueue.service.ts:173-190 | replacing a job by one with the same id, priority and creation time keeps the queue sorted and its ids distinct |
| Scheduler.ReplaceKeepsIndex | src/services/jobQueue.service.ts:173-190 | writing the updated job to queue and index together keeps them in step |
| Scheduler.UpdateSelected | src/services/jobQueue.service.ts:173-190 | after the status change the queue and index still agree, and the job either has another batch to start or is all completed |
| Scheduler.DropKeepsOrder | src/services/jobQueue.service.ts:203-205 | removing one job keeps the queue sorted and its ids distinct |
| Scheduler.KeepUnfinished | src/services/jobQueue.service.ts:198 | a job that still has a batch to start stays in the queue, and the invariant holds |
| Scheduler.DropCompleted | src/services/jobQueue.service.ts:198-206 | dropping the all-completed job from the queue restores the invariant |
| Scheduler.StepKeepsConsistent | src/services/jobQueue.service.ts:132-216 | one step keeps the queue invariant |
| Scheduler.StepAdvancesOneBatch | src/services/jobQueue.service.ts:157-190 | the step advances the first yet_to_start batch of the first job that has one; every other batch and index entry is unchanged; no status regresses |
| Scheduler.StepRemovesIffCompleted | src/services/jobQueue.service.ts:198-206 | the job leaves the queue iff all its batches are completed; otherwise it is replaced in place; the other jobs keep their order |
| Scheduler.NothingSelectable | src/services/jobQueue.service.ts:157-162 | a non-empty queue with nothing to start holds only jobs without batches, and the step leaves it and the index unchanged |
| JobQueueService.JobQueue.constructor | src/services/jobQueue.service.ts:37-46 | starts with an empty queue and index, the loop idle, and the last time at 0 |
| JobQueueService.JobQueue.AddJob | src/services/jobQueue.service.ts:59-82 | indexes the split job, adds it to the queue once, keeps the invariant, starts the loop iff it was idle, and a status query then reports the job as yet_to_start (completed with no ids) |
| JobQueueService.JobQueue.SortQueue | src/services/jobQueue.service.ts:111-130 | the queue becomes sorted and keeps the same jobs |
| JobQueueService.JobQueue.GetJobStatus | src/services/jobQueue.service.ts:84-109 | null iff the id was never admitted; otherwise the job's id and batches, with the overall status by the every/some rule |
| JobQueueService.JobQueue.Step | src/services/jobQueue.service.ts:132-216 | an empty queue clears `isProcessing` and changes nothing else; otherwise it sets `isProcessing`, waits `WaitTime`, takes queue and index to `StepQueue`/`StepMap`, sets `lastProcessedTime` to the end of the step, and keeps the invariant |

## Left out

- Concurrency and the event loop. `await`, `setTimeout` and the promise
  chain are not modelled. A step is one atomic call to `Step`, and the
  next scheduled run is the next call.
- The clock. `Date.now()` is two parameters of `Step`: `now` is the reading
  before the delay and `doneAt` the reading when the step ends.
- Logging (`logger`) and the processing time window in the log text.
- `simulateProcessing`: the per-id work and its fixed 500 ms delay per id are
  not modelled. The batch goes straight from triggered to completed inside
  one step, so no query can see it triggered. A failure inside that work
  is not modelled either.
- `getInstance`: the singleton accessor is not modelled. The model works on
  one `JobQueue` object.
- `generateBatchId` and the ingestion id generator (random 8-byte hex
  tokens) are not modelled. The caller passes both as tokens.
- AddJob: does not model the synchronous part of the first loop run that
  `addJob` starts when the loop is idle (lines 79-80). In the source that
  run, before `addJob` returns, selects the new job and marks its first
  batch triggered (line 173), and for a job with no ids it runs to the end
  and sets `lastProcessedTime` (line 212). The model only sets the flag
  and leaves the whole run to the next `Step`. Its clauses that the status
  query reports yet_to_start and that `lastProcessedTime` is unchanged hold
  of the model, not of the source at that moment.
- AddJob: requires an ingestion id the index does not hold yet. The source
  never checks, but its ids are random tokens, and a repeated id would break
  the queue/index agreement.
- The request schema's bounds on ids (1 to 10^9+7, at least one id) are not
  modelled. The core accepts any list. An empty list gives a job with no
  batches: its status is completed from the start, and it stays in the
  queue, never selected.
- `createdAt` is a `Date` in the source and its millisecond value here.
- The wider JobStatusResponse of the source (snake_case fields) is modelled
  as the same three values with the batch records themselves.
- Ordering.SortByPriority: states sorted and permutation, not stability.
  JavaScript's `Array.prototype.sort` is stable, but the model reorders by
  insertion and promises nothing about the relative order of ties.
- `lastProcessedTime` is set from the clock reading at the end of the
  step, as the code does at line 212. It is not the time the batch
  started, the reading taken just before the loop.
