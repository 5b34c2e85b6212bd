/**
 * How `addJob` cuts a submission's ids into batches: consecutive slices of
 * `BatchSize` ids, the last one possibly shorter, every one not yet started.
 */
module Batching {
  import opened JobModel

  /** The number of batches for `n` ids: the ceiling of `n / BatchSize`. */
  function NumBatches(n: nat): (r: nat)
    ensures r * BatchSize >= n
    ensures r == 0 || (r - 1) * BatchSize < n
  {
    (n + BatchSize - 1) / BatchSize
  }

  /** JavaScript's `s.slice(start, end)` for non-negative bounds: both are clamped to the length. */
  function Slice(s: seq<int>, start: nat, end: nat): (r: seq<int>)
    ensures start <= end <= |s| ==> r == s[start..end]
    ensures start < |s| <= end ==> r == s[start..]
    ensures |s| <= start || end <= start ==> r == []
  {
    var lo := if start < |s| then start else |s|;
    var hi := if end < lo then lo else if end < |s| then end else |s|;
    s[lo..hi]
  }

  /**
   * The batches `addJob` builds for `ids`; the k-th batch takes the k-th of
   * the fresh batch tokens `batchIds` the caller supplies.
   */
  function Split(ids: seq<int>, batchIds: seq<string>): (r: seq<Batch>)
    requires |batchIds| == NumBatches(|ids|)
    ensures |r| == NumBatches(|ids|)
    ensures forall k :: 0 <= k < |r| ==> 0 < |r[k].ids| <= BatchSize
    ensures forall k :: 0 <= k < |r| ==> r[k].batchId == batchIds[k] && r[k].status == YetToStart
  {
    seq(NumBatches(|ids|), k requires 0 <= k < NumBatches(|ids|) =>
      Batch(batchIds[k], Slice(ids, k * BatchSize, k * BatchSize + BatchSize), YetToStart))
  }

  /** A fresh job reports yet_to_start, or completed when it has no ids (and so no batches). */
  lemma SplitStatus(ids: seq<int>, batchIds: seq<string>)
    requires |batchIds| == NumBatches(|ids|)
    ensures Aggregate(Statuses(Split(ids, batchIds))) == if |ids| == 0 then Completed else YetToStart
  {
    var s := Statuses(Split(ids, batchIds));
    assert |ids| > 0 ==> |s| > 0;
  }

  /** The ids of `bs`, batch after batch. */
  function Flatten(bs: seq<Batch>): seq<int>
  {
    if |bs| == 0 then [] else bs[0].ids + Flatten(bs[1..])
  }

  lemma {:induction false} FlattenSnoc(bs: seq<Batch>, b: Batch)
    ensures Flatten(bs + [b]) == Flatten(bs) + b.ids
  {
    if |bs| > 0 {
      assert (bs + [b])[1..] == bs[1..] + [b];
      FlattenSnoc(bs[1..], b);
    }
  }

  /** The first `m` batches hold exactly the first `m * BatchSize` ids (or all of them). */
  lemma {:induction false} SplitPrefix(ids: seq<int>, batchIds: seq<string>, m: nat)
    requires |batchIds| == NumBatches(|ids|)
    requires m <= NumBatches(|ids|)
    ensures Flatten(Split(ids, batchIds)[..m]) == ids[..if m * BatchSize < |ids| then m * BatchSize else |ids|]
  {
    var bs := Split(ids, batchIds);
    if m > 0 {
      SplitPrefix(ids, batchIds, m - 1);
      assert bs[..m] == bs[..m - 1] + [bs[m - 1]];
      FlattenSnoc(bs[..m - 1], bs[m - 1]);
      var lo := (m - 1) * BatchSize;
      assert lo < |ids|;
      var hi := if m * BatchSize < |ids| then m * BatchSize else |ids|;
      assert bs[m - 1].ids == ids[lo..hi];
      assert ids[..hi] == ids[..lo] + ids[lo..hi];
    }
  }

  /** Concatenating the batches in order gives back the submitted ids. */
  lemma SplitRebuildsIds(ids: seq<int>, batchIds: seq<string>)
    requires |batchIds| == NumBatches(|ids|)
    ensures Flatten(Split(ids, batchIds)) == ids
  {
    var bs := Split(ids, batchIds);
    SplitPrefix(ids, batchIds, |bs|);
    assert bs[..|bs|] == bs;
  }

  /**
   * The batching loop of `addJob`: one slice of up to `BatchSize` ids per
   * iteration, each with the next fresh token and status yet_to_start.
   */
  method SplitIntoBatches(ids: seq<int>, batchIds: seq<string>) returns (batches: seq<Batch>)
    requires |batchIds| == NumBatches(|ids|)
    ensures batches == Split(ids, batchIds)
  {
    batches := [];
    var i := 0;
    while i < |ids|
      invariant i == |batches| * BatchSize
      invariant |batches| <= NumBatches(|ids|)
      invariant batches == Split(ids, batchIds)[..|batches|]
    {
      batches := batches + [Batch(batchIds[|batches|], Slice(ids, i, i + BatchSize), YetToStart)];
      i := i + BatchSize;
    }
  }
}
