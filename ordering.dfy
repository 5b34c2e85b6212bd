/**
 * The order of the pending queue: priority rank first (HIGH, then MEDIUM,
 * then LOW), then creation time, earlier first.
 */
module Ordering {
  import opened JobModel

  /** The `priorityOrder` table of `sortQueue`. */
  function Rank(p: Priority): (r: nat)
    ensures r <= 2
    ensures r == 0 <==> p == High
    ensures r == 2 <==> p == Low
  {
    match p
    case High => 0
    case Medium => 1
    case Low => 2
  }

  /**
   * The comparator handed to `queue.sort`: negative when `a` belongs before
   * `b`, zero when they tie, positive when `a` belongs after `b`.
   */
  function Compare(a: Job, b: Job): (r: int)
    ensures r < 0 <==>
              Rank(a.priority) < Rank(b.priority) ||
              (a.priority == b.priority && a.createdAt < b.createdAt)
    ensures r == 0 <==> a.priority == b.priority && a.createdAt == b.createdAt
  {
    var priorityDiff := Rank(a.priority) - Rank(b.priority);
    if priorityDiff == 0 then a.createdAt - b.createdAt else priorityDiff
  }

  /** The comparator is consistent: swapping its arguments flips its sign. */
  lemma CompareAntisymmetric(a: Job, b: Job)
    ensures Compare(a, b) < 0 <==> Compare(b, a) > 0
    ensures Compare(a, b) == 0 <==> Compare(b, a) == 0
  {
  }

  /** The comparator is transitive, so it orders the queue as a total preorder. */
  lemma CompareTransitive(a: Job, b: Job, c: Job)
    requires Compare(a, b) <= 0 && Compare(b, c) <= 0
    ensures Compare(a, c) <= 0
  {
  }

  /** No job of the queue belongs before an earlier one. */
  ghost predicate Sorted(q: seq<Job>)
  {
    forall a, b :: 0 <= a < b < |q| ==> Compare(q[a], q[b]) <= 0
  }

  /** Each job of `q[lo..hi]` is in queue order with the next one. */
  ghost predicate NeighboursInOrder(q: seq<Job>, lo: nat, hi: nat)
    requires lo <= hi <= |q|
  {
    forall a :: lo <= a && a + 1 < hi ==> Compare(q[a], q[a + 1]) <= 0
  }

  /** Order between neighbours extends to order between any two jobs. */
  lemma {:induction false} NeighboursGiveSorted(q: seq<Job>)
    requires NeighboursInOrder(q, 0, |q|)
    ensures Sorted(q)
  {
    if |q| > 1 {
      var t := q[1..];
      assert NeighboursInOrder(t, 0, |t|) by {
        forall a | 0 <= a && a + 1 < |t|
          ensures Compare(t[a], t[a + 1]) <= 0
        {
          assert t[a] == q[a + 1] && t[a + 1] == q[a + 2];
        }
      }
      NeighboursGiveSorted(t);
      forall a, b | 0 <= a < b < |q|
        ensures Compare(q[a], q[b]) <= 0
      {
        if a > 0 {
          assert q[a] == t[a - 1] && q[b] == t[b - 1];
        } else if b > 1 {
          assert q[1] == t[0] && q[b] == t[b - 1];
          CompareTransitive(q[0], q[1], q[b]);
        }
      }
    }
  }

  /**
   * The effect of `queue.sort` with the comparator above: the result is in
   * queue order and holds the same jobs, as many times each, as the input.
   * The sort is carried out here by insertion of each job in turn.
   */
  method SortByPriority(q: seq<Job>) returns (r: seq<Job>)
    ensures Sorted(r)
    ensures multiset(r) == multiset(q)
  {
    r := q;
    var i := 0;
    while i < |r|
      invariant 0 <= i <= |r| == |q|
      invariant multiset(r) == multiset(q)
      invariant NeighboursInOrder(r, 0, i)
    {
      r := InsertLast(r, i);
      i := i + 1;
    }
    NeighboursGiveSorted(r);
  }

  /** Moves `r[i]` down past every job of the ordered prefix that belongs after it. */
  method InsertLast(r0: seq<Job>, i: nat) returns (r: seq<Job>)
    requires i < |r0| && NeighboursInOrder(r0, 0, i)
    ensures |r| == |r0| && multiset(r) == multiset(r0)
    ensures NeighboursInOrder(r, 0, i + 1)
  {
    r := r0;
    var k := i;
    while k > 0 && Compare(r[k - 1], r[k]) > 0
      invariant 0 <= k <= i < |r| == |r0|
      invariant multiset(r) == multiset(r0)
      invariant Inserting(r, k, i)
    {
      SwapKeepsMultiset(r, k - 1);
      SwapKeepsInserting(r, k, i);
      r := r[k - 1 := r[k]][k := r[k - 1]];
      k := k - 1;
    }
    InsertingDone(r, k, i);
  }

  /**
   * The state of the insertion: the job moving down sits at `k`; the jobs
   * before it and the jobs after it (up to `i`) are each in order, the job
   * at `k` belongs strictly before its successor, and the jobs either side
   * of it are in order with each other.
   */
  ghost predicate Inserting(r: seq<Job>, k: nat, i: nat)
    requires k <= i < |r|
  {
    && NeighboursInOrder(r, 0, k)
    && NeighboursInOrder(r, k + 1, i + 1)
    && (0 < k < i ==> Compare(r[k - 1], r[k + 1]) <= 0)
    && (k < i ==> Compare(r[k], r[k + 1]) < 0)
  }

  lemma SwapKeepsInserting(r: seq<Job>, k: nat, i: nat)
    requires 0 < k <= i < |r| && Inserting(r, k, i)
    requires Compare(r[k - 1], r[k]) > 0
    ensures Inserting(r[k - 1 := r[k]][k := r[k - 1]], k - 1, i)
  {
    CompareAntisymmetric(r[k - 1], r[k]);
  }

  lemma InsertingDone(r: seq<Job>, k: nat, i: nat)
    requires k <= i < |r| && Inserting(r, k, i)
    requires k == 0 || Compare(r[k - 1], r[k]) <= 0
    ensures NeighboursInOrder(r, 0, i + 1)
  {
  }

  lemma SwapKeepsMultiset(r: seq<Job>, k: nat)
    requires k + 1 < |r|
    ensures multiset(r[k := r[k + 1]][k + 1 := r[k]]) == multiset(r)
  {
    var x, y := r[k], r[k + 1];
    var r1 := r[k := y];
    assert multiset(r1) == multiset(r) - multiset{x} + multiset{y};
    assert r1[k + 1] == y;
    assert multiset(r1[k + 1 := x]) == multiset(r1) - multiset{y} + multiset{x};
  }
}
