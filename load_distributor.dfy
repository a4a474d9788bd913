/**
 * `LoadDistributor`: the indices 0 .. loadSize - 1 are cut into consecutive
 * batches of `ceil(loadSize / preferredNumberOfThreads)` indices (the last
 * batch takes what is left), and each batch calls the index processor on its
 * indices in order until the processor asks to stop. The thread pool runs the
 * batches concurrently; here they run one after the other, and the processor
 * is a function whose calls are recorded as the sequence of indices passed to
 * it.
 */
module LoadDistribution {
  import opened MathUtils
  import opened Text

  /** A `BatchProcessor`'s interval [start, stop). */
  datatype Batch = Batch(start: int, stop: int)

  /**
   * `(int) Math.ceil(loadSize / (double) preferredNumberOfThreads)`. With no
   * thread the quotient is +∞, which the cast turns into `Integer.MAX_VALUE`;
   * otherwise it is the least length whose `threads` copies cover the load.
   */
  function BatchLength(loadSize: int, threads: int): (r: int)
    requires loadSize >= 1 && threads >= 0
    ensures threads == 0 ==> r == MaxInt32
    ensures threads >= 1 ==> 1 <= r && (r - 1) * threads < loadSize <= r * threads
  {
    if threads == 0 then MaxInt32
    else
      var r := Ceil(loadSize as real / threads as real);
      CeilCovers(loadSize, threads, r);
      r
  }

  /** The real ceiling of l / t, as integer bounds. */
  lemma CeilCovers(l: int, t: int, r: int)
    requires l >= 1 && t >= 1 && (r - 1) as real < l as real / t as real <= r as real
    ensures 1 <= r && (r - 1) * t < l <= r * t
  {
    var q, tr := l as real / t as real, t as real;
    assert q * tr == l as real;
    ScaleStrict((r - 1) as real, q, tr);
    assert ((r - 1) * t) as real == (r - 1) as real * tr;
    assert (r * t) as real == r as real * tr;
    assert q <= r as real;
    MulLe(q, r as real, tr);
  }

  lemma MulLe(x: real, y: real, c: real)
    requires x <= y && c > 0.0
    ensures x * c <= y * c
  {
    MulNonneg(y - x, c);
  }

  /**
   * The batches `distributeLoadEvenly` submits, for a positive load: batch k
   * starts at k·length, every batch but the last holds exactly `length`
   * indices, and the last one is not empty and ends at `loadSize`.
   */
  ghost predicate EvenBatches(batches: seq<Batch>, loadSize: int, length: int)
  {
    |batches| >= 1
    && (forall k :: 0 <= k < |batches| ==> batches[k].start == k * length)
    && (forall k :: 0 <= k < |batches| - 1 ==> batches[k].stop == batches[k].start + length)
    && batches[|batches| - 1].start < loadSize
    && batches[|batches| - 1].stop == loadSize
    && loadSize <= batches[|batches| - 1].start + length
  }

  /**
   * The loop of `distributeLoadEvenly` that cuts the load: whole batches while
   * they fit, then the remainder if there is one.
   */
  method Partition(loadSize: int, threads: int) returns (batches: seq<Batch>)
    requires loadSize >= 1 && threads >= 0
    ensures EvenBatches(batches, loadSize, BatchLength(loadSize, threads))
  {
    var length := BatchLength(loadSize, threads);
    batches := [];
    var start := 0;
    var stop := start + length;
    while stop <= loadSize
      invariant start == |batches| * length && stop == start + length && start <= loadSize
      invariant forall k :: 0 <= k < |batches| ==> batches[k] == Batch(k * length, k * length + length)
      decreases loadSize - start
    {
      batches := batches + [Batch(start, stop)];
      start := start + length;
      stop := stop + length;
    }
    WholeBatchesThenTail(batches, start, loadSize, length);
    if start < loadSize {
      batches := batches + [Batch(start, loadSize)];
    }
  }

  /**
   * When the next whole batch would pass the end, the whole batches so far
   * followed by the remainder, if any, are the even batches.
   */
  lemma WholeBatchesThenTail(batches: seq<Batch>, start: int, loadSize: int, length: int)
    requires loadSize >= 1 && length >= 1 && start == |batches| * length && 0 <= start <= loadSize < start + length
    requires forall k :: 0 <= k < |batches| ==> batches[k] == Batch(k * length, k * length + length)
    ensures EvenBatches(if start < loadSize then batches + [Batch(start, loadSize)] else batches, loadSize, length)
  {
    if start == loadSize {
      assert |batches| != 0;
      var k := |batches| - 1;
      assert batches[k].stop == k * length + length;
      assert (k + 1) * length == k * length + length;
    }
  }

  /** Each batch is non-empty and ends where the next one starts. */
  ghost predicate Contiguous(batches: seq<Batch>)
  {
    (forall k :: 0 <= k < |batches| ==> batches[k].start < batches[k].stop)
    && (forall k :: 0 <= k < |batches| - 1 ==> batches[k].stop == batches[k + 1].start)
  }

  /** The batches follow each other from 0 without gaps, and none is empty. */
  lemma BatchesContiguous(batches: seq<Batch>, loadSize: int, length: int)
    requires length >= 1 && EvenBatches(batches, loadSize, length)
    ensures batches[0].start == 0 && Contiguous(batches)
  {
    forall k | 0 <= k < |batches| - 1
      ensures batches[k].stop == batches[k + 1].start
    {
      assert (k + 1) * length == k * length + length;
    }
  }

  /** A batch ends no later than any later batch starts: no index is in two batches. */
  lemma {:induction false} BatchesDisjoint(batches: seq<Batch>, loadSize: int, length: int)
    requires length >= 1 && EvenBatches(batches, loadSize, length)
    ensures forall j, k :: 0 <= j < k < |batches| ==> batches[j].stop <= batches[k].start
  {
    forall j, k | 0 <= j < k < |batches|
      ensures batches[j].stop <= batches[k].start
    {
      MulMonotone(j + 1, k, length);
      assert batches[j].stop <= (j + 1) * length;
    }
  }

  lemma MulMonotone(a: int, b: int, c: int)
    requires a <= b && c >= 0
    ensures a * c <= b * c
  {
    assert b * c - a * c == (b - a) * c;
  }

  /**
   * The batches cover exactly [0, loadSize): index i lies in batch i / length,
   * and every batch lies within [0, loadSize).
   */
  lemma BatchesCover(batches: seq<Batch>, loadSize: int, length: int)
    requires length >= 1 && EvenBatches(batches, loadSize, length)
    ensures forall i :: 0 <= i < loadSize ==>
      0 <= i / length < |batches| && batches[i / length].start <= i < batches[i / length].stop
    ensures forall k :: 0 <= k < |batches| ==> 0 <= batches[k].start && batches[k].stop <= loadSize
  {
    forall i | 0 <= i < loadSize
      ensures 0 <= i / length < |batches| && batches[i / length].start <= i < batches[i / length].stop
    {
      IndexInBatch(batches, loadSize, length, i);
    }
    forall k | 0 <= k < |batches|
      ensures 0 <= batches[k].start && batches[k].stop <= loadSize
    {
      BatchWithin(batches, loadSize, length, k);
    }
  }

  /** Index i of the load lies in batch i / length. */
  lemma IndexInBatch(batches: seq<Batch>, loadSize: int, length: int, i: int)
    requires length >= 1 && EvenBatches(batches, loadSize, length) && 0 <= i < loadSize
    ensures 0 <= i / length < |batches| && batches[i / length].start <= i < batches[i / length].stop
  {
    var n, k := |batches|, i / length;
    assert i == k * length + i % length;
    if k >= n {
      MulMonotone(n, k, length);
      MulMonotone(n - 1, n, length);
      assert false;
    }
    if k < n - 1 {
      assert batches[k].stop == k * length + length;
    }
  }

  /** Batch k lies within [0, loadSize). */
  lemma BatchWithin(batches: seq<Batch>, loadSize: int, length: int, k: int)
    requires length >= 1 && EvenBatches(batches, loadSize, length) && 0 <= k < |batches|
    ensures 0 <= batches[k].start && batches[k].stop <= loadSize
  {
    var n := |batches|;
    MulMonotone(0, k, length);
    if k < n - 1 {
      BatchesDisjoint(batches, loadSize, length);
      assert batches[k].stop <= batches[n - 1].start;
    }
  }

  /** With at least one thread, no more batches than threads are submitted. */
  lemma AtMostThreads(loadSize: int, threads: int, batches: seq<Batch>)
    requires loadSize >= 1 && threads >= 1
    requires EvenBatches(batches, loadSize, BatchLength(loadSize, threads))
    ensures |batches| <= threads
  {
    var length, n := BatchLength(loadSize, threads), |batches|;
    assert (n - 1) * length < loadSize <= length * threads;
    if n > threads {
      MulMonotone(threads, n - 1, length);
    }
  }

  /** The indices `BatchProcessor.run` hands to the processor. */
  function Visited(start: int, stop: int, process: int -> bool): seq<int>
    decreases stop - start
  {
    if start >= stop then []
    else if !process(start) then [start]
    else [start] + Visited(start + 1, stop, process)
  }

  /**
   * The batch's indices from start, in order, up to and including the
   * first that the processor answers false to, or up to stop - 1.
   */
  lemma {:induction false} VisitedShape(start: int, stop: int, process: int -> bool)
    ensures var r := Visited(start, stop, process);
      && (start >= stop ==> r == [])
      && (start < stop ==> 1 <= |r| <= stop - start)
      && (forall k :: 0 <= k < |r| ==> r[k] == start + k)
      && (forall k :: 0 <= k < |r| - 1 ==> process(r[k]))
      && (start < |r| + start < stop ==> !process(r[|r| - 1]))
    decreases stop - start
  {
    if start < stop && process(start) {
      VisitedShape(start + 1, stop, process);
    }
  }

  /** `BatchProcessor.run`: the loop over the batch that breaks on the first false. */
  method Run(b: Batch, process: int -> bool) returns (processed: seq<int>)
    ensures processed == Visited(b.start, b.stop, process)
  {
    processed := [];
    var i := b.start;
    while i < b.stop
      invariant Visited(b.start, b.stop, process) == processed + Visited(i, b.stop, process)
      decreases b.stop - i
    {
      processed := processed + [i];
      if !process(i) {
        break;
      }
      i := i + 1;
    }
  }

  /** The indices the batches hand to the processor, batch after batch. */
  function RunAll(batches: seq<Batch>, process: int -> bool): seq<int>
  {
    if |batches| == 0 then []
    else
      var b := batches[|batches| - 1];
      RunAll(batches[..|batches| - 1], process) + Visited(b.start, b.stop, process)
  }

  /**
   * `distributeLoadEvenly`: nothing for a load that is not positive;
   * otherwise the even batches, each run to its end or its first false.
   */
  method DistributeLoadEvenly(loadSize: int, threads: int, process: int -> bool) returns (batches: seq<Batch>, processed: seq<int>)
    requires threads >= 0
    ensures loadSize <= 0 ==> batches == [] && processed == []
    ensures loadSize >= 1 ==> EvenBatches(batches, loadSize, BatchLength(loadSize, threads))
    ensures processed == RunAll(batches, process)
  {
    if loadSize <= 0 {
      return [], [];
    }
    batches := Partition(loadSize, threads);
    processed := [];
    for k := 0 to |batches|
      invariant processed == RunAll(batches[..k], process)
    {
      assert batches[..k + 1][..k] == batches[..k];
      var run := Run(batches[k], process);
      processed := processed + run;
    }
    assert batches[..|batches|] == batches;
  }

  /** The indices from a up to b - 1, in order. */
  function Indices(a: int, b: int): (r: seq<int>)
    ensures |r| == if a < b then b - a else 0
    ensures forall k :: 0 <= k < |r| ==> r[k] == a + k
    decreases b - a
  {
    if a >= b then [] else [a] + Indices(a + 1, b)
  }

  /** A processor that always answers true sees every index of the batch. */
  lemma {:induction false} VisitedAll(start: int, stop: int, process: int -> bool)
    requires forall i :: start <= i < stop ==> process(i)
    ensures Visited(start, stop, process) == Indices(start, stop)
    decreases stop - start
  {
    if start < stop {
      VisitedAll(start + 1, stop, process);
    }
  }

  /**
   * When the processor never answers false, every index of [0, loadSize) is
   * processed exactly once, in increasing order.
   */
  lemma EveryIndexProcessed(batches: seq<Batch>, loadSize: int, length: int, process: int -> bool)
    requires length >= 1 && EvenBatches(batches, loadSize, length)
    requires forall i :: 0 <= i < loadSize ==> process(i)
    ensures RunAll(batches, process) == Indices(0, loadSize)
  {
    BatchesContiguous(batches, loadSize, length);
    BatchesCover(batches, loadSize, length);
    PrefixRuns(batches, |batches|, loadSize, process);
    assert batches[..|batches|] == batches;
  }

  /** The first k contiguous batches from 0, all of whose indices answer true, hand out 0 .. end of batch k - 1. */
  lemma {:induction false} PrefixRuns(batches: seq<Batch>, k: int, loadSize: int, process: int -> bool)
    requires 1 <= k <= |batches| && batches[0].start == 0 && Contiguous(batches)
    requires forall j :: 0 <= j < |batches| ==> 0 <= batches[j].start && batches[j].stop <= loadSize
    requires forall i :: 0 <= i < loadSize ==> process(i)
    ensures RunAll(batches[..k], process) == Indices(0, batches[k - 1].stop)
    decreases k
  {
    var b := batches[k - 1];
    assert batches[..k][..k - 1] == batches[..k - 1];
    VisitedAll(b.start, b.stop, process);
    if k == 1 {
      assert RunAll(batches[..0], process) == [];
    } else {
      PrefixRuns(batches, k - 1, loadSize, process);
      IndicesAppend(0, b.start, b.stop);
    }
  }

  /** Consecutive index ranges join. */
  lemma {:induction false} IndicesAppend(a: int, b: int, c: int)
    requires a <= b <= c
    ensures Indices(a, b) + Indices(b, c) == Indices(a, c)
    decreases b - a
  {
    if a < b {
      IndicesAppend(a + 1, b, c);
    }
  }

  /** Whatever the processor answers, no index is processed twice: the processed indices strictly increase and stay in [0, loadSize). */
  lemma ProcessedIncreasing(batches: seq<Batch>, loadSize: int, length: int, process: int -> bool)
    requires length >= 1 && EvenBatches(batches, loadSize, length)
    ensures forall j, k :: 0 <= j < k < |RunAll(batches, process)| ==> RunAll(batches, process)[j] < RunAll(batches, process)[k]
    ensures forall x :: x in RunAll(batches, process) ==> 0 <= x < loadSize
  {
    BatchesContiguous(batches, loadSize, length);
    RunsIncreasing(batches, |batches|, process);
    assert batches[..|batches|] == batches;
  }

  /** The runs of the first k contiguous batches strictly increase, from the first batch's start to the k-th batch's stop. */
  lemma {:induction false} RunsIncreasing(batches: seq<Batch>, k: int, process: int -> bool)
    requires 1 <= k <= |batches| && Contiguous(batches)
    ensures forall j, l :: 0 <= j < l < |RunAll(batches[..k], process)| ==>
      RunAll(batches[..k], process)[j] < RunAll(batches[..k], process)[l]
    ensures forall x :: x in RunAll(batches[..k], process) ==> batches[0].start <= x < batches[k - 1].stop
    decreases k
  {
    var b := batches[k - 1];
    assert batches[..k][..k - 1] == batches[..k - 1];
    var p, v := RunAll(batches[..k - 1], process), Visited(b.start, b.stop, process);
    assert RunAll(batches[..k], process) == p + v;
    VisitedShape(b.start, b.stop, process);
    if k == 1 {
      assert p == [];
    } else {
      RunsIncreasing(batches, k - 1, process);
      assert batches[k - 2].stop == b.start;
      StartsIncrease(batches, k - 1);
      assert forall i :: 0 <= i < |v| ==> b.start <= v[i] < b.stop;
      forall j, l | 0 <= j < l < |p + v|
        ensures (p + v)[j] < (p + v)[l]
      {
        if l < |p| {
          assert (p + v)[j] == p[j] && (p + v)[l] == p[l];
        } else if j < |p| {
          assert p[j] in p;
          assert (p + v)[j] == p[j] && (p + v)[l] == v[l - |p|];
        } else {
          assert (p + v)[j] == v[j - |p|] && (p + v)[l] == v[l - |p|];
        }
      }
      forall x | x in p + v
        ensures batches[0].start <= x < b.stop
      {
        if x !in p {
          var i :| 0 <= i < |v| && v[i] == x;
        }
      }
    }
  }

  /** Batch starts increase along contiguous batches. */
  lemma {:induction false} StartsIncrease(batches: seq<Batch>, k: int)
    requires 1 <= k <= |batches| && Contiguous(batches)
    ensures batches[0].start <= batches[k - 1].start
    decreases k
  {
    if k > 1 {
      StartsIncrease(batches, k - 1);
    }
  }
}
