/** The batch-statistics window of the performance monitor
    (src/performance.rs), integer parts only: durations are whole nanoseconds. */
module Performance {
  import opened Crypto

  /** How many recent batches the window keeps. */
  const Window: nat := 100

  /** The integer parts of `PerformanceStats`. */
  datatype PerformanceStats = PerformanceStats(totalTransactions: U64, averageBatchTime: nat)

  /** The sum of a sequence of durations (a left fold, as the iterator sum is). */
  function Sum(s: seq<nat>): nat
  {
    if s == [] then 0 else s[0] + Sum(s[1..])
  }

  lemma {:induction false} SumAppend(s: seq<nat>, x: nat)
    ensures Sum(s + [x]) == Sum(s) + x
  {
    if s != [] {
      assert (s + [x])[1..] == s[1..] + [x];
      SumAppend(s[1..], x);
    }
  }

  class PerformanceMonitor {
    var totalTransactions: U64
    var batchTimes: seq<nat>
    var batchSizes: seq<nat>

    ghost predicate Valid()
      reads this
    {
      |batchTimes| == |batchSizes| <= Window
    }

    /** `PerformanceMonitor::new`. */
    constructor ()
      ensures Valid()
      ensures totalTransactions == 0 && batchTimes == [] && batchSizes == []
    {
      totalTransactions := 0;
      batchTimes := [];
      batchSizes := [];
    }

    /** `record_batch`: adds the batch size to the counter (u64, wrapping) and
        pushes the new entry onto both deques, dropping the oldest entry of
        each once they exceed the window. */
    method RecordBatch(batchSize: nat, processingTime: nat)
      requires Valid()
      modifies this
      ensures Valid()
      ensures totalTransactions == Wrap(old(totalTransactions) + batchSize)
      ensures |batchTimes| > 0 && batchTimes[|batchTimes| - 1] == processingTime && batchSizes[|batchSizes| - 1] == batchSize
      ensures |old(batchTimes)| < Window ==>
                batchTimes == old(batchTimes) + [processingTime] && batchSizes == old(batchSizes) + [batchSize]
      ensures |old(batchTimes)| == Window ==>
                batchTimes == old(batchTimes)[1..] + [processingTime] && batchSizes == old(batchSizes)[1..] + [batchSize]
    {
      totalTransactions := Wrap(totalTransactions + batchSize);
      batchTimes := batchTimes + [processingTime];
      batchSizes := batchSizes + [batchSize];
      if |batchTimes| > Window {
        batchTimes := batchTimes[1..];
        batchSizes := batchSizes[1..];
      }
    }

    /** `get_stats`: the counter, and the mean batch time of the window
        (truncated to whole nanoseconds; 0 for an empty window). */
    method GetStats() returns (stats: PerformanceStats)
      ensures stats.totalTransactions == totalTransactions
      ensures |batchTimes| == 0 ==> stats.averageBatchTime == 0
      ensures |batchTimes| > 0 ==> stats.averageBatchTime == Sum(batchTimes) / |batchTimes|
      ensures stats.averageBatchTime * |batchTimes| <= Sum(batchTimes)
    {
      var total := 0;
      for i := 0 to |batchTimes|
        invariant total == Sum(batchTimes[..i])
      {
        SumAppend(batchTimes[..i], batchTimes[i]);
        assert batchTimes[..i + 1] == batchTimes[..i] + [batchTimes[i]];
        total := total + batchTimes[i];
      }
      assert batchTimes[..|batchTimes|] == batchTimes;
      var average := if |batchTimes| > 0 then total / |batchTimes| else 0;
      stats := PerformanceStats(totalTransactions, average);
    }
  }
}
