/** How an engine splits its work across threads (UniDirectionalLstm::SetNumThreads)
    and how each parallel loop cuts its index range into per-task pieces. The
    decision depends only on the hardware concurrency, the batch size and the
    hidden size; it changes speed, never results. */
module ThreadPlan {
  import opened IndexArith

  /** The three values SetNumThreads stores in the engine. */
  datatype Plan = Plan(inputThreads: int, hiddenThreads: int, batchParallel: bool)

  function Min(a: int, b: int): int { if a <= b then a else b }

  /** One thread is left to the caller: max(1, hardware_concurrency - 1). */
  function AvailableThreads(hardwareConcurrency: nat): (threads: int)
    ensures threads >= 1
    ensures threads == if hardwareConcurrency >= 2 then hardwareConcurrency - 1 else 1
  {
    var threads := hardwareConcurrency - 1;
    if threads < 1 then 1 else threads
  }

  /** Regime test: split the recurrent phase across batch rows when there are
      enough rows to be worth it. */
  predicate BatchParallel(batchSize: int, hiddenSize: int)
  {
    batchSize > 4 || (batchSize >= 2 && hiddenSize <= 256)
  }

  /** Upper bound on column-parallel threads by hidden-size band; above 1024
      hidden units there is none. */
  function HiddenBandCap(hiddenSize: int): (cap: int)
    requires hiddenSize <= 1024
  {
    if hiddenSize <= 128 then 2
    else if hiddenSize <= 256 then 5
    else if hiddenSize <= 512 then 7
    else 11
  }

  /** SetNumThreads: the same sequence of caps as the engine applies. */
  function NumThreads(hardwareConcurrency: nat, batchSize: int, hiddenSize: int): (p: Plan)
    ensures 1 <= p.inputThreads <= 24
    ensures hiddenSize <= 256 ==> p.inputThreads <= 16
    ensures p.inputThreads == Min(AvailableThreads(hardwareConcurrency), if hiddenSize <= 256 then 16 else 24)
    ensures p.batchParallel <==> BatchParallel(batchSize, hiddenSize)
    ensures p.hiddenThreads >= 1
    ensures p.batchParallel ==> p.hiddenThreads == AvailableThreads(hardwareConcurrency)
    ensures !p.batchParallel && hiddenSize <= 1024 ==>
              p.hiddenThreads == Min(AvailableThreads(hardwareConcurrency), HiddenBandCap(hiddenSize))
    ensures !p.batchParallel && hiddenSize > 1024 ==> p.hiddenThreads == AvailableThreads(hardwareConcurrency)
  {
    var threads := AvailableThreads(hardwareConcurrency);
    var imt1 := if threads > 16 && hiddenSize <= 256 then 16 else threads;
    var imt := if imt1 > 24 then 24 else imt1;
    if batchSize > 4 || (batchSize >= 2 && hiddenSize <= 256) then
      Plan(imt, threads, true)
    else
      var hmt1 := if threads > 2 && hiddenSize <= 128 then 2 else threads;
      var hmt2 := if hmt1 > 5 && hiddenSize <= 256 then 5 else hmt1;
      var hmt3 := if hmt2 > 7 && hiddenSize <= 512 then 7 else hmt2;
      var hmt := if hmt3 > 11 && hiddenSize <= 1024 then 11 else hmt3;
      Plan(imt, hmt, false)
  }

  /** Rows per task: total / threads, plus one when the division is not exact. */
  function ChunkSize(total: nat, threads: nat): (chunk: nat)
    requires threads >= 1
    ensures total <= chunk * threads
    ensures chunk == 0 || (chunk - 1) * threads < total
    ensures total > 0 ==> chunk >= 1
  {
    var q := total / threads;
    assert total == q * threads + total % threads;
    if total % threads != 0 then
      MulAddDistrib(q, 1, threads);
      q + 1
    else q
  }

  /** Rows handled by the task starting at `row`: the chunk, clipped at the end. */
  function ChunkLength(row: nat, chunk: nat, total: nat): (len: int)
    ensures row < total && chunk >= 1 ==> 1 <= len <= chunk && row + len <= total
    ensures row + chunk <= total ==> len == chunk
  {
    if row + chunk > total then total - row else chunk
  }

  /** The tasks of a parallel loop start at 0, chunk, 2*chunk, ... below total; each
      row below total belongs to the task starting at (row / chunk) * chunk, which
      covers it, and to no other. */
  lemma {:induction false} ChunksTile(total: nat, chunk: nat, i: nat, k: nat)
    requires chunk >= 1 && i < total
    ensures var start := (i / chunk) * chunk;
            start <= i < start + ChunkLength(start, chunk, total) && start < total
    ensures k * chunk <= i < k * chunk + ChunkLength(k * chunk, chunk, total) ==> k == i / chunk
  {
    var q := i / chunk;
    assert i == q * chunk + i % chunk;
    MulAddDistrib(q, 1, chunk);
    if k * chunk <= i < k * chunk + ChunkLength(k * chunk, chunk, total) {
      assert i - k * chunk < chunk;
      CellInjective(k, i - k * chunk, q, i % chunk, chunk);
    }
  }

  /** A loop cut into ChunkSize(total, threads) pieces starts at most `threads` tasks. */
  lemma TaskCount(total: nat, threads: nat, k: nat)
    requires threads >= 1
    requires k * ChunkSize(total, threads) < total
    ensures k < threads
  {
    var chunk := ChunkSize(total, threads);
    if k >= threads {
      MulMonoLe(threads, k, chunk);
    }
  }

  /** Column range of thread `k` in the column-parallel regime: equal shares of
      `total` columns, and the last thread also takes the remainder. */
  function ColumnStart(k: nat, threads: nat, total: nat): nat
    requires threads >= 1
  {
    k * (total / threads)
  }

  function ColumnCount(k: nat, threads: nat, total: nat): int
    requires threads >= 1
  {
    var localCols := total / threads;
    if k == threads - 1 then total - k * localCols else localCols
  }

  /** The column ranges of threads 0 .. threads-1 follow one another without gap or
      overlap, start at 0 and end exactly at `total`. */
  lemma ColumnsTile(threads: nat, total: nat, k: nat)
    requires threads >= 1 && k < threads
    ensures ColumnStart(0, threads, total) == 0
    ensures ColumnCount(k, threads, total) >= 0
    ensures k + 1 < threads ==>
              ColumnStart(k + 1, threads, total) == ColumnStart(k, threads, total) + ColumnCount(k, threads, total)
    ensures k + 1 == threads ==> ColumnStart(k, threads, total) + ColumnCount(k, threads, total) == total
    ensures ColumnStart(k, threads, total) + ColumnCount(k, threads, total) <= total
  {
    var localCols := total / threads;
    assert total == localCols * threads + total % threads;
    MulMonoLe(k, threads, localCols);
    MulMonoLe(k + 1, threads, localCols);
    assert k * localCols <= localCols * threads;
    MulAddDistrib(k, 1, localCols);
  }

  /** Which thread computes column `col`: every column below `total` has exactly one. */
  function ColumnOwner(col: nat, threads: nat, total: nat): (k: nat)
    requires threads >= 1 && col < total
    ensures k < threads
    ensures ColumnStart(k, threads, total) <= col < ColumnStart(k, threads, total) + ColumnCount(k, threads, total)
  {
    var localCols := total / threads;
    assert total == localCols * threads + total % threads;
    if localCols == 0 then
      threads - 1
    else
      var q := col / localCols;
      assert col == q * localCols + col % localCols;
      MulAddDistrib(q, 1, localCols);
      if q < threads - 1 then
        q
      else
        MulMonoLe(threads - 1, q, localCols);
        ColumnsTile(threads, total, threads - 1);
        threads - 1
  }

  /** No column belongs to two threads. */
  lemma {:induction false} ColumnOwnerUnique(col: nat, threads: nat, total: nat, k: nat)
    requires threads >= 1 && col < total && k < threads
    requires ColumnStart(k, threads, total) <= col < ColumnStart(k, threads, total) + ColumnCount(k, threads, total)
    ensures k == ColumnOwner(col, threads, total)
  {
    var k' := ColumnOwner(col, threads, total);
    if k < k' {
      StartsIncrease(threads, total, k, k');
    } else if k' < k {
      StartsIncrease(threads, total, k', k);
    }
  }

  /** A thread's range ends no later than where any later thread's range starts. */
  lemma {:induction false} StartsIncrease(threads: nat, total: nat, a: nat, b: nat)
    requires threads >= 1 && a < b < threads
    ensures ColumnStart(a, threads, total) + ColumnCount(a, threads, total) <= ColumnStart(b, threads, total)
    decreases b - a
  {
    ColumnsTile(threads, total, a);
    if a + 1 < b {
      StartsIncrease(threads, total, a + 1, b);
      ColumnsTile(threads, total, a + 1);
    }
  }
}
