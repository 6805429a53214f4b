/** The three matrix products of Compute, each a call of the GEMM routine on a
    piece of the engine's buffers: the input projection of a chunk of flat rows
    (input_gemm), the recurrent product of a chunk of batch rows at one step
    (the batch-parallel regime), and the recurrent product of all batch rows at
    one step split by columns across threads (the column regime). Each is
    stated row by row: the pre-activation row it produces, and nothing else
    written. */
module EngineGemms {
  import opened IndexArith
  import opened MatMul
  import opened Slots
  import opened LstmEquations
  import opened EngineRun
  import opened ThreadPlan

  /** Flat row `q` of a buffer of rows of `w` elements. */
  function FlatRow(a: seq<real>, w: nat, q: nat): (v: seq<real>)
    requires q * w + w <= |a|
    ensures |v| == w
  {
    MulNonneg(q, w);
    Slot(a, q * w, w)
  }

  /** A dense matrix of `rows` rows of `cols` fits in rows * cols elements. */
  lemma DenseMatrixFits(len: nat, rows: nat, cols: nat)
    requires rows * cols <= len
    ensures Fits(len, 0, rows, cols, cols)
  {
    if rows > 0 {
      MulAddDistrib(rows - 1, 1, cols);
    }
  }

  /** Rows `row .. row+count-1` of a dense matrix, seen as a matrix of their own. */
  lemma ChunkFits(len: nat, row: nat, count: nat, w: nat)
    requires (row + count) * w <= len
    ensures Fits(len, row * w, count, w, w)
    ensures SpanEnd(row * w, count, w, w) == (row + count) * w
  {
    MulAddDistrib(row, count, w);
    if count > 0 {
      MulAddDistrib(count - 1, 1, w);
    }
  }

  /** Column `start + j` of a matrix read as column `j` of the block of columns
      from `start`: the same elements. */
  lemma ShiftedColumn(b: seq<real>, start: nat, rows: nat, cols: nat, ld: nat, j: nat)
    requires start + cols <= ld && j < cols && Fits(|b|, 0, rows, ld, ld) && Fits(|b|, start, rows, cols, ld)
    ensures ColumnOf(b, start, rows, cols, ld, j) == ColumnOf(b, 0, rows, ld, ld, start + j)
  {
    var u, v := ColumnOf(b, start, rows, cols, ld, j), ColumnOf(b, 0, rows, ld, ld, start + j);
    forall p | 0 <= p < rows
      ensures u[p] == v[p]
    {
      assert Offset(start, ld, p, j) == Offset(0, ld, p, start + j);
    }
  }

  /** The flat rows below `k` of `out` hold the input projections of the
      corresponding rows of `xs`. */
  ghost predicate ProjectedBelow(out: seq<real>, xs: seq<real>, wt: seq<real>, hiddenSize: nat, inputSize: nat, k: nat)
    requires |wt| == 4 * hiddenSize * inputSize
  {
    forall q :: 0 <= q < k ==>
      && q * inputSize + inputSize <= |xs| && q * (4 * hiddenSize) + 4 * hiddenSize <= |out|
      && FlatRow(out, 4 * hiddenSize, q) == Projected(wt, hiddenSize, inputSize, FlatRow(xs, inputSize, q))
  }

  /** The pre-activation slots of the steps below `maxLen` hold the input
      projections of the matching rows of `xs`: the state input_gemm leaves
      behind for the step loops. */
  ghost predicate StepsProjected(ifog: seq<real>, wt: seq<real>, hiddenSize: nat, inputSize: nat,
                                 xs: seq<real>, seqLength: nat, batchSize: nat, maxLen: nat)
  {
    && Tiled(|ifog|, batchSize * (4 * hiddenSize), 4 * hiddenSize, batchSize, seqLength)
    && |wt| == 4 * hiddenSize * inputSize && |xs| == seqLength * batchSize * inputSize && maxLen <= seqLength
    && forall t, r :: 0 <= t < maxLen && 0 <= r < batchSize ==>
         RowSlot(ifog, batchSize * (4 * hiddenSize), 4 * hiddenSize, batchSize, seqLength, t, r)
           == Projected(wt, hiddenSize, inputSize, StepInput(xs, seqLength, batchSize, inputSize, t, r))
  }

  /** A chunk projected after the rows below it keeps them and extends them. */
  lemma ProjectedGrows(before: seq<real>, after: seq<real>, xs: seq<real>, wt: seq<real>,
                       hiddenSize: nat, inputSize: nat, row: nat, count: nat)
    requires |wt| == 4 * hiddenSize * inputSize && |after| == |before|
    requires ProjectedBelow(before, xs, wt, hiddenSize, inputSize, row)
    requires forall i :: 0 <= i < row * (4 * hiddenSize) && i < |before| ==> after[i] == before[i]
    requires forall q :: row <= q < row + count ==>
               && q * inputSize + inputSize <= |xs| && q * (4 * hiddenSize) + 4 * hiddenSize <= |after|
               && FlatRow(after, 4 * hiddenSize, q) == Projected(wt, hiddenSize, inputSize, FlatRow(xs, inputSize, q))
    ensures ProjectedBelow(after, xs, wt, hiddenSize, inputSize, row + count)
  {
    var h4 := 4 * hiddenSize;
    forall q | 0 <= q < row
      ensures FlatRow(after, h4, q) == FlatRow(before, h4, q)
    {
      MulMono(q, row, h4);
      MulNonneg(q, h4);
      SlotsAgree(before, after, q * h4, h4);
    }
  }

  /** input_gemm on the flat rows row .. row+count-1: each gets x times the
      rearranged input weights (the product overwrites, beta = 0); nothing else
      of the buffer changes. */
  method InputGemm(xs: seq<real>, wt: seq<real>, hiddenSize: nat, inputSize: nat,
                   row: nat, count: nat, ifog: array<real>)
    requires |wt| == 4 * hiddenSize * inputSize
    requires (row + count) * inputSize <= |xs| && (row + count) * (4 * hiddenSize) <= ifog.Length
    modifies ifog
    ensures forall q :: row <= q < row + count ==>
              && q * inputSize + inputSize <= |xs| && q * (4 * hiddenSize) + 4 * hiddenSize <= ifog.Length
              && FlatRow(ifog[..], 4 * hiddenSize, q) == Projected(wt, hiddenSize, inputSize, FlatRow(xs, inputSize, q))
    ensures forall i :: 0 <= i < ifog.Length && !(row * (4 * hiddenSize) <= i < (row + count) * (4 * hiddenSize)) ==>
              ifog[i] == old(ifog[i])
  {
    var h4 := 4 * hiddenSize;
    ChunkFits(|xs|, row, count, inputSize);
    ChunkFits(ifog.Length, row, count, h4);
    MulAssoc(4, hiddenSize, inputSize);
    DenseMatrixFits(|wt|, inputSize, h4);
    Gemm(count, h4, inputSize, xs, row * inputSize, inputSize, wt, 0, h4, false, ifog, row * h4, h4);
    forall q | row <= q < row + count
      ensures && q * inputSize + inputSize <= |xs| && q * h4 + h4 <= ifog.Length
              && FlatRow(ifog[..], h4, q) == Projected(wt, hiddenSize, inputSize, FlatRow(xs, inputSize, q))
    {
      MulMonoLe(q + 1, row + count, inputSize);
      MulMonoLe(q + 1, row + count, h4);
      MulAddDistrib(q, 1, inputSize);
      MulAddDistrib(q, 1, h4);
      MulAddDistrib(row, q - row, inputSize);
      MulAddDistrib(row, q - row, h4);
      var x := FlatRow(xs, inputSize, q);
      assert x == RowOf(xs, row * inputSize, count, inputSize, inputSize, q - row);
      var out, want := FlatRow(ifog[..], h4, q), Projected(wt, hiddenSize, inputSize, x);
      forall j | 0 <= j < h4
        ensures out[j] == want[j]
      {
        assert At(ifog.Length, row * h4, count, h4, h4, q - row, j) == q * h4 + j;
      }
    }
  }

  /** Cells (i, c) of a block of `count` rows of 4 * hiddenSize elements that
      each got the product of row `i` of `prev` with column `c` of the
      rearranged recurrent weights added. */
  ghost predicate RecurrenceAdded(before: seq<real>, after: seq<real>, prev: seq<real>, pOff: nat, rt: seq<real>,
                                  hiddenSize: nat, count: nat, off: nat)
    requires |after| == |before| && |rt| == 4 * hiddenSize * hiddenSize
    requires Fits(|prev|, pOff, count, hiddenSize, hiddenSize)
  {
    forall i, c :: 0 <= i < count && 0 <= c < 4 * hiddenSize ==>
      && Offset(off, 4 * hiddenSize, i, c) < |before|
      && after[Offset(off, 4 * hiddenSize, i, c)]
         == before[Offset(off, 4 * hiddenSize, i, c)]
            + Dot(RowOf(prev, pOff, count, hiddenSize, hiddenSize, i), TransposedColumn(rt, hiddenSize, hiddenSize, c))
  }

  /** Such a block, read row by row: each row is its old row WithRecurrence. */
  lemma RowsAdded(before: seq<real>, after: seq<real>, prev: seq<real>, pOff: nat, rt: seq<real>,
                  hiddenSize: nat, count: nat, off: nat, i: nat)
    requires |after| == |before| && |rt| == 4 * hiddenSize * hiddenSize
    requires Fits(|prev|, pOff, count, hiddenSize, hiddenSize) && i < count
    requires off + count * (4 * hiddenSize) <= |before|
    requires RecurrenceAdded(before, after, prev, pOff, rt, hiddenSize, count, off)
    ensures off + i * (4 * hiddenSize) + 4 * hiddenSize <= |before|
    ensures Slot(after, off + i * (4 * hiddenSize), 4 * hiddenSize)
            == WithRecurrence(Slot(before, off + i * (4 * hiddenSize), 4 * hiddenSize), rt, hiddenSize,
                              RowOf(prev, pOff, count, hiddenSize, hiddenSize, i))
  {
    var h4 := 4 * hiddenSize;
    MulMono(i, count, h4);
    var out := Slot(after, off + i * h4, h4);
    var want := WithRecurrence(Slot(before, off + i * h4, h4), rt, hiddenSize, RowOf(prev, pOff, count, hiddenSize, hiddenSize, i));
    forall c | 0 <= c < h4
      ensures out[c] == want[c]
    {
      assert Offset(off, h4, i, c) == off + i * h4 + c;
    }
  }

  /** Gemm's accumulating product, cell by cell, is such a block. */
  lemma ProductAdded(c: array<real>, before: seq<real>, prev: seq<real>, pOff: nat, rt: seq<real>,
                     hiddenSize: nat, count: nat, off: nat)
    requires |before| == c.Length && |rt| == 4 * hiddenSize * hiddenSize
    requires Fits(|prev|, pOff, count, hiddenSize, hiddenSize) && Fits(|rt|, 0, hiddenSize, 4 * hiddenSize, 4 * hiddenSize)
    requires Fits(c.Length, off, count, 4 * hiddenSize, 4 * hiddenSize)
    requires forall i, j :: 0 <= i < count && 0 <= j < 4 * hiddenSize ==>
               c[At(c.Length, off, count, 4 * hiddenSize, 4 * hiddenSize, i, j)]
                 == before[At(c.Length, off, count, 4 * hiddenSize, 4 * hiddenSize, i, j)]
                    + Product(prev, pOff, hiddenSize, rt, 0, 4 * hiddenSize, count, 4 * hiddenSize, hiddenSize, i, j)
    ensures RecurrenceAdded(before, c[..], prev, pOff, rt, hiddenSize, count, off)
  {
    var h4 := 4 * hiddenSize;
    forall i, j | 0 <= i < count && 0 <= j < h4
      ensures && Offset(off, h4, i, j) < |before|
              && c[..][Offset(off, h4, i, j)]
                 == before[Offset(off, h4, i, j)]
                    + Dot(RowOf(prev, pOff, count, hiddenSize, hiddenSize, i), TransposedColumn(rt, hiddenSize, hiddenSize, j))
    {
      assert At(c.Length, off, count, h4, h4, i, j) == Offset(off, h4, i, j);
    }
  }

  /** The rows of `prev` the GEMM reads are the slots of rows lo .. of step `pStep`. */
  lemma PrevRows(prev: seq<real>, pStride: nat, hiddenSize: nat, n: nat, pCount: nat, pStep: nat, lo: nat, hi: nat, r: nat)
    requires Tiled(|prev|, pStride, hiddenSize, n, pCount) && pStep < pCount && lo <= r < hi <= n
    ensures Fits(|prev|, SlotStart(pStride, hiddenSize, pStep, lo), hi - lo, hiddenSize, hiddenSize)
    ensures RowSlot(prev, pStride, hiddenSize, n, pCount, pStep, r)
            == RowOf(prev, SlotStart(pStride, hiddenSize, pStep, lo), hi - lo, hiddenSize, hiddenSize, r - lo)
  {
    ChunkInStep(|prev|, pStride, hiddenSize, n, pCount, pStep, lo, hi);
    MulAddDistrib(hi - lo - 1, 1, hiddenSize);
    MulAddDistrib(lo, r - lo, hiddenSize);
  }

  /** Row `r` of step `s` is row r - lo of the block that starts at row `lo`. */
  lemma StepRows(len: nat, stride: nat, w: nat, n: nat, count: nat, s: nat, lo: nat, r: nat)
    requires Tiled(len, stride, w, n, count) && s < count && lo <= r < n
    ensures SlotStart(stride, w, s, r) == SlotStart(stride, w, s, lo) + (r - lo) * w
  {
    MulAddDistrib(lo, r - lo, w);
  }

  /** Each batch row lo .. hi-1 of step `s` of `after` is its row of `before`
      with the product of its row of step `pStep` of `prev` and the rearranged
      recurrent weights added. */
  ghost predicate StepRecurrent(before: seq<real>, after: seq<real>, prev: seq<real>, pStride: nat, pCount: nat, pStep: nat,
                                rt: seq<real>, hiddenSize: nat, n: nat, seqLength: nat, s: nat, lo: nat, hi: nat)
    requires |after| == |before| && |rt| == 4 * hiddenSize * hiddenSize
    requires Tiled(|before|, n * (4 * hiddenSize), 4 * hiddenSize, n, seqLength) && s < seqLength
    requires Tiled(|prev|, pStride, hiddenSize, n, pCount) && pStep < pCount && lo <= hi <= n
  {
    forall r :: lo <= r < hi ==>
      RowSlot(after, n * (4 * hiddenSize), 4 * hiddenSize, n, seqLength, s, r)
        == WithRecurrence(RowSlot(before, n * (4 * hiddenSize), 4 * hiddenSize, n, seqLength, s, r), rt, hiddenSize,
                          RowSlot(prev, pStride, hiddenSize, n, pCount, pStep, r))
  }

  /** A block of cells that got the recurrent product, starting at batch row
      `lo` of step `s`: batch row `r` of that step is its old row with the
      recurrence added. */
  lemma RecurrentRow(before: seq<real>, after: seq<real>, prev: seq<real>, pStride: nat, pCount: nat, pStep: nat,
                     rt: seq<real>, hiddenSize: nat, n: nat, seqLength: nat, s: nat, lo: nat, hi: nat, r: nat)
    requires |after| == |before| && |rt| == 4 * hiddenSize * hiddenSize
    requires Tiled(|before|, n * (4 * hiddenSize), 4 * hiddenSize, n, seqLength) && s < seqLength
    requires Tiled(|prev|, pStride, hiddenSize, n, pCount) && pStep < pCount && lo <= r < hi <= n
    requires Fits(|prev|, SlotStart(pStride, hiddenSize, pStep, lo), hi - lo, hiddenSize, hiddenSize)
    requires RecurrenceAdded(before, after, prev, SlotStart(pStride, hiddenSize, pStep, lo), rt, hiddenSize, hi - lo,
                             SlotStart(n * (4 * hiddenSize), 4 * hiddenSize, s, lo))
    ensures RowSlot(after, n * (4 * hiddenSize), 4 * hiddenSize, n, seqLength, s, r)
            == WithRecurrence(RowSlot(before, n * (4 * hiddenSize), 4 * hiddenSize, n, seqLength, s, r), rt, hiddenSize,
                              RowSlot(prev, pStride, hiddenSize, n, pCount, pStep, r))
  {
    var h4 := 4 * hiddenSize;
    var off, pOff := SlotStart(n * h4, h4, s, lo), SlotStart(pStride, hiddenSize, pStep, lo);
    ChunkInStep(|before|, n * h4, h4, n, seqLength, s, lo, hi);
    StepRows(|before|, n * h4, h4, n, seqLength, s, lo, r);
    PrevRows(prev, pStride, hiddenSize, n, pCount, pStep, lo, hi, r);
    RowsAdded(before, after, prev, pOff, rt, hiddenSize, hi - lo, off, r - lo);
  }

  /** The same for every batch row lo .. hi-1. */
  lemma RecurrentRows(before: seq<real>, after: seq<real>, prev: seq<real>, pStride: nat, pCount: nat, pStep: nat,
                      rt: seq<real>, hiddenSize: nat, n: nat, seqLength: nat, s: nat, lo: nat, hi: nat)
    requires |after| == |before| && |rt| == 4 * hiddenSize * hiddenSize
    requires Tiled(|before|, n * (4 * hiddenSize), 4 * hiddenSize, n, seqLength) && s < seqLength
    requires Tiled(|prev|, pStride, hiddenSize, n, pCount) && pStep < pCount && lo <= hi <= n
    requires Fits(|prev|, SlotStart(pStride, hiddenSize, pStep, lo), hi - lo, hiddenSize, hiddenSize)
    requires RecurrenceAdded(before, after, prev, SlotStart(pStride, hiddenSize, pStep, lo), rt, hiddenSize, hi - lo,
                             SlotStart(n * (4 * hiddenSize), 4 * hiddenSize, s, lo))
    ensures StepRecurrent(before, after, prev, pStride, pCount, pStep, rt, hiddenSize, n, seqLength, s, lo, hi)
  {
    forall r | lo <= r < hi
      ensures RowSlot(after, n * (4 * hiddenSize), 4 * hiddenSize, n, seqLength, s, r)
                == WithRecurrence(RowSlot(before, n * (4 * hiddenSize), 4 * hiddenSize, n, seqLength, s, r), rt, hiddenSize,
                                  RowSlot(prev, pStride, hiddenSize, n, pCount, pStep, r))
    {
      RecurrentRow(before, after, prev, pStride, pCount, pStep, rt, hiddenSize, n, seqLength, s, lo, hi, r);
    }
  }

  /** The recurrent GEMM of the batch-parallel regime at step `s` on batch rows
      lo .. hi-1: each row's pre-activation row of step `s` gets Ht-1 times the
      rearranged recurrent weights added (beta = 1), Ht-1 being the row's slot
      of step `pStep` in `prev`; nothing else of the buffer changes. */
  method HiddenGemmRows(prev: seq<real>, pStride: nat, pCount: nat, pStep: nat, rt: seq<real>,
                        hiddenSize: nat, batchSize: nat, seqLength: nat, s: nat, lo: nat, hi: nat,
                        ifog: array<real>)
    requires |rt| == 4 * hiddenSize * hiddenSize
    requires Tiled(|prev|, pStride, hiddenSize, batchSize, pCount) && pStep < pCount
    requires Tiled(ifog.Length, batchSize * (4 * hiddenSize), 4 * hiddenSize, batchSize, seqLength)
    requires s < seqLength && lo <= hi <= batchSize
    modifies ifog
    ensures StepRecurrent(old(ifog[..]), ifog[..], prev, pStride, pCount, pStep, rt, hiddenSize, batchSize, seqLength, s, lo, hi)
    ensures KeptOutside(old(ifog[..]), ifog[..], SlotStart(batchSize * (4 * hiddenSize), 4 * hiddenSize, s, lo),
                        SlotStart(batchSize * (4 * hiddenSize), 4 * hiddenSize, s, hi))
  {
    var h4, n := 4 * hiddenSize, batchSize;
    var count := hi - lo;
    var off, pOff := SlotStart(n * h4, h4, s, lo), SlotStart(pStride, hiddenSize, pStep, lo);
    ChunkInStep(ifog.Length, n * h4, h4, n, seqLength, s, lo, hi);
    ChunkInStep(|prev|, pStride, hiddenSize, n, pCount, pStep, lo, hi);
    if count > 0 {
      MulAddDistrib(count - 1, 1, h4);
      MulAddDistrib(count - 1, 1, hiddenSize);
    }
    MulAssoc(4, hiddenSize, hiddenSize);
    DenseMatrixFits(|rt|, hiddenSize, h4);
    ghost var before := ifog[..];
    Gemm(count, h4, hiddenSize, prev, pOff, hiddenSize, rt, 0, h4, true, ifog, off, h4);
    ProductAdded(ifog, before, prev, pOff, rt, hiddenSize, count, off);
    RecurrentRows(before, ifog[..], prev, pStride, pCount, pStep, rt, hiddenSize, n, seqLength, s, lo, hi);
  }

  /** An element of row `i` outside columns start .. start+cols-1 lies outside
      the block of those columns. */
  lemma ColumnOutside(off: nat, start: nat, cols: nat, ld: nat, rows: nat, i: nat, c: nat)
    requires start + cols <= ld && i < rows && c < ld && !(start <= c < start + cols)
    ensures !InBlock(Offset(off, ld, i, c), off + start, rows, cols, ld)
  {
    var idx := Offset(off, ld, i, c);
    if off + start <= idx {
      if c >= start {
        DivModOf(i, c - start, ld);
        assert idx - (off + start) == i * ld + (c - start);
      } else {
        assert i >= 1;
        DivModOf(i - 1, ld + c - start, ld);
        assert idx - (off + start) == (i - 1) * ld + (ld + c - start);
      }
    }
  }

  /** The element at (i, c) of the block of all `ld` columns from `off`. */
  lemma CellInRows(off: nat, ld: nat, rows: nat, i: nat, c: nat)
    requires i < rows && c < ld
    ensures off <= Offset(off, ld, i, c) < off + rows * ld
  {
    MulMono(i, rows, ld);
  }

  /** Columns 0 .. done-1 of the `n` rows at `off` got the recurrent product
      added; the other columns are as before. */
  ghost predicate ColumnsAdded(before: seq<real>, after: seq<real>, prev: seq<real>, pOff: nat, rt: seq<real>,
                               hiddenSize: nat, n: nat, off: nat, done: nat)
    requires |after| == |before| && |rt| == 4 * hiddenSize * hiddenSize
    requires Fits(|prev|, pOff, n, hiddenSize, hiddenSize)
  {
    forall i, c :: 0 <= i < n && 0 <= c < 4 * hiddenSize ==>
      && Offset(off, 4 * hiddenSize, i, c) < |before|
      && after[Offset(off, 4 * hiddenSize, i, c)]
         == if c < done
            then before[Offset(off, 4 * hiddenSize, i, c)]
                 + Dot(RowOf(prev, pOff, n, hiddenSize, hiddenSize, i), TransposedColumn(rt, hiddenSize, hiddenSize, c))
            else before[Offset(off, 4 * hiddenSize, i, c)]
  }

  /** A block of columns from `start` of a dense matrix of `rows` rows of `ld`
      fits in it. */
  lemma ColumnBlockFits(len: nat, off: nat, rows: nat, ld: nat, start: nat, cols: nat)
    requires off + rows * ld <= len && start + cols <= ld
    ensures Fits(len, off + start, rows, cols, ld)
  {
    if rows > 0 {
      MulAddDistrib(rows - 1, 1, ld);
    }
  }

  /** Before any thread has run, no column has been added. */
  lemma NoColumnsAdded(before: seq<real>, prev: seq<real>, pOff: nat, rt: seq<real>, hiddenSize: nat, n: nat, off: nat)
    requires |rt| == 4 * hiddenSize * hiddenSize && Fits(|prev|, pOff, n, hiddenSize, hiddenSize)
    requires off + n * (4 * hiddenSize) <= |before|
    ensures ColumnsAdded(before, before, prev, pOff, rt, hiddenSize, n, off, 0)
  {
    forall i, c | 0 <= i < n && 0 <= c < 4 * hiddenSize
      ensures Offset(off, 4 * hiddenSize, i, c) < |before|
    {
      CellInRows(off, 4 * hiddenSize, n, i, c);
    }
  }

  /** One thread's Gemm on columns done .. done+cols-1 extends the added
      columns by its own and keeps everything outside the rows at `off`. */
  lemma ColumnsExtended(c: array<real>, mid: seq<real>, before: seq<real>, prev: seq<real>, pOff: nat, rt: seq<real>,
                        hiddenSize: nat, n: nat, off: nat, done: nat, cols: nat)
    requires |mid| == |before| == c.Length && |rt| == 4 * hiddenSize * hiddenSize
    requires Fits(|prev|, pOff, n, hiddenSize, hiddenSize) && done + cols <= 4 * hiddenSize
    requires off + n * (4 * hiddenSize) <= c.Length
    requires Fits(|rt|, 0, hiddenSize, 4 * hiddenSize, 4 * hiddenSize) && Fits(|rt|, done, hiddenSize, cols, 4 * hiddenSize)
    requires Fits(c.Length, off + done, n, cols, 4 * hiddenSize)
    requires ColumnsAdded(before, mid, prev, pOff, rt, hiddenSize, n, off, done)
    requires KeptOutside(before, mid, off, off + n * (4 * hiddenSize))
    requires forall i, j :: 0 <= i < n && 0 <= j < cols ==>
               c[At(c.Length, off + done, n, cols, 4 * hiddenSize, i, j)]
                 == mid[At(c.Length, off + done, n, cols, 4 * hiddenSize, i, j)]
                    + Product(prev, pOff, hiddenSize, rt, done, 4 * hiddenSize, n, cols, hiddenSize, i, j)
    requires forall idx :: 0 <= idx < c.Length && !InBlock(idx, off + done, n, cols, 4 * hiddenSize) ==> c[idx] == mid[idx]
    ensures ColumnsAdded(before, c[..], prev, pOff, rt, hiddenSize, n, off, done + cols)
    ensures KeptOutside(before, c[..], off, off + n * (4 * hiddenSize))
  {
    var h4 := 4 * hiddenSize;
    forall i, col | 0 <= i < n && 0 <= col < h4
      ensures Offset(off, h4, i, col) < |before| &&
              c[..][Offset(off, h4, i, col)]
                == if col < done + cols
                   then before[Offset(off, h4, i, col)]
                        + Dot(RowOf(prev, pOff, n, hiddenSize, hiddenSize, i), TransposedColumn(rt, hiddenSize, hiddenSize, col))
                   else before[Offset(off, h4, i, col)]
    {
      CellInRows(off, h4, n, i, col);
      var idx := Offset(off, h4, i, col);
      if done <= col < done + cols {
        var j := col - done;
        assert At(c.Length, off + done, n, cols, h4, i, j) == idx;
        ShiftedColumn(rt, done, hiddenSize, cols, h4, j);
        assert mid[idx] == before[idx];
        assert c[idx] == mid[idx] + Product(prev, pOff, hiddenSize, rt, done, h4, n, cols, hiddenSize, i, j);
      } else {
        ColumnOutside(off, done, cols, h4, n, i, col);
        assert c[idx] == mid[idx];
      }
    }
    forall idx | 0 <= idx < c.Length && !(off <= idx < off + n * h4)
      ensures c[..][idx] == before[idx]
    {
      if InBlock(idx, off + done, n, cols, h4) {
        InsideSpan(off + done, n, cols, h4, idx);
        MulAddDistrib(n - 1, 1, h4);
      }
    }
  }

  /** Once every column is added, the rows at `off` got the whole recurrent product. */
  lemma AllColumnsAdded(before: seq<real>, after: seq<real>, prev: seq<real>, pOff: nat, rt: seq<real>,
                        hiddenSize: nat, n: nat, off: nat)
    requires |after| == |before| && |rt| == 4 * hiddenSize * hiddenSize
    requires Fits(|prev|, pOff, n, hiddenSize, hiddenSize)
    requires ColumnsAdded(before, after, prev, pOff, rt, hiddenSize, n, off, 4 * hiddenSize)
    ensures RecurrenceAdded(before, after, prev, pOff, rt, hiddenSize, n, off)
  {
  }

  /** Thread `k`'s share of the column regime: the GEMM of all `n` rows at
      `off` restricted to columns done .. done+cols-1 (B offset by `done`, C by
      off + done, both with leading dimension 4 * hiddenSize). */
  method ColumnThread(prev: seq<real>, pOff: nat, rt: seq<real>, hiddenSize: nat, n: nat, off: nat,
                      done: nat, cols: nat, ghost before: seq<real>, ifog: array<real>)
    requires |before| == ifog.Length && |rt| == 4 * hiddenSize * hiddenSize
    requires Fits(|prev|, pOff, n, hiddenSize, hiddenSize) && done + cols <= 4 * hiddenSize
    requires off + n * (4 * hiddenSize) <= ifog.Length
    requires ColumnsAdded(before, ifog[..], prev, pOff, rt, hiddenSize, n, off, done)
    requires KeptOutside(before, ifog[..], off, off + n * (4 * hiddenSize))
    modifies ifog
    ensures ColumnsAdded(before, ifog[..], prev, pOff, rt, hiddenSize, n, off, done + cols)
    ensures KeptOutside(before, ifog[..], off, off + n * (4 * hiddenSize))
  {
    var h4 := 4 * hiddenSize;
    MulAssoc(4, hiddenSize, hiddenSize);
    DenseMatrixFits(|rt|, hiddenSize, h4);
    ColumnBlockFits(|rt|, 0, hiddenSize, h4, done, cols);
    ColumnBlockFits(ifog.Length, off, n, h4, done, cols);
    ghost var mid := ifog[..];
    Gemm(n, cols, hiddenSize, prev, pOff, hiddenSize, rt, done, h4, true, ifog, off + done, h4);
    ColumnsExtended(ifog, mid, before, prev, pOff, rt, hiddenSize, n, off, done, cols);
  }

  /** The threads of the column regime in turn: thread k of `threads` adds
      the product for columns ColumnStart(k) .. of all `n` rows at `off`;
      together they add Ht-1 times the rearranged recurrent weights to every
      row, exactly as one GEMM over all columns would. */
  method ColumnThreads(prev: seq<real>, pOff: nat, rt: seq<real>, hiddenSize: nat, n: nat, off: nat,
                       threads: nat, ifog: array<real>)
    requires |rt| == 4 * hiddenSize * hiddenSize && threads >= 1
    requires Fits(|prev|, pOff, n, hiddenSize, hiddenSize)
    requires off + n * (4 * hiddenSize) <= ifog.Length
    modifies ifog
    ensures RecurrenceAdded(old(ifog[..]), ifog[..], prev, pOff, rt, hiddenSize, n, off)
    ensures KeptOutside(old(ifog[..]), ifog[..], off, off + n * (4 * hiddenSize))
  {
    var h4 := 4 * hiddenSize;
    ghost var before := ifog[..];
    NoColumnsAdded(before, prev, pOff, rt, hiddenSize, n, off);
    var k, done := 0, 0;
    ColumnsTile(threads, h4, 0);
    while k < threads
      invariant k <= threads
      invariant k < threads ==> done == ColumnStart(k, threads, h4)
      invariant k == threads ==> done == h4
      invariant ColumnsAdded(before, ifog[..], prev, pOff, rt, hiddenSize, n, off, done)
      invariant KeptOutside(before, ifog[..], off, off + n * h4)
    {
      ColumnsTile(threads, h4, k);
      var cols := ColumnCount(k, threads, h4);
      ColumnThread(prev, pOff, rt, hiddenSize, n, off, done, cols, before, ifog);
      done := done + cols;
      k := k + 1;
    }
    AllColumnsAdded(before, ifog[..], prev, pOff, rt, hiddenSize, n, off);
  }

  /** The recurrent GEMM of the column regime at step `s`: every row of the
      step gets Ht-1 times the rearranged recurrent weights added, exactly as
      the batch-parallel GEMM would, and nothing outside the step changes. */
  method HiddenGemmColumns(prev: seq<real>, pStride: nat, pCount: nat, pStep: nat, rt: seq<real>,
                           hiddenSize: nat, batchSize: nat, seqLength: nat, s: nat, threads: nat,
                           ifog: array<real>)
    requires |rt| == 4 * hiddenSize * hiddenSize && threads >= 1
    requires Tiled(|prev|, pStride, hiddenSize, batchSize, pCount) && pStep < pCount
    requires Tiled(ifog.Length, batchSize * (4 * hiddenSize), 4 * hiddenSize, batchSize, seqLength)
    requires s < seqLength
    modifies ifog
    ensures StepRecurrent(old(ifog[..]), ifog[..], prev, pStride, pCount, pStep, rt, hiddenSize, batchSize, seqLength, s, 0, batchSize)
    ensures KeptOutside(old(ifog[..]), ifog[..], SlotStart(batchSize * (4 * hiddenSize), 4 * hiddenSize, s, 0),
                        SlotStart(batchSize * (4 * hiddenSize), 4 * hiddenSize, s, batchSize))
  {
    var h4, n := 4 * hiddenSize, batchSize;
    var off, pOff := SlotStart(n * h4, h4, s, 0), SlotStart(pStride, hiddenSize, pStep, 0);
    ChunkInStep(ifog.Length, n * h4, h4, n, seqLength, s, 0, n);
    ChunkInStep(|prev|, pStride, hiddenSize, n, pCount, pStep, 0, n);
    ColumnBlockFits(|prev|, pOff, n, hiddenSize, 0, hiddenSize);
    assert SlotStart(n * h4, h4, s, n) == off + n * h4 <= ifog.Length;
    ColumnThreads(prev, pOff, rt, hiddenSize, n, off, threads, ifog);
    RecurrentRows(old(ifog[..]), ifog[..], prev, pStride, pCount, pStep, rt, hiddenSize, n, seqLength, s, 0, n);
  }
}
