/** The buffers the step loop of Compute works on, seen row by row: each batch
    row's cell row, output slots, final rows and pre-activation rows (a
    RowView). Each stage of one step (recurrent GEMM, GateComputations, the
    copy of the final cell rows, the zero fill) is stated on the buffers by the
    methods that run it; the lemmas here turn those statements into the stage's
    effect on the row views, and so move the rows of a chunk from one step to
    the next. */
module StepViews {
  import opened IndexArith
  import opened Slots
  import opened GateMath
  import opened SequenceLengths
  import opened LstmEquations
  import opened EngineRun
  import opened EngineGemms

  /** Contents of the buffers the loop writes: the pre-activations
      (output_ifog_), the cell rows (batched_internal_memory_prev_), the output
      sequence being written, and the final hidden and cell states. */
  datatype Buffers = Buffers(ifog: seq<real>, cell: seq<real>, outs: seq<real>, finalH: seq<real>, finalC: seq<real>)

  /** Slots of the buffers: pre-activation rows of 4 * hidden_size, batch rows
      side by side within a step; cell and final rows of hidden_size; output
      slots `stride` apart per step (only with an output sequence). */
  predicate Shaped(e: Run, m: Mode, stride: nat, b: Buffers)
  {
    var h, n := e.p.hiddenSize, e.batchSize;
    && Tiled(|b.ifog|, n * (4 * h), 4 * h, n, e.seqLength)
    && Tiled(|b.cell|, n * h, h, n, 1)
    && Tiled(|b.finalH|, n * h, h, n, 1)
    && Tiled(|b.finalC|, n * h, h, n, 1)
    && (m.outputSequence ==> Tiled(|b.outs|, stride, h, n, e.seqLength))
  }

  /** Two contents of the same buffers. */
  predicate SameShape(b: Buffers, b': Buffers)
  {
    && |b'.ifog| == |b.ifog| && |b'.cell| == |b.cell| && |b'.outs| == |b.outs|
    && |b'.finalH| == |b.finalH| && |b'.finalC| == |b.finalC|
  }

  /** Batch row `r` of the buffers. */
  ghost function View(e: Run, m: Mode, stride: nat, b: Buffers, r: nat): (v: RowView)
    requires Shaped(e, m, stride, b) && r < e.batchSize
    ensures |v.ifog| == e.seqLength
    ensures m.outputSequence ==> |v.outs| == e.seqLength
  {
    var h, n, S := e.p.hiddenSize, e.batchSize, e.seqLength;
    RowView(Row(b.cell, h, n, r),
            if m.outputSequence then SlotRows(b.outs, stride, h, n, S, r) else [],
            Row(b.finalH, h, n, r),
            Row(b.finalC, h, n, r),
            SlotRows(b.ifog, n * (4 * h), 4 * h, n, S, r))
  }

  /** Where the loop stands: rows before `lo` have run all max_sequence_length
      steps, rows lo .. hi-1 have run `s` steps and later rows none. */
  function StepsDone(m: Mode, lo: nat, hi: nat, s: nat, r: nat): nat
  {
    if r < lo then m.maxLen else if r < hi then s else 0
  }

  ghost predicate RowsAt(e: Run, m: Mode, stride: nat, b: Buffers, b0: Buffers, lo: nat, hi: nat, s: nat)
    requires e.Valid() && m.maxLen <= e.seqLength && s <= m.maxLen
    requires Shaped(e, m, stride, b) && Shaped(e, m, stride, b0)
  {
    forall r :: 0 <= r < e.batchSize ==>
      RowAt(e, m, r, StepsDone(m, lo, hi, s, r), View(e, m, stride, b, r), View(e, m, stride, b0, r))
  }

  /** Row `r` has run as many steps as the loop position says. The body is
      compared with `true` so that a goal naming it stays whole. */
  ghost predicate RowReached(e: Run, m: Mode, stride: nat, b: Buffers, b0: Buffers, lo: nat, hi: nat, s: nat, r: nat)
    requires e.Valid() && m.maxLen <= e.seqLength && s <= m.maxLen && r < e.batchSize
    requires Shaped(e, m, stride, b) && Shaped(e, m, stride, b0)
  {
    RowAt(e, m, r, StepsDone(m, lo, hi, s, r), View(e, m, stride, b, r), View(e, m, stride, b0, r)) == true
  }

  /** Where a step loop stands, in the form the loops carry. */
  ghost predicate Reached(e: Run, m: Mode, stride: nat, b: Buffers, b0: Buffers, lo: nat, hi: nat, s: nat)
    requires e.Valid() && m.maxLen <= e.seqLength && s <= m.maxLen
    requires Shaped(e, m, stride, b) && Shaped(e, m, stride, b0)
  {
    (forall r :: 0 <= r < e.batchSize ==> RowReached(e, m, stride, b, b0, lo, hi, s, r)) == true
  }

  /** A loop position in the carried form gives RowsAt. */
  lemma ReachedRows(e: Run, m: Mode, stride: nat, b: Buffers, b0: Buffers, lo: nat, hi: nat, s: nat)
    requires e.Valid() && m.maxLen <= e.seqLength && s <= m.maxLen
    requires Shaped(e, m, stride, b) && Shaped(e, m, stride, b0)
    requires Reached(e, m, stride, b, b0, lo, hi, s)
    ensures RowsAt(e, m, stride, b, b0, lo, hi, s)
  {
    forall r | 0 <= r < e.batchSize
      ensures RowAt(e, m, r, StepsDone(m, lo, hi, s, r), View(e, m, stride, b, r), View(e, m, stride, b0, r))
    {
      assert RowReached(e, m, stride, b, b0, lo, hi, s, r);
    }
  }

  /** RowsAt gives the loop position in the carried form. */
  lemma RowsReached(e: Run, m: Mode, stride: nat, b: Buffers, b0: Buffers, lo: nat, hi: nat, s: nat)
    requires e.Valid() && m.maxLen <= e.seqLength && s <= m.maxLen
    requires Shaped(e, m, stride, b) && Shaped(e, m, stride, b0)
    requires RowsAt(e, m, stride, b, b0, lo, hi, s)
    ensures Reached(e, m, stride, b, b0, lo, hi, s)
  {
    forall r | 0 <= r < e.batchSize
      ensures RowReached(e, m, stride, b, b0, lo, hi, s, r)
    {
      assert RowAt(e, m, r, StepsDone(m, lo, hi, s, r), View(e, m, stride, b, r), View(e, m, stride, b0, r));
    }
  }

  /** The carried position depends on the loop position only through the
      number of steps each row has run. */
  lemma Regrouped(e: Run, m: Mode, stride: nat, b: Buffers, b0: Buffers,
                  lo: nat, hi: nat, s: nat, lo': nat, hi': nat, s': nat)
    requires e.Valid() && m.maxLen <= e.seqLength && s <= m.maxLen && s' <= m.maxLen
    requires Shaped(e, m, stride, b) && Shaped(e, m, stride, b0)
    requires Reached(e, m, stride, b, b0, lo, hi, s)
    requires forall r :: 0 <= r < e.batchSize ==> StepsDone(m, lo, hi, s, r) == StepsDone(m, lo', hi', s', r)
    ensures Reached(e, m, stride, b, b0, lo', hi', s')
  {
    forall r | 0 <= r < e.batchSize
      ensures RowReached(e, m, stride, b, b0, lo', hi', s', r)
    {
      assert RowReached(e, m, stride, b, b0, lo, hi, s, r);
    }
  }

  /** Before the loops every row is at its initial state: the cell buffer
      holds c0 and the pre-activation slots of the steps to run hold the
      projected inputs. */
  lemma LoopStart(e: Run, m: Mode, stride: nat, b0: Buffers)
    requires e.Valid() && m.maxLen <= e.seqLength && Shaped(e, m, stride, b0) && b0.cell == e.c0
    requires StepsProjected(b0.ifog, e.wt, e.p.hiddenSize, e.inputSize, e.xs, e.seqLength, e.batchSize, m.maxLen)
    ensures Reached(e, m, stride, b0, b0, 0, 0, 0)
  {
    forall r | 0 <= r < e.batchSize
      ensures RowReached(e, m, stride, b0, b0, 0, 0, 0, r)
    {
      RowAtStart(e, m, r, View(e, m, stride, b0, r));
    }
  }

  /** The recurrent GEMM of step `s` on rows lo .. hi-1 changes only their
      pre-activation rows of step `s`. */
  lemma GemmViews(e: Run, m: Mode, stride: nat, b: Buffers, ifog': seq<real>,
                  prev: seq<real>, pStride: nat, pCount: nat, pStep: nat, s: nat, lo: nat, hi: nat)
    requires e.Valid() && Shaped(e, m, stride, b) && |ifog'| == |b.ifog|
    requires s < e.seqLength && lo <= hi <= e.batchSize
    requires Tiled(|prev|, pStride, e.p.hiddenSize, e.batchSize, pCount) && pStep < pCount
    requires StepRecurrent(b.ifog, ifog', prev, pStride, pCount, pStep, e.rt, e.p.hiddenSize, e.batchSize, e.seqLength, s, lo, hi)
    requires var h, n := e.p.hiddenSize, e.batchSize;
             KeptOutside(b.ifog, ifog', SlotStart(n * (4 * h), 4 * h, s, lo), SlotStart(n * (4 * h), 4 * h, s, hi))
    ensures Shaped(e, m, stride, b.(ifog := ifog'))
    ensures forall r :: 0 <= r < e.batchSize ==>
              View(e, m, stride, b.(ifog := ifog'), r)
                == if lo <= r < hi
                   then AfterGemm(View(e, m, stride, b, r), s, e.rt, e.p.hiddenSize,
                                  RowSlot(prev, pStride, e.p.hiddenSize, e.batchSize, pCount, pStep, r))
                   else View(e, m, stride, b, r)
  {
    var h, n := e.p.hiddenSize, e.batchSize;
    forall r | 0 <= r < n
      ensures View(e, m, stride, b.(ifog := ifog'), r)
                == if lo <= r < hi
                   then AfterGemm(View(e, m, stride, b, r), s, e.rt, h, RowSlot(prev, pStride, h, n, pCount, pStep, r))
                   else View(e, m, stride, b, r)
    {
      ChunkWrite(b.ifog, ifog', n * (4 * h), 4 * h, n, e.seqLength, s, lo, hi, r);
    }
  }

  /** GateComputations at step `s` on row `r`: a running row gets its gates,
      its new cell row and its hidden row (in its output slot, or in its final
      hidden row without an output sequence); a finished row gets a zeroed
      output slot (with an output sequence) and nothing else. */
  ghost predicate RowGatesWritten(e: Run, m: Mode, stride: nat, b: Buffers, b': Buffers, minLen: int, s: nat, r: nat)
    requires e.Valid() && Shaped(e, m, stride, b) && Shaped(e, m, stride, b')
    requires s < e.seqLength && r < e.batchSize
  {
    var h, n, S := e.p.hiddenSize, e.batchSize, e.seqLength;
    var running := !Finished(s, minLen, e.lens[r]);
    var pre, cPrev := RowSlot(b.ifog, n * (4 * h), 4 * h, n, S, s, r), Row(b.cell, h, n, r);
    && RowSlot(b'.ifog, n * (4 * h), 4 * h, n, S, s, r) == (if running then GatesAfter(e.p, pre, cPrev) else pre)
    && Row(b'.cell, h, n, r) == (if running then CellAfter(e.p, pre, cPrev) else cPrev)
    && (m.outputSequence ==>
          RowSlot(b'.outs, stride, h, n, S, s, r) == (if running then HiddenAfter(e.p, pre, cPrev) else Zeros(h)))
    && (!m.outputSequence ==>
          Row(b'.finalH, h, n, r) == (if running then HiddenAfter(e.p, pre, cPrev) else Row(b.finalH, h, n, r)))
  }

  /** GateComputations at step `s` on rows lo .. hi-1: each row as
      RowGatesWritten says, and nothing outside those rows' slots. */
  ghost predicate GatesWritten(e: Run, m: Mode, stride: nat, b: Buffers, b': Buffers, minLen: int, s: nat, lo: nat, hi: nat)
    requires e.Valid() && Shaped(e, m, stride, b) && Shaped(e, m, stride, b')
    requires s < e.seqLength && hi <= e.batchSize
  {
    && SameShape(b, b')
    && b'.finalC == b.finalC
    && (m.outputSequence ==> b'.finalH == b.finalH)
    && (!m.outputSequence ==> b'.outs == b.outs)
    && (forall r :: lo <= r < hi ==> RowGatesWritten(e, m, stride, b, b', minLen, s, r))
    && GatesFrame(e, m, stride, b, b', s, lo, hi)
  }

  /** Only the slots of rows lo .. hi-1 at step `s` change. */
  ghost predicate GatesFrame(e: Run, m: Mode, stride: nat, b: Buffers, b': Buffers, s: nat, lo: nat, hi: nat)
    requires SameShape(b, b')
  {
    var h, n := e.p.hiddenSize, e.batchSize;
    && KeptOutside(b.ifog, b'.ifog, SlotStart(n * (4 * h), 4 * h, s, lo), SlotStart(n * (4 * h), 4 * h, s, hi))
    && KeptOutside(b.cell, b'.cell, SlotStart(n * h, h, 0, lo), SlotStart(n * h, h, 0, hi))
    && (m.outputSequence ==> KeptOutside(b.outs, b'.outs, SlotStart(stride, h, s, lo), SlotStart(stride, h, s, hi)))
    && (!m.outputSequence ==> KeptOutside(b.finalH, b'.finalH, SlotStart(n * h, h, 0, lo), SlotStart(n * h, h, 0, hi)))
  }

  lemma GatesViews(e: Run, m: Mode, stride: nat, b: Buffers, b': Buffers, minLen: int, s: nat, lo: nat, hi: nat)
    requires e.Valid() && Shaped(e, m, stride, b) && Shaped(e, m, stride, b')
    requires e.batchSize > 0 && s < e.seqLength && lo <= hi <= e.batchSize
    requires minLen == MinSequenceLength(e.seqLength, e.lens)
    requires GatesWritten(e, m, stride, b, b', minLen, s, lo, hi)
    ensures forall r :: 0 <= r < e.batchSize ==>
              View(e, m, stride, b', r)
                == if lo <= r < hi then AfterGates(e.p, m.outputSequence, s < e.lens[r], View(e, m, stride, b, r), s)
                   else View(e, m, stride, b, r)
  {
    forall r | 0 <= r < e.batchSize
      ensures View(e, m, stride, b', r)
                == if lo <= r < hi then AfterGates(e.p, m.outputSequence, s < e.lens[r], View(e, m, stride, b, r), s)
                   else View(e, m, stride, b, r)
    {
      RowGatesView(e, m, stride, b, b', minLen, s, lo, hi, r);
    }
  }

  /** One row of GatesViews. */
  lemma RowGatesView(e: Run, m: Mode, stride: nat, b: Buffers, b': Buffers, minLen: int,
                     s: nat, lo: nat, hi: nat, r: nat)
    requires e.Valid() && Shaped(e, m, stride, b) && Shaped(e, m, stride, b') && SameShape(b, b')
    requires e.batchSize > 0 && s < e.seqLength && lo <= hi <= e.batchSize && r < e.batchSize
    requires minLen == MinSequenceLength(e.seqLength, e.lens)
    requires b'.finalC == b.finalC
    requires m.outputSequence ==> b'.finalH == b.finalH
    requires !m.outputSequence ==> b'.outs == b.outs
    requires GatesFrame(e, m, stride, b, b', s, lo, hi)
    requires lo <= r < hi ==> RowGatesWritten(e, m, stride, b, b', minLen, s, r)
    ensures View(e, m, stride, b', r)
              == if lo <= r < hi then AfterGates(e.p, m.outputSequence, s < e.lens[r], View(e, m, stride, b, r), s)
                 else View(e, m, stride, b, r)
  {
    var h, n, S := e.p.hiddenSize, e.batchSize, e.seqLength;
    FinishedIffPastLength(S, e.lens, r, s);
    var v, v' := View(e, m, stride, b, r), View(e, m, stride, b', r);
    ChunkWrite(b.ifog, b'.ifog, n * (4 * h), 4 * h, n, S, s, lo, hi, r);
    if m.outputSequence {
      ChunkWrite(b.outs, b'.outs, stride, h, n, S, s, lo, hi, r);
    }
    if !(lo <= r < hi) {
      RowsKept(b.cell, b'.cell, h, n, lo, hi, r);
      if !m.outputSequence {
        RowsKept(b.finalH, b'.finalH, h, n, lo, hi, r);
      }
      assert v'.cell == v.cell && v'.finalH == v.finalH && v'.outs == v.outs && v'.ifog == v.ifog;
    }
  }

  /** Part way through the copy of the final cell rows at step `s`: rows
      lo .. k-1 whose last step is `s` hold their cell rows, the other rows
      below `k` are as they were, and nothing outside rows lo .. k-1 changed. */
  ghost predicate FinalCellsUpTo(cell: seq<real>, f0: seq<real>, f: seq<real>, lens: seq<int>,
                                 h: nat, n: nat, s: nat, lo: nat, k: nat)
  {
    && Tiled(|cell|, n * h, h, n, 1) && Tiled(|f0|, n * h, h, n, 1) && |lens| == n && lo <= k <= n
    && KeptOutside(f0, f, SlotStart(n * h, h, 0, lo), SlotStart(n * h, h, 0, k))
    && forall r :: lo <= r < k ==>
         Row(f, h, n, r) == if s + 1 == lens[r] then Row(cell, h, n, r) else Row(f0, h, n, r)
  }

  /** Handling row `k` (copying its cell row when its last step is `s`)
      extends the handled rows by one. */
  lemma FinalCellOneMore(cell: seq<real>, f0: seq<real>, f: seq<real>, lens: seq<int>,
                         h: nat, n: nat, s: nat, lo: nat, k: nat)
    requires FinalCellsUpTo(cell, f0, f, lens, h, n, s, lo, k) && k < n
    ensures SlotStart(n * h, h, 0, k) + h <= |f|
    ensures FinalCellsUpTo(cell, f0, if s + 1 == lens[k] then Splice(f, SlotStart(n * h, h, 0, k), Row(cell, h, n, k)) else f,
                           lens, h, n, s, lo, k + 1)
  {
    var off, v := SlotStart(n * h, h, 0, k), Row(cell, h, n, k);
    SlotWritten(f, n * h, h, n, 1, 0, k, v);
    var f' := if s + 1 == lens[k] then Splice(f, off, v) else f;
    ChunkInStep(|f|, n * h, h, n, 1, 0, lo, k);
    KeptJoined(f0, f, f', SlotStart(n * h, h, 0, lo), off, SlotStart(n * h, h, 0, k + 1));
    RowsKept(f0, f, h, n, lo, k, k);
    forall r | lo <= r < k + 1
      ensures Row(f', h, n, r) == if s + 1 == lens[r] then Row(cell, h, n, r) else Row(f0, h, n, r)
    {
      if s + 1 == lens[k] {
        RowSplice(f, h, n, k, v, r);
      }
    }
  }

  /** Part way through the zero fill at step `s`: the slots of rows lo .. k-1
      of that step are zeros for finished rows and as they were for the
      others, and nothing outside those slots changed. */
  ghost predicate ZeroedUpTo(o0: seq<real>, o: seq<real>, stride: nat, h: nat, n: nat, seqLength: nat,
                             lens: seq<int>, minLen: int, s: nat, lo: nat, k: nat)
  {
    && Tiled(|o0|, stride, h, n, seqLength) && s < seqLength && |lens| == n && lo <= k <= n
    && KeptOutside(o0, o, SlotStart(stride, h, s, lo), SlotStart(stride, h, s, k))
    && forall r :: lo <= r < k ==>
         RowSlot(o, stride, h, n, seqLength, s, r)
           == if Finished(s, minLen, lens[r]) then Zeros(h) else RowSlot(o0, stride, h, n, seqLength, s, r)
  }

  /** Handling row `k` (zeroing its slot when it has finished) extends the
      handled rows by one. */
  lemma ZeroedOneMore(o0: seq<real>, o: seq<real>, stride: nat, h: nat, n: nat, seqLength: nat,
                      lens: seq<int>, minLen: int, s: nat, lo: nat, k: nat)
    requires ZeroedUpTo(o0, o, stride, h, n, seqLength, lens, minLen, s, lo, k) && k < n
    ensures SlotStart(stride, h, s, k) + h <= |o|
    ensures ZeroedUpTo(o0, if Finished(s, minLen, lens[k]) then Splice(o, SlotStart(stride, h, s, k), Zeros(h)) else o,
                       stride, h, n, seqLength, lens, minLen, s, lo, k + 1)
  {
    var off := SlotStart(stride, h, s, k);
    SlotWritten(o, stride, h, n, seqLength, s, k, Zeros(h));
    var o' := if Finished(s, minLen, lens[k]) then Splice(o, off, Zeros(h)) else o;
    ChunkInStep(|o|, stride, h, n, seqLength, s, lo, k);
    KeptJoined(o0, o, o', SlotStart(stride, h, s, lo), off, SlotStart(stride, h, s, k + 1));
    SlotKept(o0, o, stride, h, n, seqLength, s, lo, k, k);
    forall r | lo <= r < k + 1
      ensures RowSlot(o', stride, h, n, seqLength, s, r)
                == if Finished(s, minLen, lens[r]) then Zeros(h) else RowSlot(o0, stride, h, n, seqLength, s, r)
    {
      if Finished(s, minLen, lens[k]) {
        SlotSplice(o, stride, h, n, seqLength, s, k, Zeros(h), r);
      }
    }
  }

  /** The final cell row of each row of lo .. hi-1 whose last step is `s` takes
      the row's cell row; nothing else changes. */
  lemma CopyViews(e: Run, m: Mode, stride: nat, b: Buffers, finalC': seq<real>, s: nat, lo: nat, hi: nat)
    requires e.Valid() && Shaped(e, m, stride, b) && |finalC'| == |b.finalC|
    requires lo <= hi <= e.batchSize
    requires var h, n := e.p.hiddenSize, e.batchSize;
             forall r :: lo <= r < hi ==>
               Row(finalC', h, n, r) == if s + 1 == e.lens[r] then Row(b.cell, h, n, r) else Row(b.finalC, h, n, r)
    requires var h, n := e.p.hiddenSize, e.batchSize;
             KeptOutside(b.finalC, finalC', SlotStart(n * h, h, 0, lo), SlotStart(n * h, h, 0, hi))
    ensures Shaped(e, m, stride, b.(finalC := finalC'))
    ensures forall r :: 0 <= r < e.batchSize ==>
              View(e, m, stride, b.(finalC := finalC'), r)
                == if lo <= r < hi then AfterCopy(View(e, m, stride, b, r), s + 1 == e.lens[r])
                   else View(e, m, stride, b, r)
  {
    var h, n := e.p.hiddenSize, e.batchSize;
    forall r | 0 <= r < n && !(lo <= r < hi)
      ensures Row(finalC', h, n, r) == Row(b.finalC, h, n, r)
    {
      RowsKept(b.finalC, finalC', h, n, lo, hi, r);
    }
  }

  /** The zero fill after GateComputations writes zeros to the output slots of
      finished rows, which GateComputations has already zeroed: no row changes. */
  lemma ZeroViews(e: Run, m: Mode, stride: nat, b: Buffers, outs': seq<real>, minLen: int, s: nat, lo: nat, hi: nat)
    requires e.Valid() && Shaped(e, m, stride, b) && |outs'| == |b.outs|
    requires s < e.seqLength && lo <= hi <= e.batchSize
    requires !m.outputSequence ==> outs' == b.outs
    requires m.outputSequence ==>
               forall r :: lo <= r < hi ==>
                 RowSlot(outs', stride, e.p.hiddenSize, e.batchSize, e.seqLength, s, r)
                   == if Finished(s, minLen, e.lens[r]) then Zeros(e.p.hiddenSize)
                      else RowSlot(b.outs, stride, e.p.hiddenSize, e.batchSize, e.seqLength, s, r)
    requires m.outputSequence ==>
               forall r :: lo <= r < hi && Finished(s, minLen, e.lens[r]) ==>
                 RowSlot(b.outs, stride, e.p.hiddenSize, e.batchSize, e.seqLength, s, r) == Zeros(e.p.hiddenSize)
    requires m.outputSequence ==>
               KeptOutside(b.outs, outs', SlotStart(stride, e.p.hiddenSize, s, lo), SlotStart(stride, e.p.hiddenSize, s, hi))
    ensures Shaped(e, m, stride, b.(outs := outs'))
    ensures forall r :: 0 <= r < e.batchSize ==> View(e, m, stride, b.(outs := outs'), r) == View(e, m, stride, b, r)
  {
    var h, n, S := e.p.hiddenSize, e.batchSize, e.seqLength;
    if m.outputSequence {
      forall r | 0 <= r < n
        ensures SlotRows(outs', stride, h, n, S, r) == SlotRows(b.outs, stride, h, n, S, r)
      {
        ChunkWrite(b.outs, outs', stride, h, n, S, s, lo, hi, r);
      }
    }
  }

  /** The rows of a chunk at step `s`, whose Ht-1 rows are the ones the step
      loop reads, are at step s + 1 after the four stages; the other rows stay
      where they were. */
  lemma ChunkAdvances(e: Run, m: Mode, stride: nat, b0: Buffers, b: Buffers, b1: Buffers, b2: Buffers,
                      b3: Buffers, b4: Buffers, prev: seq<real>, pStride: nat, pCount: nat, pStep: nat,
                      s: nat, lo: nat, hi: nat)
    requires e.Valid() && m.maxLen <= e.seqLength && s < m.maxLen && lo <= hi <= e.batchSize
    requires Shaped(e, m, stride, b0) && Shaped(e, m, stride, b) && Shaped(e, m, stride, b1)
    requires Shaped(e, m, stride, b2) && Shaped(e, m, stride, b3) && Shaped(e, m, stride, b4)
    requires RowsAt(e, m, stride, b, b0, lo, hi, s)
    requires Tiled(|prev|, pStride, e.p.hiddenSize, e.batchSize, pCount) && pStep < pCount
    requires PrevStates(e, prev, pStride, pCount, pStep, s, lo, hi)
    requires forall r :: 0 <= r < e.batchSize ==>
               View(e, m, stride, b1, r)
                 == if lo <= r < hi then AfterGemm(View(e, m, stride, b, r), s, e.rt, e.p.hiddenSize,
                                             RowSlot(prev, pStride, e.p.hiddenSize, e.batchSize, pCount, pStep, r))
                    else View(e, m, stride, b, r)
    requires forall r :: 0 <= r < e.batchSize ==>
               View(e, m, stride, b2, r)
                 == if lo <= r < hi then AfterGates(e.p, m.outputSequence, s < e.lens[r], View(e, m, stride, b1, r), s)
                    else View(e, m, stride, b1, r)
    requires forall r :: 0 <= r < e.batchSize ==>
               View(e, m, stride, b3, r)
                 == if lo <= r < hi then AfterCopy(View(e, m, stride, b2, r), s + 1 == e.lens[r])
                    else View(e, m, stride, b2, r)
    requires forall r :: 0 <= r < e.batchSize ==> View(e, m, stride, b4, r) == View(e, m, stride, b3, r)
    ensures RowsAt(e, m, stride, b4, b0, lo, hi, s + 1)
  {
    forall r | 0 <= r < e.batchSize
      ensures RowAt(e, m, r, StepsDone(m, lo, hi, s + 1, r), View(e, m, stride, b4, r), View(e, m, stride, b0, r))
    {
      if lo <= r < hi {
        RowAdvances(e, m, r, s, View(e, m, stride, b, r), View(e, m, stride, b0, r),
                    RowSlot(prev, pStride, e.p.hiddenSize, e.batchSize, pCount, pStep, r));
      }
    }
  }

  /** GateComputations on rows lo .. j-1 followed by GateComputations on row
      `j` is GateComputations on rows lo .. j. */
  lemma GatesJoined(e: Run, m: Mode, stride: nat, b0: Buffers, b1: Buffers, b2: Buffers, minLen: int,
                    s: nat, lo: nat, j: nat)
    requires e.Valid() && Shaped(e, m, stride, b0) && Shaped(e, m, stride, b1) && Shaped(e, m, stride, b2)
    requires s < e.seqLength && lo <= j < e.batchSize
    requires GatesWritten(e, m, stride, b0, b1, minLen, s, lo, j)
    requires GatesWritten(e, m, stride, b1, b2, minLen, s, j, j + 1)
    ensures GatesWritten(e, m, stride, b0, b2, minLen, s, lo, j + 1)
  {
    FrameJoined(e, m, stride, b0, b1, b2, s, lo, j);
    EarlierRowsJoined(e, m, stride, b0, b1, b2, minLen, s, lo, j);
    LastRowJoined(e, m, stride, b0, b1, b2, minLen, s, lo, j);
  }

  /** The frames of GateComputations on rows lo .. j-1 and on row `j` join. */
  lemma FrameJoined(e: Run, m: Mode, stride: nat, b0: Buffers, b1: Buffers, b2: Buffers, s: nat, lo: nat, j: nat)
    requires e.Valid() && Shaped(e, m, stride, b0) && SameShape(b0, b1) && SameShape(b1, b2)
    requires s < e.seqLength && lo <= j < e.batchSize
    requires GatesFrame(e, m, stride, b0, b1, s, lo, j) && GatesFrame(e, m, stride, b1, b2, s, j, j + 1)
    ensures SameShape(b0, b2) && GatesFrame(e, m, stride, b0, b2, s, lo, j + 1)
  {
    var h, n, S := e.p.hiddenSize, e.batchSize, e.seqLength;
    ChunkJoined(b0.ifog, b1.ifog, b2.ifog, n * (4 * h), 4 * h, n, S, s, lo, j, j + 1);
    ChunkJoined(b0.cell, b1.cell, b2.cell, n * h, h, n, 1, 0, lo, j, j + 1);
    if m.outputSequence {
      ChunkJoined(b0.outs, b1.outs, b2.outs, stride, h, n, S, s, lo, j, j + 1);
    } else {
      ChunkJoined(b0.finalH, b1.finalH, b2.finalH, n * h, h, n, 1, 0, lo, j, j + 1);
    }
  }

  /** Rows lo .. j-1 keep what GateComputations wrote when it then runs on row `j`. */
  lemma EarlierRowsJoined(e: Run, m: Mode, stride: nat, b0: Buffers, b1: Buffers, b2: Buffers, minLen: int,
                          s: nat, lo: nat, j: nat)
    requires e.Valid() && Shaped(e, m, stride, b0) && Shaped(e, m, stride, b1) && Shaped(e, m, stride, b2)
    requires SameShape(b1, b2) && s < e.seqLength && lo <= j < e.batchSize
    requires forall r :: lo <= r < j ==> RowGatesWritten(e, m, stride, b0, b1, minLen, s, r)
    requires GatesFrame(e, m, stride, b1, b2, s, j, j + 1)
    ensures forall r :: lo <= r < j ==> RowGatesWritten(e, m, stride, b0, b2, minLen, s, r)
  {
    var h, n, S := e.p.hiddenSize, e.batchSize, e.seqLength;
    forall r | lo <= r < j
      ensures RowGatesWritten(e, m, stride, b0, b2, minLen, s, r)
    {
      SlotKept(b1.ifog, b2.ifog, n * (4 * h), 4 * h, n, S, s, j, j + 1, r);
      RowsKept(b1.cell, b2.cell, h, n, j, j + 1, r);
      if m.outputSequence {
        SlotKept(b1.outs, b2.outs, stride, h, n, S, s, j, j + 1, r);
      } else {
        RowsKept(b1.finalH, b2.finalH, h, n, j, j + 1, r);
      }
      RowGatesKept(e, m, stride, b0, b1, b2, minLen, s, r);
    }
  }

  /** Row `j`, written by GateComputations after rows lo .. j-1, is written as
      if from the buffers before those rows. */
  lemma LastRowJoined(e: Run, m: Mode, stride: nat, b0: Buffers, b1: Buffers, b2: Buffers, minLen: int,
                      s: nat, lo: nat, j: nat)
    requires e.Valid() && Shaped(e, m, stride, b0) && Shaped(e, m, stride, b1) && Shaped(e, m, stride, b2)
    requires SameShape(b0, b1) && s < e.seqLength && lo <= j < e.batchSize
    requires GatesFrame(e, m, stride, b0, b1, s, lo, j)
    requires RowGatesWritten(e, m, stride, b1, b2, minLen, s, j)
    ensures RowGatesWritten(e, m, stride, b0, b2, minLen, s, j)
  {
    var h, n, S := e.p.hiddenSize, e.batchSize, e.seqLength;
    MulNonneg(n, 4 * h);
    SlotKept(b0.ifog, b1.ifog, n * (4 * h), 4 * h, n, S, s, lo, j, j);
    RowsKept(b0.cell, b1.cell, h, n, lo, j, j);
    if !m.outputSequence {
      RowsKept(b0.finalH, b1.finalH, h, n, lo, j, j);
    }
    RowGatesShifted(e, m, stride, b0, b1, b2, minLen, s, j);
  }

  /** A row written by GateComputations keeps what was written when later
      writes leave its slots alone. */
  lemma RowGatesKept(e: Run, m: Mode, stride: nat, b0: Buffers, b1: Buffers, b2: Buffers,
                     minLen: int, s: nat, r: nat)
    requires e.Valid() && Shaped(e, m, stride, b0) && Shaped(e, m, stride, b1) && Shaped(e, m, stride, b2)
    requires s < e.seqLength && r < e.batchSize
    requires var h, n, S := e.p.hiddenSize, e.batchSize, e.seqLength;
             && RowSlot(b2.ifog, n * (4 * h), 4 * h, n, S, s, r) == RowSlot(b1.ifog, n * (4 * h), 4 * h, n, S, s, r)
             && Row(b2.cell, h, n, r) == Row(b1.cell, h, n, r)
             && (m.outputSequence ==> RowSlot(b2.outs, stride, h, n, S, s, r) == RowSlot(b1.outs, stride, h, n, S, s, r))
             && (!m.outputSequence ==> Row(b2.finalH, h, n, r) == Row(b1.finalH, h, n, r))
    requires RowGatesWritten(e, m, stride, b0, b1, minLen, s, r)
    ensures RowGatesWritten(e, m, stride, b0, b2, minLen, s, r)
  {
  }

  /** A row written by GateComputations after earlier writes that left its
      slots alone is written as if from the start. */
  lemma RowGatesShifted(e: Run, m: Mode, stride: nat, b0: Buffers, b1: Buffers, b2: Buffers,
                        minLen: int, s: nat, r: nat)
    requires e.Valid() && Shaped(e, m, stride, b0) && Shaped(e, m, stride, b1) && Shaped(e, m, stride, b2)
    requires s < e.seqLength && r < e.batchSize
    requires var h, n, S := e.p.hiddenSize, e.batchSize, e.seqLength;
             && RowSlot(b1.ifog, n * (4 * h), 4 * h, n, S, s, r) == RowSlot(b0.ifog, n * (4 * h), 4 * h, n, S, s, r)
             && Row(b1.cell, h, n, r) == Row(b0.cell, h, n, r)
             && (!m.outputSequence ==> Row(b1.finalH, h, n, r) == Row(b0.finalH, h, n, r))
    requires RowGatesWritten(e, m, stride, b1, b2, minLen, s, r)
    ensures RowGatesWritten(e, m, stride, b0, b2, minLen, s, r)
  {
  }

  /** The rows the recurrent GEMM reads as Ht-1 for rows lo .. hi-1 at step
      `s`: the state each row still running has reached. */
  ghost predicate PrevStates(e: Run, prev: seq<real>, pStride: nat, pCount: nat, pStep: nat, s: nat, lo: nat, hi: nat)
    requires e.Valid() && Tiled(|prev|, pStride, e.p.hiddenSize, e.batchSize, pCount) && pStep < pCount
    requires s <= e.seqLength && hi <= e.batchSize
  {
    forall r :: lo <= r < hi && s < e.lens[r] ==>
      RowSlot(prev, pStride, e.p.hiddenSize, e.batchSize, pCount, pStep, r) == e.StateAt(r, s).hidden
  }

  /** Where the step loop finds Ht-1 for rows lo .. hi-1 at step `s`: the
      initial hidden state at step 0, then the previous step's output slots, or
      the final hidden rows when there is no output sequence. */
  lemma PreviousStates(e: Run, m: Mode, stride: nat, b: Buffers, b0: Buffers, lo: nat, hi: nat, s: nat)
    requires e.Valid() && m.maxLen <= e.seqLength && s < m.maxLen && lo <= hi <= e.batchSize
    requires Shaped(e, m, stride, b) && Shaped(e, m, stride, b0)
    requires RowsAt(e, m, stride, b, b0, lo, hi, s)
    ensures Tiled(|e.h0|, e.batchSize * e.p.hiddenSize, e.p.hiddenSize, e.batchSize, 1)
    ensures s == 0 ==> PrevStates(e, e.h0, e.batchSize * e.p.hiddenSize, 1, 0, s, lo, hi)
    ensures s > 0 && m.outputSequence ==> PrevStates(e, b.outs, stride, e.seqLength, s - 1, s, lo, hi)
    ensures s > 0 && !m.outputSequence ==> PrevStates(e, b.finalH, e.batchSize * e.p.hiddenSize, 1, 0, s, lo, hi)
  {
    forall r | lo <= r < hi && s < e.lens[r]
      ensures RowAt(e, m, r, s, View(e, m, stride, b, r), View(e, m, stride, b0, r))
    {
      assert StepsDone(m, lo, hi, s, r) == s;
    }
    forall r | lo <= r < hi && s < e.lens[r]
      ensures s == 0 ==> e.StateAt(r, s).hidden == Row(e.h0, e.p.hiddenSize, e.batchSize, r)
      ensures s > 0 && m.outputSequence ==> View(e, m, stride, b, r).outs[s - 1] == e.StateAt(r, s).hidden
      ensures s > 0 && !m.outputSequence ==> View(e, m, stride, b, r).finalH == e.StateAt(r, s).hidden
    {
      PreviousHidden(e, m, r, s, View(e, m, stride, b, r), View(e, m, stride, b0, r));
    }
  }

  /** Every final cell row of a row of length at least 1 is the row's cell
      state after its last step; the row of a row of length 0 is as in `before`. */
  ghost predicate CellsFinal(e: Run, finalC: seq<real>, before: seq<real>)
  {
    var h, n := e.p.hiddenSize, e.batchSize;
    && e.Valid() && Tiled(|finalC|, n * h, h, n, 1) && Tiled(|before|, n * h, h, n, 1)
    && forall r :: 0 <= r < n ==>
         Row(finalC, h, n, r) == if 1 <= e.lens[r] then e.StateAt(r, e.lens[r]).cell else Row(before, h, n, r)
  }

  /** The same for the final hidden rows and the hidden states. */
  ghost predicate HiddenFinal(e: Run, finalH: seq<real>, before: seq<real>)
  {
    var h, n := e.p.hiddenSize, e.batchSize;
    && e.Valid() && Tiled(|finalH|, n * h, h, n, 1) && Tiled(|before|, n * h, h, n, 1)
    && forall r :: 0 <= r < n ==>
         Row(finalH, h, n, r) == if 1 <= e.lens[r] then e.StateAt(r, e.lens[r]).hidden else Row(before, h, n, r)
  }

  /** Output slots `stride` apart: a slot of a step below `maxLen` holds the
      row's output at that step, a later slot is as in `before`. */
  ghost predicate OutputsBelow(e: Run, maxLen: nat, stride: nat, outs: seq<real>, before: seq<real>)
  {
    var h, n, S := e.p.hiddenSize, e.batchSize, e.seqLength;
    && e.Valid() && Tiled(|outs|, stride, h, n, S) && Tiled(|before|, stride, h, n, S)
    && forall t, r :: 0 <= t < S && 0 <= r < n ==>
         RowSlot(outs, stride, h, n, S, t, r)
           == if t < maxLen then e.OutputAt(r, t) else RowSlot(before, stride, h, n, S, t, r)
  }

  /** What the step loops leave in the output sequence and the final states,
      from their contents before the loops: the final cell rows always, the
      final hidden rows without an output sequence, the output slots with one. */
  ghost predicate LoopResults(e: Run, m: Mode, stride: nat, outs: seq<real>, finalH: seq<real>, finalC: seq<real>,
                              outs0: seq<real>, finalH0: seq<real>, finalC0: seq<real>)
  {
    && CellsFinal(e, finalC, finalC0)
    && (!m.outputSequence ==> HiddenFinal(e, finalH, finalH0))
    && (m.outputSequence ==> OutputsBelow(e, m.maxLen, stride, outs, outs0))
  }

  /** When every row has run all max_sequence_length steps: the final cell
      row of a row is its cell state after its last step; without an output
      sequence so is the final hidden row; with one, the slots of steps below
      max_sequence_length hold the row's outputs and later slots are
      untouched. A row of length 0 keeps its final rows. */
  lemma LoopDone(e: Run, m: Mode, stride: nat, b: Buffers, b0: Buffers)
    requires e.Valid() && m.maxLen <= e.seqLength
    requires forall r :: 0 <= r < e.batchSize ==> e.lens[r] <= m.maxLen
    requires Shaped(e, m, stride, b) && Shaped(e, m, stride, b0)
    requires Reached(e, m, stride, b, b0, e.batchSize, e.batchSize, 0)
    ensures LoopResults(e, m, stride, b.outs, b.finalH, b.finalC, b0.outs, b0.finalH, b0.finalC)
  {
    ReachedRows(e, m, stride, b, b0, e.batchSize, e.batchSize, 0);
    forall r | 0 <= r < e.batchSize
      ensures RowAt(e, m, r, m.maxLen, View(e, m, stride, b, r), View(e, m, stride, b0, r))
      ensures Steps(m.maxLen, e.lens[r]) == e.lens[r]
    {
      assert StepsDone(m, e.batchSize, e.batchSize, 0, r) == m.maxLen;
    }
  }

  /** GateComputations on a running row `r` at step `s` splices the activated
      gates into its pre-activation slot, the new cell values into its cell
      row and the hidden values into its output slot (or its final hidden row
      without an output sequence). */
  lemma RunningRowGates(e: Run, m: Mode, stride: nat, b: Buffers, b': Buffers, minLen: int, s: nat, r: nat)
    requires e.Valid() && Shaped(e, m, stride, b) && s < e.seqLength && r < e.batchSize
    requires !Finished(s, minLen, e.lens[r])
    requires var h, n := e.p.hiddenSize, e.batchSize;
             && (m.outputSequence ==> SlotStart(stride, h, s, r) + h <= |b.outs|)
             && SlotStart(n * h, h, 0, r) + h <= |b.finalH|
    requires var h, n, S := e.p.hiddenSize, e.batchSize, e.seqLength;
             var pre, cPrev := RowSlot(b.ifog, n * (4 * h), 4 * h, n, S, s, r), Row(b.cell, h, n, r);
             && b'.ifog == Splice(b.ifog, SlotStart(n * (4 * h), 4 * h, s, r), GatesAfter(e.p, pre, cPrev))
             && b'.cell == Splice(b.cell, SlotStart(n * h, h, 0, r), CellAfter(e.p, pre, cPrev))
             && b'.finalC == b.finalC
             && (m.outputSequence ==>
                   b'.outs == Splice(b.outs, SlotStart(stride, h, s, r), HiddenAfter(e.p, pre, cPrev)) && b'.finalH == b.finalH)
             && (!m.outputSequence ==>
                   b'.finalH == Splice(b.finalH, SlotStart(n * h, h, 0, r), HiddenAfter(e.p, pre, cPrev)) && b'.outs == b.outs)
    ensures Shaped(e, m, stride, b')
    ensures GatesWritten(e, m, stride, b, b', minLen, s, r, r + 1)
  {
    var h, n, S := e.p.hiddenSize, e.batchSize, e.seqLength;
    var pre, cPrev := RowSlot(b.ifog, n * (4 * h), 4 * h, n, S, s, r), Row(b.cell, h, n, r);
    SlotWritten(b.ifog, n * (4 * h), 4 * h, n, S, s, r, GatesAfter(e.p, pre, cPrev));
    SlotWritten(b.cell, n * h, h, n, 1, 0, r, CellAfter(e.p, pre, cPrev));
    if m.outputSequence {
      SlotWritten(b.outs, stride, h, n, S, s, r, HiddenAfter(e.p, pre, cPrev));
    } else {
      SlotWritten(b.finalH, n * h, h, n, 1, 0, r, HiddenAfter(e.p, pre, cPrev));
    }
  }

  /** GateComputations on a finished row `r` at step `s` zeroes its output
      slot (with an output sequence) and writes nothing else. */
  lemma FinishedRowGates(e: Run, m: Mode, stride: nat, b: Buffers, b': Buffers, minLen: int, s: nat, r: nat)
    requires e.Valid() && Shaped(e, m, stride, b) && s < e.seqLength && r < e.batchSize
    requires Finished(s, minLen, e.lens[r])
    requires m.outputSequence ==> SlotStart(stride, e.p.hiddenSize, s, r) + e.p.hiddenSize <= |b.outs|
    requires m.outputSequence ==>
               b' == b.(outs := Splice(b.outs, SlotStart(stride, e.p.hiddenSize, s, r), Zeros(e.p.hiddenSize)))
    requires !m.outputSequence ==> b' == b
    ensures Shaped(e, m, stride, b')
    ensures GatesWritten(e, m, stride, b, b', minLen, s, r, r + 1)
  {
    var h, n, S := e.p.hiddenSize, e.batchSize, e.seqLength;
    SlotInStep(|b.ifog|, n * (4 * h), 4 * h, n, S, s, r);
    MulAddDistrib(r, 1, 4 * h);
    MulAddDistrib(r, 1, h);
    if m.outputSequence {
      SlotWritten(b.outs, stride, h, n, S, s, r, Zeros(h));
    }
  }

  /** Before GateComputations has run on any row, nothing is written. */
  lemma NoGatesWritten(e: Run, m: Mode, stride: nat, b: Buffers, minLen: int, s: nat, lo: nat)
    requires e.Valid() && Shaped(e, m, stride, b) && s < e.seqLength && lo <= e.batchSize
    ensures GatesWritten(e, m, stride, b, b, minLen, s, lo, lo)
  {
  }

  /** The recurrent GEMM of step `s` on rows lo .. hi-1, stated on the buffers:
      only the pre-activations change, each row's slot of step `s` gains the
      product of its Ht-1 row with the recurrent weights, nothing else moves. */
  ghost predicate GemmDone(e: Run, m: Mode, stride: nat, b: Buffers, b': Buffers,
                           prev: seq<real>, pStride: nat, pCount: nat, pStep: nat, s: nat, lo: nat, hi: nat)
    requires e.Valid() && Shaped(e, m, stride, b)
    requires Tiled(|prev|, pStride, e.p.hiddenSize, e.batchSize, pCount) && pStep < pCount
    requires s < e.seqLength && lo <= hi <= e.batchSize
  {
    var h, n := e.p.hiddenSize, e.batchSize;
    && b' == b.(ifog := b'.ifog) && |b'.ifog| == |b.ifog|
    && StepRecurrent(b.ifog, b'.ifog, prev, pStride, pCount, pStep, e.rt, h, n, e.seqLength, s, lo, hi)
    && KeptOutside(b.ifog, b'.ifog, SlotStart(n * (4 * h), 4 * h, s, lo), SlotStart(n * (4 * h), 4 * h, s, hi))
  }

  /** The copy of the final cell rows at step `s`, stated on the buffers: a row
      of lo .. hi-1 whose last step is `s` gets its cell row as final cell row;
      nothing else changes. */
  ghost predicate CopyDone(e: Run, m: Mode, stride: nat, b: Buffers, b': Buffers, s: nat, lo: nat, hi: nat)
    requires e.Valid() && Shaped(e, m, stride, b) && lo <= hi <= e.batchSize
  {
    var h, n := e.p.hiddenSize, e.batchSize;
    && b' == b.(finalC := b'.finalC) && |b'.finalC| == |b.finalC|
    && (forall r :: lo <= r < hi ==>
          Row(b'.finalC, h, n, r) == if s + 1 == e.lens[r] then Row(b.cell, h, n, r) else Row(b.finalC, h, n, r))
    && KeptOutside(b.finalC, b'.finalC, SlotStart(n * h, h, 0, lo), SlotStart(n * h, h, 0, hi))
  }

  /** The zero fill at step `s`, stated on the buffers: with an output
      sequence, the output slot of each finished row of lo .. hi-1 is zero;
      nothing else changes. */
  ghost predicate ZeroDone(e: Run, m: Mode, stride: nat, b: Buffers, b': Buffers, minLen: int, s: nat, lo: nat, hi: nat)
    requires e.Valid() && Shaped(e, m, stride, b) && s < e.seqLength && lo <= hi <= e.batchSize
  {
    var h, n, S := e.p.hiddenSize, e.batchSize, e.seqLength;
    && b' == b.(outs := b'.outs) && |b'.outs| == |b.outs|
    && (!m.outputSequence ==> b'.outs == b.outs)
    && (m.outputSequence ==>
          && (forall r :: lo <= r < hi ==>
                RowSlot(b'.outs, stride, h, n, S, s, r)
                  == if Finished(s, minLen, e.lens[r]) then Zeros(h) else RowSlot(b.outs, stride, h, n, S, s, r))
          && KeptOutside(b.outs, b'.outs, SlotStart(stride, h, s, lo), SlotStart(stride, h, s, hi)))
  }

  /** One step of the loop, from its four stages on the buffers: when the Ht-1
      rows the GEMM read are the states the chunk's rows have reached, the
      rows of lo .. hi-1 move from step `s` to step s + 1, and the output
      sequence changes only in covered slots. */
  lemma StagesAdvance(e: Run, m: Mode, stride: nat, b0: Buffers, b: Buffers, b1: Buffers, b2: Buffers,
                     b3: Buffers, b4: Buffers, prev: seq<real>, pStride: nat, pCount: nat, pStep: nat,
                     minLen: int, s: nat, lo: nat, hi: nat)
    requires e.Valid() && e.batchSize > 0 && m.maxLen <= e.seqLength && s < m.maxLen && lo <= hi <= e.batchSize
    requires minLen == MinSequenceLength(e.seqLength, e.lens)
    requires Shaped(e, m, stride, b0) && Shaped(e, m, stride, b) && Shaped(e, m, stride, b1)
    requires Shaped(e, m, stride, b2) && Shaped(e, m, stride, b3) && Shaped(e, m, stride, b4)
    requires RowsAt(e, m, stride, b, b0, lo, hi, s)
    requires Tiled(|prev|, pStride, e.p.hiddenSize, e.batchSize, pCount) && pStep < pCount
    requires PrevStates(e, prev, pStride, pCount, pStep, s, lo, hi)
    requires GemmDone(e, m, stride, b, b1, prev, pStride, pCount, pStep, s, lo, hi)
    requires GatesWritten(e, m, stride, b1, b2, minLen, s, lo, hi)
    requires CopyDone(e, m, stride, b2, b3, s, lo, hi)
    requires ZeroDone(e, m, stride, b3, b4, minLen, s, lo, hi)
    ensures RowsAt(e, m, stride, b4, b0, lo, hi, s + 1)
    ensures m.outputSequence ==> CoveredKept(b.outs, b4.outs, stride, e.p.hiddenSize, e.batchSize, e.seqLength)
    ensures !m.outputSequence ==> b4.outs == b.outs
  {
    var h, n, S := e.p.hiddenSize, e.batchSize, e.seqLength;
    GemmViews(e, m, stride, b, b1.ifog, prev, pStride, pCount, pStep, s, lo, hi);
    GatesViews(e, m, stride, b1, b2, minLen, s, lo, hi);
    CopyViews(e, m, stride, b2, b3.finalC, s, lo, hi);
    if m.outputSequence {
      forall r | lo <= r < hi && Finished(s, minLen, e.lens[r])
        ensures RowSlot(b3.outs, stride, h, n, S, s, r) == Zeros(h)
      {
        assert RowGatesWritten(e, m, stride, b1, b2, minLen, s, r);
      }
      KeptTwice(b.outs, b2.outs, b4.outs, SlotStart(stride, h, s, lo), SlotStart(stride, h, s, hi));
      ChunkCovered(b.outs, b4.outs, stride, h, n, S, s, lo, hi);
    }
    ZeroViews(e, m, stride, b3, b4.outs, minLen, s, lo, hi);
    ChunkAdvances(e, m, stride, b0, b, b1, b2, b3, b4, prev, pStride, pCount, pStep, s, lo, hi);
  }

  /** At the start of step `s` in the carried form, the rows of lo .. hi-1
      are at step `s` and the Ht-1 source the step reads holds their states. */
  lemma StepStart(e: Run, m: Mode, stride: nat, b: Buffers, b0: Buffers, prev: seq<real>,
                  pStride: nat, pCount: nat, pStep: nat, lo: nat, hi: nat, s: nat)
    requires e.Valid() && m.maxLen <= e.seqLength && s < m.maxLen && lo <= hi <= e.batchSize
    requires Shaped(e, m, stride, b) && Shaped(e, m, stride, b0)
    requires Reached(e, m, stride, b, b0, lo, hi, s)
    requires prev == if s == 0 then e.h0 else if m.outputSequence then b.outs else b.finalH
    requires pStride == (if s > 0 && m.outputSequence then stride else e.batchSize * e.p.hiddenSize)
    requires pCount == (if s > 0 && m.outputSequence then e.seqLength else 1)
    requires pStep == (if s > 0 && m.outputSequence then s - 1 else 0)
    requires Tiled(|prev|, pStride, e.p.hiddenSize, e.batchSize, pCount) && pStep < pCount
    ensures RowsAt(e, m, stride, b, b0, lo, hi, s)
    ensures PrevStates(e, prev, pStride, pCount, pStep, s, lo, hi)
  {
    ReachedRows(e, m, stride, b, b0, lo, hi, s);
    PreviousStates(e, m, stride, b, b0, lo, hi, s);
  }

  /** One step of the loop in the form the loops carry: with Ht-1 read from
      the initial hidden state at step 0, then from the previous step's output
      slots, or from the final hidden rows without an output sequence, the rows
      of lo .. hi-1 move from step `s` to step s + 1. */
  lemma StepReached(e: Run, m: Mode, stride: nat, b0: Buffers, b: Buffers, b1: Buffers, b2: Buffers,
                    b3: Buffers, b4: Buffers, prev: seq<real>, pStride: nat, pCount: nat, pStep: nat,
                    minLen: int, s: nat, lo: nat, hi: nat)
    requires e.Valid() && e.batchSize > 0 && m.maxLen <= e.seqLength && s < m.maxLen && lo <= hi <= e.batchSize
    requires minLen == MinSequenceLength(e.seqLength, e.lens)
    requires Shaped(e, m, stride, b0) && Shaped(e, m, stride, b) && Shaped(e, m, stride, b1)
    requires Shaped(e, m, stride, b2) && Shaped(e, m, stride, b3) && Shaped(e, m, stride, b4)
    requires Reached(e, m, stride, b, b0, lo, hi, s)
    requires prev == if s == 0 then e.h0 else if m.outputSequence then b.outs else b.finalH
    requires pStride == (if s > 0 && m.outputSequence then stride else e.batchSize * e.p.hiddenSize)
    requires pCount == (if s > 0 && m.outputSequence then e.seqLength else 1)
    requires pStep == (if s > 0 && m.outputSequence then s - 1 else 0)
    requires Tiled(|prev|, pStride, e.p.hiddenSize, e.batchSize, pCount) && pStep < pCount
    requires GemmDone(e, m, stride, b, b1, prev, pStride, pCount, pStep, s, lo, hi)
    requires GatesWritten(e, m, stride, b1, b2, minLen, s, lo, hi)
    requires CopyDone(e, m, stride, b2, b3, s, lo, hi)
    requires ZeroDone(e, m, stride, b3, b4, minLen, s, lo, hi)
    ensures Reached(e, m, stride, b4, b0, lo, hi, s + 1)
    ensures m.outputSequence ==> CoveredKept(b.outs, b4.outs, stride, e.p.hiddenSize, e.batchSize, e.seqLength)
    ensures !m.outputSequence ==> b4.outs == b.outs
  {
    StepStart(e, m, stride, b, b0, prev, pStride, pCount, pStep, lo, hi, s);
    StagesAdvance(e, m, stride, b0, b, b1, b2, b3, b4, prev, pStride, pCount, pStep, minLen, s, lo, hi);
    RowsReached(e, m, stride, b4, b0, lo, hi, s + 1);
  }
}

