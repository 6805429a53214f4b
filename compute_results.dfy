/** What Compute leaves in the caller's buffers, stated over their contents:
    the inputs the step loop reads, the output sequence and the final hidden
    rows; and the lemmas that put these together from what the step loops,
    the copy of the last outputs, the zero fill past the longest row and the
    reversal of the outputs each leave. The final cell rows and, without an
    output sequence, the final hidden rows are as the step loops leave them
    (StepViews.CellsFinal and StepViews.HiddenFinal). */
module ComputeResults {
  import opened IndexArith
  import opened Slots
  import opened EngineGemms
  import opened GateMath
  import opened LstmEquations
  import opened SequenceLengths
  import opened EngineRun
  import opened StepViews
  import RS = ReverseSequence
  import opened Validation

  /** A buffer of `count` steps of `n` rows of `w` values, rows side by side. */
  lemma DenseTiled(len: nat, w: nat, n: nat, count: nat)
    requires len == count * (n * w)
    ensures Tiled(len, n * w, w, n, count)
  {
    if count > 0 {
      MulAddDistrib(count - 1, 1, n * w);
    }
  }

  /** Row `r` of step `t` of a buffer of `count` steps of `n` rows is its
      flat row t * n + r. */
  lemma FlatRowIsSlot(a: seq<real>, w: nat, n: nat, count: nat, t: nat, r: nat)
    requires Tiled(|a|, n * w, w, n, count) && t < count && r < n
    ensures (t * n + r) * w + w <= |a|
    ensures FlatRow(a, w, t * n + r) == RowSlot(a, n * w, w, n, count, t, r)
  {
    MulAssoc(t, n, w);
    MulAddDistrib(t * n, r, w);
    SlotInStep(|a|, n * w, w, n, count, t, r);
  }

  /** Flat row t * batchSize + r of the inputs is row `r`'s input at step `t`. */
  lemma FlatRowIsInput(xs: seq<real>, seqLength: nat, batchSize: nat, inputSize: nat, t: nat, r: nat)
    requires |xs| == seqLength * batchSize * inputSize && t < seqLength && r < batchSize
    ensures (t * batchSize + r) * inputSize + inputSize <= |xs|
    ensures FlatRow(xs, inputSize, t * batchSize + r) == StepInput(xs, seqLength, batchSize, inputSize, t, r)
  {
    CellBelow(t, r, batchSize, seqLength);
    MulMono(t * batchSize + r, seqLength * batchSize, inputSize);
  }

  /** Row `r`'s input at step `t` is its slot of step `t` of the inputs. */
  lemma StepInputIsSlot(xs: seq<real>, seqLength: nat, batchSize: nat, inputSize: nat, t: nat, r: nat)
    requires |xs| == seqLength * batchSize * inputSize && t < seqLength && r < batchSize
    ensures Tiled(|xs|, batchSize * inputSize, inputSize, batchSize, seqLength)
    ensures StepInput(xs, seqLength, batchSize, inputSize, t, r)
            == RowSlot(xs, batchSize * inputSize, inputSize, batchSize, seqLength, t, r)
  {
    MulAssoc(seqLength, batchSize, inputSize);
    DenseTiled(|xs|, inputSize, batchSize, seqLength);
    FlatRowIsInput(xs, seqLength, batchSize, inputSize, t, r);
    FlatRowIsSlot(xs, inputSize, batchSize, seqLength, t, r);
  }

  /** output_step_length of the step loop. Going forward the loop writes
      straight into the operator's output, so its steps lie one output step
      (num_directions * batch * hidden) apart; going in reverse it writes the
      dense outputs_reverse_ buffer, one batch of rows (batch * hidden) per
      step, which ReverseSequence then spreads at the output's step. */
  function OutputStepLength(reverse: bool, numDirections: nat, batchSize: nat, hiddenSize: nat): (stride: nat)
    requires numDirections == 1 || numDirections == 2
    ensures !reverse ==> stride == numDirections * batchSize * hiddenSize
    ensures reverse ==> stride == batchSize * hiddenSize
  {
    if !reverse && numDirections == 2 then 2 * batchSize * hiddenSize else batchSize * hiddenSize
  }

  /** Where the direction's values land in Y, of shape [seq_length,
      num_directions, batch_size, hidden_size], when the direction's view of Y
      starts at its direction slot (batch * hidden in for the reverse
      direction of two). Going forward the step loop's index of (t, r, k) at
      OutputStepLength is Y's (t, 0, r, k); going in reverse the index at
      which ReverseSequence writes (t, r, k), at stride
      num_directions * batch * hidden, is Y's (t, 1, r, k) with two
      directions and (t, 0, r, k) with one. */
  lemma DirectionSlots(d: Dims, reverse: bool, t: nat, r: nat, k: nat)
    requires d.numDirections == 1 || d.numDirections == 2
    requires r < d.batchSize && k < d.hiddenSize
    ensures var bh := d.batchSize * d.hiddenSize;
            var dir := if reverse && d.numDirections == 2 then 1 else 0;
            var stride := if reverse then d.numDirections * d.batchSize * d.hiddenSize
                          else OutputStepLength(false, d.numDirections, d.batchSize, d.hiddenSize);
            && dir * bh + (t * stride + r * d.hiddenSize + k) == YIndex(d, t, dir, r, k)
            && r * d.hiddenSize + k < bh
  {
    MulAssoc(d.numDirections, d.batchSize, d.hiddenSize);
    CellBelow(r, k, d.hiddenSize, d.batchSize);
    assert d.batchSize * d.hiddenSize == d.hiddenSize * d.batchSize;
  }

  /** The step of a row that position `t` of its sequence holds in the
      direction run: `t` itself going forward; going in reverse, the
      reversal of the row's first `len` steps. */
  function DirectionStep(reverse: bool, len: int, t: nat): (u: nat)
    ensures reverse && 0 <= len ==> (t < len <==> u < len)
    ensures !reverse || len <= t ==> u == t
  {
    if reverse then RS.ReversedStep(len, t) else t
  }

  /** The step loop of the reverse direction reads, as row `r`'s input at
      step `t`, the operator's input at the step the reversal maps to `t`. */
  ghost predicate InputsReversed(e: Run, inputs: seq<real>)
  {
    && e.Valid() && |inputs| == |e.xs|
    && forall t, r :: 0 <= t < e.seqLength && 0 <= r < e.batchSize ==>
         StepInput(e.xs, e.seqLength, e.batchSize, e.inputSize, t, r)
           == StepInput(inputs, e.seqLength, e.batchSize, e.inputSize, RS.ReversedStep(e.lens[r], t), r)
  }

  /** The output sequence, steps `stride` apart: slot `t` of row `r` holds
      the row's output at the step of its sequence position `t` holds, that
      is its hidden state there while the row lasts and zeros past its end. */
  ghost predicate OutputsOf(e: Run, reverse: bool, stride: nat, outputs: seq<real>)
  {
    var h, n, S := e.p.hiddenSize, e.batchSize, e.seqLength;
    && e.Valid() && Tiled(|outputs|, stride, h, n, S)
    && forall t, r :: 0 <= t < S && 0 <= r < n ==>
         RowSlot(outputs, stride, h, n, S, t, r) == e.OutputAt(r, DirectionStep(reverse, e.lens[r], t))
  }

  /** What the loops as written leave for step `u` of row `r`: the row's
      output below the longest row's length; past it, nothing is written, so
      the slot keeps what `before` held in it (slots `beforeStride` apart). */
  ghost function WrittenSlot(e: Run, u: nat, r: nat, before: seq<real>, beforeStride: nat): seq<real>
    requires e.Valid() && u < e.seqLength && r < e.batchSize
    requires Tiled(|before|, beforeStride, e.p.hiddenSize, e.batchSize, e.seqLength)
  {
    if u < MaxElement(e.lens) then e.OutputAt(r, u)
    else RowSlot(before, beforeStride, e.p.hiddenSize, e.batchSize, e.seqLength, u, r)
  }

  /** The output sequence as the loops as written leave it. */
  ghost predicate OutputsAsWritten(e: Run, reverse: bool, stride: nat, outputs: seq<real>,
                                   before: seq<real>, beforeStride: nat)
  {
    var h, n, S := e.p.hiddenSize, e.batchSize, e.seqLength;
    && e.Valid() && Tiled(|outputs|, stride, h, n, S) && Tiled(|before|, beforeStride, h, n, S)
    && forall t, r :: 0 <= t < S && 0 <= r < n ==>
         RowSlot(outputs, stride, h, n, S, t, r)
           == WrittenSlot(e, DirectionStep(reverse, e.lens[r], t), r, before, beforeStride)
  }

  /** The final hidden rows of the first `k` rows are copied from their
      output slots of step lens[r] - 1. */
  ghost predicate CopiedUpTo(outs: seq<real>, stride: nat, finalH: seq<real>, lens: seq<int>,
                             h: nat, n: nat, seqLength: nat, k: nat)
  {
    && Tiled(|outs|, stride, h, n, seqLength) && Tiled(|finalH|, n * h, h, n, 1)
    && |lens| == n && k <= n && (forall r :: 0 <= r < n ==> 1 <= lens[r] <= seqLength)
    && forall r :: 0 <= r < k ==> Row(finalH, h, n, r) == RowSlot(outs, stride, h, n, seqLength, lens[r] - 1, r)
  }

  /** After the copy of the last outputs: each row's final hidden row is its
      output slot of step lens[r] - 1. */
  ghost predicate LastOutputsCopied(outs: seq<real>, stride: nat, finalH: seq<real>, lens: seq<int>,
                                    h: nat, n: nat, seqLength: nat)
  {
    CopiedUpTo(outs, stride, finalH, lens, h, n, seqLength, n)
  }

  /** Copying row `k`'s last output slot over its final hidden row extends
      the copied rows by one and leaves the others alone. */
  lemma CopiedOneMore(outs: seq<real>, stride: nat, finalH: seq<real>, lens: seq<int>,
                      h: nat, n: nat, seqLength: nat, k: nat)
    requires CopiedUpTo(outs, stride, finalH, lens, h, n, seqLength, k) && k < n
    ensures SlotStart(stride, h, lens[k] - 1, k) + h <= |outs|
    ensures SlotStart(n * h, h, 0, k) + h <= |finalH|
    ensures CopiedUpTo(outs, stride,
                       Splice(finalH, SlotStart(n * h, h, 0, k), Slot(outs, SlotStart(stride, h, lens[k] - 1, k), h)),
                       lens, h, n, seqLength, k + 1)
  {
    var v := RowSlot(outs, stride, h, n, seqLength, lens[k] - 1, k);
    SlotInStep(|finalH|, n * h, h, n, 1, 0, k);
    var f := Splice(finalH, SlotStart(n * h, h, 0, k), v);
    forall r | 0 <= r < k + 1
      ensures Row(f, h, n, r) == RowSlot(outs, stride, h, n, seqLength, lens[r] - 1, r)
    {
      RowSplice(finalH, h, n, k, v, r);
      if r < k {
        assert Row(finalH, h, n, r) == RowSlot(outs, stride, h, n, seqLength, lens[r] - 1, r);
      }
    }
  }

  /** After the zero fill from step `from` on: later slots are zeros, earlier
      ones as they were. */
  ghost predicate ZeroedFrom(before: seq<real>, after: seq<real>, stride: nat, h: nat, n: nat, seqLength: nat, from: nat)
  {
    && Tiled(|before|, stride, h, n, seqLength) && Tiled(|after|, stride, h, n, seqLength)
    && forall t, r :: 0 <= t < seqLength && 0 <= r < n ==>
         RowSlot(after, stride, h, n, seqLength, t, r)
           == if t < from then RowSlot(before, stride, h, n, seqLength, t, r) else Zeros(h)
  }

  /** Every row's last output lies below the longest row's length, where the
      step loops wrote it, so the final hidden rows copied from there are the
      rows' hidden states after their last steps. */
  lemma LastHidden(e: Run, stride: nat, outs: seq<real>, outs0: seq<real>, finalH: seq<real>, finalH0: seq<real>)
    requires e.Valid() && e.batchSize > 0
    requires OutputsBelow(e, MaxElement(e.lens), stride, outs, outs0)
    requires LastOutputsCopied(outs, stride, finalH, e.lens, e.p.hiddenSize, e.batchSize, e.seqLength)
    requires |finalH0| == |finalH|
    ensures HiddenFinal(e, finalH, finalH0)
  {
    var h, n, S := e.p.hiddenSize, e.batchSize, e.seqLength;
    forall r | 0 <= r < n
      ensures Row(finalH, h, n, r) == e.StateAt(r, e.lens[r]).hidden
    {
      assert RowSlot(outs, stride, h, n, S, e.lens[r] - 1, r) == e.OutputAt(r, e.lens[r] - 1);
    }
  }

  /** Zeroing the slots from the longest row's length on completes the output
      sequence: those steps are past every row's end. */
  lemma TailZeroed(e: Run, stride: nat, outs0: seq<real>, outs1: seq<real>, outs2: seq<real>)
    requires e.Valid() && e.batchSize > 0
    requires OutputsBelow(e, MaxElement(e.lens), stride, outs1, outs0)
    requires ZeroedFrom(outs1, outs2, stride, e.p.hiddenSize, e.batchSize, e.seqLength, MaxElement(e.lens))
    ensures OutputsOf(e, false, stride, outs2)
  {
  }

  /** Reversing a complete output sequence of the reverse direction into the
      operator's output gives every slot the output of its reversed step. */
  lemma OutputsReversed(e: Run, stride: nat, outs: seq<real>, outputs: seq<real>)
    requires OutputsOf(e, false, e.batchSize * e.p.hiddenSize, outs)
    requires RS.ReversedInto(outs, outputs, e.lens, e.seqLength, e.batchSize, e.p.hiddenSize, stride)
    ensures OutputsOf(e, true, stride, outputs)
  {
  }

  /** Without the zero fill, the forward output sequence is what the step
      loops leave. */
  lemma BelowAsWritten(e: Run, stride: nat, outs: seq<real>, outs0: seq<real>)
    requires e.Valid() && e.batchSize > 0
    requires OutputsBelow(e, MaxElement(e.lens), stride, outs, outs0)
    ensures OutputsAsWritten(e, false, stride, outs, outs0, stride)
  {
  }

  /** Without the zero fill, the reverse output sequence is the reversal of
      what the step loops leave in the reversed-output buffer. */
  lemma ReversedAsWritten(e: Run, stride: nat, outs: seq<real>, outs0: seq<real>, outputs: seq<real>)
    requires e.Valid() && e.batchSize > 0
    requires OutputsBelow(e, MaxElement(e.lens), e.batchSize * e.p.hiddenSize, outs, outs0)
    requires RS.ReversedInto(outs, outputs, e.lens, e.seqLength, e.batchSize, e.p.hiddenSize, stride)
    ensures OutputsAsWritten(e, true, stride, outputs, outs0, e.batchSize * e.p.hiddenSize)
  {
  }

  /** Reversing the operator's inputs into the buffer the step loop reads
      makes the step loop read them reversed. */
  lemma InputsReversedFrom(e: Run, inputs: seq<real>)
    requires e.Valid() && |inputs| == |e.xs|
    requires RS.ReversedInto(inputs, e.xs, e.lens, e.seqLength, e.batchSize, e.inputSize,
                             e.batchSize * e.inputSize)
    ensures InputsReversed(e, inputs)
  {
    var S, n, I := e.seqLength, e.batchSize, e.inputSize;
    forall t, r | 0 <= t < S && 0 <= r < n
      ensures StepInput(e.xs, S, n, I, t, r) == StepInput(inputs, S, n, I, RS.ReversedStep(e.lens[r], t), r)
    {
      RS.ReversedStepInvolution(e.lens[r], S, t);
      StepInputIsSlot(e.xs, S, n, I, t, r);
      StepInputIsSlot(inputs, S, n, I, RS.ReversedStep(e.lens[r], t), r);
    }
  }

  /** A slot the loops as written leave is the intended output exactly when
      its step is below the longest row's length or the slot held zeros
      already: past every row's end the intended output is zeros. */
  lemma WrittenSlotIsOutput(e: Run, u: nat, r: nat, before: seq<real>, beforeStride: nat)
    requires e.Valid() && u < e.seqLength && r < e.batchSize
    requires Tiled(|before|, beforeStride, e.p.hiddenSize, e.batchSize, e.seqLength)
    ensures WrittenSlot(e, u, r, before, beforeStride) == e.OutputAt(r, u)
            <==> u < MaxElement(e.lens)
                 || RowSlot(before, beforeStride, e.p.hiddenSize, e.batchSize, e.seqLength, u, r)
                    == Zeros(e.p.hiddenSize)
  {
  }

  /** The output slots the loops as written leave are the intended ones when
      the slots past the longest row's length held zeros before the call. */
  lemma AsWrittenOnZeros(e: Run, reverse: bool, stride: nat, outputs: seq<real>, before: seq<real>, beforeStride: nat)
    requires e.Valid() && e.batchSize > 0
    requires OutputsAsWritten(e, reverse, stride, outputs, before, beforeStride)
    requires forall u, r :: MaxElement(e.lens) <= u < e.seqLength && 0 <= r < e.batchSize ==>
               RowSlot(before, beforeStride, e.p.hiddenSize, e.batchSize, e.seqLength, u, r) == Zeros(e.p.hiddenSize)
    ensures OutputsOf(e, reverse, stride, outputs)
  {
    var h, n, S := e.p.hiddenSize, e.batchSize, e.seqLength;
    forall t, r | 0 <= t < S && 0 <= r < n
      ensures RowSlot(outputs, stride, h, n, S, t, r) == e.OutputAt(r, DirectionStep(reverse, e.lens[r], t))
    {
      var u := DirectionStep(reverse, e.lens[r], t);
      WrittenSlotIsOutput(e, u, r, before, beforeStride);
    }
  }

  /** Runs that show the slots past the longest row: seq_length 2, one row
      of length 1, hidden size 1, whatever the weights, parameters, inputs
      and initial states. The row's output slot at step 1 is past its end, so
      the intended output there is zero, while the loops as written leave
      what the buffer `before` held there, which differs when that is not
      zero. */
  lemma StaleTailSlot(p: GateParams, wt: seq<real>, rt: seq<real>, xs: seq<real>, h0: seq<real>, c0: seq<real>,
                      before: seq<real>)
    requires p.Valid() && p.hiddenSize == 1
    requires |wt| == 4 && |rt| == 4 && |xs| == 2 && |h0| == 1 && |c0| == 1 && |before| == 2
    ensures Run(p, wt, rt, 1, 2, 1, xs, h0, c0, [1]).Valid() && Tiled(|before|, 1, 1, 1, 2)
    ensures WrittenSlot(Run(p, wt, rt, 1, 2, 1, xs, h0, c0, [1]), 1, 0, before, 1) == [before[1]]
    ensures Run(p, wt, rt, 1, 2, 1, xs, h0, c0, [1]).OutputAt(0, 1) == [0.0]
    ensures before[1] != 0.0 ==>
              WrittenSlot(Run(p, wt, rt, 1, 2, 1, xs, h0, c0, [1]), 1, 0, before, 1)
                != Run(p, wt, rt, 1, 2, 1, xs, h0, c0, [1]).OutputAt(0, 1)
  {
    var e := Run(p, wt, rt, 1, 2, 1, xs, h0, c0, [1]);
    StaleSlotKept(e, before);
    PastEndZero(e);
  }

  /** In such a run the longest row has length 1, so step 1's slot keeps
      what `before` held. */
  lemma StaleSlotKept(e: Run, before: seq<real>)
    requires e.Valid() && e.p.hiddenSize == 1 && e.seqLength == 2 && e.batchSize == 1 && e.lens == [1]
    requires |before| == 2
    ensures Tiled(|before|, 1, 1, 1, 2) && WrittenSlot(e, 1, 0, before, 1) == [before[1]]
  {
    assert MaxElement(e.lens) == 1;
    assert RowSlot(before, 1, 1, 1, 2, 1, 0) == [before[1]];
  }

  /** In such a run step 1 is past the row's end, so its output is zero. */
  lemma PastEndZero(e: Run)
    requires e.Valid() && e.p.hiddenSize == 1 && e.seqLength == 2 && e.batchSize == 1 && e.lens == [1]
    ensures e.OutputAt(0, 1) == [0.0]
  {
    assert Zeros(1) == [0.0];
  }
}
