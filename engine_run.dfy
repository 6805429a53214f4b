/** What one Compute call of the engine produces, row by row, stated on values:
    the engine's own recurrence (EngineRow), its agreement with the operator's
    equations (EngineRowMatches), and the per-row state the step loop keeps
    (RowAt) together with the facts that advance it by one step. */
module EngineRun {
  import opened IndexArith
  import opened MatMul
  import opened GateMath
  import opened LstmEquations
  import opened WeightLayout
  import opened Slots
  import opened SequenceLengths

  /** Xt times W-transposed for one row: the row the input GEMM stores. */
  function Projected(wt: seq<real>, hiddenSize: nat, inputSize: nat, x: seq<real>): (pre: seq<real>)
    requires |wt| == 4 * hiddenSize * inputSize && |x| == inputSize
    ensures |pre| == 4 * hiddenSize
  {
    seq(4 * hiddenSize, col requires 0 <= col < 4 * hiddenSize =>
      Dot(x, TransposedColumn(wt, hiddenSize, inputSize, col)))
  }

  /** A pre-activation row after the recurrent GEMM added Ht-1 times R-transposed. */
  function WithRecurrence(pre: seq<real>, rt: seq<real>, hiddenSize: nat, hPrev: seq<real>): (pre': seq<real>)
    requires |pre| == 4 * hiddenSize && |rt| == 4 * hiddenSize * hiddenSize && |hPrev| == hiddenSize
    ensures |pre'| == 4 * hiddenSize
  {
    seq(4 * hiddenSize, col requires 0 <= col < 4 * hiddenSize =>
      pre[col] + Dot(hPrev, TransposedColumn(rt, hiddenSize, hiddenSize, col)))
  }

  /** The input GEMM followed by the accumulating recurrent GEMM leaves exactly
      the pre-activations of the equations' affine terms. */
  lemma TwoGemms(wt: seq<real>, rt: seq<real>, hiddenSize: nat, inputSize: nat, x: seq<real>, hPrev: seq<real>)
    requires |wt| == 4 * hiddenSize * inputSize && |rt| == 4 * hiddenSize * hiddenSize
    requires |x| == inputSize && |hPrev| == hiddenSize
    ensures WithRecurrence(Projected(wt, hiddenSize, inputSize, x), rt, hiddenSize, hPrev)
            == EnginePre(wt, rt, hiddenSize, inputSize, x, hPrev)
  {
  }

  /** One engine step of one row: GateComputations on the pre-activations the
      two GEMMs leave for input `x` and the previous state `s`. */
  function EngineStep(p: GateParams, wt: seq<real>, rt: seq<real>, inputSize: nat, x: seq<real>, s: State): (s': State)
    requires p.Valid() && |wt| == 4 * p.hiddenSize * inputSize && |rt| == 4 * p.hiddenSize * p.hiddenSize
    requires |x| == inputSize && |s.hidden| == p.hiddenSize && |s.cell| == p.hiddenSize
    ensures |s'.hidden| == p.hiddenSize && |s'.cell| == p.hiddenSize
  {
    var pre := EnginePre(wt, rt, p.hiddenSize, inputSize, x, s.hidden);
    State(HiddenAfter(p, pre, s.cell), CellAfter(p, pre, s.cell))
  }

  /** With the weights rearranged as the loader leaves them and the engine's
      parameters built from the operator's tensors, an engine step is a step of
      the LSTM equations. */
  lemma EngineStepIsEquation(ws: Weights, cfg: Config, wt: seq<real>, rt: seq<real>, x: seq<real>, s: State)
    requires ws.Valid() && |x| == ws.inputSize && |s.hidden| == ws.hiddenSize && |s.cell| == ws.hiddenSize
    requires |wt| == |ws.w| && |rt| == |ws.r|
    requires Rearranged(wt, ws.w, ws.hiddenSize, ws.inputSize) && Rearranged(rt, ws.r, ws.hiddenSize, ws.hiddenSize)
    ensures EngineStep(EngineParams(ws, cfg), wt, rt, ws.inputSize, x, s) == EquationStep(ws, cfg, x, s)
  {
    EngineStepMatches(ws, cfg, wt, rt, x, s);
  }

  /** State of batch row `r` after `t` engine steps from (h0, c0). */
  function EngineRow(p: GateParams, wt: seq<real>, rt: seq<real>, inputSize: nat, xs: seq<real>,
                     seqLength: nat, batchSize: nat, r: nat, h0: seq<real>, c0: seq<real>, t: nat): (s: State)
    requires p.Valid() && |wt| == 4 * p.hiddenSize * inputSize && |rt| == 4 * p.hiddenSize * p.hiddenSize
    requires |xs| == seqLength * batchSize * inputSize && r < batchSize && t <= seqLength
    requires |h0| == p.hiddenSize && |c0| == p.hiddenSize
    ensures |s.hidden| == p.hiddenSize && |s.cell| == p.hiddenSize
  {
    if t == 0 then State(h0, c0)
    else
      EngineStep(p, wt, rt, inputSize, StepInput(xs, seqLength, batchSize, inputSize, t - 1, r),
                 EngineRow(p, wt, rt, inputSize, xs, seqLength, batchSize, r, h0, c0, t - 1))
  }

  lemma EngineRowUnfold(p: GateParams, wt: seq<real>, rt: seq<real>, inputSize: nat, xs: seq<real>,
                        seqLength: nat, batchSize: nat, r: nat, h0: seq<real>, c0: seq<real>, t: nat)
    requires p.Valid() && |wt| == 4 * p.hiddenSize * inputSize && |rt| == 4 * p.hiddenSize * p.hiddenSize
    requires |xs| == seqLength * batchSize * inputSize && r < batchSize && 0 < t <= seqLength
    requires |h0| == p.hiddenSize && |c0| == p.hiddenSize
    ensures EngineRow(p, wt, rt, inputSize, xs, seqLength, batchSize, r, h0, c0, t)
            == EngineStep(p, wt, rt, inputSize, StepInput(xs, seqLength, batchSize, inputSize, t - 1, r),
                          EngineRow(p, wt, rt, inputSize, xs, seqLength, batchSize, r, h0, c0, t - 1))
  {
  }

  /** One step of the induction in EngineRowMatches. */
  lemma RowStepMatches(ws: Weights, cfg: Config, wt: seq<real>, rt: seq<real>, xs: seq<real>,
                       seqLength: nat, batchSize: nat, r: nat, h0: seq<real>, c0: seq<real>, i: nat)
    requires ws.Valid() && |wt| == |ws.w| && |rt| == |ws.r|
    requires Rearranged(wt, ws.w, ws.hiddenSize, ws.inputSize) && Rearranged(rt, ws.r, ws.hiddenSize, ws.hiddenSize)
    requires |xs| == seqLength * batchSize * ws.inputSize && r < batchSize && i < seqLength
    requires |h0| == ws.hiddenSize && |c0| == ws.hiddenSize
    requires EngineRow(EngineParams(ws, cfg), wt, rt, ws.inputSize, xs, seqLength, batchSize, r, h0, c0, i)
             == RowState(ws, cfg, xs, seqLength, batchSize, r, h0, c0, i)
    ensures EngineRow(EngineParams(ws, cfg), wt, rt, ws.inputSize, xs, seqLength, batchSize, r, h0, c0, i + 1)
            == RowState(ws, cfg, xs, seqLength, batchSize, r, h0, c0, i + 1)
  {
    var x := StepInput(xs, seqLength, batchSize, ws.inputSize, i, r);
    EngineStepIsEquation(ws, cfg, wt, rt, x, RowState(ws, cfg, xs, seqLength, batchSize, r, h0, c0, i));
    EngineRowUnfold(EngineParams(ws, cfg), wt, rt, ws.inputSize, xs, seqLength, batchSize, r, h0, c0, i + 1);
  }

  /** With the weights rearranged as the loader leaves them and the engine's
      parameters built from the operator's tensors, the engine's row states are
      the states of the LSTM equations. */
  lemma EngineRowMatches(ws: Weights, cfg: Config, wt: seq<real>, rt: seq<real>, xs: seq<real>,
                          seqLength: nat, batchSize: nat, r: nat, h0: seq<real>, c0: seq<real>, t: nat)
    requires ws.Valid() && |wt| == |ws.w| && |rt| == |ws.r|
    requires Rearranged(wt, ws.w, ws.hiddenSize, ws.inputSize) && Rearranged(rt, ws.r, ws.hiddenSize, ws.hiddenSize)
    requires |xs| == seqLength * batchSize * ws.inputSize && r < batchSize && t <= seqLength
    requires |h0| == ws.hiddenSize && |c0| == ws.hiddenSize
    ensures EngineRow(EngineParams(ws, cfg), wt, rt, ws.inputSize, xs, seqLength, batchSize, r, h0, c0, t)
            == RowState(ws, cfg, xs, seqLength, batchSize, r, h0, c0, t)
  {
    var p := EngineParams(ws, cfg);
    var i := 0;
    while i < t
      invariant i <= t
      invariant EngineRow(p, wt, rt, ws.inputSize, xs, seqLength, batchSize, r, h0, c0, i)
                == RowState(ws, cfg, xs, seqLength, batchSize, r, h0, c0, i)
    {
      RowStepMatches(ws, cfg, wt, rt, xs, seqLength, batchSize, r, h0, c0, i);
      i := i + 1;
    }
  }

  /** Everything one Compute call runs on: the gate parameters, the rearranged
      weights, the inputs the step loop reads (reversed for the reverse
      direction), the initial states and the row lengths. */
  datatype Run = Run(p: GateParams, wt: seq<real>, rt: seq<real>, inputSize: nat, seqLength: nat,
                     batchSize: nat, xs: seq<real>, h0: seq<real>, c0: seq<real>, lens: seq<int>)
  {
    predicate Valid()
    {
      && p.Valid()
      && |wt| == 4 * p.hiddenSize * inputSize && |rt| == 4 * p.hiddenSize * p.hiddenSize
      && |xs| == seqLength * batchSize * inputSize
      && |h0| == batchSize * p.hiddenSize && |c0| == batchSize * p.hiddenSize
      && |lens| == batchSize && LengthsInRange(lens, seqLength)
    }

    /** Row `r`'s state after `t` steps, from its rows of h0 and c0. */
    function StateAt(r: nat, t: nat): (s: State)
      requires Valid() && r < batchSize && t <= seqLength
      ensures |s.hidden| == p.hiddenSize && |s.cell| == p.hiddenSize
    {
      EngineRow(p, wt, rt, inputSize, xs, seqLength, batchSize, r,
                Row(h0, p.hiddenSize, batchSize, r), Row(c0, p.hiddenSize, batchSize, r), t)
    }

    /** The output slot of row `r` at step `t`: the hidden state while the row
        is running, zeros once it has finished. */
    function OutputAt(r: nat, t: nat): (y: seq<real>)
      requires Valid() && r < batchSize && t < seqLength
      ensures |y| == p.hiddenSize
      ensures t < lens[r] ==> y == StateAt(r, t + 1).hidden
      ensures t >= lens[r] ==> y == Zeros(p.hiddenSize)
    {
      if t < lens[r] then StateAt(r, t + 1).hidden else Zeros(p.hiddenSize)
    }
  }

  /** Whether the step loop writes an output sequence, and how many steps it runs. */
  datatype Mode = Mode(outputSequence: bool, maxLen: nat)

  /** What the step loop has left for one batch row: its cell row, its output
      slots, its rows of the final hidden and cell states, and its
      pre-activation rows. */
  datatype RowView = RowView(cell: seq<real>, outs: seq<seq<real>>, finalH: seq<real>, finalC: seq<real>,
                             ifog: seq<seq<real>>)

  function Steps(s: nat, len: int): nat
  {
    if s <= len then s else if len < 0 then 0 else len
  }

  /** Row `r` after `s` steps of the loop, starting from view `v0`: the cell
      row holds the state of the row's own last step; output slots of steps
      before `s` hold the hidden state (zeros once finished) and later ones are
      untouched; the final cell row was copied at the row's last step; without
      an output sequence the final hidden row is the hidden state itself; and
      pre-activation rows of steps still to come hold Xt times W-transposed. */
  ghost predicate RowAt(e: Run, m: Mode, r: nat, s: nat, v: RowView, v0: RowView)
    requires e.Valid() && r < e.batchSize && m.maxLen <= e.seqLength && s <= m.maxLen
  {
    var len := e.lens[r];
    var n := Steps(s, len);
    && v.cell == e.StateAt(r, n).cell
    && (m.outputSequence ==>
          && |v.outs| == e.seqLength && |v0.outs| == e.seqLength
          && forall t :: 0 <= t < e.seqLength ==> v.outs[t] == if t < s then e.OutputAt(r, t) else v0.outs[t])
    && v.finalH == (if m.outputSequence || n == 0 then v0.finalH else e.StateAt(r, n).hidden)
    && v.finalC == (if 1 <= len <= s then e.StateAt(r, len).cell else v0.finalC)
    && |v.ifog| == e.seqLength
    && forall t :: s <= t < m.maxLen ==>
         v.ifog[t] == Projected(e.wt, e.p.hiddenSize, e.inputSize, StepInput(e.xs, e.seqLength, e.batchSize, e.inputSize, t, r))
  }

  /** Before the first step every row is at its initial state. */
  lemma RowAtStart(e: Run, m: Mode, r: nat, v: RowView)
    requires e.Valid() && r < e.batchSize && m.maxLen <= e.seqLength
    requires v.cell == Row(e.c0, e.p.hiddenSize, e.batchSize, r)
    requires m.outputSequence ==> |v.outs| == e.seqLength
    requires |v.ifog| == e.seqLength
    requires forall t :: 0 <= t < m.maxLen ==>
               v.ifog[t] == Projected(e.wt, e.p.hiddenSize, e.inputSize, StepInput(e.xs, e.seqLength, e.batchSize, e.inputSize, t, r))
    ensures RowAt(e, m, r, 0, v, v)
  {
  }

  /** Where the step loop finds Ht-1 for a row still running at step `s`: the
      initial hidden row at step 0, then the previous step's output slot, or the
      final hidden row when there is no output sequence. */
  lemma PreviousHidden(e: Run, m: Mode, r: nat, s: nat, v: RowView, v0: RowView)
    requires e.Valid() && r < e.batchSize && m.maxLen <= e.seqLength && s <= m.maxLen
    requires RowAt(e, m, r, s, v, v0) && s < e.lens[r]
    ensures s == 0 ==> e.StateAt(r, s).hidden == Row(e.h0, e.p.hiddenSize, e.batchSize, r)
    ensures s > 0 && m.outputSequence ==> v.outs[s - 1] == e.StateAt(r, s).hidden
    ensures s > 0 && !m.outputSequence ==> v.finalH == e.StateAt(r, s).hidden
  {
  }

  /** Row `r`'s state after step `s`, from its state before it. */
  lemma StateAtStep(e: Run, r: nat, s: nat)
    requires e.Valid() && r < e.batchSize && s < e.seqLength
    ensures e.StateAt(r, s + 1)
            == EngineStep(e.p, e.wt, e.rt, e.inputSize, StepInput(e.xs, e.seqLength, e.batchSize, e.inputSize, s, r), e.StateAt(r, s))
  {
    EngineRowUnfold(e.p, e.wt, e.rt, e.inputSize, e.xs, e.seqLength, e.batchSize, r,
                    Row(e.h0, e.p.hiddenSize, e.batchSize, r), Row(e.c0, e.p.hiddenSize, e.batchSize, r), s + 1);
  }

  /** The output slots after one step: the slot of step `s` gets the row's
      output, the others keep theirs. */
  lemma StepOutputs(e: Run, m: Mode, r: nat, s: nat, outs: seq<seq<real>>, outs0: seq<seq<real>>, y: seq<real>)
    requires e.Valid() && r < e.batchSize && m.maxLen <= e.seqLength && s < m.maxLen
    requires |outs| == e.seqLength && |outs0| == e.seqLength
    requires forall t :: 0 <= t < e.seqLength ==> outs[t] == if t < s then e.OutputAt(r, t) else outs0[t]
    requires y == e.OutputAt(r, s)
    ensures forall t :: 0 <= t < e.seqLength ==> outs[s := y][t] == if t < s + 1 then e.OutputAt(r, t) else outs0[t]
  {
  }

  /** One step of the loop for one row: the recurrent GEMM adds Ht-1 into the
      step's pre-activation row, GateComputations runs the row if it has not
      finished (or zeroes its output slot if it has), the final cell row is
      copied at the row's last step, and nothing else of the row changes. The
      row is then at step s + 1. */
  lemma StepAdvances(e: Run, m: Mode, r: nat, s: nat, v: RowView, v0: RowView, hPrev: seq<real>, v': RowView)
    requires e.Valid() && r < e.batchSize && m.maxLen <= e.seqLength && s < m.maxLen
    requires RowAt(e, m, r, s, v, v0)
    requires |hPrev| == e.p.hiddenSize
    requires s < e.lens[r] ==> hPrev == e.StateAt(r, s).hidden
    requires var pre := WithRecurrence(v.ifog[s], e.rt, e.p.hiddenSize, hPrev);
             var running := s < e.lens[r];
             && v'.cell == (if running then CellAfter(e.p, pre, v.cell) else v.cell)
             && (m.outputSequence ==>
                   v'.outs == v.outs[s := if running then HiddenAfter(e.p, pre, v.cell) else Zeros(e.p.hiddenSize)])
             && v'.finalH == (if !m.outputSequence && running then HiddenAfter(e.p, pre, v.cell) else v.finalH)
             && v'.finalC == (if s + 1 == e.lens[r] then v'.cell else v.finalC)
             && |v'.ifog| == e.seqLength
             && forall t :: s < t < m.maxLen ==> v'.ifog[t] == v.ifog[t]
    ensures RowAt(e, m, r, s + 1, v', v0)
  {
    var h, len := e.p.hiddenSize, e.lens[r];
    var pre := WithRecurrence(v.ifog[s], e.rt, h, hPrev);
    var next := if s < len then e.StateAt(r, s + 1) else e.StateAt(r, Steps(s, len));
    assert Steps(s + 1, len) == if s < len then s + 1 else Steps(s, len);
    if s < len {
      var x := StepInput(e.xs, e.seqLength, e.batchSize, e.inputSize, s, r);
      var st := e.StateAt(r, s);
      TwoGemms(e.wt, e.rt, h, e.inputSize, x, st.hidden);
      StateAtStep(e, r, s);
      assert pre == EnginePre(e.wt, e.rt, h, e.inputSize, x, st.hidden);
      assert v.cell == st.cell;
      assert next.cell == CellAfter(e.p, pre, v.cell) && next.hidden == HiddenAfter(e.p, pre, v.cell);
    }
    assert A: v'.cell == e.StateAt(r, Steps(s + 1, len)).cell;
    if m.outputSequence {
      StepOutputs(e, m, r, s, v.outs, v0.outs, v'.outs[s]);
    }
    assert B: v'.finalH == (if m.outputSequence || Steps(s + 1, len) == 0 then v0.finalH else e.StateAt(r, Steps(s + 1, len)).hidden);
    if s + 1 == len {
      assert Steps(s + 1, len) == len;
    } else {
      assert v'.finalC == v.finalC;
    }
    assert C: v'.finalC == (if 1 <= len <= s + 1 then e.StateAt(r, len).cell else v0.finalC);
    assert D: forall t :: s + 1 <= t < m.maxLen ==>
         v'.ifog[t] == Projected(e.wt, e.p.hiddenSize, e.inputSize, StepInput(e.xs, e.seqLength, e.batchSize, e.inputSize, t, r));
  }

  /** A row after the recurrent GEMM of step `s` added Ht-1 times R-transposed
      to its pre-activation row of that step. */
  function AfterGemm(v: RowView, s: nat, rt: seq<real>, hiddenSize: nat, hPrev: seq<real>): RowView
    requires s < |v.ifog| && |v.ifog[s]| == 4 * hiddenSize
    requires |rt| == 4 * hiddenSize * hiddenSize && |hPrev| == hiddenSize
  {
    v.(ifog := v.ifog[s := WithRecurrence(v.ifog[s], rt, hiddenSize, hPrev)])
  }

  /** A row after GateComputations at step `s`: a running row has its gates,
      cell and hidden values computed (the hidden values go to the output slot,
      or to the final hidden row without an output sequence); a finished row
      only has its output slot zeroed. */
  function AfterGates(p: GateParams, outputSequence: bool, running: bool, v: RowView, s: nat): RowView
    requires p.Valid() && s < |v.ifog| && |v.ifog[s]| == 4 * p.hiddenSize && |v.cell| == p.hiddenSize
    requires outputSequence ==> s < |v.outs|
  {
    var pre := v.ifog[s];
    if running then
      RowView(CellAfter(p, pre, v.cell),
              if outputSequence then v.outs[s := HiddenAfter(p, pre, v.cell)] else v.outs,
              if outputSequence then v.finalH else HiddenAfter(p, pre, v.cell),
              v.finalC,
              v.ifog[s := GatesAfter(p, pre, v.cell)])
    else if outputSequence then v.(outs := v.outs[s := Zeros(p.hiddenSize)])
    else v
  }

  /** A row after the final cell row was copied, at the row's last step. */
  function AfterCopy(v: RowView, last: bool): RowView
  {
    if last then v.(finalC := v.cell) else v
  }

  /** One step of the loop for one row, as the three stages leave it, moves the
      row from step `s` to step s + 1. */
  lemma RowAdvances(e: Run, m: Mode, r: nat, s: nat, v: RowView, v0: RowView, hPrev: seq<real>)
    requires e.Valid() && r < e.batchSize && m.maxLen <= e.seqLength && s < m.maxLen
    requires RowAt(e, m, r, s, v, v0)
    requires |hPrev| == e.p.hiddenSize
    requires s < e.lens[r] ==> hPrev == e.StateAt(r, s).hidden
    ensures |v.ifog[s]| == 4 * e.p.hiddenSize && |v.cell| == e.p.hiddenSize
    ensures m.outputSequence ==> s < |v.outs|
    ensures RowAt(e, m, r, s + 1,
                  AfterCopy(AfterGates(e.p, m.outputSequence, s < e.lens[r],
                                       AfterGemm(v, s, e.rt, e.p.hiddenSize, hPrev), s),
                            s + 1 == e.lens[r]),
                  v0)
  {
    var h := e.p.hiddenSize;
    var x := StepInput(e.xs, e.seqLength, e.batchSize, e.inputSize, s, r);
    assert v.ifog[s] == Projected(e.wt, h, e.inputSize, x);
    var v1 := AfterGemm(v, s, e.rt, h, hPrev);
    var v2 := AfterGates(e.p, m.outputSequence, s < e.lens[r], v1, s);
    var v3 := AfterCopy(v2, s + 1 == e.lens[r]);
    assert v1.ifog[s] == WithRecurrence(v.ifog[s], e.rt, h, hPrev);
    assert forall t :: s < t < m.maxLen ==> v3.ifog[t] == v.ifog[t];
    StepAdvances(e, m, r, s, v, v0, hPrev, v3);
  }

  /** A run of an engine loaded from the operator's tensors (W and R
      rearranged by LoadWeightsWithTranspose, the parameters EngineParams
      reads) follows the operator's equations: each row's state after `t`
      steps is the one they give from the row's initial states. */
  lemma RunFollowsEquations(ws: Weights, cfg: Config, e: Run, r: nat, t: nat)
    requires ws.Valid() && e.Valid() && e.p == EngineParams(ws, cfg) && e.inputSize == ws.inputSize
    requires e.wt == Transposed(ws.w, ws.hiddenSize, ws.inputSize)
    requires e.rt == Transposed(ws.r, ws.hiddenSize, ws.hiddenSize)
    requires r < e.batchSize && t <= e.seqLength
    ensures e.StateAt(r, t)
            == RowState(ws, cfg, e.xs, e.seqLength, e.batchSize, r,
                        Row(e.h0, ws.hiddenSize, e.batchSize, r), Row(e.c0, ws.hiddenSize, e.batchSize, r), t)
  {
    TransposedRearranged(ws.w, ws.hiddenSize, ws.inputSize);
    TransposedRearranged(ws.r, ws.hiddenSize, ws.hiddenSize);
    EngineRowMatches(ws, cfg, e.wt, e.rt, e.xs, e.seqLength, e.batchSize, r,
                     Row(e.h0, ws.hiddenSize, e.batchSize, r), Row(e.c0, ws.hiddenSize, e.batchSize, r), t);
  }

  /** The output slot the engine leaves for row `r` at step `t` is the
      equations' hidden state after step t while the row runs, and zeros once
      it has finished; its final cell row is the equations' cell after its
      last step. */
  lemma OutputFollowsEquations(ws: Weights, cfg: Config, e: Run, r: nat, t: nat)
    requires ws.Valid() && e.Valid() && e.p == EngineParams(ws, cfg) && e.inputSize == ws.inputSize
    requires e.wt == Transposed(ws.w, ws.hiddenSize, ws.inputSize)
    requires e.rt == Transposed(ws.r, ws.hiddenSize, ws.hiddenSize)
    requires r < e.batchSize && t < e.seqLength
    ensures var h0, c0 := Row(e.h0, ws.hiddenSize, e.batchSize, r), Row(e.c0, ws.hiddenSize, e.batchSize, r);
            && e.OutputAt(r, t)
               == (if t < e.lens[r] then RowState(ws, cfg, e.xs, e.seqLength, e.batchSize, r, h0, c0, t + 1).hidden
                   else Zeros(ws.hiddenSize))
            && (1 <= e.lens[r] ==>
                  e.StateAt(r, e.lens[r]).cell
                  == RowState(ws, cfg, e.xs, e.seqLength, e.batchSize, r, h0, c0, e.lens[r]).cell)
  {
    RunFollowsEquations(ws, cfg, e, r, t + 1);
    if 1 <= e.lens[r] {
      RunFollowsEquations(ws, cfg, e, r, e.lens[r]);
    }
  }
}
