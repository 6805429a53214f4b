/** UniDirectionalLstm: the engine that runs one direction of an LSTM layer
    over a batch of sequences of possibly different lengths. Building it lays
    the operator's weights out for two GEMMs (inputs and recurrence), fuses
    the two biases of each gate, copies the peepholes and the initial states
    and chooses a threading plan; Compute then multiplies all inputs by the
    input weights at once and runs the recurrence step by step, either a chunk
    of batch rows at a time or all rows with the GEMM split by columns. */
module LstmEngine {
  import opened IndexArith
  import opened Slots
  import opened GateMath
  import opened WeightLayout
  import opened LstmEquations
  import opened SequenceLengths
  import opened EngineRun
  import opened ThreadPlan
  import opened EngineGemms
  import opened StepViews
  import RS = ReverseSequence
  import opened GateKernels
  import opened ComputeResults

  datatype Direction = Forward | Reverse

  /** What InitializeBuffers leaves in a state buffer: the caller's values
      copied over its start when there are any, zeros otherwise. */
  function InitialState(given: seq<real>, buffer: seq<real>): (s: seq<real>)
    requires |given| <= |buffer|
    ensures |s| == |buffer|
    ensures |given| == 0 ==> s == Zeros(|buffer|)
    ensures |given| != 0 ==> s[..|given|] == given && s[|given|..] == buffer[|given|..]
  {
    if |given| == 0 then Zeros(|buffer|) else Splice(buffer, 0, given)
  }

  /** A state given in full replaces the buffer, so the engine starts from it. */
  lemma InitialStateGiven(given: seq<real>, buffer: seq<real>)
    requires |given| == |buffer| && |given| != 0
    ensures InitialState(given, buffer) == given
  {
    var s := InitialState(given, buffer);
    assert s == s[..|given|];
  }

  class UniDirectionalLstm {
    const seqLength: nat
    const batchSize: nat
    const inputSize: nat
    const hiddenSize: nat
    const direction: Direction
    const inputForget: bool
    const act: Activations
    const clip: real
    const useBias: bool
    const usePeepholes: bool

    /** W and R rearranged for the GEMMs: one row of 4 * hidden_size per
        feature, gates in the order i, f, o, c. */
    const weightsIfoc: array<real>
    const recurrentWeightsIfoc: array<real>
    /** Pre-activations of every step and row; the gates are computed in place. */
    const outputIfog: array<real>
    const batchedHidden0: array<real>
    /** Cell state of every row, updated in place step by step. */
    const batchedInternalMemoryPrev: array<real>
    /** Wb + Rb per gate (empty without a bias). */
    const biasWRi: array<real>
    const biasWRf: array<real>
    const biasWRo: array<real>
    const biasWRc: array<real>
    /** Peephole weights per gate (empty without peepholes). */
    const peepholeI: array<real>
    const peepholeO: array<real>
    const peepholeF: array<real>
    /** Reversed inputs and outputs of the reverse direction (empty otherwise). */
    const inputsReverse: array<real>
    const outputsReverse: array<real>

    var inputNumThreads: int
    var hiddenNumThreads: int
    var batchParallel: bool

    /** Every buffer the engine owns. */
    ghost const Repr: set<array<real>>

    /** Buffer sizes as AllocateBuffers makes them. */
    ghost predicate Shapes()
    {
      var h, n := hiddenSize, batchSize;
      && weightsIfoc.Length == 4 * h * inputSize
      && recurrentWeightsIfoc.Length == 4 * h * h
      && outputIfog.Length == seqLength * (n * (4 * h))
      && batchedHidden0.Length == n * h
      && batchedInternalMemoryPrev.Length == n * h
      && biasWRi.Length == (if useBias then h else 0)
      && biasWRf.Length == (if useBias then h else 0)
      && biasWRo.Length == (if useBias then h else 0)
      && biasWRc.Length == (if useBias then h else 0)
      && peepholeI.Length == (if usePeepholes then h else 0)
      && peepholeO.Length == (if usePeepholes then h else 0)
      && peepholeF.Length == (if usePeepholes then h else 0)
      && inputsReverse.Length == (if direction == Reverse then seqLength * (n * inputSize) else 0)
      && outputsReverse.Length == (if direction == Reverse then seqLength * (n * h) else 0)
    }

    /** No two of the engine's buffers are the same. */
    ghost predicate Separate()
    {
      && Repr == {weightsIfoc, recurrentWeightsIfoc, outputIfog, batchedHidden0, batchedInternalMemoryPrev,
                  biasWRi, biasWRf, biasWRo, biasWRc, peepholeI, peepholeO, peepholeF, inputsReverse, outputsReverse}
      && Distinct(weightsIfoc, recurrentWeightsIfoc, outputIfog, batchedHidden0, batchedInternalMemoryPrev,
                  biasWRi, biasWRf, biasWRo, biasWRc, peepholeI, peepholeO, peepholeF, inputsReverse, outputsReverse)
    }

    static ghost predicate Distinct(w: array<real>, r: array<real>, ifog: array<real>, h0: array<real>, c0: array<real>,
                                    bi: array<real>, bf: array<real>, bo: array<real>, bc: array<real>,
                                    pi: array<real>, po: array<real>, pf: array<real>, ir: array<real>, or: array<real>)
    {
      && w != r && w != ifog && w != h0 && w != c0 && w != bi && w != bf && w != bo && w != bc && w != pi
        && w != po && w != pf && w != ir && w != or
      && r != ifog && r != h0 && r != c0 && r != bi && r != bf && r != bo && r != bc && r != pi && r != po
        && r != pf && r != ir && r != or
      && ifog != h0 && ifog != c0 && ifog != bi && ifog != bf && ifog != bo && ifog != bc && ifog != pi
        && ifog != po && ifog != pf && ifog != ir && ifog != or
      && h0 != c0 && h0 != bi && h0 != bf && h0 != bo && h0 != bc && h0 != pi && h0 != po && h0 != pf
        && h0 != ir && h0 != or
      && c0 != bi && c0 != bf && c0 != bo && c0 != bc && c0 != pi && c0 != po && c0 != pf && c0 != ir
        && c0 != or
      && bi != bf && bi != bo && bi != bc && bi != pi && bi != po && bi != pf && bi != ir && bi != or
      && bf != bo && bf != bc && bf != pi && bf != po && bf != pf && bf != ir && bf != or
      && bo != bc && bo != pi && bo != po && bo != pf && bo != ir && bo != or
      && bc != pi && bc != po && bc != pf && bc != ir && bc != or
      && pi != po && pi != pf && pi != ir && pi != or
      && po != pf && po != ir && po != or
      && pf != ir && pf != or
      && ir != or
    }

    ghost predicate Valid()
      reads this
    {
      && Shapes() && Separate()
      && inputNumThreads >= 1 && hiddenNumThreads >= 1
    }

    /** The per-row buffers as the step loop tiles them. */
    lemma Tilings()
      requires Shapes()
      ensures Tiled(outputIfog.Length, batchSize * (4 * hiddenSize), 4 * hiddenSize, batchSize, seqLength)
      ensures Tiled(batchedHidden0.Length, batchSize * hiddenSize, hiddenSize, batchSize, 1)
      ensures Tiled(batchedInternalMemoryPrev.Length, batchSize * hiddenSize, hiddenSize, batchSize, 1)
      ensures direction == Reverse ==>
                && Tiled(inputsReverse.Length, batchSize * inputSize, inputSize, batchSize, seqLength)
                && Tiled(outputsReverse.Length, batchSize * hiddenSize, hiddenSize, batchSize, seqLength)
    {
      DenseTiled(outputIfog.Length, 4 * hiddenSize, batchSize, seqLength);
      DenseTiled(batchedHidden0.Length, hiddenSize, batchSize, 1);
      DenseTiled(batchedInternalMemoryPrev.Length, hiddenSize, batchSize, 1);
      if direction == Reverse {
        DenseTiled(inputsReverse.Length, inputSize, batchSize, seqLength);
        DenseTiled(outputsReverse.Length, hiddenSize, batchSize, seqLength);
      }
    }

    /** What GateComputations reads besides the row: flags, fused biases,
        peepholes, activations and clip. */
    function Params(): (p: GateParams)
      reads biasWRi, biasWRf, biasWRo, biasWRc, peepholeI, peepholeO, peepholeF
      requires Shapes()
      ensures p.Valid() && p.hiddenSize == hiddenSize
    {
      GateParams(hiddenSize, inputForget, useBias, usePeepholes,
                 biasWRi[..], biasWRf[..], biasWRo[..], biasWRc[..],
                 peepholeI[..], peepholeO[..], peepholeF[..], act, clip)
    }

    /** SetNumThreads, AllocateBuffers, InitializeBuffers and LoadAllWeights,
        in that order. The engine then holds W and R rearranged, the fused
        biases and the peepholes of the operator's tensors, the initial states,
        zeroed pre-activations and the threading plan. */
    constructor (seqLength: nat, batchSize: nat, inputSize: nat, hiddenSize: nat, direction: Direction,
                 inputForget: bool, inputWeights: seq<real>, recurrentWeights: seq<real>,
                 bias: seq<real>, peepholeWeights: seq<real>,
                 initialHidden: seq<real>, initialCell: seq<real>,
                 act: Activations, clip: real, hardwareConcurrency: nat)
      requires |inputWeights| >= 4 * hiddenSize * inputSize
      requires |recurrentWeights| >= 4 * hiddenSize * hiddenSize
      requires |bias| == 0 || |bias| >= 8 * hiddenSize
      requires |peepholeWeights| == 0 || |peepholeWeights| >= 3 * hiddenSize
      requires |initialHidden| <= batchSize * hiddenSize && |initialCell| <= batchSize * hiddenSize
      ensures Valid() && fresh(Repr)
      ensures this.seqLength == seqLength && this.batchSize == batchSize
      ensures this.inputSize == inputSize && this.hiddenSize == hiddenSize && this.direction == direction
      ensures useBias == (|bias| != 0) && usePeepholes == (|peepholeWeights| != 0)
      ensures Plan(inputNumThreads, hiddenNumThreads, batchParallel)
              == NumThreads(hardwareConcurrency, batchSize, hiddenSize)
      ensures weightsIfoc[..] == Transposed(inputWeights, hiddenSize, inputSize)
      ensures recurrentWeightsIfoc[..] == Transposed(recurrentWeights, hiddenSize, hiddenSize)
      ensures var ws := Weights(hiddenSize, inputSize, inputWeights, recurrentWeights, bias, peepholeWeights);
              ws.Valid() ==> Params() == EngineParams(ws, Config(inputForget, act, clip))
      ensures batchedHidden0[..] == InitialState(initialHidden, Zeros(batchSize * hiddenSize))
      ensures batchedInternalMemoryPrev[..] == InitialState(initialCell, Zeros(batchSize * hiddenSize))
      ensures outputIfog[..] == Zeros(outputIfog.Length)
    {
      this.seqLength, this.batchSize, this.inputSize, this.hiddenSize := seqLength, batchSize, inputSize, hiddenSize;
      this.direction, this.inputForget, this.act, this.clip := direction, inputForget, act, clip;
      useBias, usePeepholes := |bias| != 0, |peepholeWeights| != 0;
      var w, r, ifog, h0, c0, bi, bf, bo, bc, pi, po, pf, ir, or :=
        AllocateBuffers(seqLength, batchSize, inputSize, hiddenSize, direction, |bias| != 0, |peepholeWeights| != 0);
      weightsIfoc, recurrentWeightsIfoc, outputIfog, batchedHidden0, batchedInternalMemoryPrev := w, r, ifog, h0, c0;
      biasWRi, biasWRf, biasWRo, biasWRc := bi, bf, bo, bc;
      peepholeI, peepholeO, peepholeF := pi, po, pf;
      inputsReverse, outputsReverse := ir, or;
      Repr := {w, r, ifog, h0, c0, bi, bf, bo, bc, pi, po, pf, ir, or};
      inputNumThreads, hiddenNumThreads := 1, 1;
      new;
      assert fresh(Repr);
      SetNumThreads(hardwareConcurrency);
      InitializeBuffers(initialHidden, initialCell);
      LoadAllWeights(inputWeights, recurrentWeights, peepholeWeights, bias);
      var ws := Weights(hiddenSize, inputSize, inputWeights, recurrentWeights, bias, peepholeWeights);
      if ws.Valid() {
        ParamsLoaded(ws, Config(inputForget, act, clip));
      }
    }

    /** Buffers holding the fused biases and the peephole blocks of the
        operator's tensors give the engine's view of them. */
    lemma ParamsLoaded(ws: Weights, cfg: Config)
      requires Shapes() && ws.Valid() && ws.hiddenSize == hiddenSize
      requires cfg == Config(inputForget, act, clip)
      requires useBias == (|ws.b| != 0) && usePeepholes == (|ws.p| != 0)
      requires var h := hiddenSize;
               useBias ==>
                 && biasWRi[..] == FusedBias(ws.b, h, 0) && biasWRo[..] == FusedBias(ws.b, h, h)
                 && biasWRf[..] == FusedBias(ws.b, h, 2 * h) && biasWRc[..] == FusedBias(ws.b, h, 3 * h)
      requires var h := hiddenSize;
               usePeepholes ==>
                 && peepholeI[..] == ws.p[0 .. h] && peepholeO[..] == ws.p[h .. 2 * h]
                 && peepholeF[..] == ws.p[2 * h .. 3 * h]
      ensures Params() == EngineParams(ws, cfg)
    {
      var p, q := Params(), EngineParams(ws, cfg);
      assert p.biasI == q.biasI && p.biasF == q.biasF && p.biasO == q.biasO && p.biasC == q.biasC;
      assert p.peepI == q.peepI && p.peepO == q.peepO && p.peepF == q.peepF;
    }

    /** AllocateBuffers: W and R rearranged, the pre-activations of every step
        and row, the initial hidden state and the cell state (these three zero
        filled), the fused biases when there is a bias, the reversed inputs and
        outputs for the reverse direction, and the peepholes when there are
        any. Every buffer is new. */
    static method AllocateBuffers(seqLength: nat, batchSize: nat, inputSize: nat, hiddenSize: nat,
                                  direction: Direction, useBias: bool, usePeepholes: bool)
      returns (w: array<real>, r: array<real>, ifog: array<real>, h0: array<real>, c0: array<real>,
               bi: array<real>, bf: array<real>, bo: array<real>, bc: array<real>,
               pi: array<real>, po: array<real>, pf: array<real>, ir: array<real>, or: array<real>)
      ensures fresh({w, r, ifog, h0, c0, bi, bf, bo, bc, pi, po, pf, ir, or})
      ensures Distinct(w, r, ifog, h0, c0, bi, bf, bo, bc, pi, po, pf, ir, or)
      ensures var h, n := hiddenSize, batchSize;
              && w.Length == 4 * h * inputSize && r.Length == 4 * h * h
              && ifog.Length == seqLength * (n * (4 * h)) && h0.Length == n * h && c0.Length == n * h
              && bi.Length == (if useBias then h else 0) && bf.Length == (if useBias then h else 0)
              && bo.Length == (if useBias then h else 0) && bc.Length == (if useBias then h else 0)
              && pi.Length == (if usePeepholes then h else 0) && po.Length == (if usePeepholes then h else 0)
              && pf.Length == (if usePeepholes then h else 0)
              && ir.Length == (if direction == Reverse then seqLength * (n * inputSize) else 0)
              && or.Length == (if direction == Reverse then seqLength * (n * h) else 0)
      ensures ifog[..] == Zeros(ifog.Length) && h0[..] == Zeros(h0.Length) && c0[..] == Zeros(c0.Length)
    {
      var h, n := hiddenSize, batchSize;
      var bh, ph := if useBias then h else 0, if usePeepholes then h else 0;
      ifog := NewZeroed(seqLength * (n * (4 * h)));
      h0 := NewZeroed(n * h);
      c0 := NewZeroed(n * h);
      w, r := new real[4 * h * inputSize], new real[4 * h * h];
      bi, bf, bo, bc := new real[bh], new real[bh], new real[bh], new real[bh];
      ir := new real[if direction == Reverse then seqLength * (n * inputSize) else 0];
      or := new real[if direction == Reverse then seqLength * (n * h) else 0];
      pi, pf, po := new real[ph], new real[ph], new real[ph];
    }

    /** A new buffer of `size` values, all zero. */
    static method NewZeroed(size: nat) returns (a: array<real>)
      ensures fresh(a) && a.Length == size && a[..] == Zeros(size)
    {
      a := new real[size];
      FillZeros(a, 0, size);
      assert a[..] == Zeros(size);
    }

    /** Leaves one hardware thread to the caller, caps the input GEMM threads
        (16 for small hidden sizes, 24 in all), and picks the batch-parallel
        regime for large enough batches or, otherwise, caps the column threads
        by hidden-size band. */
    method SetNumThreads(hardwareConcurrency: nat)
      modifies this
      ensures Plan(inputNumThreads, hiddenNumThreads, batchParallel)
              == NumThreads(hardwareConcurrency, batchSize, hiddenSize)
    {
      var threads := hardwareConcurrency - 1;
      if threads < 1 {
        threads := 1;
      }
      var imt := threads;
      if imt > 16 && hiddenSize <= 256 {
        imt := 16;
      }
      if imt > 24 {
        imt := 24;
      }
      inputNumThreads := imt;
      var hmt := threads;
      batchParallel := false;
      if batchSize > 4 || (batchSize >= 2 && hiddenSize <= 256) {
        batchParallel := true;
        hiddenNumThreads := hmt;
      } else {
        if hmt > 2 && hiddenSize <= 128 {
          hmt := 2;
        }
        if hmt > 5 && hiddenSize <= 256 {
          hmt := 5;
        }
        if hmt > 7 && hiddenSize <= 512 {
          hmt := 7;
        }
        if hmt > 11 && hiddenSize <= 1024 {
          hmt := 11;
        }
        hiddenNumThreads := hmt;
      }
    }

    /** Copies each given initial state over the start of its buffer, or
        zero fills the buffer when the state is absent. */
    method InitializeBuffers(initialHidden: seq<real>, initialCell: seq<real>)
      requires Shapes() && Separate()
      requires |initialHidden| <= batchedHidden0.Length && |initialCell| <= batchedInternalMemoryPrev.Length
      modifies batchedHidden0, batchedInternalMemoryPrev
      ensures batchedHidden0[..] == InitialState(initialHidden, old(batchedHidden0[..]))
      ensures batchedInternalMemoryPrev[..] == InitialState(initialCell, old(batchedInternalMemoryPrev[..]))
    {
      if |initialHidden| != 0 {
        RS.CopySlot(initialHidden, 0, batchedHidden0, 0, |initialHidden|);
        assert Slot(initialHidden, 0, |initialHidden|) == initialHidden;
      } else {
        FillZeros(batchedHidden0, 0, batchedHidden0.Length);
        assert batchedHidden0[..] == Zeros(batchedHidden0.Length);
      }
      if |initialCell| != 0 {
        RS.CopySlot(initialCell, 0, batchedInternalMemoryPrev, 0, |initialCell|);
        assert Slot(initialCell, 0, |initialCell|) == initialCell;
      } else {
        FillZeros(batchedInternalMemoryPrev, 0, batchedInternalMemoryPrev.Length);
        assert batchedInternalMemoryPrev[..] == Zeros(batchedInternalMemoryPrev.Length);
      }
    }

    /** Rearranges W and R for the GEMMs, then copies the peepholes and fuses
        the biases when those tensors are present. */
    method LoadAllWeights(inputWeights: seq<real>, recurrentWeights: seq<real>,
                          peepholeWeights: seq<real>, bias: seq<real>)
      requires Shapes() && Separate()
      requires |inputWeights| >= 4 * hiddenSize * inputSize
      requires |recurrentWeights| >= 4 * hiddenSize * hiddenSize
      requires usePeepholes == (|peepholeWeights| != 0) && (usePeepholes ==> |peepholeWeights| >= 3 * hiddenSize)
      requires useBias == (|bias| != 0) && (useBias ==> |bias| >= 8 * hiddenSize)
      modifies weightsIfoc, recurrentWeightsIfoc, peepholeI, peepholeO, peepholeF,
               biasWRi, biasWRf, biasWRo, biasWRc
      ensures weightsIfoc[..] == Transposed(inputWeights, hiddenSize, inputSize)
      ensures recurrentWeightsIfoc[..] == Transposed(recurrentWeights, hiddenSize, hiddenSize)
      ensures var h := hiddenSize;
              && (usePeepholes ==>
                    peepholeI[..] == peepholeWeights[0 .. h] && peepholeO[..] == peepholeWeights[h .. 2 * h]
                    && peepholeF[..] == peepholeWeights[2 * h .. 3 * h])
              && (useBias ==>
                    biasWRi[..] == FusedBias(bias, h, 0) && biasWRo[..] == FusedBias(bias, h, h)
                    && biasWRf[..] == FusedBias(bias, h, 2 * h) && biasWRc[..] == FusedBias(bias, h, 3 * h))
    {
      LoadWeightsWithTranspose(inputWeights, weightsIfoc, hiddenSize, inputSize);
      LoadWeightsWithTranspose(recurrentWeights, recurrentWeightsIfoc, hiddenSize, hiddenSize);
      if |peepholeWeights| != 0 {
        LoadPeepholeWeights(peepholeWeights);
      }
      if |bias| != 0 {
        LoadBias(bias);
      }
    }

    /** Target cells of features below `row`, and of gate positions below `k`
        of feature `row`, hold their source cells. */
    static ghost predicate LoadedUpTo(output: seq<real>, input: seq<real>, dim0: nat, dim1: nat, row: nat, k: nat)
      requires |input| >= 4 * dim0 * dim1 && |output| == 4 * dim0 * dim1
    {
      forall r, g, c :: 0 <= r < dim1 && 0 <= g < 4 && 0 <= c < dim0 && (r < row || (r == row && g < k)) ==>
        output[TargetIndex(dim0, dim1, g, c, r)] == input[SourceIndex(dim0, dim1, GateIn(g), c, r)]
    }

    /** One call of copy_weight_with_transpose: it fills the run of gate
        position `gOut` of feature `row` and nothing else. */
    static ghost predicate GateCopied(before: seq<real>, after: seq<real>, input: seq<real>,
                                      dim0: nat, dim1: nat, row: nat, gOut: nat, gIn: nat)
      requires |input| >= 4 * dim0 * dim1 && |before| == 4 * dim0 * dim1 && |after| == |before|
      requires row < dim1 && gOut < 4 && gIn < 4
    {
      var lo := row * (4 * dim0) + gOut * dim0;
      && (forall c :: 0 <= c < dim0 ==>
            after[TargetIndex(dim0, dim1, gOut, c, row)] == input[SourceIndex(dim0, dim1, gIn, c, row)])
      && (forall j :: 0 <= j < |before| && (j < lo || lo + dim0 <= j) ==> after[j] == before[j])
    }

    /** Copying gate position k of feature `row` extends what is loaded by one gate. */
    static lemma GateLoaded(before: seq<real>, after: seq<real>, input: seq<real>, dim0: nat, dim1: nat, row: nat, k: nat)
      requires |input| >= 4 * dim0 * dim1 && |before| == 4 * dim0 * dim1 && |after| == |before|
      requires row < dim1 && k < 4
      requires LoadedUpTo(before, input, dim0, dim1, row, k)
      requires GateCopied(before, after, input, dim0, dim1, row, k, GateIn(k))
      ensures LoadedUpTo(after, input, dim0, dim1, row, k + 1)
    {
      forall r, g, c | 0 <= r < dim1 && 0 <= g < 4 && 0 <= c < dim0 && (r < row || (r == row && g < k))
        ensures after[TargetIndex(dim0, dim1, g, c, r)] == input[SourceIndex(dim0, dim1, GateIn(g), c, r)]
      {
        TargetOutside(dim0, dim1, g, c, r, row, k);
      }
    }

    /** The copy_weight_with_transpose step: for feature `row`, unit c of source
        gate block `gIn` goes to unit c of gate position `gOut`. */
    static method CopyWeightWithTranspose(input: seq<real>, output: array<real>, dim0: nat, dim1: nat,
                                          row: nat, gOut: nat, gIn: nat)
      requires |input| >= 4 * dim0 * dim1 && output.Length == 4 * dim0 * dim1
      requires row < dim1 && gOut < 4 && gIn < 4
      modifies output
      ensures GateCopied(old(output[..]), output[..], input, dim0, dim1, row, gOut, gIn)
    {
      var lo := row * (4 * dim0) + gOut * dim0;
      var c := 0;
      while c < dim0
        invariant c <= dim0
        invariant forall c' :: 0 <= c' < c ==>
                    output[TargetIndex(dim0, dim1, gOut, c', row)] == input[SourceIndex(dim0, dim1, gIn, c', row)]
        invariant forall j :: 0 <= j < output.Length && (j < lo || lo + c <= j) ==> output[j] == old(output[j])
      {
        output[TargetIndex(dim0, dim1, gOut, c, row)] := input[SourceIndex(dim0, dim1, gIn, c, row)];
        c := c + 1;
      }
    }

    /** Block transpose of a [4 x dim0 x dim1] tensor with gates i, o, f, c into
        rows of 4 * dim0 per feature with gates i, f, o, c. */
    static method LoadWeightsWithTranspose(input: seq<real>, output: array<real>, dim0: nat, dim1: nat)
      requires |input| >= 4 * dim0 * dim1 && output.Length == 4 * dim0 * dim1
      modifies output
      ensures output[..] == Transposed(input, dim0, dim1)
    {
      var row := 0;
      while row < dim1
        invariant row <= dim1
        invariant LoadedUpTo(output[..], input, dim0, dim1, row, 0)
      {
        ghost var o0 := output[..];
        CopyWeightWithTranspose(input, output, dim0, dim1, row, 0, 0);
        GateLoaded(o0, output[..], input, dim0, dim1, row, 0);
        ghost var o1 := output[..];
        CopyWeightWithTranspose(input, output, dim0, dim1, row, 1, 2);
        GateLoaded(o1, output[..], input, dim0, dim1, row, 1);
        ghost var o2 := output[..];
        CopyWeightWithTranspose(input, output, dim0, dim1, row, 2, 1);
        GateLoaded(o2, output[..], input, dim0, dim1, row, 2);
        ghost var o3 := output[..];
        CopyWeightWithTranspose(input, output, dim0, dim1, row, 3, 3);
        GateLoaded(o3, output[..], input, dim0, dim1, row, 3);
        row := row + 1;
      }
      TransposedFromCells(output[..], input, dim0, dim1);
    }

    /** The copy_fused_bias step: Wb + Rb of one gate. */
    static method CopyFusedBias(bias: seq<real>, hiddenSize: nat, offset: nat, out: array<real>)
      requires offset + hiddenSize + 4 * hiddenSize <= |bias| && out.Length == hiddenSize
      modifies out
      ensures out[..] == FusedBias(bias, hiddenSize, offset)
    {
      var j := 0;
      while j < hiddenSize
        invariant j <= hiddenSize
        invariant forall k :: 0 <= k < j ==> out[k] == bias[k + offset] + bias[k + offset + 4 * hiddenSize]
      {
        out[j] := bias[j + offset] + bias[j + offset + 4 * hiddenSize];
        j := j + 1;
      }
    }

    /** Fuses Wb and Rb of each gate; B holds the blocks of Wb in the order
        i, o, f, c, then those of Rb. */
    method LoadBias(bias: seq<real>)
      requires Shapes() && Separate() && useBias && |bias| >= 8 * hiddenSize
      modifies biasWRi, biasWRf, biasWRo, biasWRc
      ensures biasWRi[..] == FusedBias(bias, hiddenSize, 0)
      ensures biasWRo[..] == FusedBias(bias, hiddenSize, hiddenSize)
      ensures biasWRf[..] == FusedBias(bias, hiddenSize, 2 * hiddenSize)
      ensures biasWRc[..] == FusedBias(bias, hiddenSize, 3 * hiddenSize)
    {
      CopyFusedBias(bias, hiddenSize, 0, biasWRi);
      CopyFusedBias(bias, hiddenSize, hiddenSize, biasWRo);
      CopyFusedBias(bias, hiddenSize, 2 * hiddenSize, biasWRf);
      CopyFusedBias(bias, hiddenSize, 3 * hiddenSize, biasWRc);
    }

    /** Copies the peephole blocks, in the order i, o, f of P. */
    method LoadPeepholeWeights(peepholeWeights: seq<real>)
      requires Shapes() && Separate() && usePeepholes && |peepholeWeights| >= 3 * hiddenSize
      modifies peepholeI, peepholeO, peepholeF
      ensures peepholeI[..] == peepholeWeights[0 .. hiddenSize]
      ensures peepholeO[..] == peepholeWeights[hiddenSize .. 2 * hiddenSize]
      ensures peepholeF[..] == peepholeWeights[2 * hiddenSize .. 3 * hiddenSize]
    {
      var h := hiddenSize;
      RS.CopySlot(peepholeWeights, 0, peepholeI, 0, h);
      assert peepholeI[..] == Slot(peepholeWeights, 0, h);
      RS.CopySlot(peepholeWeights, h, peepholeO, 0, h);
      assert peepholeO[..] == Slot(peepholeWeights, h, h);
      RS.CopySlot(peepholeWeights, 2 * h, peepholeF, 0, h);
      assert peepholeF[..] == Slot(peepholeWeights, 2 * h, h);
    }

    /** The contents of the buffers the step loop writes. */
    ghost function Contents(outs: array<real>, finalH: array<real>, finalC: array<real>): Buffers
      reads this, outputIfog, batchedInternalMemoryPrev, outs, finalH, finalC
    {
      Buffers(outputIfog[..], batchedInternalMemoryPrev[..], outs[..], finalH[..], finalC[..])
    }

    /** The output sequence being written and the final states are three
        buffers apart from each other and from the engine's own, except that
        the output sequence may be the engine's reversed-output buffer. */
    ghost predicate Apart(outs: array<real>, finalH: array<real>, finalC: array<real>)
      reads this
    {
      && finalH !in Repr && finalC !in Repr && (outs == outputsReverse || outs !in Repr)
      && outs != finalH && outs != finalC && finalH != finalC
    }

    /** The five buffers the step loop writes are five different buffers. */
    ghost predicate StepBuffers(outs: array<real>, finalH: array<real>, finalC: array<real>)
      reads this
    {
      && outputIfog != batchedInternalMemoryPrev && outputIfog != outs && outputIfog != finalH && outputIfog != finalC
      && batchedInternalMemoryPrev != outs && batchedInternalMemoryPrev != finalH && batchedInternalMemoryPrev != finalC
      && outs != finalH && outs != finalC && finalH != finalC
    }

    /** The recurrent weights and the initial hidden state are none of the
        buffers the step loop writes. */
    ghost predicate ReadOnly(outs: array<real>, finalH: array<real>, finalC: array<real>)
      reads this
    {
      && recurrentWeightsIfoc != outputIfog && recurrentWeightsIfoc != batchedInternalMemoryPrev
      && recurrentWeightsIfoc != outs && recurrentWeightsIfoc != finalH && recurrentWeightsIfoc != finalC
      && batchedHidden0 != outputIfog && batchedHidden0 != batchedInternalMemoryPrev
      && batchedHidden0 != outs && batchedHidden0 != finalH && batchedHidden0 != finalC
    }

    /** input_gemm, run chunk by chunk as the parallel loop hands out rows:
        for every step below `maxLen` and every batch row, the row's
        pre-activation slot holds its input times the rearranged input weights. */
    method InputProjection(xs: seq<real>, maxLen: nat)
      requires Valid() && |xs| == seqLength * batchSize * inputSize && maxLen <= seqLength
      requires Tiled(outputIfog.Length, batchSize * (4 * hiddenSize), 4 * hiddenSize, batchSize, seqLength)
      modifies outputIfog
      ensures StepsProjected(outputIfog[..], weightsIfoc[..], hiddenSize, inputSize, xs, seqLength, batchSize, maxLen)
    {
      var h4, n := 4 * hiddenSize, batchSize;
      var total := maxLen * n;
      var chunk := ChunkSize(total, inputNumThreads);
      MulMonoLe(maxLen, seqLength, n);
      MulAssoc(seqLength, n, h4);
      var row := 0;
      while row < total
        invariant ProjectedBelow(outputIfog[..], xs, weightsIfoc[..], hiddenSize, inputSize, Min(row, total))
        decreases total - row
      {
        var count := ChunkLength(row, chunk, total);
        MulMonoLe(row + count, seqLength * n, inputSize);
        MulMonoLe(row + count, seqLength * n, h4);
        ProjectChunk(xs, row, count);
        row := row + chunk;
      }
      forall t, r | 0 <= t < maxLen && 0 <= r < n
        ensures RowSlot(outputIfog[..], n * h4, h4, n, seqLength, t, r)
                  == Projected(weightsIfoc[..], hiddenSize, inputSize, StepInput(xs, seqLength, n, inputSize, t, r))
      {
        CellBelow(t, r, n, maxLen);
        FlatRowIsSlot(outputIfog[..], h4, n, seqLength, t, r);
        FlatRowIsInput(xs, seqLength, n, inputSize, t, r);
      }
    }

    /** One task of the input projection: input_gemm on the flat rows
        row .. row+count-1, after the rows below them. */
    method ProjectChunk(xs: seq<real>, row: nat, count: nat)
      requires Valid()
      requires (row + count) * inputSize <= |xs| && (row + count) * (4 * hiddenSize) <= outputIfog.Length
      requires ProjectedBelow(outputIfog[..], xs, weightsIfoc[..], hiddenSize, inputSize, row)
      modifies outputIfog
      ensures ProjectedBelow(outputIfog[..], xs, weightsIfoc[..], hiddenSize, inputSize, row + count)
    {
      ghost var before := outputIfog[..];
      InputGemm(xs, weightsIfoc[..], hiddenSize, inputSize, row, count, outputIfog);
      ghost var after := outputIfog[..];
      assert forall i :: 0 <= i < row * (4 * hiddenSize) && i < |before| ==> after[i] == before[i];
      ProjectedGrows(before, after, xs, weightsIfoc[..], hiddenSize, inputSize, row, count);
    }

    /** GateComputations at step `s` on rows lo .. hi-1: a row that has
        finished (`s` at or past both the shortest length and its own) only
        gets its output slot zeroed, with an output sequence; every other row
        runs its gates, updates its cell row in place and writes its hidden
        values to its output slot, or to the final hidden state without an
        output sequence. */
    method GateComputations(ghost e: Run, p: GateParams, m: Mode, stride: nat, lens: seq<int>, minLen: int,
                            s: nat, lo: nat, hi: nat, outs: array<real>, finalH: array<real>, finalC: array<real>)
      requires StepBuffers(outs, finalH, finalC)
      requires e.Valid() && e.p == p && e.lens == lens && e.batchSize == batchSize && e.seqLength == seqLength
      requires Shaped(e, m, stride, Contents(outs, finalH, finalC))
      requires s < seqLength && lo <= hi <= batchSize
      modifies outputIfog, batchedInternalMemoryPrev, outs, finalH
      ensures Shaped(e, m, stride, Contents(outs, finalH, finalC))
      ensures GatesWritten(e, m, stride, old(Contents(outs, finalH, finalC)), Contents(outs, finalH, finalC), minLen, s, lo, hi)
    {
      var h, n := p.hiddenSize, batchSize;
      ghost var b0 := Contents(outs, finalH, finalC);
      NoGatesWritten(e, m, stride, b0, minLen, s, lo);
      var b := lo;
      while b < hi
        invariant lo <= b <= hi
        invariant Shaped(e, m, stride, Contents(outs, finalH, finalC))
        invariant GatesWritten(e, m, stride, b0, Contents(outs, finalH, finalC), minLen, s, lo, b)
      {
        ghost var b1 := Contents(outs, finalH, finalC);
        GateComputationsRow(e, p, m, stride, lens, minLen, s, b, outs, finalH, finalC);
        GatesJoined(e, m, stride, b0, b1, Contents(outs, finalH, finalC), minLen, s, lo, b);
        b := b + 1;
      }
    }

    /** GateComputations on the one row `r`. */
    method GateComputationsRow(ghost e: Run, p: GateParams, m: Mode, stride: nat, lens: seq<int>, minLen: int,
                               s: nat, r: nat, outs: array<real>, finalH: array<real>, finalC: array<real>)
      requires StepBuffers(outs, finalH, finalC)
      requires e.Valid() && e.p == p && e.lens == lens && e.batchSize == batchSize && e.seqLength == seqLength
      requires Shaped(e, m, stride, Contents(outs, finalH, finalC))
      requires s < seqLength && r < batchSize
      modifies outputIfog, batchedInternalMemoryPrev, outs, finalH
      ensures Shaped(e, m, stride, Contents(outs, finalH, finalC))
      ensures GatesWritten(e, m, stride, old(Contents(outs, finalH, finalC)), Contents(outs, finalH, finalC), minLen, s, r, r + 1)
    {
      var h, n := p.hiddenSize, batchSize;
      ghost var b1 := Contents(outs, finalH, finalC);
      SlotInStep(outputIfog.Length, n * (4 * h), 4 * h, n, seqLength, s, r);
      SlotInStep(batchedInternalMemoryPrev.Length, n * h, h, n, 1, 0, r);
      SlotInStep(finalH.Length, n * h, h, n, 1, 0, r);
      if m.outputSequence {
        SlotInStep(outs.Length, stride, h, n, seqLength, s, r);
      }
      if s >= minLen && s >= lens[r] {
        if m.outputSequence {
          FillZeros(outs, SlotStart(stride, h, s, r), h);
        }
        FinishedRowGates(e, m, stride, b1, Contents(outs, finalH, finalC), minLen, s, r);
      } else {
        var off, cellOff := SlotStart(n * (4 * h), 4 * h, s, r), SlotStart(n * h, h, 0, r);
        if m.outputSequence {
          GateRow(p, outputIfog, off, batchedInternalMemoryPrev, cellOff, outs, SlotStart(stride, h, s, r));
        } else {
          GateRow(p, outputIfog, off, batchedInternalMemoryPrev, cellOff, finalH, cellOff);
        }
        RunningRowGates(e, m, stride, b1, Contents(outs, finalH, finalC), minLen, s, r);
      }
    }

    /** The copy after GateComputations: each row of lo .. hi-1 whose last
        step is `s` copies its cell row into its final cell row. */
    static method CopyFinalCells(cell: seq<real>, finalC: array<real>, lens: seq<int>, h: nat, n: nat,
                                 s: nat, lo: nat, hi: nat)
      requires Tiled(|cell|, n * h, h, n, 1) && Tiled(finalC.Length, n * h, h, n, 1)
      requires |lens| == n && lo <= hi <= n
      modifies finalC
      ensures forall r :: lo <= r < hi ==>
                Row(finalC[..], h, n, r) == if s + 1 == lens[r] then Row(cell, h, n, r) else Row(old(finalC[..]), h, n, r)
      ensures KeptOutside(old(finalC[..]), finalC[..], SlotStart(n * h, h, 0, lo), SlotStart(n * h, h, 0, hi))
    {
      ghost var f0 := finalC[..];
      var lrow := lo;
      ChunkInStep(finalC.Length, n * h, h, n, 1, 0, lo, lo);
      while lrow < hi
        invariant lo <= lrow <= hi
        invariant FinalCellsUpTo(cell, f0, finalC[..], lens, h, n, s, lo, lrow)
      {
        FinalCellOneMore(cell, f0, finalC[..], lens, h, n, s, lo, lrow);
        if s + 1 == lens[lrow] {
          var off := SlotStart(n * h, h, 0, lrow);
          RS.CopySlot(cell, off, finalC, off, h);
        }
        lrow := lrow + 1;
      }
    }

    /** The zero fill after GateComputations, with an output sequence: each
        row of lo .. hi-1 that has finished at step `s` gets its output slot of
        that step zeroed. */
    static method ZeroFinishedOutputs(outs: array<real>, stride: nat, h: nat, n: nat, seqLength: nat,
                                      lens: seq<int>, minLen: int, s: nat, lo: nat, hi: nat)
      requires Tiled(outs.Length, stride, h, n, seqLength) && s < seqLength
      requires |lens| == n && lo <= hi <= n
      modifies outs
      ensures ZeroedUpTo(old(outs[..]), outs[..], stride, h, n, seqLength, lens, minLen, s, lo, hi)
    {
      ghost var o0 := outs[..];
      var lrow := lo;
      ChunkInStep(outs.Length, stride, h, n, seqLength, s, lo, lo);
      while lrow < hi
        invariant lo <= lrow <= hi
        invariant ZeroedUpTo(o0, outs[..], stride, h, n, seqLength, lens, minLen, s, lo, lrow)
      {
        ZeroedOneMore(o0, outs[..], stride, h, n, seqLength, lens, minLen, s, lo, lrow);
        if Finished(s, minLen, lens[lrow]) {
          FillZeros(outs, SlotStart(stride, h, s, lrow), h);
        }
        lrow := lrow + 1;
      }
    }

    /** One step `s` of the loop on batch rows lo .. hi-1: the recurrent GEMM
        (split by columns over all rows, or on the chunk's rows) with Ht-1 read
        from `prev`, then GateComputations, the copy of the final cell rows and
        the zero fill; b1, b2 and b3 are the buffers between the stages. */
    method Step(ghost e: Run, p: GateParams, m: Mode, stride: nat, lens: seq<int>, minLen: int,
                s: nat, lo: nat, hi: nat, columns: bool, prev: seq<real>, pStride: nat, pCount: nat, pStep: nat,
                outs: array<real>, finalH: array<real>, finalC: array<real>)
      returns (ghost b1: Buffers, ghost b2: Buffers, ghost b3: Buffers)
      requires StepBuffers(outs, finalH, finalC) && hiddenNumThreads >= 1
      requires e.Valid() && e.p == p && e.lens == lens && e.batchSize == batchSize && e.seqLength == seqLength
      requires e.rt == recurrentWeightsIfoc[..] && p.hiddenSize == hiddenSize
      requires s < seqLength && lo <= hi <= batchSize && (columns ==> lo == 0 && hi == batchSize)
      requires Shaped(e, m, stride, Contents(outs, finalH, finalC))
      requires Tiled(|prev|, pStride, hiddenSize, batchSize, pCount) && pStep < pCount
      modifies outputIfog, batchedInternalMemoryPrev, outs, finalH, finalC
      ensures Shaped(e, m, stride, b1) && Shaped(e, m, stride, b2) && Shaped(e, m, stride, b3)
      ensures Shaped(e, m, stride, Contents(outs, finalH, finalC))
      ensures GemmDone(e, m, stride, old(Contents(outs, finalH, finalC)), b1, prev, pStride, pCount, pStep, s, lo, hi)
      ensures GatesWritten(e, m, stride, b1, b2, minLen, s, lo, hi)
      ensures CopyDone(e, m, stride, b2, b3, s, lo, hi)
      ensures ZeroDone(e, m, stride, b3, Contents(outs, finalH, finalC), minLen, s, lo, hi)
    {
      var h, n := hiddenSize, batchSize;
      if columns {
        HiddenGemmColumns(prev, pStride, pCount, pStep, recurrentWeightsIfoc[..], h, n, seqLength, s, hiddenNumThreads, outputIfog);
      } else {
        HiddenGemmRows(prev, pStride, pCount, pStep, recurrentWeightsIfoc[..], h, n, seqLength, s, lo, hi, outputIfog);
      }
      b1 := Contents(outs, finalH, finalC);
      GateComputations(e, p, m, stride, lens, minLen, s, lo, hi, outs, finalH, finalC);
      b2 := Contents(outs, finalH, finalC);
      CopyFinalCells(batchedInternalMemoryPrev[..], finalC, lens, h, n, s, lo, hi);
      b3 := Contents(outs, finalH, finalC);
      if m.outputSequence {
        ZeroFinishedOutputs(outs, stride, h, n, seqLength, lens, minLen, s, lo, hi);
      }
    }

    /** What the step loop relies on: its five buffers are apart and none of
        them is the recurrent weights or the initial hidden state; the run `e`
        is this engine's, with these gate parameters and sequence lengths. */
    ghost predicate Engaged(e: Run, p: GateParams, lens: seq<int>, minLen: int,
                            outs: array<real>, finalH: array<real>, finalC: array<real>)
      reads this, recurrentWeightsIfoc, batchedHidden0
    {
      && StepBuffers(outs, finalH, finalC) && ReadOnly(outs, finalH, finalC) && hiddenNumThreads >= 1
      && e.Valid() && e.p == p && e.lens == lens && e.batchSize == batchSize && e.seqLength == seqLength
      && e.rt == recurrentWeightsIfoc[..] && e.h0 == batchedHidden0[..] && p.hiddenSize == hiddenSize
      && batchSize > 0 && minLen == MinSequenceLength(seqLength, lens)
    }

    /** Where a task of the step loop stands after `s` steps: the engine is
        engaged, the buffers keep their shape, rows lo .. hi-1 have run `s`
        steps, and the output sequence differs from `o0` only in covered
        slots (not at all without an output sequence). */
    ghost predicate Running(e: Run, p: GateParams, m: Mode, stride: nat, lens: seq<int>, minLen: int,
                            lo: nat, hi: nat, outs: array<real>, finalH: array<real>, finalC: array<real>,
                            b0: Buffers, o0: seq<real>, s: nat)
      reads this, recurrentWeightsIfoc, batchedHidden0, outputIfog, batchedInternalMemoryPrev, outs, finalH, finalC
    {
      (&& Engaged(e, p, lens, minLen, outs, finalH, finalC) && m.maxLen <= seqLength && s <= m.maxLen
       && lo <= hi <= batchSize
       && Shaped(e, m, stride, Contents(outs, finalH, finalC)) && Shaped(e, m, stride, b0)
       && Reached(e, m, stride, Contents(outs, finalH, finalC), b0, lo, hi, s)
       && (m.outputSequence ==> CoveredKept(o0, outs[..], stride, hiddenSize, batchSize, seqLength))
       && (!m.outputSequence ==> outs[..] == o0)) == true
    }

    /** Step `s` of batch rows lo .. hi-1 as the loop runs it: Ht-1 is read
        from the initial hidden state at step 0, then from the previous step's
        output slots, or from the final hidden state without an output
        sequence; the rows move from step `s` to step s + 1. */
    method StepRows(ghost e: Run, p: GateParams, m: Mode, stride: nat, lens: seq<int>, minLen: int,
                    s: nat, lo: nat, hi: nat, columns: bool, outs: array<real>, finalH: array<real>, finalC: array<real>,
                    ghost b0: Buffers, ghost o0: seq<real>)
      requires Running(e, p, m, stride, lens, minLen, lo, hi, outs, finalH, finalC, b0, o0, s)
      requires s < m.maxLen && (columns ==> lo == 0 && hi == batchSize)
      modifies outputIfog, batchedInternalMemoryPrev, outs, finalH, finalC
      ensures Running(e, p, m, stride, lens, minLen, lo, hi, outs, finalH, finalC, b0, o0, s + 1)
    {
      var h, n := hiddenSize, batchSize;
      ghost var b := Contents(outs, finalH, finalC);
      var prev := if s == 0 then batchedHidden0[..] else if m.outputSequence then outs[..] else finalH[..];
      var pStride := if s > 0 && m.outputSequence then stride else n * h;
      var pCount := if s > 0 && m.outputSequence then seqLength else 1;
      var pStep := if s > 0 && m.outputSequence then s - 1 else 0;
      var b1, b2, b3 := Step(e, p, m, stride, lens, minLen, s, lo, hi, columns, prev, pStride, pCount, pStep,
                             outs, finalH, finalC);
      StepReached(e, m, stride, b0, b, b1, b2, b3, Contents(outs, finalH, finalC), prev, pStride, pCount, pStep,
                  minLen, s, lo, hi);
      if m.outputSequence {
        CoveredTwice(o0, b.outs, outs[..], stride, hiddenSize, batchSize, seqLength);
      }
    }

    /** The steps 0 .. maxLen-1 of batch rows lo .. hi-1, one after the other
        (the body of hidden_gemm_and_activations for one task of the
        batch-parallel regime, or the whole loop of the column-parallel
        regime): rows below `lo` have run every step before it and later rows
        none; after it the same holds of `hi`. */
    method RunSteps(ghost e: Run, p: GateParams, m: Mode, stride: nat, lens: seq<int>, minLen: int,
                    lo: nat, hi: nat, columns: bool, outs: array<real>, finalH: array<real>, finalC: array<real>,
                    ghost b0: Buffers, ghost o0: seq<real>)
      requires Running(e, p, m, stride, lens, minLen, lo, lo, outs, finalH, finalC, b0, o0, 0)
      requires lo <= hi <= batchSize && (columns ==> lo == 0 && hi == batchSize)
      modifies outputIfog, batchedInternalMemoryPrev, outs, finalH, finalC
      ensures Running(e, p, m, stride, lens, minLen, hi, hi, outs, finalH, finalC, b0, o0, 0)
    {
      Regrouped(e, m, stride, Contents(outs, finalH, finalC), b0, lo, lo, 0, lo, hi, 0);
      var step: nat := 0;
      while step < m.maxLen
        invariant Running(e, p, m, stride, lens, minLen, lo, hi, outs, finalH, finalC, b0, o0, step)
      {
        StepRows(e, p, m, stride, lens, minLen, step, lo, hi, columns, outs, finalH, finalC, b0, o0);
        step := step + 1;
      }
      Regrouped(e, m, stride, Contents(outs, finalH, finalC), b0, lo, hi, m.maxLen, hi, hi, 0);
    }

    /** The batch-parallel regime of the step loop: the tasks over chunks
        of `chunk` (fused_hidden_rows) rows, one after the other. */
    method BatchTasks(ghost e: Run, p: GateParams, m: Mode, stride: nat, lens: seq<int>, minLen: int,
                      chunk: nat, outs: array<real>, finalH: array<real>, finalC: array<real>,
                      ghost b0: Buffers, ghost o0: seq<real>)
      requires chunk >= 1
      requires Running(e, p, m, stride, lens, minLen, 0, 0, outs, finalH, finalC, b0, o0, 0)
      modifies outputIfog, batchedInternalMemoryPrev, outs, finalH, finalC
      ensures Running(e, p, m, stride, lens, minLen, batchSize, batchSize, outs, finalH, finalC, b0, o0, 0)
    {
      var row: nat := 0;
      while row < batchSize
        invariant Running(e, p, m, stride, lens, minLen, row, row, outs, finalH, finalC, b0, o0, 0)
        decreases batchSize - row
      {
        row := BatchTask(e, p, m, stride, lens, minLen, chunk, row, outs, finalH, finalC, b0, o0);
      }
    }

    /** One task of the batch-parallel regime: the step loops of rows
        row .. next-1, where `next` is where the following task starts (the
        tasks start at 0, chunk, 2 * chunk, ...; the last one ends at
        batch_size). */
    method BatchTask(ghost e: Run, p: GateParams, m: Mode, stride: nat, lens: seq<int>, minLen: int,
                     chunk: nat, row: nat, outs: array<real>, finalH: array<real>, finalC: array<real>,
                     ghost b0: Buffers, ghost o0: seq<real>) returns (next: nat)
      requires chunk >= 1 && row < batchSize
      requires Running(e, p, m, stride, lens, minLen, row, row, outs, finalH, finalC, b0, o0, 0)
      modifies outputIfog, batchedInternalMemoryPrev, outs, finalH, finalC
      ensures row < next <= batchSize
      ensures Running(e, p, m, stride, lens, minLen, next, next, outs, finalH, finalC, b0, o0, 0)
    {
      next := row + ChunkLength(row, chunk, batchSize);
      RunSteps(e, p, m, stride, lens, minLen, row, next, false, outs, finalH, finalC, b0, o0);
    }

    /** The step loops of Compute after the input projection: the tasks of the
        batch-parallel regime, or the column-parallel loop over all rows.
        Every row ends having run max_sequence_length steps from its initial
        state. */
    method StepLoop(ghost e: Run, p: GateParams, m: Mode, stride: nat, lens: seq<int>, minLen: int,
                    outs: array<real>, finalH: array<real>, finalC: array<real>)
      requires Running(e, p, m, stride, lens, minLen, 0, 0, outs, finalH, finalC,
                       Contents(outs, finalH, finalC), outs[..], 0)
      modifies outputIfog, batchedInternalMemoryPrev, outs, finalH, finalC
      ensures Running(e, p, m, stride, lens, minLen, batchSize, batchSize, outs, finalH, finalC,
                      old(Contents(outs, finalH, finalC)), old(outs[..]), 0)
    {
      if batchParallel {
        var chunk := ChunkSize(batchSize, hiddenNumThreads);
        BatchTasks(e, p, m, stride, lens, minLen, chunk, outs, finalH, finalC,
                   Contents(outs, finalH, finalC), outs[..]);
      } else {
        RunSteps(e, p, m, stride, lens, minLen, 0, batchSize, true, outs, finalH, finalC,
                 Contents(outs, finalH, finalC), outs[..]);
      }
    }

    /** With an output sequence, after the step loops: each row's final
        hidden row is copied from its output slot of step lens[r] - 1. */
    static method CopyLastOutputs(outs: seq<real>, stride: nat, finalH: array<real>, lens: seq<int>,
                                  h: nat, n: nat, seqLength: nat)
      requires Tiled(|outs|, stride, h, n, seqLength) && Tiled(finalH.Length, n * h, h, n, 1)
      requires |lens| == n && forall r :: 0 <= r < n ==> 1 <= lens[r] <= seqLength
      modifies finalH
      ensures LastOutputsCopied(outs, stride, finalH[..], lens, h, n, seqLength)
    {
      var i := 0;
      while i < n
        invariant i <= n
        invariant CopiedUpTo(outs, stride, finalH[..], lens, h, n, seqLength, i)
      {
        CopiedOneMore(outs, stride, finalH[..], lens, h, n, seqLength, i);
        RS.CopySlot(outs, SlotStart(stride, h, lens[i] - 1, i), finalH, SlotStart(n * h, h, 0, i), h);
        i := i + 1;
      }
    }

    /** The zero fill carried on past the longest row: at every step from
        `from` to seq_length - 1 every row has finished, so the zero-fill
        loop zeroes the slots of all rows. Earlier steps and the indices
        between the slots are left alone. */
    static method ZeroTail(outs: array<real>, stride: nat, h: nat, n: nat, seqLength: nat,
                           lens: seq<int>, minLen: int, from: nat)
      requires Tiled(outs.Length, stride, h, n, seqLength) && from <= seqLength
      requires |lens| == n && minLen <= from && forall r :: 0 <= r < n ==> lens[r] <= from
      modifies outs
      ensures ZeroedFrom(old(outs[..]), outs[..], stride, h, n, seqLength, from)
      ensures CoveredKept(old(outs[..]), outs[..], stride, h, n, seqLength)
    {
      ghost var o0 := outs[..];
      var step := from;
      while step < seqLength
        invariant from <= step <= seqLength
        invariant forall t, r :: 0 <= t < seqLength && 0 <= r < n ==>
                    RowSlot(outs[..], stride, h, n, seqLength, t, r)
                      == if from <= t < step then Zeros(h) else RowSlot(o0, stride, h, n, seqLength, t, r)
        invariant CoveredKept(o0, outs[..], stride, h, n, seqLength)
      {
        ghost var o1 := outs[..];
        ZeroFinishedOutputs(outs, stride, h, n, seqLength, lens, minLen, step, 0, n);
        ZeroedStep(o0, o1, outs[..], stride, h, n, seqLength, from, step);
        CoveredTwice(o0, o1, outs[..], stride, h, n, seqLength);
        step := step + 1;
      }
    }

    /** The input projection and the step loops of Compute on the inputs `xs`
        the loop reads and the lengths `lens`, writing the output sequence to
        `outs` with steps `stride` apart. The run `e` is this engine's on
        them, from the cell state the call started with. Every final cell row
        of a row of length at least 1 is its cell state after its last step,
        and so is the final hidden row without an output sequence; with one,
        each slot of a step below max_sequence_length holds the row's output
        and later slots and the indices between the slots are untouched. */
    method Recurrence(xs: seq<real>, lens: seq<int>, p: GateParams, outputSequence: bool, stride: nat,
                      outs: array<real>, finalH: array<real>, finalC: array<real>) returns (ghost e: Run)
      requires Valid() && batchSize > 0 && |xs| == seqLength * batchSize * inputSize
      requires |lens| == batchSize && LengthsInRange(lens, seqLength) && p == Params()
      requires Apart(outs, finalH, finalC)
      requires finalH.Length == batchSize * hiddenSize && finalC.Length == batchSize * hiddenSize
      requires outputSequence ==> Tiled(outs.Length, stride, hiddenSize, batchSize, seqLength)
      modifies outputIfog, batchedInternalMemoryPrev, outs, finalH, finalC
      ensures e == Run(p, old(weightsIfoc[..]), old(recurrentWeightsIfoc[..]), inputSize, seqLength, batchSize,
                       xs, old(batchedHidden0[..]), old(batchedInternalMemoryPrev[..]), lens)
      ensures LoopResults(e, Mode(outputSequence, MaxElement(lens)), stride, outs[..], finalH[..], finalC[..],
                          old(outs[..]), old(finalH[..]), old(finalC[..]))
      ensures outputSequence ==> CoveredKept(old(outs[..]), outs[..], stride, hiddenSize, batchSize, seqLength)
      ensures !outputSequence ==> outs[..] == old(outs[..])
    {
      var maxLen := MaxElement(lens);
      var minLen := MinSequenceLength(seqLength, lens);
      var m := Mode(outputSequence, maxLen);
      e := Prepare(xs, lens, p, m, minLen, stride, outs, finalH, finalC);
      ghost var b0 := Contents(outs, finalH, finalC);
      assert b0.outs == old(outs[..]) && b0.finalH == old(finalH[..]) && b0.finalC == old(finalC[..]);
      StepLoop(e, p, m, stride, lens, minLen, outs, finalH, finalC);
      ghost var b := Contents(outs, finalH, finalC);
      LoopDone(e, m, stride, b, b0);
      assert b.outs == outs[..] && b.finalH == finalH[..] && b.finalC == finalC[..];
    }

    /** The inputs the step loop reads: the operator's own going forward;
        going in reverse, their reversal into inputs_reverse_, one
        direction's worth of steps apart. */
    method ReadInputs(inputs: seq<real>, lens: seq<int>) returns (xs: seq<real>)
      requires Valid() && |inputs| == seqLength * batchSize * inputSize
      requires |lens| == batchSize && LengthsInRange(lens, seqLength)
      modifies inputsReverse
      ensures |xs| == |inputs|
      ensures direction == Forward ==> xs == inputs
      ensures direction == Reverse ==>
                RS.ReversedInto(inputs, xs, lens, seqLength, batchSize, inputSize, batchSize * inputSize)
    {
      xs := inputs;
      if direction == Reverse {
        Tilings();
        MulAssoc(seqLength, batchSize, inputSize);
        DenseTiled(|inputs|, inputSize, batchSize, seqLength);
        RS.ReverseSequence(inputs, inputsReverse, lens, seqLength, batchSize, inputSize, 1);
        xs := inputsReverse[..];
      }
    }

    /** Compute, with the zero fill of the gate loop carried on to the last
        step: runs the direction over the inputs, into the output sequence
        (steps num_directions * batch * hidden apart, when there is one) and
        the final states. The run `e` is this engine's from its weights,
        parameters and initial states, over the inputs in the direction's
        order and the given lengths (seq_length for every row when none are
        given). Every output slot holds its row's output at the step of its
        sequence in this direction, every final row the row's state after its
        last step (a row of length 0 keeps its final rows), and nothing
        between the output slots changes. */
    method Compute(inputs: seq<real>, givenLens: seq<int>, numDirections: nat,
                   outputs: array<real>, finalH: array<real>, finalC: array<real>) returns (ghost e: Run)
      requires Valid() && batchSize > 0 && |inputs| == seqLength * batchSize * inputSize
      requires |givenLens| == 0 || (|givenLens| == batchSize && LengthsInRange(givenLens, seqLength))
      requires numDirections == 1 || numDirections == 2
      requires outputs !in Repr && Apart(outputs, finalH, finalC)
      requires finalH.Length == batchSize * hiddenSize && finalC.Length == batchSize * hiddenSize
      requires outputs.Length != 0 ==>
                 && Tiled(outputs.Length, numDirections * batchSize * hiddenSize, hiddenSize, batchSize, seqLength)
                 && forall r :: 0 <= r < batchSize ==> 1 <= EffectiveLengths(givenLens, batchSize, seqLength)[r]
      modifies outputIfog, batchedInternalMemoryPrev, inputsReverse, outputsReverse, outputs, finalH, finalC
      ensures e == Run(old(Params()), old(weightsIfoc[..]), old(recurrentWeightsIfoc[..]), inputSize, seqLength, batchSize,
                       e.xs, old(batchedHidden0[..]), old(batchedInternalMemoryPrev[..]),
                       EffectiveLengths(givenLens, batchSize, seqLength))
      ensures direction == Forward ==> e.xs == inputs
      ensures direction == Reverse ==> InputsReversed(e, inputs)
      ensures CellsFinal(e, finalC[..], old(finalC[..])) && HiddenFinal(e, finalH[..], old(finalH[..]))
      ensures outputs.Length != 0 ==>
                && OutputsOf(e, direction == Reverse, numDirections * batchSize * hiddenSize, outputs[..])
                && CoveredKept(old(outputs[..]), outputs[..], numDirections * batchSize * hiddenSize,
                               hiddenSize, batchSize, seqLength)
      ensures outputs.Length == 0 ==> outputs[..] == old(outputs[..])
    {
      var lens := EffectiveLengths(givenLens, batchSize, seqLength);
      var xs := ReadInputs(inputs, lens);
      e := RunDirection(xs, lens, numDirections, outputs, finalH, finalC);
      if direction == Reverse {
        InputsReversedFrom(e, inputs);
      }
    }

    /** The step loops and the epilogue of Compute on the inputs `xs` the
        step loop reads, with the zero fill carried on past the longest row. */
    method RunDirection(xs: seq<real>, lens: seq<int>, numDirections: nat,
                        outputs: array<real>, finalH: array<real>, finalC: array<real>) returns (ghost e: Run)
      requires Valid() && batchSize > 0 && |xs| == seqLength * batchSize * inputSize
      requires |lens| == batchSize && LengthsInRange(lens, seqLength)
      requires numDirections == 1 || numDirections == 2
      requires outputs !in Repr && Apart(outputs, finalH, finalC)
      requires finalH.Length == batchSize * hiddenSize && finalC.Length == batchSize * hiddenSize
      requires outputs.Length != 0 ==>
                 && Tiled(outputs.Length, numDirections * batchSize * hiddenSize, hiddenSize, batchSize, seqLength)
                 && forall r :: 0 <= r < batchSize ==> 1 <= lens[r]
      modifies outputIfog, batchedInternalMemoryPrev, outputsReverse, outputs, finalH, finalC
      ensures e == Run(old(Params()), old(weightsIfoc[..]), old(recurrentWeightsIfoc[..]), inputSize, seqLength, batchSize,
                       xs, old(batchedHidden0[..]), old(batchedInternalMemoryPrev[..]), lens)
      ensures CellsFinal(e, finalC[..], old(finalC[..])) && HiddenFinal(e, finalH[..], old(finalH[..]))
      ensures outputs.Length != 0 ==>
                && OutputsOf(e, direction == Reverse, numDirections * batchSize * hiddenSize, outputs[..])
                && CoveredKept(old(outputs[..]), outputs[..], numDirections * batchSize * hiddenSize,
                               hiddenSize, batchSize, seqLength)
      ensures outputs.Length == 0 ==> outputs[..] == old(outputs[..])
    {
      var outputSequence := outputs.Length != 0;
      ghost var out0, h0 := outputs[..], finalH[..];
      Tilings();
      var outs := if direction == Reverse && outputSequence then outputsReverse else outputs;
      var stride := OutputStepLength(direction == Reverse, numDirections, batchSize, hiddenSize);
      ghost var o0 := outs[..];
      e := Recurrence(xs, lens, Params(), outputSequence, stride, outs, finalH, finalC);
      if outputSequence {
        FinishOutputs(e, direction == Reverse, numDirections, stride, lens, hiddenSize, batchSize, seqLength,
                      outs, outputs, finalH, o0, out0, h0);
      }
    }

    /** Compute as written: the zero fill stops at max_sequence_length - 1,
        so the output slots of later steps are never written. They keep what
        the operator's output held before the call going forward, and what
        outputs_reverse_ held (left from an earlier call or never written)
        going in reverse. Everything else is as in Compute. */
    method ComputeAsWritten(inputs: seq<real>, givenLens: seq<int>, numDirections: nat,
                            outputs: array<real>, finalH: array<real>, finalC: array<real>) returns (ghost e: Run)
      requires Valid() && batchSize > 0 && |inputs| == seqLength * batchSize * inputSize
      requires |givenLens| == 0 || (|givenLens| == batchSize && LengthsInRange(givenLens, seqLength))
      requires numDirections == 1 || numDirections == 2
      requires outputs !in Repr && Apart(outputs, finalH, finalC)
      requires finalH.Length == batchSize * hiddenSize && finalC.Length == batchSize * hiddenSize
      requires outputs.Length != 0 ==>
                 && Tiled(outputs.Length, numDirections * batchSize * hiddenSize, hiddenSize, batchSize, seqLength)
                 && forall r :: 0 <= r < batchSize ==> 1 <= EffectiveLengths(givenLens, batchSize, seqLength)[r]
      modifies outputIfog, batchedInternalMemoryPrev, inputsReverse, outputsReverse, outputs, finalH, finalC
      ensures e == Run(old(Params()), old(weightsIfoc[..]), old(recurrentWeightsIfoc[..]), inputSize, seqLength, batchSize,
                       e.xs, old(batchedHidden0[..]), old(batchedInternalMemoryPrev[..]),
                       EffectiveLengths(givenLens, batchSize, seqLength))
      ensures direction == Forward ==> e.xs == inputs
      ensures direction == Reverse ==> InputsReversed(e, inputs)
      ensures CellsFinal(e, finalC[..], old(finalC[..])) && HiddenFinal(e, finalH[..], old(finalH[..]))
      ensures outputs.Length != 0 && direction == Forward ==>
                OutputsAsWritten(e, false, numDirections * batchSize * hiddenSize, outputs[..],
                                 old(outputs[..]), numDirections * batchSize * hiddenSize)
      ensures outputs.Length != 0 && direction == Reverse ==>
                OutputsAsWritten(e, true, numDirections * batchSize * hiddenSize, outputs[..],
                                 old(outputsReverse[..]), batchSize * hiddenSize)
      ensures outputs.Length != 0 ==>
                CoveredKept(old(outputs[..]), outputs[..], numDirections * batchSize * hiddenSize,
                            hiddenSize, batchSize, seqLength)
      ensures outputs.Length == 0 ==> outputs[..] == old(outputs[..])
    {
      var lens := EffectiveLengths(givenLens, batchSize, seqLength);
      var xs := ReadInputs(inputs, lens);
      e := RunDirectionAsWritten(xs, lens, numDirections, outputs, finalH, finalC);
      if direction == Reverse {
        InputsReversedFrom(e, inputs);
      }
    }

    /** The step loops and the epilogue of Compute as written, on the inputs
        `xs` the step loop reads. */
    method RunDirectionAsWritten(xs: seq<real>, lens: seq<int>, numDirections: nat,
                                 outputs: array<real>, finalH: array<real>, finalC: array<real>) returns (ghost e: Run)
      requires Valid() && batchSize > 0 && |xs| == seqLength * batchSize * inputSize
      requires |lens| == batchSize && LengthsInRange(lens, seqLength)
      requires numDirections == 1 || numDirections == 2
      requires outputs !in Repr && Apart(outputs, finalH, finalC)
      requires finalH.Length == batchSize * hiddenSize && finalC.Length == batchSize * hiddenSize
      requires outputs.Length != 0 ==>
                 && Tiled(outputs.Length, numDirections * batchSize * hiddenSize, hiddenSize, batchSize, seqLength)
                 && forall r :: 0 <= r < batchSize ==> 1 <= lens[r]
      modifies outputIfog, batchedInternalMemoryPrev, outputsReverse, outputs, finalH, finalC
      ensures e == Run(old(Params()), old(weightsIfoc[..]), old(recurrentWeightsIfoc[..]), inputSize, seqLength, batchSize,
                       xs, old(batchedHidden0[..]), old(batchedInternalMemoryPrev[..]), lens)
      ensures CellsFinal(e, finalC[..], old(finalC[..])) && HiddenFinal(e, finalH[..], old(finalH[..]))
      ensures outputs.Length != 0 && direction == Forward ==>
                OutputsAsWritten(e, false, numDirections * batchSize * hiddenSize, outputs[..],
                                 old(outputs[..]), numDirections * batchSize * hiddenSize)
      ensures outputs.Length != 0 && direction == Reverse ==>
                OutputsAsWritten(e, true, numDirections * batchSize * hiddenSize, outputs[..],
                                 old(outputsReverse[..]), batchSize * hiddenSize)
      ensures outputs.Length != 0 ==>
                CoveredKept(old(outputs[..]), outputs[..], numDirections * batchSize * hiddenSize,
                            hiddenSize, batchSize, seqLength)
      ensures outputs.Length == 0 ==> outputs[..] == old(outputs[..])
    {
      var outputSequence := outputs.Length != 0;
      ghost var out0, h0 := outputs[..], finalH[..];
      Tilings();
      var outs := if direction == Reverse && outputSequence then outputsReverse else outputs;
      var stride := OutputStepLength(direction == Reverse, numDirections, batchSize, hiddenSize);
      ghost var o0 := outs[..];
      e := Recurrence(xs, lens, Params(), outputSequence, stride, outs, finalH, finalC);
      if outputSequence {
        FinishOutputsAsWritten(e, direction == Reverse, numDirections, stride, lens, hiddenSize, batchSize, seqLength,
                               outs, outputs, finalH, o0, out0, h0);
      }
    }

    /** Compute's epilogue with an output sequence, as written: each row's
        final hidden row is copied from its last output and going in reverse
        the reversed-output buffer is reversed into the operator's output;
        the slots from the longest row's length on are left as the step
        loops left them. */
    static method FinishOutputsAsWritten(ghost e: Run, reverse: bool, numDirections: nat, stride: nat, lens: seq<int>,
                                         h: nat, n: nat, seqLength: nat,
                                         outs: array<real>, outputs: array<real>, finalH: array<real>,
                                         ghost o0: seq<real>, ghost out0: seq<real>, ghost h0: seq<real>)
      requires Tiled(outputs.Length, numDirections * n * h, h, n, seqLength)
      requires e.Valid() && n > 0 && lens == e.lens && h == e.p.hiddenSize && n == e.batchSize && seqLength == e.seqLength
      requires forall r :: 0 <= r < n ==> 1 <= lens[r]
      requires OutputsBelow(e, MaxElement(lens), stride, outs[..], o0)
      requires Tiled(finalH.Length, n * h, h, n, 1) && |h0| == finalH.Length
      requires finalH != outs && finalH != outputs
      requires reverse ==> outs != outputs && stride == n * h && out0 == outputs[..]
      requires !reverse ==> outs == outputs && stride == numDirections * n * h
                            && CoveredKept(out0, outs[..], stride, h, n, seqLength)
      modifies outputs, finalH
      ensures HiddenFinal(e, finalH[..], h0)
      ensures OutputsAsWritten(e, reverse, numDirections * n * h, outputs[..], o0, stride)
      ensures CoveredKept(out0, outputs[..], numDirections * n * h, h, n, seqLength)
    {
      ghost var o1 := outs[..];
      CopyLastOutputs(outs[..], stride, finalH, lens, h, n, seqLength);
      LastHidden(e, stride, o1, o0, finalH[..], h0);
      if reverse {
        RS.ReverseSequence(outs[..], outputs, lens, seqLength, n, h, numDirections);
        ReversedAsWritten(e, numDirections * n * h, outs[..], o0, outputs[..]);
      } else {
        BelowAsWritten(e, stride, outs[..], o0);
      }
    }

    /** Compute's epilogue with an output sequence, with the zero fill
        carried on past the longest row: each row's final hidden row is
        copied from its last output, the slots from the longest row's length
        on are zeroed, and going in reverse the reversed-output buffer is
        reversed into the operator's output. `o0` is the buffer the step
        loops wrote before they ran, `out0` the operator's output and `h0`
        the final hidden rows before Compute. */
    static method FinishOutputs(ghost e: Run, reverse: bool, numDirections: nat, stride: nat, lens: seq<int>,
                                h: nat, n: nat, seqLength: nat,
                                outs: array<real>, outputs: array<real>, finalH: array<real>,
                                ghost o0: seq<real>, ghost out0: seq<real>, ghost h0: seq<real>)
      requires Tiled(outputs.Length, numDirections * n * h, h, n, seqLength)
      requires e.Valid() && n > 0 && lens == e.lens && h == e.p.hiddenSize && n == e.batchSize && seqLength == e.seqLength
      requires forall r :: 0 <= r < n ==> 1 <= lens[r]
      requires OutputsBelow(e, MaxElement(lens), stride, outs[..], o0)
      requires Tiled(finalH.Length, n * h, h, n, 1) && |h0| == finalH.Length
      requires finalH != outs && finalH != outputs
      requires reverse ==> outs != outputs && stride == n * h && out0 == outputs[..]
      requires !reverse ==> outs == outputs && stride == numDirections * n * h
                            && CoveredKept(out0, outs[..], stride, h, n, seqLength)
      modifies outs, outputs, finalH
      ensures HiddenFinal(e, finalH[..], h0)
      ensures OutputsOf(e, reverse, numDirections * n * h, outputs[..])
      ensures CoveredKept(out0, outputs[..], numDirections * n * h, h, n, seqLength)
    {
      ghost var o1 := outs[..];
      CopyLastOutputs(outs[..], stride, finalH, lens, h, n, seqLength);
      LastHidden(e, stride, o1, o0, finalH[..], h0);
      ZeroTail(outs, stride, h, n, seqLength, lens, MinSequenceLength(seqLength, lens), MaxElement(lens));
      TailZeroed(e, stride, o0, o1, outs[..]);
      if reverse {
        RS.ReverseSequence(outs[..], outputs, lens, seqLength, n, h, numDirections);
        OutputsReversed(e, numDirections * n * h, outs[..], outputs[..]);
      } else {
        CoveredTwice(out0, o1, outs[..], stride, h, n, seqLength);
      }
    }

    /** The input projection of Compute: input_gemm over the first
        max_sequence_length steps of all rows, after which the step loops can
        start from the rows' initial states. */
    method Prepare(xs: seq<real>, lens: seq<int>, p: GateParams, m: Mode, minLen: int, stride: nat,
                   outs: array<real>, finalH: array<real>, finalC: array<real>) returns (ghost e: Run)
      requires Valid() && batchSize > 0 && |xs| == seqLength * batchSize * inputSize
      requires |lens| == batchSize && LengthsInRange(lens, seqLength)
      requires p == Params() && m.maxLen == MaxElement(lens) && minLen == MinSequenceLength(seqLength, lens)
      requires Apart(outs, finalH, finalC)
      requires finalH.Length == batchSize * hiddenSize && finalC.Length == batchSize * hiddenSize
      requires m.outputSequence ==> Tiled(outs.Length, stride, hiddenSize, batchSize, seqLength)
      modifies outputIfog
      ensures e == Run(p, old(weightsIfoc[..]), old(recurrentWeightsIfoc[..]), inputSize, seqLength, batchSize,
                       xs, old(batchedHidden0[..]), old(batchedInternalMemoryPrev[..]), lens)
      ensures e.Valid() && m.maxLen <= seqLength && forall r :: 0 <= r < batchSize ==> lens[r] <= m.maxLen
      ensures Running(e, p, m, stride, lens, minLen, 0, 0, outs, finalH, finalC, Contents(outs, finalH, finalC), outs[..], 0)
    {
      LengthBounds(seqLength, lens);
      Tilings();
      e := Run(p, weightsIfoc[..], recurrentWeightsIfoc[..], inputSize, seqLength, batchSize,
               xs, batchedHidden0[..], batchedInternalMemoryPrev[..], lens);
      InputProjection(xs, m.maxLen);
      LoopEntry(e, p, m, stride, lens, minLen, outs, finalH, finalC);
    }

    /** Before the step loops, with the inputs projected: every row is at its
        initial state and no task has started. */
    lemma LoopEntry(e: Run, p: GateParams, m: Mode, stride: nat, lens: seq<int>, minLen: int,
                    outs: array<real>, finalH: array<real>, finalC: array<real>)
      requires Valid() && batchSize > 0 && Apart(outs, finalH, finalC)
      requires p == Params() && |lens| == batchSize && LengthsInRange(lens, seqLength)
      requires e == Run(p, weightsIfoc[..], recurrentWeightsIfoc[..], inputSize, seqLength, batchSize,
                        e.xs, batchedHidden0[..], batchedInternalMemoryPrev[..], lens)
      requires |e.xs| == seqLength * batchSize * inputSize
      requires minLen == MinSequenceLength(seqLength, lens) && m.maxLen <= seqLength
      requires finalH.Length == batchSize * hiddenSize && finalC.Length == batchSize * hiddenSize
      requires m.outputSequence ==> Tiled(outs.Length, stride, hiddenSize, batchSize, seqLength)
      requires StepsProjected(outputIfog[..], weightsIfoc[..], hiddenSize, inputSize, e.xs, seqLength, batchSize, m.maxLen)
      ensures e.Valid()
      ensures Running(e, p, m, stride, lens, minLen, 0, 0, outs, finalH, finalC, Contents(outs, finalH, finalC), outs[..], 0)
    {
      Tilings();
      DenseTiled(finalH.Length, hiddenSize, batchSize, 1);
      DenseTiled(finalC.Length, hiddenSize, batchSize, 1);
      var b0 := Contents(outs, finalH, finalC);
      assert Shaped(e, m, stride, b0);
      LoopStart(e, m, stride, b0);
    }
  }
}
