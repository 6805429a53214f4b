/** The elementwise gate pipeline GateComputations runs on one batch row of one
    step: peephole, fused bias and clip, activation, cell merge and hidden
    output. A row's pre-activation buffer holds four segments of hidden_size
    values in the engine's gate order i, f, o, c. */
module GateMath {
  import opened IndexArith

  /** The three configurable activation functions (alpha and beta already bound). */
  datatype Activations = Activations(f: real -> real, g: real -> real, h: real -> real)

  /** Bounds a value to [-threshold, threshold]: the clip applied to the input of
      every activation. */
  function Clip(threshold: real, x: real): real
  {
    if x < -threshold then -threshold else if x > threshold then threshold else x
  }

  /** A clip with a non-negative threshold bounds its result and leaves values
      already inside the bounds alone. */
  lemma ClipBounds(threshold: real, x: real)
    ensures threshold >= 0.0 ==> -threshold <= Clip(threshold, x) <= threshold
    ensures -threshold <= x <= threshold ==> Clip(threshold, x) == x
  {
  }

  /** Everything GateComputations reads besides the row itself: the flags, the
      fused biases (empty when there is no bias) and the peephole views (empty
      when there are no peepholes). */
  datatype GateParams = GateParams(
    hiddenSize: nat, inputForget: bool, useBias: bool, usePeepholes: bool,
    biasI: seq<real>, biasF: seq<real>, biasO: seq<real>, biasC: seq<real>,
    peepI: seq<real>, peepO: seq<real>, peepF: seq<real>,
    act: Activations, clip: real)
  {
    predicate Valid()
    {
      && (useBias ==> |biasI| == hiddenSize && |biasF| == hiddenSize && |biasO| == hiddenSize && |biasC| == hiddenSize)
      && (usePeepholes ==> |peepI| == hiddenSize && |peepO| == hiddenSize && |peepF| == hiddenSize)
    }
  }

  /** clip_add_bias when there is a bias, clip_ignore_bias otherwise: the bias is
      added (or not) before the clip. */
  function ClipBias(p: GateParams, x: real, bias: seq<real>, k: nat): real
    requires p.useBias ==> k < |bias|
  {
    Clip(p.clip, BiasAdded(p, x, bias, k))
  }

  function BiasAdded(p: GateParams, x: real, bias: seq<real>, k: nat): real
    requires p.useBias ==> k < |bias|
  {
    if p.useBias then x + bias[k] else x
  }

  /** elementwise_product into the gate: adds cell * weight when peepholes are used. */
  function Peephole(p: GateParams, x: real, cell: real, weights: seq<real>, k: nat): real
    requires p.usePeepholes ==> k < |weights|
  {
    if p.usePeepholes then x + cell * weights[k] else x
  }

  /** The values one hidden unit takes in one step. */
  datatype Unit = Unit(i: real, f: real, o: real, g: real, cell: real, hidden: real)

  /** Hidden unit `k` of a row whose pre-activations are `pre` and whose previous
      cell value is `cPrev`. The forget gate is 1 - i when input and forget gates
      are coupled; the output gate's peephole sees the NEW cell value. */
  function UnitStep(p: GateParams, pre: seq<real>, cPrev: real, k: nat): Unit
    requires p.Valid() && |pre| == 4 * p.hiddenSize && k < p.hiddenSize
  {
    var i := InputGate(p, pre, cPrev, k);
    var f := ForgetGate(p, pre, cPrev, k, i);
    var g := CandidateGate(p, pre, k);
    var cell := f * cPrev + i * g;
    var o := OutputGate(p, pre, cell, k);
    Unit(i, f, o, g, cell, o * p.act.h(cell))
  }

  /** The new cell value of a unit is f * C + i * g of its own gates. */
  lemma UnitCell(p: GateParams, pre: seq<real>, cPrev: real, k: nat)
    requires p.Valid() && |pre| == 4 * p.hiddenSize && k < p.hiddenSize
    ensures var u := UnitStep(p, pre, cPrev, k);
            && u.i == InputGate(p, pre, cPrev, k) && u.f == ForgetGate(p, pre, cPrev, k, u.i)
            && u.g == CandidateGate(p, pre, k) && u.cell == u.f * cPrev + u.i * u.g
  {
  }

  function InputGate(p: GateParams, pre: seq<real>, cPrev: real, k: nat): real
    requires p.Valid() && |pre| == 4 * p.hiddenSize && k < p.hiddenSize
  {
    p.act.f(ClipBias(p, Peephole(p, pre[k], cPrev, p.peepI, k), p.biasI, k))
  }

  function ForgetGate(p: GateParams, pre: seq<real>, cPrev: real, k: nat, i: real): real
    requires p.Valid() && |pre| == 4 * p.hiddenSize && k < p.hiddenSize
  {
    if p.inputForget then 1.0 - i
    else p.act.f(ClipBias(p, Peephole(p, pre[p.hiddenSize + k], cPrev, p.peepF, k), p.biasF, k))
  }

  function CandidateGate(p: GateParams, pre: seq<real>, k: nat): real
    requires p.Valid() && |pre| == 4 * p.hiddenSize && k < p.hiddenSize
  {
    p.act.g(ClipBias(p, pre[3 * p.hiddenSize + k], p.biasC, k))
  }

  function OutputGate(p: GateParams, pre: seq<real>, cell: real, k: nat): real
    requires p.Valid() && |pre| == 4 * p.hiddenSize && k < p.hiddenSize
  {
    p.act.f(ClipBias(p, Peephole(p, pre[2 * p.hiddenSize + k], cell, p.peepO, k), p.biasO, k))
  }

  /** With a non-negative threshold, every value handed to an activation of the
      pipeline (f for i, f and o, g for the candidate) lies in [-clip, clip],
      whatever the pre-activation, bias and peephole contributions were. */
  lemma ActivationInputsClipped(p: GateParams, pre: seq<real>, cPrev: real, cell: real, k: nat)
    requires p.Valid() && |pre| == 4 * p.hiddenSize && k < p.hiddenSize && p.clip >= 0.0
    ensures -p.clip <= ClipBias(p, Peephole(p, pre[k], cPrev, p.peepI, k), p.biasI, k) <= p.clip
    ensures -p.clip <= ClipBias(p, Peephole(p, pre[p.hiddenSize + k], cPrev, p.peepF, k), p.biasF, k) <= p.clip
    ensures -p.clip <= ClipBias(p, Peephole(p, pre[2 * p.hiddenSize + k], cell, p.peepO, k), p.biasO, k) <= p.clip
    ensures -p.clip <= ClipBias(p, pre[3 * p.hiddenSize + k], p.biasC, k) <= p.clip
  {
    ClipBounds(p.clip, BiasAdded(p, Peephole(p, pre[k], cPrev, p.peepI, k), p.biasI, k));
    ClipBounds(p.clip, BiasAdded(p, Peephole(p, pre[p.hiddenSize + k], cPrev, p.peepF, k), p.biasF, k));
    ClipBounds(p.clip, BiasAdded(p, Peephole(p, pre[2 * p.hiddenSize + k], cell, p.peepO, k), p.biasO, k));
    ClipBounds(p.clip, BiasAdded(p, pre[3 * p.hiddenSize + k], p.biasC, k));
  }

  /** Gate value stored at unit `k` of segment `seg` of the row buffer after the
      pipeline: segments 0 .. 3 hold i, f, o and the activated candidate c. */
  function GateAt(p: GateParams, pre: seq<real>, cPrev: seq<real>, seg: nat, k: nat): real
    requires p.Valid() && |pre| == 4 * p.hiddenSize && |cPrev| == p.hiddenSize && seg < 4 && k < p.hiddenSize
  {
    var u := UnitStep(p, pre, cPrev[k], k);
    if seg == 0 then u.i else if seg == 1 then u.f else if seg == 2 then u.o else u.g
  }

  /** The row's pre-activation buffer after GateComputations: the activated gates
      overwrite their pre-activations in place (GatesAfterAt says where each lands). */
  function GatesAfter(p: GateParams, pre: seq<real>, cPrev: seq<real>): (gates: seq<real>)
    requires p.Valid() && |pre| == 4 * p.hiddenSize && |cPrev| == p.hiddenSize
    ensures |gates| == 4 * p.hiddenSize
  {
    seq(4 * p.hiddenSize, j requires 0 <= j < 4 * p.hiddenSize => SegmentCell(p, pre, cPrev, j))
  }

  /** Unit `k` of segment `seg` of the buffer holds that unit's gate `seg`. */
  lemma GatesAfterAt(p: GateParams, pre: seq<real>, cPrev: seq<real>, seg: nat, k: nat)
    requires p.Valid() && |pre| == 4 * p.hiddenSize && |cPrev| == p.hiddenSize && seg < 4 && k < p.hiddenSize
    ensures Offset(0, p.hiddenSize, seg, k) < 4 * p.hiddenSize
    ensures GatesAfter(p, pre, cPrev)[Offset(0, p.hiddenSize, seg, k)] == GateAt(p, pre, cPrev, seg, k)
  {
    CellBelow(seg, k, p.hiddenSize, 4);
    DivModOf(seg, k, p.hiddenSize);
  }

  function SegmentCell(p: GateParams, pre: seq<real>, cPrev: seq<real>, j: nat): real
    requires p.Valid() && |pre| == 4 * p.hiddenSize && |cPrev| == p.hiddenSize && j < 4 * p.hiddenSize
  {
    RowBelow(j, p.hiddenSize, 4);
    GateAt(p, pre, cPrev, j / p.hiddenSize, j % p.hiddenSize)
  }

  /** The new cell values of the row: they overwrite the previous ones in place. */
  function CellAfter(p: GateParams, pre: seq<real>, cPrev: seq<real>): (cells: seq<real>)
    requires p.Valid() && |pre| == 4 * p.hiddenSize && |cPrev| == p.hiddenSize
    ensures |cells| == p.hiddenSize
    ensures forall k :: 0 <= k < p.hiddenSize ==> cells[k] == UnitStep(p, pre, cPrev[k], k).cell
  {
    seq(p.hiddenSize, k requires 0 <= k < p.hiddenSize => UnitStep(p, pre, cPrev[k], k).cell)
  }

  /** The new hidden values of the row, written to the step's output slot. */
  function HiddenAfter(p: GateParams, pre: seq<real>, cPrev: seq<real>): (hidden: seq<real>)
    requires p.Valid() && |pre| == 4 * p.hiddenSize && |cPrev| == p.hiddenSize
    ensures |hidden| == p.hiddenSize
    ensures forall k :: 0 <= k < p.hiddenSize ==> hidden[k] == UnitStep(p, pre, cPrev[k], k).hidden
  {
    seq(p.hiddenSize, k requires 0 <= k < p.hiddenSize => UnitStep(p, pre, cPrev[k], k).hidden)
  }

  /** Coupled gates: the forget gate is 1 - i, and the forget segment of the
      pre-activations, the forget bias and the forget peephole are never read. */
  lemma InputForgetCoupled(p: GateParams, pre: seq<real>, pre': seq<real>, cPrev: seq<real>,
                           biasF': seq<real>, peepF': seq<real>)
    requires p.Valid() && p.inputForget && |pre| == 4 * p.hiddenSize && |cPrev| == p.hiddenSize
    requires |pre'| == |pre|
    requires forall j :: 0 <= j < |pre| && !(p.hiddenSize <= j < 2 * p.hiddenSize) ==> pre'[j] == pre[j]
    requires p.useBias ==> |biasF'| == p.hiddenSize
    requires p.usePeepholes ==> |peepF'| == p.hiddenSize
    ensures forall k :: 0 <= k < p.hiddenSize ==>
              GateAt(p, pre, cPrev, 1, k) == 1.0 - GateAt(p, pre, cPrev, 0, k)
    ensures var p' := p.(biasF := biasF', peepF := peepF');
            && CellAfter(p', pre', cPrev) == CellAfter(p, pre, cPrev)
            && HiddenAfter(p', pre', cPrev) == HiddenAfter(p, pre, cPrev)
  {
    var h, p' := p.hiddenSize, p.(biasF := biasF', peepF := peepF');
    forall k | 0 <= k < h
      ensures UnitStep(p', pre', cPrev[k], k) == UnitStep(p, pre, cPrev[k], k)
    {
      CoupledUnit(p, pre, pre', cPrev[k], biasF', peepF', k);
    }
  }

  lemma CoupledUnit(p: GateParams, pre: seq<real>, pre': seq<real>, cPrev: real,
                    biasF': seq<real>, peepF': seq<real>, k: nat)
    requires p.Valid() && p.inputForget && |pre| == 4 * p.hiddenSize && k < p.hiddenSize
    requires |pre'| == |pre|
    requires pre'[k] == pre[k] && pre'[2 * p.hiddenSize + k] == pre[2 * p.hiddenSize + k]
    requires pre'[3 * p.hiddenSize + k] == pre[3 * p.hiddenSize + k]
    requires p.useBias ==> |biasF'| == p.hiddenSize
    requires p.usePeepholes ==> |peepF'| == p.hiddenSize
    ensures UnitStep(p.(biasF := biasF', peepF := peepF'), pre', cPrev, k) == UnitStep(p, pre, cPrev, k)
  {
    var p' := p.(biasF := biasF', peepF := peepF');
    SameUnit(p, pre, p', pre', cPrev, k);
  }

  /** Without peepholes the peephole views are never read. */
  lemma PeepholesUnused(p: GateParams, pre: seq<real>, cPrev: seq<real>,
                        peepI': seq<real>, peepO': seq<real>, peepF': seq<real>)
    requires p.Valid() && !p.usePeepholes && |pre| == 4 * p.hiddenSize && |cPrev| == p.hiddenSize
    ensures var p' := p.(peepI := peepI', peepO := peepO', peepF := peepF');
            && GatesAfter(p', pre, cPrev) == GatesAfter(p, pre, cPrev)
            && CellAfter(p', pre, cPrev) == CellAfter(p, pre, cPrev)
            && HiddenAfter(p', pre, cPrev) == HiddenAfter(p, pre, cPrev)
  {
    var p' := p.(peepI := peepI', peepO := peepO', peepF := peepF');
    forall k | 0 <= k < p.hiddenSize
      ensures UnitStep(p', pre, cPrev[k], k) == UnitStep(p, pre, cPrev[k], k)
    {
      SameUnit(p, pre, p', pre, cPrev[k], k);
    }
    assert GatesAfter(p', pre, cPrev) == GatesAfter(p, pre, cPrev);
  }

  /** Two parameter sets and rows whose four gates agree give the same unit values. */
  lemma SameUnit(p: GateParams, pre: seq<real>, p': GateParams, pre': seq<real>, cPrev: real, k: nat)
    requires p.Valid() && |pre| == 4 * p.hiddenSize && k < p.hiddenSize
    requires p'.Valid() && |pre'| == 4 * p'.hiddenSize && k < p'.hiddenSize
    requires p'.act == p.act
    requires InputGate(p', pre', cPrev, k) == InputGate(p, pre, cPrev, k)
    requires var i := InputGate(p, pre, cPrev, k);
             ForgetGate(p', pre', cPrev, k, i) == ForgetGate(p, pre, cPrev, k, i)
    requires CandidateGate(p', pre', k) == CandidateGate(p, pre, k)
    requires var cell := UnitStep(p, pre, cPrev, k).cell;
             OutputGate(p', pre', cell, k) == OutputGate(p, pre, cell, k)
    ensures UnitStep(p', pre', cPrev, k) == UnitStep(p, pre, cPrev, k)
  {
    var u, u' := UnitStep(p, pre, cPrev, k), UnitStep(p', pre', cPrev, k);
    assert u'.i == u.i && u'.f == u.f && u'.g == u.g;
    assert u'.cell == u.cell;
    assert u'.o == u.o && u'.hidden == u.hidden;
  }
}
