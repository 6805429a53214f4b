/** The elementwise routines GateComputations hands each gate segment to, and
    the per-row pipeline itself (GateRow). The routines are library code
    (elementwise_product, clip_add_bias / clip_ignore_bias, the activation
    functions, merge_lstm_gates_to_memory and the merging h function); the
    model fixes what each does to the `n` values it is given and nothing else. */
module GateKernels {
  import opened IndexArith
  import opened Slots
  import opened GateMath

  /** elementwise_product: out[k] += cur[k] * weights[k]. */
  method ElementwiseProduct(cur: array<real>, curOff: nat, weights: seq<real>, out: array<real>, outOff: nat, n: nat)
    requires cur != out && curOff + n <= cur.Length && n <= |weights| && outOff + n <= out.Length
    modifies out
    ensures forall q :: outOff <= q < outOff + n ==> out[q] == old(out[q]) + cur[curOff + (q - outOff)] * weights[q - outOff]
    ensures forall q :: 0 <= q < out.Length && !(outOff <= q < outOff + n) ==> out[q] == old(out[q])
  {
    var k := 0;
    while k < n
      invariant k <= n
      invariant forall q :: outOff <= q < outOff + k ==> out[q] == old(out[q]) + cur[curOff + (q - outOff)] * weights[q - outOff]
      invariant forall q :: 0 <= q < out.Length && !(outOff <= q < outOff + k) ==> out[q] == old(out[q])
    {
      out[outOff + k] := out[outOff + k] + cur[curOff + k] * weights[k];
      k := k + 1;
    }
  }

  /** clip_add_bias (with a bias) or clip_ignore_bias (without): the bias is
      added, then the value is clipped. */
  method ClipWithBias(p: GateParams, bias: seq<real>, a: array<real>, off: nat, n: nat)
    requires (p.useBias ==> n <= |bias|) && off + n <= a.Length
    modifies a
    ensures forall q :: off <= q < off + n ==> a[q] == ClipBias(p, old(a[q]), bias, q - off)
    ensures forall q :: 0 <= q < a.Length && !(off <= q < off + n) ==> a[q] == old(a[q])
  {
    var k := 0;
    while k < n
      invariant k <= n
      invariant forall q :: off <= q < off + k ==> a[q] == ClipBias(p, old(a[q]), bias, q - off)
      invariant forall q :: 0 <= q < a.Length && !(off <= q < off + k) ==> a[q] == old(a[q])
    {
      var x := if p.useBias then a[off + k] + bias[k] else a[off + k];
      a[off + k] := Clip(p.clip, x);
      k := k + 1;
    }
  }

  /** An activation function applied in place to `n` values. */
  method Activate(f: real -> real, a: array<real>, off: nat, n: nat)
    requires off + n <= a.Length
    modifies a
    ensures forall q :: off <= q < off + n ==> a[q] == f(old(a[q]))
    ensures forall q :: 0 <= q < a.Length && !(off <= q < off + n) ==> a[q] == old(a[q])
  {
    var k := 0;
    while k < n
      invariant k <= n
      invariant forall q :: off <= q < off + k ==> a[q] == f(old(a[q]))
      invariant forall q :: 0 <= q < a.Length && !(off <= q < off + k) ==> a[q] == old(a[q])
    {
      a[off + k] := f(a[off + k]);
      k := k + 1;
    }
  }

  /** The coupled forget gate: pf[k] = 1 - pi[k]. */
  method CoupleForgetGate(a: array<real>, iOff: nat, fOff: nat, n: nat)
    requires iOff + n <= fOff && fOff + n <= a.Length
    modifies a
    ensures forall q :: fOff <= q < fOff + n ==> a[q] == 1.0 - a[iOff + (q - fOff)]
    ensures forall q :: 0 <= q < a.Length && !(fOff <= q < fOff + n) ==> a[q] == old(a[q])
  {
    var k := 0;
    while k < n
      invariant k <= n
      invariant forall q :: fOff <= q < fOff + k ==> a[q] == 1.0 - a[iOff + (q - fOff)]
      invariant forall q :: 0 <= q < a.Length && !(fOff <= q < fOff + k) ==> a[q] == old(a[q])
    {
      a[fOff + k] := 1.0 - a[iOff + k];
      k := k + 1;
    }
  }

  /** merge_lstm_gates_to_memory with the previous cell row as its own output:
      C[k] = f[k] * C[k] + i[k] * g[k]. */
  method MergeGatesToMemory(gates: array<real>, iOff: nat, fOff: nat, gOff: nat, cell: array<real>, cellOff: nat, n: nat)
    requires gates != cell && iOff + n <= gates.Length && fOff + n <= gates.Length && gOff + n <= gates.Length
    requires cellOff + n <= cell.Length
    modifies cell
    ensures forall q :: cellOff <= q < cellOff + n ==>
              cell[q] == gates[fOff + (q - cellOff)] * old(cell[q]) + gates[iOff + (q - cellOff)] * gates[gOff + (q - cellOff)]
    ensures forall q :: 0 <= q < cell.Length && !(cellOff <= q < cellOff + n) ==> cell[q] == old(cell[q])
  {
    var k := 0;
    while k < n
      invariant k <= n
      invariant forall q :: cellOff <= q < cellOff + k ==>
                  cell[q] == gates[fOff + (q - cellOff)] * old(cell[q]) + gates[iOff + (q - cellOff)] * gates[gOff + (q - cellOff)]
      invariant forall q :: 0 <= q < cell.Length && !(cellOff <= q < cellOff + k) ==> cell[q] == old(cell[q])
    {
      cell[cellOff + k] := gates[fOff + k] * cell[cellOff + k] + gates[iOff + k] * gates[gOff + k];
      k := k + 1;
    }
  }

  /** The merging h function: H[k] = o[k] * h(C[k]). */
  method MergeToHidden(h: real -> real, cell: array<real>, cellOff: nat, gates: array<real>, oOff: nat,
                       out: array<real>, outOff: nat, n: nat)
    requires out != cell && out != gates
    requires cellOff + n <= cell.Length && oOff + n <= gates.Length && outOff + n <= out.Length
    modifies out
    ensures forall q :: outOff <= q < outOff + n ==> out[q] == gates[oOff + (q - outOff)] * h(cell[cellOff + (q - outOff)])
    ensures forall q :: 0 <= q < out.Length && !(outOff <= q < outOff + n) ==> out[q] == old(out[q])
  {
    var k := 0;
    while k < n
      invariant k <= n
      invariant forall q :: outOff <= q < outOff + k ==> out[q] == gates[oOff + (q - outOff)] * h(cell[cellOff + (q - outOff)])
      invariant forall q :: 0 <= q < out.Length && !(outOff <= q < outOff + k) ==> out[q] == old(out[q])
    {
      out[outOff + k] := gates[oOff + k] * h(cell[cellOff + k]);
      k := k + 1;
    }
  }

  /** std::fill with zeros over `n` values. */
  method FillZeros(a: array<real>, off: nat, n: nat)
    requires off + n <= a.Length
    modifies a
    ensures a[..] == Splice(old(a[..]), off, Zeros(n))
  {
    var k := 0;
    while k < n
      invariant k <= n
      invariant forall q :: 0 <= q < a.Length ==> a[q] == if off <= q < off + k then 0.0 else old(a[q])
    {
      a[off + k] := 0.0;
      k := k + 1;
    }
    assert a[..] == Splice(old(a[..]), off, Zeros(n));
  }

  /** The peephole stage of one gate segment: when peepholes are on, each
      value gets its cell value times its peephole weight added. */
  method PeepholeRow(p: GateParams, peep: seq<real>, ghost xs: seq<real>, ghost cs: seq<real>,
                     a: array<real>, off: nat, cell: array<real>, cellOff: nat, n: nat)
    requires (p.usePeepholes ==> n <= |peep|) && |xs| == n && |cs| == n
    requires a != cell && off + |xs| <= a.Length && cellOff + |xs| <= cell.Length
    requires forall k :: 0 <= k < |xs| ==> a[off + k] == xs[k] && cell[cellOff + k] == cs[k]
    modifies a
    ensures forall k :: 0 <= k < |xs| ==> a[off + k] == Peephole(p, xs[k], cs[k], peep, k)
    ensures forall q :: 0 <= q < a.Length && !(off <= q < off + |xs|) ==> a[q] == old(a[q])
  {
    if p.usePeepholes {
      ElementwiseProduct(cell, cellOff, peep, a, off, n);
      forall k | 0 <= k < |xs|
        ensures a[off + k] == Peephole(p, xs[k], cs[k], peep, k)
      {
        assert a[off + k] == old(a[off + k]) + cell[cellOff + k] * peep[k];
      }
    }
  }

  /** The clip and activation stages of one gate segment: each value gets its
      bias added (when there is one), is clipped, and goes through `f`. */
  method ClipActivateRow(p: GateParams, bias: seq<real>, f: real -> real, ghost xs: seq<real>, a: array<real>, off: nat, n: nat)
    requires (p.useBias ==> n <= |bias|) && |xs| == n && off + n <= a.Length
    requires forall k :: 0 <= k < |xs| ==> a[off + k] == xs[k]
    modifies a
    ensures forall k :: 0 <= k < |xs| ==> a[off + k] == f(ClipBias(p, xs[k], bias, k))
    ensures forall q :: 0 <= q < a.Length && !(off <= q < off + |xs|) ==> a[q] == old(a[q])
  {
    ClipWithBias(p, bias, a, off, n);
    ghost var clipped := a[..];
    Activate(f, a, off, n);
    forall k | 0 <= k < |xs|
      ensures a[off + k] == f(ClipBias(p, xs[k], bias, k))
    {
      assert clipped[off + k] == ClipBias(p, xs[k], bias, k);
    }
  }

  /** Input gate of one row: peephole with the previous cell, clip with bias, f. */
  method InputGateRow(p: GateParams, ghost pre: seq<real>, ghost cPrev: seq<real>,
                      ifog: array<real>, off: nat, cell: array<real>, cellOff: nat)
    requires p.Valid() && |pre| == 4 * p.hiddenSize && |cPrev| == p.hiddenSize
    requires ifog != cell && off + 4 * p.hiddenSize <= ifog.Length && cellOff + p.hiddenSize <= cell.Length
    requires forall k :: 0 <= k < p.hiddenSize ==> ifog[off + k] == pre[k] && cell[cellOff + k] == cPrev[k]
    modifies ifog
    ensures forall k :: 0 <= k < p.hiddenSize ==> ifog[off + k] == InputGate(p, pre, cPrev[k], k)
    ensures forall q :: 0 <= q < ifog.Length && !(off <= q < off + p.hiddenSize) ==> ifog[q] == old(ifog[q])
  {
    var h := p.hiddenSize;
    PeepholeRow(p, p.peepI, pre[..h], cPrev, ifog, off, cell, cellOff, h);
    ghost var peeped := ifog[off .. off + h];
    ClipActivateRow(p, p.biasI, p.act.f, peeped, ifog, off, h);
    forall k | 0 <= k < h
      ensures ifog[off + k] == InputGate(p, pre, cPrev[k], k)
    {
      assert peeped[k] == Peephole(p, pre[k], cPrev[k], p.peepI, k);
    }
  }

  /** Forget gate of one row: 1 - i when coupled, otherwise peephole with the
      previous cell, clip with bias, f. */
  method ForgetGateRow(p: GateParams, ghost pre: seq<real>, ghost cPrev: seq<real>,
                       ifog: array<real>, off: nat, cell: array<real>, cellOff: nat)
    requires p.Valid() && |pre| == 4 * p.hiddenSize && |cPrev| == p.hiddenSize
    requires ifog != cell && off + 4 * p.hiddenSize <= ifog.Length && cellOff + p.hiddenSize <= cell.Length
    requires forall k :: 0 <= k < p.hiddenSize ==>
               && ifog[off + k] == InputGate(p, pre, cPrev[k], k)
               && cell[cellOff + k] == cPrev[k]
    requires forall j :: p.hiddenSize <= j < 2 * p.hiddenSize ==> ifog[off + j] == pre[j]
    modifies ifog
    ensures forall k :: 0 <= k < p.hiddenSize ==>
              ifog[off + p.hiddenSize + k] == ForgetGate(p, pre, cPrev[k], k, InputGate(p, pre, cPrev[k], k))
    ensures forall q :: 0 <= q < ifog.Length && !(off + p.hiddenSize <= q < off + 2 * p.hiddenSize) ==> ifog[q] == old(ifog[q])
  {
    var h := p.hiddenSize;
    if p.inputForget {
      CoupleForgetGate(ifog, off, off + h, h);
      forall k | 0 <= k < h
        ensures ifog[off + h + k] == ForgetGate(p, pre, cPrev[k], k, InputGate(p, pre, cPrev[k], k))
      {
        var q := off + h + k;
        assert ifog[q] == 1.0 - ifog[off + k];
      }
    } else {
      PlainForgetGateRow(p, pre, cPrev, ifog, off, cell, cellOff);
    }
  }

  /** The uncoupled forget gate: peephole with the previous cell, clip with
      bias, f. */
  method PlainForgetGateRow(p: GateParams, ghost pre: seq<real>, ghost cPrev: seq<real>,
                            ifog: array<real>, off: nat, cell: array<real>, cellOff: nat)
    requires p.Valid() && !p.inputForget && |pre| == 4 * p.hiddenSize && |cPrev| == p.hiddenSize
    requires ifog != cell && off + 4 * p.hiddenSize <= ifog.Length && cellOff + p.hiddenSize <= cell.Length
    requires forall k :: 0 <= k < p.hiddenSize ==> cell[cellOff + k] == cPrev[k]
    requires forall j :: p.hiddenSize <= j < 2 * p.hiddenSize ==> ifog[off + j] == pre[j]
    modifies ifog
    ensures forall k :: 0 <= k < p.hiddenSize ==>
              ifog[off + p.hiddenSize + k] == ForgetGate(p, pre, cPrev[k], k, 0.0)
    ensures forall q :: 0 <= q < ifog.Length && !(off + p.hiddenSize <= q < off + 2 * p.hiddenSize) ==> ifog[q] == old(ifog[q])
  {
    var h := p.hiddenSize;
    forall k | 0 <= k < h
      ensures ifog[off + h + k] == pre[h .. 2 * h][k]
    {
      assert ifog[off + (h + k)] == pre[h + k];
    }
    PeepholeRow(p, p.peepF, pre[h .. 2 * h], cPrev, ifog, off + h, cell, cellOff, h);
    ghost var peeped := ifog[off + h .. off + 2 * h];
    ClipActivateRow(p, p.biasF, p.act.f, peeped, ifog, off + h, h);
    forall k | 0 <= k < h
      ensures ifog[off + h + k] == ForgetGate(p, pre, cPrev[k], k, 0.0)
    {
      assert peeped[k] == Peephole(p, pre[h + k], cPrev[k], p.peepF, k);
    }
  }

  /** Candidate gate of one row: clip with bias, g. */
  method CandidateGateRow(p: GateParams, ghost pre: seq<real>, ifog: array<real>, off: nat)
    requires p.Valid() && |pre| == 4 * p.hiddenSize
    requires off + 4 * p.hiddenSize <= ifog.Length
    requires forall j :: 3 * p.hiddenSize <= j < 4 * p.hiddenSize ==> ifog[off + j] == pre[j]
    modifies ifog
    ensures forall k :: 0 <= k < p.hiddenSize ==> ifog[off + 3 * p.hiddenSize + k] == CandidateGate(p, pre, k)
    ensures forall q :: 0 <= q < ifog.Length && !(off + 3 * p.hiddenSize <= q < off + 4 * p.hiddenSize) ==> ifog[q] == old(ifog[q])
  {
    var h := p.hiddenSize;
    forall k | 0 <= k < h
      ensures ifog[off + 3 * h + k] == pre[3 * h .. 4 * h][k]
    {
      assert ifog[off + (3 * h + k)] == pre[3 * h + k];
    }
    ClipActivateRow(p, p.biasC, p.act.g, pre[3 * h .. 4 * h], ifog, off + 3 * h, h);
  }

  /** The gates that do not depend on the new cell: i, f and the activated
      candidate replace their segments of the row; the output segment and the
      rest of the buffer are left alone. */
  method LeadingGates(p: GateParams, ghost pre: seq<real>, ghost cPrev: seq<real>,
                      ifog: array<real>, off: nat, cell: array<real>, cellOff: nat)
    requires p.Valid() && |pre| == 4 * p.hiddenSize && |cPrev| == p.hiddenSize
    requires ifog != cell && off + 4 * p.hiddenSize <= ifog.Length && cellOff + p.hiddenSize <= cell.Length
    requires forall j :: 0 <= j < 4 * p.hiddenSize ==> ifog[off + j] == pre[j]
    requires forall k :: 0 <= k < p.hiddenSize ==> cell[cellOff + k] == cPrev[k]
    modifies ifog
    ensures forall k :: 0 <= k < p.hiddenSize ==>
              && ifog[off + k] == InputGate(p, pre, cPrev[k], k)
              && ifog[off + p.hiddenSize + k] == ForgetGate(p, pre, cPrev[k], k, InputGate(p, pre, cPrev[k], k))
              && ifog[off + 3 * p.hiddenSize + k] == CandidateGate(p, pre, k)
    ensures forall j :: 2 * p.hiddenSize <= j < 3 * p.hiddenSize ==> ifog[off + j] == pre[j]
    ensures forall q :: 0 <= q < ifog.Length && !(off <= q < off + 4 * p.hiddenSize) ==> ifog[q] == old(ifog[q])
  {
    var h := p.hiddenSize;
    forall k | 0 <= k < h
      ensures ifog[off + k] == pre[k]
    {
      assert ifog[off + k] == pre[k];
    }
    InputGateRow(p, pre, cPrev, ifog, off, cell, cellOff);
    ForgetGateRow(p, pre, cPrev, ifog, off, cell, cellOff);
    CandidateGateRow(p, pre, ifog, off);
  }

  /** The new cell row overwrites the previous one: C = f * C + i * g. */
  method CellRow(p: GateParams, ghost pre: seq<real>, ghost cPrev: seq<real>,
                 ifog: array<real>, off: nat, cell: array<real>, cellOff: nat)
    requires p.Valid() && |pre| == 4 * p.hiddenSize && |cPrev| == p.hiddenSize
    requires ifog != cell && off + 4 * p.hiddenSize <= ifog.Length && cellOff + p.hiddenSize <= cell.Length
    requires forall k :: 0 <= k < p.hiddenSize ==>
               && ifog[off + k] == InputGate(p, pre, cPrev[k], k)
               && ifog[off + p.hiddenSize + k] == ForgetGate(p, pre, cPrev[k], k, InputGate(p, pre, cPrev[k], k))
               && ifog[off + 3 * p.hiddenSize + k] == CandidateGate(p, pre, k)
               && cell[cellOff + k] == cPrev[k]
    modifies cell
    ensures forall k :: 0 <= k < p.hiddenSize ==> cell[cellOff + k] == UnitStep(p, pre, cPrev[k], k).cell
    ensures forall q :: 0 <= q < cell.Length && !(cellOff <= q < cellOff + p.hiddenSize) ==> cell[q] == old(cell[q])
  {
    var h := p.hiddenSize;
    MergeGatesToMemory(ifog, off, off + h, off + 3 * h, cell, cellOff, h);
    forall k | 0 <= k < h
      ensures cell[cellOff + k] == UnitStep(p, pre, cPrev[k], k).cell
    {
      var u := UnitStep(p, pre, cPrev[k], k);
      assert ifog[off + k] == u.i && ifog[off + h + k] == u.f && ifog[off + 3 * h + k] == u.g;
      assert cell[cellOff + k] == ifog[off + h + k] * cPrev[k] + ifog[off + k] * ifog[off + 3 * h + k];
    }
  }

  /** Output gate of one row: peephole with the NEW cell row `cNew`, clip
      with bias, f. */
  method OutputGateRow(p: GateParams, ghost pre: seq<real>, ghost cNew: seq<real>,
                       ifog: array<real>, off: nat, cell: array<real>, cellOff: nat)
    requires p.Valid() && |pre| == 4 * p.hiddenSize && |cNew| == p.hiddenSize
    requires ifog != cell && off + 4 * p.hiddenSize <= ifog.Length && cellOff + p.hiddenSize <= cell.Length
    requires forall j :: 2 * p.hiddenSize <= j < 3 * p.hiddenSize ==> ifog[off + j] == pre[j]
    requires forall k :: 0 <= k < p.hiddenSize ==> cell[cellOff + k] == cNew[k]
    modifies ifog
    ensures forall k :: 0 <= k < p.hiddenSize ==> ifog[off + 2 * p.hiddenSize + k] == OutputGate(p, pre, cNew[k], k)
    ensures forall q :: 0 <= q < ifog.Length && !(off + 2 * p.hiddenSize <= q < off + 3 * p.hiddenSize) ==> ifog[q] == old(ifog[q])
  {
    var h := p.hiddenSize;
    forall k | 0 <= k < h
      ensures ifog[off + 2 * h + k] == pre[2 * h .. 3 * h][k]
    {
      assert ifog[off + (2 * h + k)] == pre[2 * h + k];
    }
    PeepholeRow(p, p.peepO, pre[2 * h .. 3 * h], cNew, ifog, off + 2 * h, cell, cellOff, h);
    ghost var peeped := ifog[off + 2 * h .. off + 3 * h];
    ClipActivateRow(p, p.biasO, p.act.f, peeped, ifog, off + 2 * h, h);
    forall k | 0 <= k < h
      ensures ifog[off + 2 * h + k] == OutputGate(p, pre, cNew[k], k)
    {
      assert peeped[k] == Peephole(p, pre[2 * h + k], cNew[k], p.peepO, k);
    }
  }

  /** The hidden row: H = o * h(C), written to the output slot. */
  method HiddenRow(p: GateParams, ghost pre: seq<real>, ghost cPrev: seq<real>,
                   ifog: array<real>, off: nat, cell: array<real>, cellOff: nat, out: array<real>, outOff: nat)
    requires p.Valid() && |pre| == 4 * p.hiddenSize && |cPrev| == p.hiddenSize
    requires out != ifog && out != cell
    requires off + 4 * p.hiddenSize <= ifog.Length && cellOff + p.hiddenSize <= cell.Length
    requires outOff + p.hiddenSize <= out.Length
    requires forall k :: 0 <= k < p.hiddenSize ==>
               && ifog[off + 2 * p.hiddenSize + k] == OutputGate(p, pre, UnitStep(p, pre, cPrev[k], k).cell, k)
               && cell[cellOff + k] == UnitStep(p, pre, cPrev[k], k).cell
    modifies out
    ensures forall k :: 0 <= k < p.hiddenSize ==> out[outOff + k] == UnitStep(p, pre, cPrev[k], k).hidden
    ensures forall q :: 0 <= q < out.Length && !(outOff <= q < outOff + p.hiddenSize) ==> out[q] == old(out[q])
  {
    var h := p.hiddenSize;
    MergeToHidden(p.act.h, cell, cellOff, ifog, off + 2 * h, out, outOff, h);
    forall k | 0 <= k < h
      ensures out[outOff + k] == UnitStep(p, pre, cPrev[k], k).hidden
    {
      var q := outOff + k;
      assert out[q] == ifog[off + 2 * h + k] * p.act.h(cell[cellOff + k]);
    }
  }

  /** GateComputations for one running row: the four gate segments of the
      row's pre-activations are overwritten by the activated gates, the
      previous-cell row by the new cell values and the output slot by the new
      hidden values; nothing else changes. */
  method GateRow(p: GateParams, ifog: array<real>, off: nat, cell: array<real>, cellOff: nat, out: array<real>, outOff: nat)
    requires p.Valid() && ifog != cell && out != ifog && out != cell
    requires off + 4 * p.hiddenSize <= ifog.Length && cellOff + p.hiddenSize <= cell.Length
    requires outOff + p.hiddenSize <= out.Length
    modifies ifog, cell, out
    ensures var pre, cPrev := Slot(old(ifog[..]), off, 4 * p.hiddenSize), Slot(old(cell[..]), cellOff, p.hiddenSize);
            && ifog[..] == Splice(old(ifog[..]), off, GatesAfter(p, pre, cPrev))
            && cell[..] == Splice(old(cell[..]), cellOff, CellAfter(p, pre, cPrev))
            && out[..] == Splice(old(out[..]), outOff, HiddenAfter(p, pre, cPrev))
  {
    var h := p.hiddenSize;
    ghost var pre, cPrev := Slot(ifog[..], off, 4 * h), Slot(cell[..], cellOff, h);
    ghost var ifog0, cell0, out0 := ifog[..], cell[..], out[..];
    LeadingGates(p, pre, cPrev, ifog, off, cell, cellOff);
    CellRow(p, pre, cPrev, ifog, off, cell, cellOff);
    OutputGateRow(p, pre, CellAfter(p, pre, cPrev), ifog, off, cell, cellOff);
    HiddenRow(p, pre, cPrev, ifog, off, cell, cellOff, out, outOff);
    GatesInPlace(p, pre, cPrev, ifog0, ifog[..], off);
    UnitsInPlace(cell0, cell[..], cellOff, CellAfter(p, pre, cPrev));
    UnitsInPlace(out0, out[..], outOff, HiddenAfter(p, pre, cPrev));
  }

  /** A buffer whose four segments at `off` hold the activated gates, and which
      is unchanged elsewhere, is the old buffer with GatesAfter spliced in. */
  lemma GatesInPlace(p: GateParams, pre: seq<real>, cPrev: seq<real>, a: seq<real>, a': seq<real>, off: nat)
    requires p.Valid() && |pre| == 4 * p.hiddenSize && |cPrev| == p.hiddenSize
    requires off + 4 * p.hiddenSize <= |a| == |a'|
    requires forall k :: 0 <= k < p.hiddenSize ==>
               var u := UnitStep(p, pre, cPrev[k], k);
               && a'[off + k] == u.i && a'[off + p.hiddenSize + k] == u.f
               && a'[off + 2 * p.hiddenSize + k] == u.o && a'[off + 3 * p.hiddenSize + k] == u.g
    requires forall q :: 0 <= q < |a| && !(off <= q < off + 4 * p.hiddenSize) ==> a'[q] == a[q]
    ensures a' == Splice(a, off, GatesAfter(p, pre, cPrev))
  {
    var h := p.hiddenSize;
    forall q | off <= q < off + 4 * h
      ensures a'[q] == GatesAfter(p, pre, cPrev)[q - off]
    {
      var j := q - off;
      RowBelow(j, h, 4);
      var seg, k := j / h, j % h;
      assert j == Offset(0, h, seg, k);
      GatesAfterAt(p, pre, cPrev, seg, k);
    }
  }

  /** A buffer holding `row` at `off`, and unchanged elsewhere, is the old buffer
      with `row` spliced in. */
  lemma UnitsInPlace(a: seq<real>, a': seq<real>, off: nat, row: seq<real>)
    requires off + |row| <= |a| == |a'|
    requires forall k :: 0 <= k < |row| ==> a'[off + k] == row[k]
    requires forall q :: 0 <= q < |a| && !(off <= q < off + |row|) ==> a'[q] == a[q]
    ensures a' == Splice(a, off, row)
  {
    forall q | off <= q < off + |row|
      ensures a'[q] == row[q - off]
    {
      assert a'[off + (q - off)] == row[q - off];
    }
  }
}
