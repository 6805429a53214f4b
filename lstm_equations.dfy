/** The LSTM equations the operator documents, on the operator's own tensor
    layouts, and the proof that the engine's rearranged weights, fused biases
    and gate pipeline compute exactly them.

      it = f(Xt*(Wi^T) + Ht-1*Ri + Pi (.) Ct-1 + Wbi + Rbi)
      ft = f(Xt*(Wf^T) + Ht-1*Rf + Pf (.) Ct-1 + Wbf + Rbf)
      ct = g(Xt*(Wc^T) + Ht-1*Rc + Wbc + Rbc)
      Ct = ft (.) Ct-1 + it (.) ct
      ot = f(Xt*(Wo^T) + Ht-1*Ro + Po (.) Ct + Wbo + Rbo)
      Ht = ot (.) h(Ct)

    Gate blocks of W, R, Wb and Rb come in the order i, o, f, c; those of P in the
    order i, o, f. The clip bounds the input of every activation; with coupled
    gates ft is 1 - it. An absent bias or peephole tensor counts as zero. */
module LstmEquations {
  import opened IndexArith
  import opened MatMul
  import opened GateMath
  import opened WeightLayout

  /** Gate block positions in the operator's tensors. */
  const GateI: nat := 0
  const GateO: nat := 1
  const GateF: nat := 2
  const GateC: nat := 3

  /** One direction's weights as the caller passes them: W [4*hidden x input],
      R [4*hidden x hidden], B = [Wb | Rb] (8*hidden, or empty) and
      P = [Pi | Po | Pf] (3*hidden, or empty). */
  datatype Weights = Weights(hiddenSize: nat, inputSize: nat, w: seq<real>, r: seq<real>, b: seq<real>, p: seq<real>)
  {
    predicate Valid()
    {
      && |w| == 4 * hiddenSize * inputSize
      && |r| == 4 * hiddenSize * hiddenSize
      && (|b| == 0 || |b| == 8 * hiddenSize)
      && (|p| == 0 || |p| == 3 * hiddenSize)
    }
  }

  /** The per-direction settings the equations use besides the weights. */
  datatype Config = Config(inputForget: bool, act: Activations, clip: real)

  /** Hidden and cell state of one batch row. */
  datatype State = State(hidden: seq<real>, cell: seq<real>)

  /** A dense `rows x cols` matrix fits its `rows * cols` elements. */
  lemma DenseFits(rows: nat, cols: nat)
    ensures Fits(rows * cols, 0, rows, cols, cols)
  {
    if rows > 0 {
      MulAddDistrib(rows - 1, 1, cols);
    }
  }

  /** The weights of hidden unit `k` of gate block `gate` of a [4*hidden x features]
      source matrix: one row of it. */
  function SourceRow(w: seq<real>, hiddenSize: nat, features: nat, gate: nat, k: nat): (row: seq<real>)
    requires |w| == 4 * hiddenSize * features && gate < 4 && k < hiddenSize
    ensures |row| == features
  {
    MulAssoc(4, hiddenSize, features);
    DenseFits(4 * hiddenSize, features);
    CellBelow(gate, k, hiddenSize, 4);
    RowOf(w, 0, 4 * hiddenSize, features, features, gate * hiddenSize + k)
  }

  /** Column `col` of rearranged weights [features x 4*hidden]. */
  function TransposedColumn(wt: seq<real>, hiddenSize: nat, features: nat, col: nat): (column: seq<real>)
    requires |wt| == 4 * hiddenSize * features && col < 4 * hiddenSize
    ensures |column| == features
  {
    TransposedFits(hiddenSize, features);
    ColumnOf(wt, 0, features, 4 * hiddenSize, 4 * hiddenSize, col)
  }

  function WRow(ws: Weights, gate: nat, k: nat): (row: seq<real>)
    requires ws.Valid() && gate < 4 && k < ws.hiddenSize
    ensures |row| == ws.inputSize
  {
    SourceRow(ws.w, ws.hiddenSize, ws.inputSize, gate, k)
  }

  function RRow(ws: Weights, gate: nat, k: nat): (row: seq<real>)
    requires ws.Valid() && gate < 4 && k < ws.hiddenSize
    ensures |row| == ws.hiddenSize
  {
    SourceRow(ws.r, ws.hiddenSize, ws.hiddenSize, gate, k)
  }

  /** Xt*(W^T) + Ht-1*R for hidden unit `k` of gate block `gate`. */
  function Affine(ws: Weights, gate: nat, k: nat, x: seq<real>, hPrev: seq<real>): real
    requires ws.Valid() && gate < 4 && k < ws.hiddenSize
    requires |x| == ws.inputSize && |hPrev| == ws.hiddenSize
  {
    Dot(x, WRow(ws, gate, k)) + Dot(hPrev, RRow(ws, gate, k))
  }

  /** Wb + Rb for hidden unit `k` of gate block `gate`; zero without a bias tensor. */
  function BiasTerm(ws: Weights, gate: nat, k: nat): real
    requires ws.Valid() && gate < 4 && k < ws.hiddenSize
  {
    var h := ws.hiddenSize;
    if |ws.b| == 0 then 0.0 else ws.b[gate * h + k] + ws.b[4 * h + gate * h + k]
  }

  /** P (.) C for hidden unit `k` of peephole block `gate`; zero without peepholes. */
  function PeepTerm(ws: Weights, gate: nat, k: nat, cell: real): real
    requires ws.Valid() && gate < 3 && k < ws.hiddenSize
  {
    if |ws.p| == 0 then 0.0 else cell * ws.p[gate * ws.hiddenSize + k]
  }

  /** One real per gate, in the operator's block order i, o, f, c. */
  datatype GateTerms = GateTerms(i: real, o: real, f: real, c: real)

  /** Xt*(W^T) + Ht-1*R of hidden unit `k` for the four gate blocks. */
  function AffineTerms(ws: Weights, k: nat, x: seq<real>, hPrev: seq<real>): GateTerms
    requires ws.Valid() && k < ws.hiddenSize && |x| == ws.inputSize && |hPrev| == ws.hiddenSize
  {
    GateTerms(Affine(ws, GateI, k, x, hPrev), Affine(ws, GateO, k, x, hPrev),
              Affine(ws, GateF, k, x, hPrev), Affine(ws, GateC, k, x, hPrev))
  }

  /** The equations for hidden unit `k`, given its affine terms `a`. */
  function UnitFromAffine(ws: Weights, cfg: Config, a: GateTerms, cPrev: real, k: nat): Unit
    requires ws.Valid() && k < ws.hiddenSize
  {
    var i := EquationInput(ws, cfg, a, cPrev, k);
    var f := EquationForget(ws, cfg, a, cPrev, k, i);
    var c := EquationCandidate(ws, cfg, a, k);
    var cell := f * cPrev + i * c;
    var o := EquationOutput(ws, cfg, a, cell, k);
    Unit(i, f, o, c, cell, o * cfg.act.h(cell))
  }

  /** The new cell value of the equations is f * C + i * c of their gates. */
  lemma EquationCell(ws: Weights, cfg: Config, a: GateTerms, cPrev: real, k: nat)
    requires ws.Valid() && k < ws.hiddenSize
    ensures var e := UnitFromAffine(ws, cfg, a, cPrev, k);
            && e.i == EquationInput(ws, cfg, a, cPrev, k) && e.f == EquationForget(ws, cfg, a, cPrev, k, e.i)
            && e.g == EquationCandidate(ws, cfg, a, k) && e.cell == e.f * cPrev + e.i * e.g
  {
  }

  /** it = f(Xt*(Wi^T) + Ht-1*Ri + Pi (.) Ct-1 + Wbi + Rbi), clipped before f. */
  function EquationInput(ws: Weights, cfg: Config, a: GateTerms, cPrev: real, k: nat): real
    requires ws.Valid() && k < ws.hiddenSize
  {
    cfg.act.f(Clip(cfg.clip, a.i + PeepTerm(ws, GateI, k, cPrev) + BiasTerm(ws, GateI, k)))
  }

  /** ft, or 1 - it when the gates are coupled. */
  function EquationForget(ws: Weights, cfg: Config, a: GateTerms, cPrev: real, k: nat, i: real): real
    requires ws.Valid() && k < ws.hiddenSize
  {
    if cfg.inputForget then 1.0 - i
    else cfg.act.f(Clip(cfg.clip, a.f + PeepTerm(ws, GateF, k, cPrev) + BiasTerm(ws, GateF, k)))
  }

  /** ct = g(Xt*(Wc^T) + Ht-1*Rc + Wbc + Rbc), clipped before g. */
  function EquationCandidate(ws: Weights, cfg: Config, a: GateTerms, k: nat): real
    requires ws.Valid() && k < ws.hiddenSize
  {
    cfg.act.g(Clip(cfg.clip, a.c + BiasTerm(ws, GateC, k)))
  }

  /** ot = f(Xt*(Wo^T) + Ht-1*Ro + Po (.) Ct + Wbo + Rbo), with the new cell Ct. */
  function EquationOutput(ws: Weights, cfg: Config, a: GateTerms, cell: real, k: nat): real
    requires ws.Valid() && k < ws.hiddenSize
  {
    cfg.act.f(Clip(cfg.clip, a.o + PeepTerm(ws, GateO, k, cell) + BiasTerm(ws, GateO, k)))
  }

  /** The equations for hidden unit `k`. */
  function EquationUnit(ws: Weights, cfg: Config, x: seq<real>, hPrev: seq<real>, cPrev: real, k: nat): Unit
    requires ws.Valid() && k < ws.hiddenSize && |x| == ws.inputSize && |hPrev| == ws.hiddenSize
  {
    UnitFromAffine(ws, cfg, AffineTerms(ws, k, x, hPrev), cPrev, k)
  }

  /** One step of the equations for one batch row. */
  function EquationStep(ws: Weights, cfg: Config, x: seq<real>, s: State): (s': State)
    requires ws.Valid() && |x| == ws.inputSize && |s.hidden| == ws.hiddenSize && |s.cell| == ws.hiddenSize
    ensures |s'.hidden| == ws.hiddenSize && |s'.cell| == ws.hiddenSize
    ensures forall k :: 0 <= k < ws.hiddenSize ==>
              s'.cell[k] == EquationUnit(ws, cfg, x, s.hidden, s.cell[k], k).cell &&
              s'.hidden[k] == EquationUnit(ws, cfg, x, s.hidden, s.cell[k], k).hidden
  {
    var h := ws.hiddenSize;
    State(seq(h, k requires 0 <= k < h => EquationUnit(ws, cfg, x, s.hidden, s.cell[k], k).hidden),
          seq(h, k requires 0 <= k < h => EquationUnit(ws, cfg, x, s.hidden, s.cell[k], k).cell))
  }

  /** Input features of batch row `r` at step `t` of X [seq_length x batch x input]. */
  function StepInput(xs: seq<real>, seqLength: nat, batchSize: nat, inputSize: nat, t: nat, r: nat): (x: seq<real>)
    requires |xs| == seqLength * batchSize * inputSize && t < seqLength && r < batchSize
    ensures |x| == inputSize
  {
    CellBelow(t, r, batchSize, seqLength);
    MulAssoc(seqLength, batchSize, inputSize);
    DenseFits(seqLength * batchSize, inputSize);
    RowOf(xs, 0, seqLength * batchSize, inputSize, inputSize, t * batchSize + r)
  }

  /** State of batch row `r` after its first `t` steps, from (h0, c0). */
  function RowState(ws: Weights, cfg: Config, xs: seq<real>, seqLength: nat, batchSize: nat, r: nat,
                    h0: seq<real>, c0: seq<real>, t: nat): (s: State)
    requires ws.Valid() && |xs| == seqLength * batchSize * ws.inputSize && r < batchSize && t <= seqLength
    requires |h0| == ws.hiddenSize && |c0| == ws.hiddenSize
    ensures |s.hidden| == ws.hiddenSize && |s.cell| == ws.hiddenSize
  {
    if t == 0 then State(h0, c0)
    else
      EquationStep(ws, cfg, StepInput(xs, seqLength, batchSize, ws.inputSize, t - 1, r),
                   RowState(ws, cfg, xs, seqLength, batchSize, r, h0, c0, t - 1))
  }

  /** b[offset + j] + b[offset + j + 4*hidden]: what LoadBias stores for one gate. */
  function FusedBias(b: seq<real>, hiddenSize: nat, offset: nat): (fused: seq<real>)
    requires offset + hiddenSize + 4 * hiddenSize <= |b|
    ensures |fused| == hiddenSize
    ensures forall j :: 0 <= j < hiddenSize ==> fused[j] == b[j + offset] + b[j + offset + 4 * hiddenSize]
  {
    seq(hiddenSize, j requires 0 <= j < hiddenSize => b[j + offset] + b[j + offset + 4 * hiddenSize])
  }

  /** The engine's view of one direction's weights: fused biases for i, f, o, c and
      the peephole views i = P[0, h), o = P[h, 2h), f = P[2h, 3h). */
  function EngineParams(ws: Weights, cfg: Config): (p: GateParams)
    requires ws.Valid()
    ensures p.Valid() && p.hiddenSize == ws.hiddenSize
  {
    var h := ws.hiddenSize;
    var useBias, usePeep := |ws.b| != 0, |ws.p| != 0;
    GateParams(h, cfg.inputForget, useBias, usePeep,
               if useBias then FusedBias(ws.b, h, 0) else [],
               if useBias then FusedBias(ws.b, h, 2 * h) else [],
               if useBias then FusedBias(ws.b, h, h) else [],
               if useBias then FusedBias(ws.b, h, 3 * h) else [],
               if usePeep then ws.p[0 .. h] else [],
               if usePeep then ws.p[h .. 2 * h] else [],
               if usePeep then ws.p[2 * h .. 3 * h] else [],
               cfg.act, cfg.clip)
  }

  /** Pre-activations of one row as the engine's two GEMMs leave them: for each of
      the 4*hidden columns of the rearranged weights, x times the column of
      W-transposed plus hPrev times the column of R-transposed. */
  function EnginePre(wt: seq<real>, rt: seq<real>, hiddenSize: nat, inputSize: nat,
                     x: seq<real>, hPrev: seq<real>): (pre: seq<real>)
    requires |wt| == 4 * hiddenSize * inputSize && |rt| == 4 * hiddenSize * hiddenSize
    requires |x| == inputSize && |hPrev| == hiddenSize
    ensures |pre| == 4 * hiddenSize
  {
    seq(4 * hiddenSize, col requires 0 <= col < 4 * hiddenSize =>
      EngineColumn(wt, rt, hiddenSize, inputSize, x, hPrev, col))
  }

  function EngineColumn(wt: seq<real>, rt: seq<real>, hiddenSize: nat, inputSize: nat,
                        x: seq<real>, hPrev: seq<real>, col: nat): real
    requires |wt| == 4 * hiddenSize * inputSize && |rt| == 4 * hiddenSize * hiddenSize
    requires |x| == inputSize && |hPrev| == hiddenSize && col < 4 * hiddenSize
  {
    Dot(x, TransposedColumn(wt, hiddenSize, inputSize, col))
    + Dot(hPrev, TransposedColumn(rt, hiddenSize, hiddenSize, col))
  }

  /** The rearranged weights are a dense `features x 4*hidden` matrix. */
  lemma TransposedFits(hiddenSize: nat, features: nat)
    ensures Fits(4 * hiddenSize * features, 0, features, 4 * hiddenSize, 4 * hiddenSize)
  {
    DenseFits(features, 4 * hiddenSize);
    assert features * (4 * hiddenSize) == 4 * hiddenSize * features;
  }

  /** Column gOut*h + k of the rearranged weights is the row of unit k of source
      gate block GateIn(gOut): the transpose lines each unit's weights up as a column. */
  lemma ColumnIsSourceRow(w: seq<real>, hiddenSize: nat, features: nat, gOut: nat, k: nat)
    requires |w| == 4 * hiddenSize * features && gOut < 4 && k < hiddenSize
    ensures gOut * hiddenSize + k < 4 * hiddenSize
    ensures TransposedColumn(Transposed(w, hiddenSize, features), hiddenSize, features, gOut * hiddenSize + k)
            == SourceRow(w, hiddenSize, features, GateIn(gOut), k)
  {
    var t := Transposed(w, hiddenSize, features);
    var gIn := GateIn(gOut);
    GateMapsInverse(gOut);
    CellBelow(gOut, k, hiddenSize, 4);
    CellBelow(gIn, k, hiddenSize, 4);
    var col := TransposedColumn(t, hiddenSize, features, gOut * hiddenSize + k);
    var row := SourceRow(w, hiddenSize, features, gIn, k);
    forall m | 0 <= m < features
      ensures col[m] == row[m]
    {
      TransposedAt(w, hiddenSize, features, gIn, k, m);
      assert TargetIndex(hiddenSize, features, gOut, k, m) == Offset(0, 4 * hiddenSize, m, gOut * hiddenSize + k);
      calc {
        SourceIndex(hiddenSize, features, gIn, k, m);
        gIn * (hiddenSize * features) + (k * features + m);
        { MulAssoc(gIn, hiddenSize, features); MulAddDistrib(gIn * hiddenSize, k, features); }
        Offset(0, features, gIn * hiddenSize + k, m);
      }
    }
  }

  /** `wt` holds the weights of `w` rearranged as LoadWeightsWithTranspose leaves
      them: column gOut*h + k is the row of unit k of source gate block GateIn(gOut). */
  predicate Rearranged(wt: seq<real>, w: seq<real>, hiddenSize: nat, features: nat)
    requires |wt| == 4 * hiddenSize * features && |w| == 4 * hiddenSize * features
  {
    forall gOut, k {:trigger SourceRow(w, hiddenSize, features, GateIn(gOut), k)} ::
      0 <= gOut < 4 && 0 <= k < hiddenSize ==>
        && Offset(0, hiddenSize, gOut, k) < 4 * hiddenSize
        && TransposedColumn(wt, hiddenSize, features, Offset(0, hiddenSize, gOut, k))
           == SourceRow(w, hiddenSize, features, GateIn(gOut), k)
  }

  /** The transpose is such a rearrangement. */
  lemma TransposedRearranged(w: seq<real>, hiddenSize: nat, features: nat)
    requires |w| == 4 * hiddenSize * features
    ensures Rearranged(Transposed(w, hiddenSize, features), w, hiddenSize, features)
  {
    forall gOut, k | 0 <= gOut < 4 && 0 <= k < hiddenSize
      ensures && Offset(0, hiddenSize, gOut, k) < 4 * hiddenSize
              && TransposedColumn(Transposed(w, hiddenSize, features), hiddenSize, features, Offset(0, hiddenSize, gOut, k))
                 == SourceRow(w, hiddenSize, features, GateIn(gOut), k)
    {
      ColumnIsSourceRow(w, hiddenSize, features, gOut, k);
    }
  }

  /** The engine's pre-activation of unit `k` in its segment gOut (order i, f, o, c)
      is the affine term of the source gate block GateIn(gOut) (order i, o, f, c). */
  lemma EngineInput(ws: Weights, wt: seq<real>, rt: seq<real>, x: seq<real>, hPrev: seq<real>, gOut: nat, k: nat)
    requires ws.Valid() && |x| == ws.inputSize && |hPrev| == ws.hiddenSize && gOut < 4 && k < ws.hiddenSize
    requires |wt| == |ws.w| && |rt| == |ws.r|
    requires Rearranged(wt, ws.w, ws.hiddenSize, ws.inputSize) && Rearranged(rt, ws.r, ws.hiddenSize, ws.hiddenSize)
    ensures Offset(0, ws.hiddenSize, gOut, k) < 4 * ws.hiddenSize
    ensures EnginePre(wt, rt, ws.hiddenSize, ws.inputSize, x, hPrev)[Offset(0, ws.hiddenSize, gOut, k)]
            == BlockTerm(AffineTerms(ws, k, x, hPrev), GateIn(gOut))
  {
    CellBelow(gOut, k, ws.hiddenSize, 4);
    assert SourceRow(ws.w, ws.hiddenSize, ws.inputSize, GateIn(gOut), k) == WRow(ws, GateIn(gOut), k);
    assert SourceRow(ws.r, ws.hiddenSize, ws.hiddenSize, GateIn(gOut), k) == RRow(ws, GateIn(gOut), k);
  }

  /** The term of source gate block `gate` among four gate terms. */
  function BlockTerm(t: GateTerms, gate: nat): real
    requires gate < 4
  {
    if gate == GateI then t.i else if gate == GateO then t.o else if gate == GateF then t.f else t.c
  }

  /** The four pre-activation segments of unit `k` are the four affine terms. */
  lemma EngineInputs(ws: Weights, wt: seq<real>, rt: seq<real>, x: seq<real>, hPrev: seq<real>, k: nat)
    requires ws.Valid() && |x| == ws.inputSize && |hPrev| == ws.hiddenSize && k < ws.hiddenSize
    requires |wt| == |ws.w| && |rt| == |ws.r|
    requires Rearranged(wt, ws.w, ws.hiddenSize, ws.inputSize) && Rearranged(rt, ws.r, ws.hiddenSize, ws.hiddenSize)
    ensures var h := ws.hiddenSize;
            var pre := EnginePre(wt, rt, h, ws.inputSize, x, hPrev);
            AffineTerms(ws, k, x, hPrev) == GateTerms(pre[k], pre[2 * h + k], pre[h + k], pre[3 * h + k])
  {
    var h := ws.hiddenSize;
    var pre := EnginePre(wt, rt, h, ws.inputSize, x, hPrev);
    var a := AffineTerms(ws, k, x, hPrev);
    EngineInput(ws, wt, rt, x, hPrev, 0, k);
    assert Offset(0, h, 0, k) == k;
    assert pre[k] == a.i;
    EngineInput(ws, wt, rt, x, hPrev, 1, k);
    assert Offset(0, h, 1, k) == h + k;
    assert pre[h + k] == a.f;
    EngineInput(ws, wt, rt, x, hPrev, 2, k);
    assert Offset(0, h, 2, k) == 2 * h + k;
    assert pre[2 * h + k] == a.o;
    EngineInput(ws, wt, rt, x, hPrev, 3, k);
    assert Offset(0, h, 3, k) == 3 * h + k;
    assert pre[3 * h + k] == a.c;
  }

  /** Hidden unit `k` of the engine's pipeline, run on rearranged weights, the
      fused biases and the peephole views, takes exactly the values of the equations. */
  lemma EngineUnitMatches(ws: Weights, cfg: Config, wt: seq<real>, rt: seq<real>,
                          x: seq<real>, hPrev: seq<real>, cPrev: real, k: nat)
    requires ws.Valid() && |x| == ws.inputSize && |hPrev| == ws.hiddenSize && k < ws.hiddenSize
    requires |wt| == |ws.w| && |rt| == |ws.r|
    requires Rearranged(wt, ws.w, ws.hiddenSize, ws.inputSize) && Rearranged(rt, ws.r, ws.hiddenSize, ws.hiddenSize)
    ensures UnitStep(EngineParams(ws, cfg), EnginePre(wt, rt, ws.hiddenSize, ws.inputSize, x, hPrev), cPrev, k)
            == EquationUnit(ws, cfg, x, hPrev, cPrev, k)
  {
    EngineInputs(ws, wt, rt, x, hPrev, k);
    UnitFromPre(ws, cfg, EnginePre(wt, rt, ws.hiddenSize, ws.inputSize, x, hPrev), cPrev, k);
  }

  /** One engine step of a row (the two GEMMs, then GateComputations) is one step
      of the equations: the new cell and hidden values agree. */
  lemma EngineStepMatches(ws: Weights, cfg: Config, wt: seq<real>, rt: seq<real>, x: seq<real>, s: State)
    requires ws.Valid() && |x| == ws.inputSize && |s.hidden| == ws.hiddenSize && |s.cell| == ws.hiddenSize
    requires |wt| == |ws.w| && |rt| == |ws.r|
    requires Rearranged(wt, ws.w, ws.hiddenSize, ws.inputSize) && Rearranged(rt, ws.r, ws.hiddenSize, ws.hiddenSize)
    ensures var pre := EnginePre(wt, rt, ws.hiddenSize, ws.inputSize, x, s.hidden);
            && CellAfter(EngineParams(ws, cfg), pre, s.cell) == EquationStep(ws, cfg, x, s).cell
            && HiddenAfter(EngineParams(ws, cfg), pre, s.cell) == EquationStep(ws, cfg, x, s).hidden
  {
    forall k | 0 <= k < ws.hiddenSize
      ensures UnitStep(EngineParams(ws, cfg), EnginePre(wt, rt, ws.hiddenSize, ws.inputSize, x, s.hidden), s.cell[k], k)
              == EquationUnit(ws, cfg, x, s.hidden, s.cell[k], k)
    {
      EngineUnitMatches(ws, cfg, wt, rt, x, s.hidden, s.cell[k], k);
    }
  }

  /** The fused biases and peephole views the engine reads supply exactly the
      bias and peephole terms of the equations (zero when absent). */
  lemma EngineBiases(ws: Weights, cfg: Config, k: nat, cell: real)
    requires ws.Valid() && k < ws.hiddenSize
    ensures var p := EngineParams(ws, cfg);
            && BiasTerm(ws, GateI, k) == (if p.useBias then p.biasI[k] else 0.0)
            && BiasTerm(ws, GateF, k) == (if p.useBias then p.biasF[k] else 0.0)
            && BiasTerm(ws, GateO, k) == (if p.useBias then p.biasO[k] else 0.0)
            && BiasTerm(ws, GateC, k) == (if p.useBias then p.biasC[k] else 0.0)
            && PeepTerm(ws, GateI, k, cell) == (if p.usePeepholes then cell * p.peepI[k] else 0.0)
            && PeepTerm(ws, GateF, k, cell) == (if p.usePeepholes then cell * p.peepF[k] else 0.0)
            && PeepTerm(ws, GateO, k, cell) == (if p.usePeepholes then cell * p.peepO[k] else 0.0)
  {
  }

  /** GateComputations on a pre-activation row is the equations applied to that
      row's segments, read in the operator's block order. */
  lemma UnitFromPre(ws: Weights, cfg: Config, pre: seq<real>, cPrev: real, k: nat)
    requires ws.Valid() && |pre| == 4 * ws.hiddenSize && k < ws.hiddenSize
    ensures var h := ws.hiddenSize;
            UnitStep(EngineParams(ws, cfg), pre, cPrev, k)
            == UnitFromAffine(ws, cfg, GateTerms(pre[k], pre[2 * h + k], pre[h + k], pre[3 * h + k]), cPrev, k)
  {
    CellFromPre(ws, cfg, pre, cPrev, k);
    OutputFromPre(ws, cfg, pre, cPrev, k);
  }

  /** The gates read before the cell update, and the new cell, agree. */
  lemma CellFromPre(ws: Weights, cfg: Config, pre: seq<real>, cPrev: real, k: nat)
    requires ws.Valid() && |pre| == 4 * ws.hiddenSize && k < ws.hiddenSize
    ensures var h := ws.hiddenSize;
            var u := UnitStep(EngineParams(ws, cfg), pre, cPrev, k);
            var e := UnitFromAffine(ws, cfg, GateTerms(pre[k], pre[2 * h + k], pre[h + k], pre[3 * h + k]), cPrev, k);
            u.i == e.i && u.f == e.f && u.g == e.g && u.cell == e.cell
  {
    var p := EngineParams(ws, cfg);
    UnitCell(p, pre, cPrev, k);
    EquationCell(ws, cfg, GateTerms(pre[k], pre[2 * ws.hiddenSize + k], pre[ws.hiddenSize + k], pre[3 * ws.hiddenSize + k]), cPrev, k);
    InputGateFromPre(ws, cfg, pre, cPrev, k);
    ForgetGateFromPre(ws, cfg, pre, cPrev, InputGate(p, pre, cPrev, k), k);
    CandidateGateFromPre(ws, cfg, pre, k);
  }

  /** The output gate and the hidden value agree, given the cells do. */
  lemma OutputFromPre(ws: Weights, cfg: Config, pre: seq<real>, cPrev: real, k: nat)
    requires ws.Valid() && |pre| == 4 * ws.hiddenSize && k < ws.hiddenSize
    ensures var h := ws.hiddenSize;
            var u := UnitStep(EngineParams(ws, cfg), pre, cPrev, k);
            var e := UnitFromAffine(ws, cfg, GateTerms(pre[k], pre[2 * h + k], pre[h + k], pre[3 * h + k]), cPrev, k);
            u.o == e.o && u.hidden == e.hidden
  {
    var u := UnitStep(EngineParams(ws, cfg), pre, cPrev, k);
    CellFromPre(ws, cfg, pre, cPrev, k);
    OutputGateFromPre(ws, cfg, pre, u.cell, k);
    assert EngineParams(ws, cfg).act == cfg.act;
  }

  /** Gate by gate, the engine's pipeline and the equations agree on a row. */
  lemma InputGateFromPre(ws: Weights, cfg: Config, pre: seq<real>, cell: real, k: nat)
    requires ws.Valid() && |pre| == 4 * ws.hiddenSize && k < ws.hiddenSize
    ensures var h := ws.hiddenSize;
            InputGate(EngineParams(ws, cfg), pre, cell, k)
            == EquationInput(ws, cfg, GateTerms(pre[k], pre[2 * h + k], pre[h + k], pre[3 * h + k]), cell, k)
  {
    var p := EngineParams(ws, cfg);
    EngineBiases(ws, cfg, k, cell);
    GateArgument(p, pre[k], cell, p.peepI, p.biasI, k, PeepTerm(ws, GateI, k, cell), BiasTerm(ws, GateI, k));
  }

  lemma ForgetGateFromPre(ws: Weights, cfg: Config, pre: seq<real>, cell: real, i: real, k: nat)
    requires ws.Valid() && |pre| == 4 * ws.hiddenSize && k < ws.hiddenSize
    ensures var h := ws.hiddenSize;
            ForgetGate(EngineParams(ws, cfg), pre, cell, k, i)
            == EquationForget(ws, cfg, GateTerms(pre[k], pre[2 * h + k], pre[h + k], pre[3 * h + k]), cell, k, i)
  {
    var h, p := ws.hiddenSize, EngineParams(ws, cfg);
    EngineBiases(ws, cfg, k, cell);
    GateArgument(p, pre[h + k], cell, p.peepF, p.biasF, k, PeepTerm(ws, GateF, k, cell), BiasTerm(ws, GateF, k));
  }

  lemma CandidateGateFromPre(ws: Weights, cfg: Config, pre: seq<real>, k: nat)
    requires ws.Valid() && |pre| == 4 * ws.hiddenSize && k < ws.hiddenSize
    ensures var h := ws.hiddenSize;
            CandidateGate(EngineParams(ws, cfg), pre, k)
            == EquationCandidate(ws, cfg, GateTerms(pre[k], pre[2 * h + k], pre[h + k], pre[3 * h + k]), k)
  {
    var h, p := ws.hiddenSize, EngineParams(ws, cfg);
    EngineBiases(ws, cfg, k, 0.0);
    CandidateArgument(p, pre[3 * h + k], p.biasC, k, BiasTerm(ws, GateC, k));
  }

  lemma OutputGateFromPre(ws: Weights, cfg: Config, pre: seq<real>, cell: real, k: nat)
    requires ws.Valid() && |pre| == 4 * ws.hiddenSize && k < ws.hiddenSize
    ensures var h := ws.hiddenSize;
            OutputGate(EngineParams(ws, cfg), pre, cell, k)
            == EquationOutput(ws, cfg, GateTerms(pre[k], pre[2 * h + k], pre[h + k], pre[3 * h + k]), cell, k)
  {
    var h, p := ws.hiddenSize, EngineParams(ws, cfg);
    EngineBiases(ws, cfg, k, cell);
    GateArgument(p, pre[2 * h + k], cell, p.peepO, p.biasO, k, PeepTerm(ws, GateO, k, cell), BiasTerm(ws, GateO, k));
  }

  /** The activation input the engine forms for a gate with a peephole, before the clip:
      the pre-activation plus the peephole and bias terms, each zero when absent. */
  lemma GateArgument(p: GateParams, x: real, cell: real, peep: seq<real>, bias: seq<real>, k: nat,
                     peepTerm: real, biasTerm: real)
    requires p.usePeepholes ==> k < |peep| && peepTerm == cell * peep[k]
    requires !p.usePeepholes ==> peepTerm == 0.0
    requires p.useBias ==> k < |bias| && biasTerm == bias[k]
    requires !p.useBias ==> biasTerm == 0.0
    ensures BiasAdded(p, Peephole(p, x, cell, peep, k), bias, k) == x + peepTerm + biasTerm
  {
  }

  /** The same for the candidate gate, which has no peephole. */
  lemma CandidateArgument(p: GateParams, x: real, bias: seq<real>, k: nat, biasTerm: real)
    requires p.useBias ==> k < |bias| && biasTerm == bias[k]
    requires !p.useBias ==> biasTerm == 0.0
    ensures BiasAdded(p, x, bias, k) == x + biasTerm
  {
  }

}
