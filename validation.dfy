/** The operator-level checks and the carving of each input and output tensor
    into per-direction views (DeepCpuLstmOp::ValidateInputs and the subspan
    arithmetic of DeepCpuLstmOp::ComputeImpl). */
module Validation {
  import opened IndexArith

  datatype Option<T> = None | Some(value: T)

  /** Why validation failed. The checks shared with the other recurrent
      operators live outside this model and arrive as an already-computed status. */
  datatype ShapeError = CommonInputs | InitialCShape | PShape

  datatype Status = Ok | Fail(error: ShapeError)

  /** ValidateInputs: the shared checks first, then initial_c, then P; the first
      failing check decides the status. Absent optional tensors pass. */
  function ValidateInputs(common: Status, initialC: Option<seq<int>>, p: Option<seq<int>>,
                          numDirections: int, batchSize: int, hiddenSize: int): (s: Status)
    ensures s.Ok? <==>
              && common.Ok?
              && (initialC.Some? ==> initialC.value == [numDirections, batchSize, hiddenSize])
              && (p.Some? ==> p.value == [numDirections, 3 * hiddenSize])
    ensures common.Fail? ==> s == common
    ensures (common.Ok? && initialC.Some? && initialC.value != [numDirections, batchSize, hiddenSize])
              ==> s == Fail(InitialCShape)
    ensures (common.Ok? && (initialC.Some? ==> initialC.value == [numDirections, batchSize, hiddenSize])
             && p.Some? && p.value != [numDirections, 3 * hiddenSize])
              ==> s == Fail(PShape)
  {
    if common.Fail? then common
    else if initialC.Some? &&
            (|initialC.value| != 3 || initialC.value[0] != numDirections ||
             initialC.value[1] != batchSize || initialC.value[2] != hiddenSize) then
      Fail(InitialCShape)
    else if p.Some? &&
            (|p.value| != 2 || p.value[0] != numDirections || p.value[1] != 3 * hiddenSize) then
      Fail(PShape)
    else Ok
  }

  /** A view into a flat tensor: gsl::span::subspan(offset, length). */
  datatype Span = Span(offset: nat, length: nat)
  {
    function End(): nat { offset + length }
    predicate Within(size: nat) { End() <= size }
    predicate Disjoint(other: Span) { End() <= other.offset || other.End() <= offset }
  }

  /** An optional tensor stays empty; a present one is cut at `offset`. */
  function SubspanUnlessEmpty(size: nat, offset: nat, length: nat): Span
  {
    if size == 0 then Span(0, 0) else Span(offset, length)
  }

  /** Tensor dimensions of one operator call. */
  datatype Dims = Dims(seqLength: nat, batchSize: nat, inputSize: nat, hiddenSize: nat, numDirections: nat)

  /** Element counts of the tensors the caller passes (0 for an absent optional one). */
  datatype Sizes = Sizes(w: nat, r: nat, b: nat, p: nat, initialH: nat, initialC: nat, y: nat, yh: nat, yc: nat)

  /** The views handed to the engine of direction `d` (0 forward, 1 reverse). */
  datatype DirectionViews = DirectionViews(
    w: Span, r: Span, b: Span, p: Span, initialH: Span, initialC: Span,
    output: Span, hiddenOutput: Span, lastCell: Span)

  /** Element counts of one direction's slice of each tensor. */
  datatype SliceSizes = SliceSizes(w: nat, r: nat, b: nat, p: nat, state: nat)

  function Slices(d: Dims): SliceSizes
  {
    var h := d.hiddenSize;
    SliceSizes(4 * h * d.inputSize, 4 * h * h, 8 * h, 3 * h, d.batchSize * h)
  }

  /** The sizes the shapes imply when every tensor is present and has the
      documented shape (optional tensors may also be absent, size 0). */
  predicate ShapesAgree(d: Dims, s: Sizes)
  {
    var nd, z := d.numDirections, Slices(d);
    && 1 <= nd <= 2
    && s.w == Stacked(nd, z.w)
    && s.r == Stacked(nd, z.r)
    && (s.b == 0 || s.b == Stacked(nd, z.b))
    && (s.p == 0 || s.p == Stacked(nd, z.p))
    && (s.initialH == 0 || s.initialH == Stacked(nd, z.state))
    && (s.initialC == 0 || s.initialC == Stacked(nd, z.state))
    && (s.y == 0 || s.y == d.seqLength * Stacked(nd, z.state))
    && s.yh == Stacked(nd, z.state)
    && s.yc == Stacked(nd, z.state)
  }

  /** `nd` direction slices of `size` elements each, nd being 1 or 2. */
  function Stacked(nd: nat, size: nat): nat
    requires 1 <= nd <= 2
  {
    if nd == 1 then size else size + size
  }

  /** The per-direction slicing of ComputeImpl. The output of the forward
      direction starts at 0 and stops one direction-slice short of the end;
      that of the reverse direction starts one direction-slice in. */
  function Views(d: Dims, s: Sizes, dir: nat): DirectionViews
    requires dir < 2
  {
    var z := Slices(d);
    var bh := z.state;
    if dir == 0 then
      DirectionViews(
        Span(0, z.w), Span(0, z.r),
        SubspanUnlessEmpty(s.b, 0, z.b), SubspanUnlessEmpty(s.p, 0, z.p),
        SubspanUnlessEmpty(s.initialH, 0, bh), SubspanUnlessEmpty(s.initialC, 0, bh),
        SubspanUnlessEmpty(s.y, 0, if s.y >= (d.numDirections - 1) * bh then s.y - (d.numDirections - 1) * bh else 0),
        Span(0, bh), Span(0, bh))
    else
      DirectionViews(
        Span(z.w, z.w), Span(z.r, z.r),
        SubspanUnlessEmpty(s.b, z.b, z.b), SubspanUnlessEmpty(s.p, z.p, z.p),
        SubspanUnlessEmpty(s.initialH, bh, bh), SubspanUnlessEmpty(s.initialC, bh, bh),
        SubspanUnlessEmpty(s.y, bh, if s.y >= bh then s.y - bh else 0),
        Span(bh, bh), Span(bh, bh))
  }

  predicate ViewsWithin(v: DirectionViews, s: Sizes)
  {
    && v.w.Within(s.w) && v.r.Within(s.r) && v.b.Within(s.b) && v.p.Within(s.p)
    && v.initialH.Within(s.initialH) && v.initialC.Within(s.initialC)
    && v.output.Within(s.y) && v.hiddenOutput.Within(s.yh) && v.lastCell.Within(s.yc)
  }

  /** With validated shapes every view of every direction lies inside its tensor:
      no subspan fails. */
  lemma ViewsInBounds(d: Dims, s: Sizes, dir: nat)
    requires ShapesAgree(d, s) && dir < d.numDirections
    ensures ViewsWithin(Views(d, s, dir), s)
  {
    OutputViewWithin(d, s, dir);
  }

  lemma OutputViewWithin(d: Dims, s: Sizes, dir: nat)
    requires ShapesAgree(d, s) && dir < d.numDirections
    ensures Views(d, s, dir).output.Within(s.y)
  {
    var v := Views(d, s, dir);
    var nd, bh := d.numDirections, Slices(d).state;
    if s.y != 0 {
      MulMonoLe(1, d.seqLength, Stacked(nd, bh));
      if dir == 0 {
        assert v.output == Span(0, s.y - (nd - 1) * bh);
      } else {
        assert v.output == Span(bh, s.y - bh);
      }
    }
  }

  /** The two directions' views of every per-direction tensor are disjoint, so two
      engines never share weights, an initial state or a final state slice. */
  lemma ViewsDisjoint(d: Dims, s: Sizes)
    requires ShapesAgree(d, s) && d.numDirections == 2
    ensures var v0, v1 := Views(d, s, 0), Views(d, s, 1);
            && v0.w.Disjoint(v1.w) && v0.r.Disjoint(v1.r) && v0.b.Disjoint(v1.b) && v0.p.Disjoint(v1.p)
            && v0.initialH.Disjoint(v1.initialH) && v0.initialC.Disjoint(v1.initialC)
            && v0.hiddenOutput.Disjoint(v1.hiddenOutput) && v0.lastCell.Disjoint(v1.lastCell)
  {
  }

  /** Index of element (t, dir, r, k) of Y, shape [seq_length, num_directions, batch_size, hidden_size]. */
  function YIndex(d: Dims, t: nat, dir: nat, r: nat, k: nat): nat
  {
    t * (d.numDirections * (d.batchSize * d.hiddenSize)) + dir * (d.batchSize * d.hiddenSize) + (r * d.hiddenSize + k)
  }

  /** With two directions the forward engine writes step t, row r at
      t * 2*batch*hidden + r*hidden of its view, and the reverse engine's view
      starts batch*hidden in: the two land in Y's direction slots 0 and 1, so the
      interleaving needs no merge copy. */
  lemma InterleavedSlots(d: Dims, t: nat, r: nat, k: nat)
    requires d.numDirections == 2 && r < d.batchSize && k < d.hiddenSize
    ensures var stride, bh := 2 * (d.batchSize * d.hiddenSize), d.batchSize * d.hiddenSize;
            && t * stride + r * d.hiddenSize + k == YIndex(d, t, 0, r, k)
            && bh + (t * stride + r * d.hiddenSize + k) == YIndex(d, t, 1, r, k)
            && r * d.hiddenSize + k < bh
  {
    CellBelow(r, k, d.hiddenSize, d.batchSize);
    assert d.batchSize * d.hiddenSize == d.hiddenSize * d.batchSize;
  }
}
