/** The layout change applied to the W and R weight tensors when an engine is
    built. A source tensor holds four gate blocks in ONNX order i, o, f, c;
    each block is a `dim0 x dim1` matrix (hidden units x features). The engine
    wants, for each feature `row`, the four gates side by side in the order
    i, f, o, c, each gate a run of `dim0` hidden units: a block transpose with
    a permutation of the gates. */
module WeightLayout {
  import opened IndexArith

  /** Source block holding the gate that the engine stores at position `gOut`.
      Engine order i, f, o, c; source order i, o, f, c. */
  function GateIn(gOut: nat): (gIn: nat)
    requires gOut < 4
    ensures gIn < 4
    ensures gOut == 1 <==> gIn == 2
    ensures gOut == 2 <==> gIn == 1
    ensures (gOut == 0 || gOut == 3) ==> gIn == gOut
  {
    if gOut == 1 then 2 else if gOut == 2 then 1 else gOut
  }

  /** Engine position of the gate held by source block `gIn`. */
  function GateOut(gIn: nat): (gOut: nat)
    requires gIn < 4
    ensures gOut < 4 && GateIn(gOut) == gIn
  {
    if gIn == 1 then 2 else if gIn == 2 then 1 else gIn
  }

  lemma GateMapsInverse(g: nat)
    requires g < 4
    ensures GateOut(GateIn(g)) == g && GateIn(GateOut(g)) == g
  {
  }

  /** Where unit `c` of gate block `gIn` reads feature `row` in the source. */
  function SourceIndex(dim0: nat, dim1: nat, gIn: nat, c: nat, row: nat): (j: nat)
    requires gIn < 4 && c < dim0 && row < dim1
    ensures j < 4 * dim0 * dim1
  {
    CellBelow(c, row, dim1, dim0);
    CellBelow(gIn, c * dim1 + row, dim0 * dim1, 4);
    MulAssoc(4, dim0, dim1);
    gIn * (dim0 * dim1) + (c * dim1 + row)
  }

  /** Where the engine stores unit `c` of its gate position `gOut` for feature `row`. */
  function TargetIndex(dim0: nat, dim1: nat, gOut: nat, c: nat, row: nat): (j: nat)
    requires gOut < 4 && c < dim0 && row < dim1
    ensures j < 4 * dim0 * dim1
  {
    CellBelow(gOut, c, dim0, 4);
    CellBelow(row, gOut * dim0 + c, 4 * dim0, dim1);
    MulAssoc(4, dim0, dim1);
    row * (4 * dim0) + (gOut * dim0 + c)
  }

  /** The transformed tensor, defined cell by cell from where each target cell comes from. */
  function Transposed(w: seq<real>, dim0: nat, dim1: nat): (t: seq<real>)
    requires |w| >= 4 * dim0 * dim1
    ensures |t| == 4 * dim0 * dim1
  {
    seq(4 * dim0 * dim1, j requires 0 <= j < 4 * dim0 * dim1 => TransposedCell(w, dim0, dim1, j))
  }

  function TransposedCell(w: seq<real>, dim0: nat, dim1: nat, j: nat): real
    requires |w| >= 4 * dim0 * dim1 && j < 4 * dim0 * dim1
  {
    TargetFields(j, dim0, dim1);
    var row, rem := j / (4 * dim0), j % (4 * dim0);
    SourceCell(w, dim0, dim1, GateIn(rem / dim0), rem % dim0, row)
  }

  /** The inverse transform: every source cell is fetched back from its target cell. */
  function Untransposed(t: seq<real>, dim0: nat, dim1: nat): (w: seq<real>)
    requires |t| >= 4 * dim0 * dim1
    ensures |w| == 4 * dim0 * dim1
  {
    seq(4 * dim0 * dim1, j requires 0 <= j < 4 * dim0 * dim1 => UntransposedCell(t, dim0, dim1, j))
  }

  function UntransposedCell(t: seq<real>, dim0: nat, dim1: nat, j: nat): real
    requires |t| >= 4 * dim0 * dim1 && j < 4 * dim0 * dim1
  {
    SourceFields(j, dim0, dim1);
    var gIn, rem := j / (dim0 * dim1), j % (dim0 * dim1);
    TargetCell(t, dim0, dim1, GateOut(gIn), rem / dim1, rem % dim1)
  }

  function SourceCell(w: seq<real>, dim0: nat, dim1: nat, gIn: nat, c: nat, row: nat): real
    requires |w| >= 4 * dim0 * dim1 && gIn < 4 && c < dim0 && row < dim1
  {
    SourceInRange(dim0, dim1, gIn, c, row);
    w[SourceIndex(dim0, dim1, gIn, c, row)]
  }

  function TargetCell(t: seq<real>, dim0: nat, dim1: nat, gOut: nat, c: nat, row: nat): real
    requires |t| >= 4 * dim0 * dim1 && gOut < 4 && c < dim0 && row < dim1
  {
    TargetInRange(dim0, dim1, gOut, c, row);
    t[TargetIndex(dim0, dim1, gOut, c, row)]
  }

  /** Every (gate, unit, feature) triple has a source cell inside the tensor, and no
      two triples share one. */
  lemma SourceInRange(dim0: nat, dim1: nat, gIn: nat, c: nat, row: nat)
    requires gIn < 4 && c < dim0 && row < dim1
    ensures SourceIndex(dim0, dim1, gIn, c, row) < 4 * dim0 * dim1
    ensures SourceIndex(dim0, dim1, gIn, c, row) / (dim0 * dim1) == gIn
    ensures SourceIndex(dim0, dim1, gIn, c, row) % (dim0 * dim1) / dim1 == c
    ensures SourceIndex(dim0, dim1, gIn, c, row) % (dim0 * dim1) % dim1 == row
  {
    CellBelow(c, row, dim1, dim0);
    assert c * dim1 + row < dim0 * dim1;
    CellBelow(gIn, c * dim1 + row, dim0 * dim1, 4);
    MulAssoc(4, dim0, dim1);
    DivModOf(gIn, c * dim1 + row, dim0 * dim1);
    DivModOf(c, row, dim1);
  }

  /** Every (gate, unit, feature) triple has a target cell inside the buffer, and no
      two triples share one. */
  lemma TargetInRange(dim0: nat, dim1: nat, gOut: nat, c: nat, row: nat)
    requires gOut < 4 && c < dim0 && row < dim1
    ensures TargetIndex(dim0, dim1, gOut, c, row) < 4 * dim0 * dim1
    ensures TargetIndex(dim0, dim1, gOut, c, row) / (4 * dim0) == row
    ensures TargetIndex(dim0, dim1, gOut, c, row) % (4 * dim0) / dim0 == gOut
    ensures TargetIndex(dim0, dim1, gOut, c, row) % (4 * dim0) % dim0 == c
  {
    CellBelow(gOut, c, dim0, 4);
    CellBelow(row, gOut * dim0 + c, 4 * dim0, dim1);
    MulAssoc(4, dim0, dim1);
    assert dim1 * (4 * dim0) == 4 * dim0 * dim1;
    DivModOf(row, gOut * dim0 + c, 4 * dim0);
    DivModOf(gOut, c, dim0);
  }

  /** Reading a target index back: its row, gate and unit are in range. */
  lemma TargetFields(j: int, dim0: nat, dim1: nat)
    requires 0 <= j < 4 * dim0 * dim1
    ensures dim0 > 0
    ensures 0 <= j / (4 * dim0) < dim1
    ensures 0 <= j % (4 * dim0) / dim0 < 4
    ensures j == j / (4 * dim0) * (4 * dim0) + (j % (4 * dim0) / dim0 * dim0 + j % (4 * dim0) % dim0)
  {
    MulAssoc(4, dim0, dim1);
    assert j < dim1 * (4 * dim0);
    RowBelow(j, 4 * dim0, dim1);
    var rem := j % (4 * dim0);
    RowBelow(rem, dim0, 4);
  }

  /** Reading a source index back: its gate, unit and feature are in range. */
  lemma SourceFields(j: int, dim0: nat, dim1: nat)
    requires 0 <= j < 4 * dim0 * dim1
    ensures dim1 > 0
    ensures 0 <= j / (dim0 * dim1) < 4
    ensures 0 <= j % (dim0 * dim1) / dim1 < dim0
    ensures j == j / (dim0 * dim1) * (dim0 * dim1) + (j % (dim0 * dim1) / dim1 * dim1 + j % (dim0 * dim1) % dim1)
  {
    MulAssoc(4, dim0, dim1);
    assert j < 4 * (dim0 * dim1);
    RowBelow(j, dim0 * dim1, 4);
    var rem := j % (dim0 * dim1);
    RowBelow(rem, dim1, dim0);
  }

  /** The candidate property of the transform: target cell (feature `row`, gate
      position GateOut(gIn), unit `c`) holds source cell (gate block gIn, unit c,
      feature row), i.e. out[row*4*d0 + gOut*d0 + c] == in[gIn*d0*d1 + c*d1 + row]. */
  lemma TransposedAt(w: seq<real>, dim0: nat, dim1: nat, gIn: nat, c: nat, row: nat)
    requires |w| >= 4 * dim0 * dim1 && gIn < 4 && c < dim0 && row < dim1
    ensures Transposed(w, dim0, dim1)[TargetIndex(dim0, dim1, GateOut(gIn), c, row)]
            == w[SourceIndex(dim0, dim1, gIn, c, row)]
  {
    var gOut := GateOut(gIn);
    var x := TargetIndex(dim0, dim1, gOut, c, row);
    TargetInRange(dim0, dim1, gOut, c, row);
    var row', rem := x / (4 * dim0), x % (4 * dim0);
    assert row' == row && rem / dim0 == gOut && rem % dim0 == c;
    calc {
      Transposed(w, dim0, dim1)[x];
      TransposedCell(w, dim0, dim1, x);
      SourceCell(w, dim0, dim1, GateIn(gOut), c, row);
      { assert GateIn(gOut) == gIn; }
      SourceCell(w, dim0, dim1, gIn, c, row);
    }
  }

  /** A cell of an earlier feature, or of another gate position of the same
      feature, lies outside the run of `dim0` units stored for (row, gOut). */
  lemma TargetOutside(dim0: nat, dim1: nat, g: nat, c: nat, r: nat, row: nat, gOut: nat)
    requires g < 4 && c < dim0 && r < dim1 && row < dim1 && gOut < 4
    requires r < row || (r == row && g != gOut)
    ensures var j, lo := TargetIndex(dim0, dim1, g, c, r), row * (4 * dim0) + gOut * dim0;
            j < lo || lo + dim0 <= j
  {
    CellBelow(g, c, dim0, 4);
    MulNonneg(gOut, dim0);
    if r < row {
      MulMono(r, row, 4 * dim0);
    } else if g < gOut {
      MulMono(g, gOut, dim0);
    } else {
      MulMono(gOut, g, dim0);
    }
  }

  /** A buffer in which every target cell holds its source cell is the transform. */
  lemma TransposedFromCells(t: seq<real>, w: seq<real>, dim0: nat, dim1: nat)
    requires |w| >= 4 * dim0 * dim1 && |t| == 4 * dim0 * dim1
    requires forall r, g, c :: 0 <= r < dim1 && 0 <= g < 4 && 0 <= c < dim0 ==>
               t[TargetIndex(dim0, dim1, g, c, r)] == w[SourceIndex(dim0, dim1, GateIn(g), c, r)]
    ensures t == Transposed(w, dim0, dim1)
  {
    forall j | 0 <= j < |t|
      ensures t[j] == Transposed(w, dim0, dim1)[j]
    {
      TargetFields(j, dim0, dim1);
      var row, rem := j / (4 * dim0), j % (4 * dim0);
      var g, c := rem / dim0, rem % dim0;
      assert TargetIndex(dim0, dim1, g, c, row) == j;
    }
  }

  /** Undoing the transform recovers the original tensor exactly. */
  lemma UntransposeTransposed(w: seq<real>, dim0: nat, dim1: nat)
    requires |w| == 4 * dim0 * dim1
    ensures Untransposed(Transposed(w, dim0, dim1), dim0, dim1) == w
  {
    var t := Transposed(w, dim0, dim1);
    var u := Untransposed(t, dim0, dim1);
    forall j | 0 <= j < |w|
      ensures u[j] == w[j]
    {
      SourceFields(j, dim0, dim1);
      var gIn, rem := j / (dim0 * dim1), j % (dim0 * dim1);
      var c, row := rem / dim1, rem % dim1;
      TransposedAt(w, dim0, dim1, gIn, c, row);
    }
  }

  /** Transforming an untransformed buffer gives it back: together with
      UntransposeTransposed, the transform is a bijection on 4*d0*d1 cells. */
  lemma TransposeUntransposed(t: seq<real>, dim0: nat, dim1: nat)
    requires |t| == 4 * dim0 * dim1
    ensures Transposed(Untransposed(t, dim0, dim1), dim0, dim1) == t
  {
    var w := Untransposed(t, dim0, dim1);
    var t' := Transposed(w, dim0, dim1);
    forall j | 0 <= j < |t|
      ensures t'[j] == t[j]
    {
      TargetFields(j, dim0, dim1);
      var row, rem := j / (4 * dim0), j % (4 * dim0);
      var gOut, c := rem / dim0, rem % dim0;
      GateMapsInverse(gOut);
      TransposedAt(w, dim0, dim1, GateIn(gOut), c, row);
      SourceInRange(dim0, dim1, GateIn(gOut), c, row);
    }
  }
}
