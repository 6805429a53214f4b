/** The matrix product the engine hands to its GEMM routine, C = A * B or
    C = C + A * B, over row-major operands addressed by an offset and a leading
    dimension. The routine itself is a library call; the model fixes its
    meaning and computes it cell by cell. */
module MatMul {
  import opened IndexArith

  /** Inner product of two vectors of equal length, summed from the first element. */
  function Dot(u: seq<real>, v: seq<real>): real
    requires |u| == |v|
  {
    if |u| == 0 then 0.0 else Dot(u[..|u| - 1], v[..|v| - 1]) + u[|u| - 1] * v[|v| - 1]
  }

  /** A `rows x cols` matrix stored from `off` with rows `ld` apart fits in `len`
      elements: its last row ends inside. */
  predicate Fits(len: nat, off: nat, rows: nat, cols: nat, ld: nat)
  {
    rows == 0 || (cols <= ld && off + (rows - 1) * ld + cols <= len)
  }

  /** Offset of an element of a matrix that fits: it lies inside the buffer. */
  function At(len: nat, off: nat, rows: nat, cols: nat, ld: nat, i: nat, j: nat): (idx: nat)
    requires Fits(len, off, rows, cols, ld) && i < rows && j < cols
    ensures idx < len && idx == Offset(off, ld, i, j)
  {
    MulMonoLe(i, rows - 1, ld);
    Offset(off, ld, i, j)
  }

  /** Row `i` of a matrix that fits: `cols` consecutive elements. */
  function RowOf(a: seq<real>, off: nat, rows: nat, cols: nat, ld: nat, i: nat): (row: seq<real>)
    requires Fits(|a|, off, rows, cols, ld) && i < rows
    ensures |row| == cols
    ensures forall p :: 0 <= p < cols ==> row[p] == a[Offset(off, ld, i, p)]
  {
    MulMonoLe(i, rows - 1, ld);
    MulNonneg(i, ld);
    a[off + i * ld .. off + i * ld + cols]
  }

  /** Column `j` of a matrix that fits: `rows` elements `ld` apart. */
  function ColumnOf(b: seq<real>, off: nat, rows: nat, cols: nat, ld: nat, j: nat): (col: seq<real>)
    requires Fits(|b|, off, rows, cols, ld) && j < cols
    ensures |col| == rows
    ensures forall p :: 0 <= p < rows ==> col[p] == b[At(|b|, off, rows, cols, ld, p, j)]
  {
    seq(rows, p requires 0 <= p < rows => b[At(|b|, off, rows, cols, ld, p, j)])
  }

  /** Element (i, j) of the product of the `m x k` matrix A and the `k x n` matrix B. */
  function Product(a: seq<real>, aOff: nat, lda: nat, b: seq<real>, bOff: nat, ldb: nat,
                   m: nat, n: nat, k: nat, i: nat, j: nat): real
    requires Fits(|a|, aOff, m, k, lda) && Fits(|b|, bOff, k, n, ldb) && i < m && j < n
  {
    Dot(RowOf(a, aOff, m, k, lda, i), ColumnOf(b, bOff, k, n, ldb, j))
  }

  /** Row of an index inside a matrix with rows `ld` apart, counted from `off`. */
  function RowIndex(idx: nat, off: nat, ld: nat): int
    requires ld > 0 && off <= idx
  {
    (idx - off) / ld
  }

  function ColIndex(idx: nat, off: nat, ld: nat): int
    requires ld > 0 && off <= idx
  {
    (idx - off) % ld
  }

  /** Index `idx` is element (RowIndex, ColIndex) of the `m x n` block at `off`. */
  predicate InBlock(idx: nat, off: nat, m: nat, n: nat, ld: nat)
  {
    ld > 0 && off <= idx && RowIndex(idx, off, ld) < m && ColIndex(idx, off, ld) < n
  }

  /** End of the span a `m x n` block at `off` touches (its last row ends there). */
  function SpanEnd(off: nat, m: nat, n: nat, ld: nat): int
  {
    if m == 0 then off else off + (m - 1) * ld + n
  }

  /** C = A * B (accumulate false, beta 0) or C = C + A * B (accumulate true, beta 1);
      alpha is always 1 in the engine. Exactly the `m x n` block of C changes. */
  method Gemm(m: nat, n: nat, k: nat, a: seq<real>, aOff: nat, lda: nat,
              b: seq<real>, bOff: nat, ldb: nat, accumulate: bool,
              c: array<real>, cOff: nat, ldc: nat)
    requires Fits(|a|, aOff, m, k, lda) && Fits(|b|, bOff, k, n, ldb) && Fits(c.Length, cOff, m, n, ldc)
    modifies c
    ensures forall i, j :: 0 <= i < m && 0 <= j < n ==>
              c[At(c.Length, cOff, m, n, ldc, i, j)]
                == (if accumulate then old(c[At(c.Length, cOff, m, n, ldc, i, j)]) else 0.0)
                   + Product(a, aOff, lda, b, bOff, ldb, m, n, k, i, j)
    ensures forall i, j :: 0 <= i < m && n <= j < ldc && Offset(cOff, ldc, i, j) < c.Length ==>
              c[Offset(cOff, ldc, i, j)] == old(c[Offset(cOff, ldc, i, j)])
    ensures forall idx :: 0 <= idx < c.Length && (idx < cOff || SpanEnd(cOff, m, n, ldc) <= idx) ==>
              c[idx] == old(c[idx])
    ensures forall idx :: 0 <= idx < c.Length && !InBlock(idx, cOff, m, n, ldc) ==> c[idx] == old(c[idx])
  {
    if m == 0 || n == 0 {
      return;
    }
    var i := 0;
    while i < m
      invariant 0 <= i <= m
      invariant forall idx :: 0 <= idx < c.Length ==>
                  c[idx] == (if InBlock(idx, cOff, m, n, ldc) && RowIndex(idx, cOff, ldc) < i
                             then Written(a, aOff, lda, b, bOff, ldb, m, n, k, accumulate, old(c[idx]), idx, cOff, ldc)
                             else old(c[idx]))
    {
      GemmRow(m, n, k, a, aOff, lda, b, bOff, ldb, accumulate, c, cOff, ldc, i);
      i := i + 1;
    }
    forall i, j | 0 <= i < m && 0 <= j < n {
      BlockCell(c.Length, cOff, m, n, ldc, i, j);
    }
    forall i, j | 0 <= i < m && n <= j < ldc && Offset(cOff, ldc, i, j) < c.Length {
      OutsideColumns(cOff, m, n, ldc, i, j);
    }
    forall idx | 0 <= idx < c.Length && InBlock(idx, cOff, m, n, ldc) {
      InsideSpan(cOff, m, n, ldc, idx);
    }
  }

  /** Row `i` of Gemm's block: the cells of that row take their new value. */
  method GemmRow(m: nat, n: nat, k: nat, a: seq<real>, aOff: nat, lda: nat,
                 b: seq<real>, bOff: nat, ldb: nat, accumulate: bool,
                 c: array<real>, cOff: nat, ldc: nat, i: nat)
    requires Fits(|a|, aOff, m, k, lda) && Fits(|b|, bOff, k, n, ldb) && Fits(c.Length, cOff, m, n, ldc)
    requires i < m && n > 0
    modifies c
    ensures forall idx :: 0 <= idx < c.Length ==>
              c[idx] == (if InBlock(idx, cOff, m, n, ldc) && RowIndex(idx, cOff, ldc) == i
                         then Written(a, aOff, lda, b, bOff, ldb, m, n, k, accumulate, old(c[idx]), idx, cOff, ldc)
                         else old(c[idx]))
  {
    var j := 0;
    while j < n
      invariant 0 <= j <= n
      invariant forall idx :: 0 <= idx < c.Length ==>
                  c[idx] == (if InBlock(idx, cOff, m, n, ldc) && RowIndex(idx, cOff, ldc) == i && ColIndex(idx, cOff, ldc) < j
                             then Written(a, aOff, lda, b, bOff, ldb, m, n, k, accumulate, old(c[idx]), idx, cOff, ldc)
                             else old(c[idx]))
    {
      var idx := At(c.Length, cOff, m, n, ldc, i, j);
      BlockCell(c.Length, cOff, m, n, ldc, i, j);
      forall idx' | 0 <= idx' < c.Length && InBlock(idx', cOff, m, n, ldc) &&
                    RowIndex(idx', cOff, ldc) == i && ColIndex(idx', cOff, ldc) == j
        ensures idx' == idx
      {
        CellOfIndex(idx', cOff, ldc);
      }
      var base := if accumulate then c[idx] else 0.0;
      c[idx] := base + Product(a, aOff, lda, b, bOff, ldb, m, n, k, i, j);
      j := j + 1;
    }
  }

  /** Element (i, j) of a block sits at row i, column j of it. */
  lemma BlockCell(len: nat, off: nat, m: nat, n: nat, ld: nat, i: nat, j: nat)
    requires Fits(len, off, m, n, ld) && i < m && j < n
    ensures InBlock(At(len, off, m, n, ld, i, j), off, m, n, ld)
    ensures RowIndex(At(len, off, m, n, ld, i, j), off, ld) == i
    ensures ColIndex(At(len, off, m, n, ld, i, j), off, ld) == j
  {
    DivModOf(i, j, ld);
  }

  /** An index is recovered from its row and column. */
  lemma CellOfIndex(idx: nat, off: nat, ld: nat)
    requires ld > 0 && off <= idx
    ensures RowIndex(idx, off, ld) >= 0
    ensures idx == Offset(off, ld, RowIndex(idx, off, ld), ColIndex(idx, off, ld))
  {
    assert idx - off == RowIndex(idx, off, ld) * ld + ColIndex(idx, off, ld);
  }

  /** Columns n .. ld-1 of a row lie between the block's rows, not in the block. */
  lemma OutsideColumns(off: nat, m: nat, n: nat, ld: nat, i: nat, j: nat)
    requires n <= j < ld
    ensures !InBlock(Offset(off, ld, i, j), off, m, n, ld)
  {
    DivModOf(i, j, ld);
  }

  /** Every cell of a block lies before the end of its span. */
  lemma InsideSpan(off: nat, m: nat, n: nat, ld: nat, idx: nat)
    requires InBlock(idx, off, m, n, ld)
    ensures off <= idx < SpanEnd(off, m, n, ld)
  {
    var r, q := RowIndex(idx, off, ld), ColIndex(idx, off, ld);
    assert idx - off == r * ld + q;
    MulMonoLe(r, m - 1, ld);
  }

  /** Value Gemm stores at a cell of its block: the old value when accumulating,
      plus the product element. */
  function Written(a: seq<real>, aOff: nat, lda: nat, b: seq<real>, bOff: nat, ldb: nat,
                   m: nat, n: nat, k: nat, accumulate: bool, old_: real, idx: nat, cOff: nat, ldc: nat): real
    requires Fits(|a|, aOff, m, k, lda) && Fits(|b|, bOff, k, n, ldb)
    requires InBlock(idx, cOff, m, n, ldc)
  {
    (if accumulate then old_ else 0.0)
    + Product(a, aOff, lda, b, bOff, ldb, m, n, k, RowIndex(idx, cOff, ldc), ColIndex(idx, cOff, ldc))
  }
}
