/** Facts about row-major flat indices `q * w + r`, which every buffer of the
    LSTM engine uses. Z3 does not reason about products of two variables on
    its own, so each fact is proved here once, by hand. */
module IndexArith {

  /** Flat index of element (i, j) of a matrix stored from `base` with rows `ld` apart. */
  function Offset(base: nat, ld: nat, i: nat, j: nat): (o: nat)
  {
    MulNonneg(i, ld);
    base + i * ld + j
  }

  lemma MulNonneg(a: int, c: int)
    requires a >= 0 && c >= 0
    ensures a * c >= 0
  {
  }

  /** Multiplication by a non-negative number is monotone, one step at a time. */
  lemma MulMono(a: int, b: int, c: int)
    requires 0 <= a < b && c >= 0
    ensures a * c + c <= b * c
  {
    MulNonneg(b - a - 1, c);
    assert (b - a - 1) * c == b * c - a * c - c;
  }

  lemma MulMonoLe(a: int, b: int, c: int)
    requires 0 <= a <= b && c >= 0
    ensures a * c <= b * c
  {
    if a < b {
      MulMono(a, b, c);
    }
  }

  /** Row `q`, column `r` of a matrix with rows of width `w` lies in row `q` and column `r`. */
  lemma DivModOf(q: int, r: int, w: int)
    requires w > 0 && 0 <= r < w && q >= 0
    ensures (q * w + r) / w == q && (q * w + r) % w == r
  {
    var x := q * w + r;
    var q', r' := x / w, x % w;
    assert x == q' * w + r';
    if q' < q {
      MulMono(q', q, w);
    } else if q < q' {
      MulMono(q, q', w);
    }
  }

  /** A cell of an `n`-row matrix of width `w` lies inside its `n * w` elements. */
  lemma CellBelow(q: int, r: int, w: int, n: int)
    requires 0 <= q < n && 0 <= r < w
    ensures 0 <= q * w + r < n * w
  {
    MulNonneg(q, w);
    MulMono(q, n, w);
  }

  /** Every index below `n * w` names a row below `n`. */
  lemma RowBelow(j: int, w: int, n: int)
    requires w > 0 && 0 <= j < n * w
    ensures 0 <= j / w < n
  {
    assert j == (j / w) * w + j % w;
    if j / w >= n {
      MulMonoLe(n, j / w, w);
    }
  }

  /** Two cells of a matrix with rows of width `w` coincide only when row and column do. */
  lemma CellInjective(q: int, r: int, q': int, r': int, w: int)
    requires w > 0 && q >= 0 && q' >= 0 && 0 <= r < w && 0 <= r' < w
    requires q * w + r == q' * w + r'
    ensures q == q' && r == r'
  {
    DivModOf(q, r, w);
    DivModOf(q', r', w);
  }

  /** `(a + b) * c` distributes; stated once so that loops can use it by name. */
  lemma MulAddDistrib(a: int, b: int, c: int)
    ensures (a + b) * c == a * c + b * c
  {
  }

  lemma MulAssoc(a: int, b: int, c: int)
    ensures (a * b) * c == a * (b * c)
  {
  }
}
