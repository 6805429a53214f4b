/** Per-row time reversal of a [seq_length x batch x width] buffer, as the
    reverse direction uses it on its inputs before the step loop and on its
    outputs after it: the first lens[r] steps of row r are reversed, later
    steps keep their place. The destination may interleave directions, so its
    steps lie num_directions * batch * width apart. */
module ReverseSequence {
  import opened IndexArith
  import opened Slots
  import opened SequenceLengths

  /** Where step `t` of a row of length `len` goes (and comes from). */
  function ReversedStep(len: int, t: nat): nat
  {
    if t < len then len - 1 - t else t
  }

  /** The reversal of one row permutes its steps below `seqLength` and undoes
      itself. */
  lemma ReversedStepInvolution(len: int, seqLength: nat, t: nat)
    requires 0 <= len <= seqLength && t < seqLength
    ensures ReversedStep(len, t) < seqLength
    ensures ReversedStep(len, ReversedStep(len, t)) == t
    ensures t < len <==> ReversedStep(len, t) < len
  {
  }

  /** Copies `w` consecutive values of `src` from `srcOff` into `dst` at `dstOff`. */
  method CopySlot(src: seq<real>, srcOff: nat, dst: array<real>, dstOff: nat, w: nat)
    requires srcOff + w <= |src| && dstOff + w <= dst.Length
    modifies dst
    ensures dst[..] == Splice(old(dst[..]), dstOff, Slot(src, srcOff, w))
  {
    var k := 0;
    while k < w
      invariant k <= w
      invariant forall q :: 0 <= q < dst.Length ==>
                  dst[q] == if dstOff <= q < dstOff + k then src[srcOff + (q - dstOff)] else old(dst[q])
    {
      dst[dstOff + k] := src[srcOff + k];
      k := k + 1;
    }
    assert dst[..] == Splice(old(dst[..]), dstOff, Slot(src, srcOff, w));
  }

  /** Destination slot `u` of rows below `i`, and of row `i` for steps in
      [lo, hi), holds the source slot the reversal maps to it; every other
      slot still holds what `d0` held. */
  ghost predicate ReversedUpTo(d: seq<real>, d0: seq<real>, src: seq<real>, lens: seq<int>,
                               seqLength: nat, batchSize: nat, w: nat, dstStride: nat,
                               i: nat, lo: int, hi: int)
    requires |lens| == batchSize && LengthsInRange(lens, seqLength)
    requires Tiled(|src|, batchSize * w, w, batchSize, seqLength)
    requires Tiled(|d|, dstStride, w, batchSize, seqLength) && |d0| == |d|
  {
    forall r, u :: 0 <= r < batchSize && 0 <= u < seqLength ==>
      RowSlot(d, dstStride, w, batchSize, seqLength, u, r)
        == if r < i || (r == i && InRange(u, lo, hi))
           then RowSlot(src, batchSize * w, w, batchSize, seqLength, ReversedStep(lens[r], u), r)
           else RowSlot(d0, dstStride, w, batchSize, seqLength, u, r)
  }

  predicate InRange(u: int, lo: int, hi: int)
  {
    lo <= u < hi
  }

  /** Writing one more reversed slot of row `i` extends the reversed steps to
      [lo', hi'), which adds exactly step `u0`. */
  lemma ReversedOneMore(d: seq<real>, d0: seq<real>, src: seq<real>, lens: seq<int>,
                        seqLength: nat, batchSize: nat, w: nat, dstStride: nat,
                        i: nat, lo: int, hi: int, u0: nat, lo': int, hi': int)
    requires |lens| == batchSize && LengthsInRange(lens, seqLength)
    requires Tiled(|src|, batchSize * w, w, batchSize, seqLength)
    requires Tiled(|d|, dstStride, w, batchSize, seqLength) && |d0| == |d|
    requires i < batchSize && u0 < seqLength
    requires ReversedUpTo(d, d0, src, lens, seqLength, batchSize, w, dstStride, i, lo, hi)
    requires forall u :: InRange(u, lo', hi') <==> (InRange(u, lo, hi) || u == u0)
    ensures SlotStart(dstStride, w, u0, i) + w <= |d|
    ensures SlotStart(batchSize * w, w, ReversedStep(lens[i], u0), i) + w <= |src|
    ensures ReversedUpTo(Splice(d, SlotStart(dstStride, w, u0, i),
                                Slot(src, SlotStart(batchSize * w, w, ReversedStep(lens[i], u0), i), w)),
                         d0, src, lens, seqLength, batchSize, w, dstStride, i, lo', hi')
  {
    ReversedStepInvolution(lens[i], seqLength, u0);
    var t0 := ReversedStep(lens[i], u0);
    var v := RowSlot(src, batchSize * w, w, batchSize, seqLength, t0, i);
    SlotInStep(|d|, dstStride, w, batchSize, seqLength, u0, i);
    var d' := Splice(d, SlotStart(dstStride, w, u0, i), v);
    forall r, u | 0 <= r < batchSize && 0 <= u < seqLength
      ensures RowSlot(d', dstStride, w, batchSize, seqLength, u, r)
                == if r < i || (r == i && InRange(u, lo', hi'))
                   then RowSlot(src, batchSize * w, w, batchSize, seqLength, ReversedStep(lens[r], u), r)
                   else RowSlot(d0, dstStride, w, batchSize, seqLength, u, r)
    {
      SlotWrite(d, dstStride, w, batchSize, seqLength, u0, i, v, u, r);
      if r != i || u != u0 {
        assert RowSlot(d', dstStride, w, batchSize, seqLength, u, r) == RowSlot(d, dstStride, w, batchSize, seqLength, u, r);
        assert InRange(u, lo', hi') <==> InRange(u, lo, hi) || u == u0;
      }
    }
  }

  /** The reversed steps of row `i` are a set of steps, whatever bounds name it. */
  lemma SameRange(d: seq<real>, d0: seq<real>, src: seq<real>, lens: seq<int>,
                  seqLength: nat, batchSize: nat, w: nat, dstStride: nat,
                  i: nat, lo: int, hi: int, lo': int, hi': int)
    requires |lens| == batchSize && LengthsInRange(lens, seqLength)
    requires Tiled(|src|, batchSize * w, w, batchSize, seqLength)
    requires Tiled(|d|, dstStride, w, batchSize, seqLength) && |d0| == |d|
    requires ReversedUpTo(d, d0, src, lens, seqLength, batchSize, w, dstStride, i, lo, hi)
    requires forall u :: 0 <= u < seqLength ==> (InRange(u, lo', hi') <==> InRange(u, lo, hi))
    ensures ReversedUpTo(d, d0, src, lens, seqLength, batchSize, w, dstStride, i, lo', hi')
  {
  }

  /** Once every step of row `i` is reversed, the rows below `i + 1` are done. */
  lemma NextRow(d: seq<real>, d0: seq<real>, src: seq<real>, lens: seq<int>,
                seqLength: nat, batchSize: nat, w: nat, dstStride: nat, i: nat)
    requires |lens| == batchSize && LengthsInRange(lens, seqLength)
    requires Tiled(|src|, batchSize * w, w, batchSize, seqLength)
    requires Tiled(|d|, dstStride, w, batchSize, seqLength) && |d0| == |d|
    requires ReversedUpTo(d, d0, src, lens, seqLength, batchSize, w, dstStride, i, 0, seqLength)
    ensures ReversedUpTo(d, d0, src, lens, seqLength, batchSize, w, dstStride, i + 1, 0, 0)
  {
  }

  /** Destination slot (u, r), with steps `dstStride` apart, holds source
      slot (ReversedStep(lens[r], u), r), with steps batch * width apart. */
  ghost predicate ReversedInto(src: seq<real>, dst: seq<real>, lens: seq<int>,
                               seqLength: nat, batchSize: nat, w: nat, dstStride: nat)
  {
    && |lens| == batchSize && LengthsInRange(lens, seqLength)
    && Tiled(|src|, batchSize * w, w, batchSize, seqLength) && Tiled(|dst|, dstStride, w, batchSize, seqLength)
    && forall r, u :: 0 <= r < batchSize && 0 <= u < seqLength ==>
         RowSlot(dst, dstStride, w, batchSize, seqLength, u, r)
           == RowSlot(src, batchSize * w, w, batchSize, seqLength, ReversedStep(lens[r], u), r)
  }

  /** ReverseSequence: every destination slot (step u, row r) receives source
      slot (ReversedStep(lens[r], u), r); indices outside the destination's row
      slots are left alone. */
  method ReverseSequence(src: seq<real>, dst: array<real>, lens: seq<int>,
                         seqLength: nat, batchSize: nat, w: nat, numDirections: nat)
    requires |lens| == batchSize && LengthsInRange(lens, seqLength)
    requires Tiled(|src|, batchSize * w, w, batchSize, seqLength)
    requires Tiled(dst.Length, numDirections * batchSize * w, w, batchSize, seqLength)
    modifies dst
    ensures ReversedInto(src, dst[..], lens, seqLength, batchSize, w, numDirections * batchSize * w)
    ensures CoveredKept(old(dst[..]), dst[..], numDirections * batchSize * w, w, batchSize, seqLength)
  {
    var stride := numDirections * batchSize * w;
    ghost var d0 := dst[..];
    var i := 0;
    while i < batchSize
      invariant i <= batchSize
      invariant ReversedUpTo(dst[..], d0, src, lens, seqLength, batchSize, w, stride, i, 0, 0)
      invariant forall j :: 0 <= j < dst.Length && !Covered(j, stride, w, batchSize, seqLength) ==> dst[j] == d0[j]
    {
      var len := lens[i];
      var j := 0;
      SameRange(dst[..], d0, src, lens, seqLength, batchSize, w, stride, i, 0, 0, len, len);
      while j < len
        invariant j <= len
        invariant ReversedUpTo(dst[..], d0, src, lens, seqLength, batchSize, w, stride, i, len - j, len)
        invariant forall q :: 0 <= q < dst.Length && !Covered(q, stride, w, batchSize, seqLength) ==> dst[q] == d0[q]
      {
        ReversedOneMore(dst[..], d0, src, lens, seqLength, batchSize, w, stride, i, len - j, len, len - j - 1, len - j - 1, len);
        WriteSlot(src, SlotStart(batchSize * w, w, j, i), dst, SlotStart(stride, w, len - j - 1, i),
                  w, stride, batchSize, seqLength, len - j - 1, i);
        j := j + 1;
      }
      SameRange(dst[..], d0, src, lens, seqLength, batchSize, w, stride, i, 0, len, 0, j);
      while j < seqLength
        invariant len <= j <= seqLength
        invariant ReversedUpTo(dst[..], d0, src, lens, seqLength, batchSize, w, stride, i, 0, j)
        invariant forall q :: 0 <= q < dst.Length && !Covered(q, stride, w, batchSize, seqLength) ==> dst[q] == d0[q]
      {
        ReversedOneMore(dst[..], d0, src, lens, seqLength, batchSize, w, stride, i, 0, j, j, 0, j + 1);
        WriteSlot(src, SlotStart(batchSize * w, w, j, i), dst, SlotStart(stride, w, j, i),
                  w, stride, batchSize, seqLength, j, i);
        j := j + 1;
      }
      NextRow(dst[..], d0, src, lens, seqLength, batchSize, w, stride, i);
      i := i + 1;
    }
  }

  /** One slot copy into the destination tiling: it writes covered indices only. */
  method WriteSlot(src: seq<real>, srcOff: nat, dst: array<real>, dstOff: nat,
                   w: nat, stride: nat, n: nat, count: nat, t: nat, r: nat)
    requires srcOff + w <= |src|
    requires Tiled(dst.Length, stride, w, n, count) && t < count && r < n && dstOff == SlotStart(stride, w, t, r)
    modifies dst
    ensures dstOff + w <= dst.Length
    ensures dst[..] == Splice(old(dst[..]), dstOff, Slot(src, srcOff, w))
    ensures forall q :: 0 <= q < dst.Length && !Covered(q, stride, w, n, count) ==> dst[q] == old(dst[q])
  {
    SlotInStep(dst.Length, stride, w, n, count, t, r);
    CopySlot(src, srcOff, dst, dstOff, w);
    forall q | 0 <= q < dst.Length && dstOff <= q < dstOff + w
      ensures Covered(q, stride, w, n, count)
    {
      SlotCovered(dst.Length, stride, w, n, count, t, r, q - dstOff);
    }
  }

  /** Reversing twice with the same lengths gives back the original slots: the
      first pass leaves slot u holding source slot ReversedStep(u), the second
      reads it back from there. */
  lemma ReverseTwice(src: seq<real>, once: seq<real>, twice: seq<real>, lens: seq<int>,
                     seqLength: nat, batchSize: nat, w: nat)
    requires |lens| == batchSize && LengthsInRange(lens, seqLength)
    requires Tiled(|src|, batchSize * w, w, batchSize, seqLength)
    requires Tiled(|once|, batchSize * w, w, batchSize, seqLength)
    requires Tiled(|twice|, batchSize * w, w, batchSize, seqLength)
    requires forall r, u :: 0 <= r < batchSize && 0 <= u < seqLength ==>
               RowSlot(once, batchSize * w, w, batchSize, seqLength, u, r)
                 == RowSlot(src, batchSize * w, w, batchSize, seqLength, ReversedStep(lens[r], u), r)
    requires forall r, u :: 0 <= r < batchSize && 0 <= u < seqLength ==>
               RowSlot(twice, batchSize * w, w, batchSize, seqLength, u, r)
                 == RowSlot(once, batchSize * w, w, batchSize, seqLength, ReversedStep(lens[r], u), r)
    ensures forall r, u :: 0 <= r < batchSize && 0 <= u < seqLength ==>
              RowSlot(twice, batchSize * w, w, batchSize, seqLength, u, r)
                == RowSlot(src, batchSize * w, w, batchSize, seqLength, u, r)
  {
    forall r, u | 0 <= r < batchSize && 0 <= u < seqLength
      ensures RowSlot(twice, batchSize * w, w, batchSize, seqLength, u, r)
                == RowSlot(src, batchSize * w, w, batchSize, seqLength, u, r)
    {
      ReversedStepInvolution(lens[r], seqLength, u);
    }
  }
}
