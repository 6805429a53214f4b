/** Row slots of the engine's flat buffers. Every buffer the engine writes is
    cut into slots of `w` elements: row `r` of step `t` starts at
    t * stride + r * w, and the `n` rows of a step lie side by side inside the
    step's stride. A write of one slot (std::copy, std::fill, or a kernel that
    fills a row) is a Splice of the buffer. */
module Slots {
  import opened IndexArith

  /** `len` consecutive elements of a flat buffer, from `off`. */
  function Slot(s: seq<real>, off: nat, len: nat): (v: seq<real>)
    requires off + len <= |s|
    ensures |v| == len
    ensures forall k :: 0 <= k < len ==> v[k] == s[off + k]
  {
    s[off .. off + len]
  }

  /** The buffer after `v` is written over it from `off`. */
  function Splice(s: seq<real>, off: nat, v: seq<real>): (s': seq<real>)
    requires off + |v| <= |s|
    ensures |s'| == |s|
    ensures forall i :: 0 <= i < |s| ==> s'[i] == if off <= i < off + |v| then v[i - off] else s[i]
  {
    s[..off] + v + s[off + |v|..]
  }

  function Zeros(n: nat): (z: seq<real>)
    ensures |z| == n && forall k :: 0 <= k < n ==> z[k] == 0.0
  {
    seq(n, _ => 0.0)
  }

  /** The slot just written reads back what was written. */
  lemma SpliceSlot(s: seq<real>, off: nat, v: seq<real>)
    requires off + |v| <= |s|
    ensures Slot(Splice(s, off, v), off, |v|) == v
  {
  }

  /** A slot that does not overlap the written one keeps its contents. */
  lemma SpliceApart(s: seq<real>, off: nat, v: seq<real>, off': nat, len: nat)
    requires off + |v| <= |s| && off' + len <= |s|
    requires off' + len <= off || off + |v| <= off'
    ensures Slot(Splice(s, off, v), off', len) == Slot(s, off', len)
  {
  }

  /** Two buffers that agree on a slot's elements have equal slots. */
  lemma SlotsAgree(s: seq<real>, s': seq<real>, off: nat, len: nat)
    requires off + len <= |s| && |s'| == |s|
    requires forall i :: off <= i < off + len ==> s'[i] == s[i]
    ensures Slot(s', off, len) == Slot(s, off, len)
  {
  }

  /** Start of row `r` of step `t`. */
  function SlotStart(stride: nat, w: nat, t: nat, r: nat): nat
  {
    MulNonneg(t, stride);
    MulNonneg(r, w);
    t * stride + r * w
  }

  /** `count` steps of `n` rows of `w` elements, steps `stride` apart, fit in
      `len` elements, and the rows of one step fit in its stride. */
  predicate Tiled(len: nat, stride: nat, w: nat, n: nat, count: nat)
  {
    && n * w <= stride
    && (count == 0 || (count - 1) * stride + n * w <= len)
  }

  /** Row `r` of step `t` lies inside the rows of step `t`, and so inside the buffer. */
  lemma SlotInStep(len: nat, stride: nat, w: nat, n: nat, count: nat, t: nat, r: nat)
    requires Tiled(len, stride, w, n, count) && t < count && r < n
    ensures t * stride <= SlotStart(stride, w, t, r)
    ensures SlotStart(stride, w, t, r) + w <= t * stride + n * w
    ensures t * stride + n * w <= len
  {
    MulMono(r, n, w);
    MulNonneg(r, w);
    MulMonoLe(t, count - 1, stride);
  }

  /** Rows of other steps lie outside the rows of step `t`. */
  lemma OtherStepApart(len: nat, stride: nat, w: nat, n: nat, count: nat, t: nat, t': nat, r: nat)
    requires Tiled(len, stride, w, n, count) && t < count && t' < count && t != t' && r < n
    ensures SlotStart(stride, w, t', r) + w <= t * stride || t * stride + n * w <= SlotStart(stride, w, t', r)
  {
    SlotInStep(len, stride, w, n, count, t', r);
    if t' < t {
      MulMono(t', t, stride);
    } else {
      MulMono(t, t', stride);
    }
  }

  /** Two rows of the same step do not overlap. */
  lemma RowsApart(stride: nat, w: nat, t: nat, r: nat, r': nat)
    requires r != r'
    ensures SlotStart(stride, w, t, r) + w <= SlotStart(stride, w, t, r')
         || SlotStart(stride, w, t, r') + w <= SlotStart(stride, w, t, r)
  {
    if r < r' {
      MulMono(r, r', w);
    } else {
      MulMono(r', r, w);
    }
  }

  /** The slots row `r` occupies at each of the `count` steps. */
  function SlotRows(a: seq<real>, stride: nat, w: nat, n: nat, count: nat, r: nat): (rows: seq<seq<real>>)
    requires Tiled(|a|, stride, w, n, count) && r < n
    ensures |rows| == count
    ensures forall t :: 0 <= t < count ==> rows[t] == RowSlot(a, stride, w, n, count, t, r)
  {
    seq(count, t requires 0 <= t < count => RowSlot(a, stride, w, n, count, t, r))
  }

  /** Row `r`'s slot at step `t`. */
  function RowSlot(a: seq<real>, stride: nat, w: nat, n: nat, count: nat, t: nat, r: nat): (v: seq<real>)
    requires Tiled(|a|, stride, w, n, count) && t < count && r < n
    ensures SlotStart(stride, w, t, r) + w <= |a|
    ensures v == Slot(a, SlotStart(stride, w, t, r), w)
  {
    SlotInStep(|a|, stride, w, n, count, t, r);
    Slot(a, SlotStart(stride, w, t, r), w)
  }

  /** A write confined to the rows of step `t` changes, in each row's slots, at
      most the slot of step `t`. */
  lemma StepWrite(a: seq<real>, a': seq<real>, stride: nat, w: nat, n: nat, count: nat, t: nat, r: nat)
    requires Tiled(|a|, stride, w, n, count) && |a'| == |a| && t < count && r < n
    requires forall i :: 0 <= i < |a| && !(t * stride <= i < t * stride + n * w) ==> a'[i] == a[i]
    ensures SlotStart(stride, w, t, r) + w <= |a|
    ensures SlotRows(a', stride, w, n, count, r)
              == SlotRows(a, stride, w, n, count, r)[t := Slot(a', SlotStart(stride, w, t, r), w)]
  {
    SlotInStep(|a|, stride, w, n, count, t, r);
    forall t' | 0 <= t' < count && t' != t
      ensures SlotRows(a', stride, w, n, count, r)[t'] == SlotRows(a, stride, w, n, count, r)[t']
    {
      OtherStepApart(|a|, stride, w, n, count, t, t', r);
      SlotInStep(|a|, stride, w, n, count, t', r);
      SlotsAgree(a, a', SlotStart(stride, w, t', r), w);
    }
  }

  /** A write confined to the rows of step `t` that leaves row `r`'s slot of that
      step alone leaves all of row `r`'s slots alone. */
  lemma StepWriteElsewhere(a: seq<real>, a': seq<real>, stride: nat, w: nat, n: nat, count: nat, t: nat, r: nat)
    requires Tiled(|a|, stride, w, n, count) && |a'| == |a| && t < count && r < n
    requires forall i :: 0 <= i < |a| && !(t * stride <= i < t * stride + n * w) ==> a'[i] == a[i]
    requires SlotStart(stride, w, t, r) + w <= |a|
    requires Slot(a', SlotStart(stride, w, t, r), w) == Slot(a, SlotStart(stride, w, t, r), w)
    ensures SlotRows(a', stride, w, n, count, r) == SlotRows(a, stride, w, n, count, r)
  {
    StepWrite(a, a', stride, w, n, count, t, r);
  }

  /** Row `r` of a buffer of `n` rows of `w` elements (a one-step tiling). */
  function Row(a: seq<real>, w: nat, n: nat, r: nat): (v: seq<real>)
    requires Tiled(|a|, n * w, w, n, 1) && r < n
    ensures |v| == w
    ensures SlotStart(n * w, w, 0, r) + w <= |a|
    ensures v == Slot(a, SlotStart(n * w, w, 0, r), w)
  {
    RowSlot(a, n * w, w, n, 1, 0, r)
  }

  /** Writing row `r0` changes row `r0` only. */
  lemma RowSplice(a: seq<real>, w: nat, n: nat, r0: nat, v: seq<real>, r: nat)
    requires Tiled(|a|, n * w, w, n, 1) && r0 < n && r < n && |v| == w
    ensures SlotStart(n * w, w, 0, r0) + w <= |a|
    ensures Row(Splice(a, SlotStart(n * w, w, 0, r0), v), w, n, r) == if r == r0 then v else Row(a, w, n, r)
  {
    SlotInStep(|a|, n * w, w, n, 1, 0, r0);
    SlotInStep(|a|, n * w, w, n, 1, 0, r);
    if r != r0 {
      RowsApart(n * w, w, 0, r0, r);
      SpliceApart(a, SlotStart(n * w, w, 0, r0), v, SlotStart(n * w, w, 0, r), w);
    }
  }

  /** Writing the slot of row `r0` at step `t` changes that one slot of that row only. */
  lemma SlotSplice(a: seq<real>, stride: nat, w: nat, n: nat, count: nat, t: nat, r0: nat, v: seq<real>, r: nat)
    requires Tiled(|a|, stride, w, n, count) && t < count && r0 < n && r < n && |v| == w
    ensures SlotStart(stride, w, t, r0) + w <= |a|
    ensures RowSlot(Splice(a, SlotStart(stride, w, t, r0), v), stride, w, n, count, t, r)
              == if r == r0 then v else RowSlot(a, stride, w, n, count, t, r)
  {
    SlotInStep(|a|, stride, w, n, count, t, r0);
    SlotInStep(|a|, stride, w, n, count, t, r);
    if r != r0 {
      RowsApart(stride, w, t, r0, r);
      SpliceApart(a, SlotStart(stride, w, t, r0), v, SlotStart(stride, w, t, r), w);
    }
  }

  /** Writing the slot of row `r0` at step `t0` changes that one slot and no
      other slot of the tiling. */
  lemma SlotWrite(a: seq<real>, stride: nat, w: nat, n: nat, count: nat, t0: nat, r0: nat, v: seq<real>, t: nat, r: nat)
    requires Tiled(|a|, stride, w, n, count) && t0 < count && r0 < n && |v| == w && t < count && r < n
    ensures SlotStart(stride, w, t0, r0) + w <= |a|
    ensures RowSlot(Splice(a, SlotStart(stride, w, t0, r0), v), stride, w, n, count, t, r)
              == if t == t0 && r == r0 then v else RowSlot(a, stride, w, n, count, t, r)
  {
    SlotInStep(|a|, stride, w, n, count, t0, r0);
    SlotInStep(|a|, stride, w, n, count, t, r);
    if t == t0 {
      SlotSplice(a, stride, w, n, count, t0, r0, v, r);
    } else {
      OtherStepApart(|a|, stride, w, n, count, t0, t, r);
      SpliceApart(a, SlotStart(stride, w, t0, r0), v, SlotStart(stride, w, t, r), w);
    }
  }

  /** Index `i` lies in one of the row slots of a tiling: inside the rows of
      some step below `count`. Indices between the steps (the other
      directions' rows of an interleaved output) are not covered. */
  predicate Covered(i: nat, stride: nat, w: nat, n: nat, count: nat)
  {
    stride > 0 && i / stride < count && i % stride < n * w
  }

  /** Every element of a row slot is covered. */
  lemma SlotCovered(len: nat, stride: nat, w: nat, n: nat, count: nat, t: nat, r: nat, k: nat)
    requires Tiled(len, stride, w, n, count) && t < count && r < n && k < w
    ensures Covered(SlotStart(stride, w, t, r) + k, stride, w, n, count)
  {
    MulMono(r, n, w);
    MulNonneg(r, w);
    DivModOf(t, r * w + k, stride);
  }

  /** Rows lo .. hi-1 of step `t` are contiguous: they start where row `lo`
      starts and end where row `hi` would start, inside the step's rows. */
  lemma ChunkInStep(len: nat, stride: nat, w: nat, n: nat, count: nat, t: nat, lo: nat, hi: nat)
    requires Tiled(len, stride, w, n, count) && t < count && lo <= hi <= n
    ensures t * stride <= SlotStart(stride, w, t, lo) <= SlotStart(stride, w, t, hi) <= t * stride + n * w <= len
    ensures SlotStart(stride, w, t, hi) == SlotStart(stride, w, t, lo) + (hi - lo) * w
  {
    MulNonneg(lo, w);
    MulMonoLe(lo, hi, w);
    MulMonoLe(hi, n, w);
    MulAddDistrib(lo, hi - lo, w);
    if n > 0 {
      SlotInStep(len, stride, w, n, count, t, 0);
    } else {
      MulMonoLe(t, count - 1, stride);
    }
  }

  /** A write confined to the slots of rows lo .. hi-1 at step `t` changes the
      slot of step `t` of those rows and nothing else of any row. */
  lemma ChunkWrite(a: seq<real>, a': seq<real>, stride: nat, w: nat, n: nat, count: nat, t: nat, lo: nat, hi: nat, r: nat)
    requires Tiled(|a|, stride, w, n, count) && t < count && lo <= hi <= n && r < n
    requires KeptOutside(a, a', SlotStart(stride, w, t, lo), SlotStart(stride, w, t, hi))
    ensures SlotRows(a', stride, w, n, count, r)
              == if lo <= r < hi then SlotRows(a, stride, w, n, count, r)[t := RowSlot(a', stride, w, n, count, t, r)]
                 else SlotRows(a, stride, w, n, count, r)
  {
    ChunkInStep(|a|, stride, w, n, count, t, lo, hi);
    StepWrite(a, a', stride, w, n, count, t, r);
    if !(lo <= r < hi) {
      if r < lo {
        MulMono(r, lo, w);
      } else {
        MulMonoLe(hi, r, w);
      }
      SlotsAgree(a, a', SlotStart(stride, w, t, r), w);
    }
  }

  /** A row of step `t` outside rows lo .. hi-1 keeps its slot when only
      those rows' slots change. */
  lemma SlotKept(a: seq<real>, a': seq<real>, stride: nat, w: nat, n: nat, count: nat, t: nat, lo: nat, hi: nat, r: nat)
    requires Tiled(|a|, stride, w, n, count) && t < count && lo <= hi <= n && r < n && !(lo <= r < hi)
    requires KeptOutside(a, a', SlotStart(stride, w, t, lo), SlotStart(stride, w, t, hi))
    ensures RowSlot(a', stride, w, n, count, t, r) == RowSlot(a, stride, w, n, count, t, r)
  {
    ChunkInStep(|a|, stride, w, n, count, t, lo, hi);
    SlotInStep(|a|, stride, w, n, count, t, r);
    if r < lo {
      MulMono(r, lo, w);
    } else {
      MulMonoLe(hi, r, w);
    }
    SlotsAgree(a, a', SlotStart(stride, w, t, r), w);
  }

  /** A write confined to rows lo .. hi-1 of a one-step buffer leaves the other rows alone. */
  lemma RowsKept(a: seq<real>, a': seq<real>, w: nat, n: nat, lo: nat, hi: nat, r: nat)
    requires Tiled(|a|, n * w, w, n, 1) && lo <= hi <= n && r < n && !(lo <= r < hi)
    requires KeptOutside(a, a', SlotStart(n * w, w, 0, lo), SlotStart(n * w, w, 0, hi))
    ensures Row(a', w, n, r) == Row(a, w, n, r)
  {
    ChunkInStep(|a|, n * w, w, n, 1, 0, lo, hi);
    SlotInStep(|a|, n * w, w, n, 1, 0, r);
    if r < lo {
      MulMono(r, lo, w);
    } else {
      MulMonoLe(hi, r, w);
    }
    SlotsAgree(a, a', SlotStart(n * w, w, 0, r), w);
  }

  /** Every element outside lo .. hi-1 is as before. */
  ghost predicate KeptOutside(before: seq<real>, after: seq<real>, lo: nat, hi: nat)
  {
    |after| == |before| && forall idx :: 0 <= idx < |before| && !(lo <= idx < hi) ==> after[idx] == before[idx]
  }

  /** Writing row `r`'s slot of step `t` (std::copy, std::fill or a row
      kernel) leaves everything outside the slot alone, and the slot then holds
      what was written. */
  lemma SlotWritten(a: seq<real>, stride: nat, w: nat, n: nat, count: nat, t: nat, r: nat, v: seq<real>)
    requires Tiled(|a|, stride, w, n, count) && t < count && r < n && |v| == w
    ensures SlotStart(stride, w, t, r) + w <= |a|
    ensures SlotStart(stride, w, t, r + 1) == SlotStart(stride, w, t, r) + w
    ensures KeptOutside(a, Splice(a, SlotStart(stride, w, t, r), v), SlotStart(stride, w, t, r), SlotStart(stride, w, t, r + 1))
    ensures RowSlot(Splice(a, SlotStart(stride, w, t, r), v), stride, w, n, count, t, r) == v
  {
    SlotInStep(|a|, stride, w, n, count, t, r);
    MulAddDistrib(r, 1, w);
    SpliceSlot(a, SlotStart(stride, w, t, r), v);
  }

  /** Two writes confined to the same range are confined to it. */
  lemma KeptTwice(a0: seq<real>, a1: seq<real>, a2: seq<real>, lo: nat, hi: nat)
    requires KeptOutside(a0, a1, lo, hi) && KeptOutside(a1, a2, lo, hi)
    ensures KeptOutside(a0, a2, lo, hi)
  {
  }

  /** Two writes confined to adjacent ranges are confined to their union. */
  lemma KeptJoined(a0: seq<real>, a1: seq<real>, a2: seq<real>, lo: nat, mid: nat, hi: nat)
    requires lo <= mid <= hi
    requires KeptOutside(a0, a1, lo, mid) && KeptOutside(a1, a2, mid, hi)
    ensures KeptOutside(a0, a2, lo, hi)
  {
  }

  /** A write confined to rows lo .. mid-1 of step `t` followed by a write
      confined to rows mid .. hi-1 is confined to rows lo .. hi-1. */
  lemma ChunkJoined(a0: seq<real>, a1: seq<real>, a2: seq<real>, stride: nat, w: nat, n: nat, count: nat,
                    t: nat, lo: nat, mid: nat, hi: nat)
    requires Tiled(|a0|, stride, w, n, count) && t < count && lo <= mid <= hi <= n
    requires KeptOutside(a0, a1, SlotStart(stride, w, t, lo), SlotStart(stride, w, t, mid))
    requires KeptOutside(a1, a2, SlotStart(stride, w, t, mid), SlotStart(stride, w, t, hi))
    ensures KeptOutside(a0, a2, SlotStart(stride, w, t, lo), SlotStart(stride, w, t, hi))
  {
    ChunkInStep(|a0|, stride, w, n, count, t, lo, mid);
    ChunkInStep(|a0|, stride, w, n, count, t, mid, hi);
    KeptJoined(a0, a1, a2, SlotStart(stride, w, t, lo), SlotStart(stride, w, t, mid), SlotStart(stride, w, t, hi));
  }

  /** Every index outside the row slots of a tiling (the other direction's rows
      of an interleaved output) is as before. */
  ghost predicate CoveredKept(before: seq<real>, after: seq<real>, stride: nat, w: nat, n: nat, count: nat)
  {
    |after| == |before| &&
    forall j :: 0 <= j < |before| && !Covered(j, stride, w, n, count) ==> after[j] == before[j]
  }

  /** Two writes to covered indices only write covered indices. */
  lemma CoveredTwice(a0: seq<real>, a1: seq<real>, a2: seq<real>, stride: nat, w: nat, n: nat, count: nat)
    requires CoveredKept(a0, a1, stride, w, n, count) && CoveredKept(a1, a2, stride, w, n, count)
    ensures CoveredKept(a0, a2, stride, w, n, count)
  {
  }

  /** A write confined to rows lo .. hi-1 of step `t` writes covered indices only. */
  lemma ChunkCovered(a: seq<real>, a': seq<real>, stride: nat, w: nat, n: nat, count: nat, t: nat, lo: nat, hi: nat)
    requires Tiled(|a|, stride, w, n, count) && t < count && lo <= hi <= n
    requires KeptOutside(a, a', SlotStart(stride, w, t, lo), SlotStart(stride, w, t, hi))
    ensures CoveredKept(a, a', stride, w, n, count)
  {
    ChunkInStep(|a|, stride, w, n, count, t, lo, hi);
    forall j | SlotStart(stride, w, t, lo) <= j < SlotStart(stride, w, t, hi)
      ensures Covered(j, stride, w, n, count)
    {
      var x := j - t * stride;
      DivModOf(t, x, stride);
    }
  }

  /** Zeroing the slots of every row at step `s` moves the zeroed steps from
      from .. s-1 to from .. s and writes covered indices only. */
  lemma ZeroedStep(a0: seq<real>, a1: seq<real>, a2: seq<real>, stride: nat, w: nat, n: nat, count: nat,
                   from: nat, s: nat)
    requires Tiled(|a0|, stride, w, n, count) && from <= s < count && |a1| == |a0|
    requires forall t, r :: 0 <= t < count && 0 <= r < n ==>
               RowSlot(a1, stride, w, n, count, t, r)
                 == if from <= t < s then Zeros(w) else RowSlot(a0, stride, w, n, count, t, r)
    requires KeptOutside(a1, a2, SlotStart(stride, w, s, 0), SlotStart(stride, w, s, n))
    requires forall r :: 0 <= r < n ==> RowSlot(a2, stride, w, n, count, s, r) == Zeros(w)
    ensures forall t, r :: 0 <= t < count && 0 <= r < n ==>
              RowSlot(a2, stride, w, n, count, t, r)
                == if from <= t < s + 1 then Zeros(w) else RowSlot(a0, stride, w, n, count, t, r)
    ensures CoveredKept(a1, a2, stride, w, n, count)
  {
    ChunkCovered(a1, a2, stride, w, n, count, s, 0, n);
    forall t, r | 0 <= t < count && 0 <= r < n && t != s
      ensures RowSlot(a2, stride, w, n, count, t, r) == RowSlot(a1, stride, w, n, count, t, r)
    {
      ChunkWrite(a1, a2, stride, w, n, count, s, 0, n, r);
      assert SlotRows(a2, stride, w, n, count, r)[t] == SlotRows(a1, stride, w, n, count, r)[t];
    }
  }
}
