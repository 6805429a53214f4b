/** Per-row sequence lengths of a ragged batch, as UniDirectionalLstm::Compute
    prepares them: the default when none are given, the longest and shortest
    length, and the test that decides whether a row has finished at a step. */
module SequenceLengths {

  /** Lengths used by Compute: the caller's, or `seqLength` for every row when the
      caller gave none. */
  function EffectiveLengths(given: seq<int>, batchSize: nat, seqLength: int): (lens: seq<int>)
    ensures |given| == 0 ==> |lens| == batchSize && forall r :: 0 <= r < batchSize ==> lens[r] == seqLength
    ensures |given| != 0 ==> lens == given
  {
    if |given| == 0 then seq(batchSize, _ => seqLength) else given
  }

  /** The value std::max_element finds: an element no other element exceeds. */
  function MaxElement(s: seq<int>): (m: int)
    requires |s| > 0
    ensures exists i :: 0 <= i < |s| && s[i] == m
    ensures forall i :: 0 <= i < |s| ==> s[i] <= m
  {
    if |s| == 1 then s[0]
    else
      var rest := MaxElement(s[1..]);
      assert forall i :: 1 <= i < |s| ==> s[i] == s[1..][i - 1];
      if s[0] >= rest then s[0] else rest
  }

  /** The value std::min_element finds: an element no other element undercuts. */
  function MinElement(s: seq<int>): (m: int)
    requires |s| > 0
    ensures exists i :: 0 <= i < |s| && s[i] == m
    ensures forall i :: 0 <= i < |s| ==> m <= s[i]
  {
    if |s| == 1 then s[0]
    else
      var rest := MinElement(s[1..]);
      assert forall i :: 1 <= i < |s| ==> s[i] == s[1..][i - 1];
      if s[0] <= rest then s[0] else rest
  }

  /** min(seq_length, shortest length): no row is shorter. */
  function MinSequenceLength(seqLength: int, lens: seq<int>): (m: int)
    requires |lens| > 0
    ensures m <= seqLength
    ensures forall r :: 0 <= r < |lens| ==> m <= lens[r]
    ensures m == seqLength || exists r :: 0 <= r < |lens| && lens[r] == m
  {
    var shortest := MinElement(lens);
    if seqLength <= shortest then seqLength else shortest
  }

  /** Lengths the engine can run: every one in [0, seqLength]. */
  predicate LengthsInRange(lens: seq<int>, seqLength: int)
  {
    forall r :: 0 <= r < |lens| ==> 0 <= lens[r] <= seqLength
  }

  /** Row `r` is finished at `step` when the test of the gate loop and of the
      zero-fill loop holds for it. */
  predicate Finished(step: int, minLength: int, len: int)
  {
    step >= minLength && step >= len
  }

  /** Because the minimum bounds every length from below, the first half of the
      finished-row test never changes its outcome: it is only a fast path. */
  lemma FinishedIffPastLength(seqLength: int, lens: seq<int>, r: nat, step: int)
    requires |lens| > 0 && r < |lens|
    ensures Finished(step, MinSequenceLength(seqLength, lens), lens[r]) <==> step >= lens[r]
  {
  }

  /** Default lengths are all seqLength, so min and max coincide with it and no
      row ever finishes early. */
  lemma DefaultLengthsUniform(batchSize: nat, seqLength: int)
    requires batchSize > 0
    ensures var lens := EffectiveLengths([], batchSize, seqLength);
            MaxElement(lens) == seqLength && MinSequenceLength(seqLength, lens) == seqLength
  {
    var lens := EffectiveLengths([], batchSize, seqLength);
    assert lens[0] == seqLength;
  }

  /** In-range lengths keep the step loop inside the seq_length buffers:
      min <= max <= seqLength. */
  lemma LengthBounds(seqLength: int, lens: seq<int>)
    requires |lens| > 0 && LengthsInRange(lens, seqLength)
    ensures 0 <= MinSequenceLength(seqLength, lens) <= MaxElement(lens) <= seqLength
  {
    assert lens[0] <= MaxElement(lens);
  }
}
