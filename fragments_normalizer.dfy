/** The overlap of two tracks once their best coarse offsets are lined up
    (services/fragments_normalizer.py). */
module FragmentsNormalizer {
  import opened Common

  /** The six numbers `compute_offsets_and_indices` returns: how far each track is
      advanced, in seconds and in samples, and where each slice stops. */
  datatype Bounds = Bounds(offset1Secs: real, offset2Secs: real, start1: int, end1: int, start2: int, end2: int)

  function ComputeOffsetsAndIndices(diff: int, length: int, rate: nat): (b: Bounds)
    requires rate > 0
    ensures b.start1 >= 0 && b.start2 >= 0 && (b.start1 == 0 || b.start2 == 0)
    ensures b.start1 - b.start2 == diff
    ensures b.end1 - b.start1 == length && b.end2 - b.start2 == length
    ensures b.offset1Secs == (b.start1 as real) / (rate as real)
    ensures b.offset2Secs == (b.start2 as real) / (rate as real)
    ensures b.offset1Secs >= 0.0 && b.offset2Secs >= 0.0 && (b.offset1Secs == 0.0 || b.offset2Secs == 0.0)
  {
    var secs := (diff as real) / (rate as real);
    Bounds(RealMax(0.0, secs), RealMax(0.0, -secs),
           Max(0, diff), Max(0, diff) + length,
           Max(0, -diff), Max(0, -diff) + length)
  }

  /** `min(len(audio1), len(audio2)) - abs(offsets_diff)`. */
  function OverlapLength(best1: int, best2: int, len1: nat, len2: nat): int {
    Min(len1, len2) - Abs(best1 - best2)
  }

  datatype Aligned = Aligned(truncated1: Samples, truncated2: Samples, offset1Secs: real, offset2Secs: real)

  /** `normalize_fragments`: both tracks cut to their common stretch once `audio1`
      is advanced by `best1 - best2` samples (or `audio2` by the opposite). */
  function NormalizeFragments(best1: int, best2: int, audio1: Samples, audio2: Samples, rate: nat): (r: Aligned)
    requires rate > 0
    ensures r.offset1Secs >= 0.0 && r.offset2Secs >= 0.0
    ensures r.offset1Secs == 0.0 || r.offset2Secs == 0.0
    ensures r.offset1Secs - r.offset2Secs == ((best1 - best2) as real) / (rate as real)
    ensures var n := OverlapLength(best1, best2, |audio1|, |audio2|);
            var d := best1 - best2;
            && Max(0, d) + n <= |audio1| && Max(0, -d) + n <= |audio2|
            && (n > 0 ==>
                  && |r.truncated1| == n && |r.truncated2| == n
                  && (forall k :: 0 <= k < n ==> r.truncated1[k] == audio1[Max(0, d) + k])
                  && (forall k :: 0 <= k < n ==> r.truncated2[k] == audio2[Max(0, -d) + k]))
            && (n <= 0 && d >= 0 ==> r.truncated1 == [])
            && (n <= 0 && d < 0 ==> r.truncated2 == [])
            && (n == 0 ==> r.truncated1 == [] && r.truncated2 == [])
            && (n < 0 && d >= 0 ==> r.truncated2 == audio2[..Max(0, |audio2| + n)])
            && (n < 0 && d < 0 ==> r.truncated1 == audio1[..Max(0, |audio1| + n)])
  {
    var diff := best1 - best2;
    var length := OverlapLength(best1, best2, |audio1|, |audio2|);
    var b := ComputeOffsetsAndIndices(diff, length, rate);
    Aligned(PySlice(audio1, b.start1, b.end1), PySlice(audio2, b.start2, b.end2), b.offset1Secs, b.offset2Secs)
  }

  /** Both slices are non-empty and of equal length exactly when the overlap is
      positive; so the guard at s3_correlator.py:57-59 lets a pair through only then. */
  lemma UsableIffPositiveOverlap(best1: int, best2: int, audio1: Samples, audio2: Samples, rate: nat)
    requires rate > 0
    ensures var r := NormalizeFragments(best1, best2, audio1, audio2, rate);
            (|r.truncated1| > 0 && |r.truncated2| > 0 && |r.truncated1| == |r.truncated2|)
            <==> OverlapLength(best1, best2, |audio1|, |audio2|) > 0
  {
  }
}
