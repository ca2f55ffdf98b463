/** The per-season search of main.py: the coarse pass picks the best-matching window,
    both tracks are cut to their overlap, the per-second pass gives a curve, and the
    stretch of the curve above its mean becomes one candidate opening per track. */
module MainPipeline {
  import opened Common
  import opened Stats
  import opened Correlator
  import opened FragmentsNormalizer
  import opened PairScheduler

  // ---------------------------------------------------------------------------
  // find_longest_same_fragment

  /** The correlation column of a curve, `corr_by_secs[:, 1]`. */
  function Values(rows: seq<CurveRow>): (vs: seq<real>)
    ensures |vs| == |rows|
    ensures forall i :: 0 <= i < |rows| ==> vs[i] == rows[i].value
  {
    seq(|rows|, i requires 0 <= i < |rows| => rows[i].value)
  }

  /** Index `a` is the first whose value is above `m`. */
  ghost predicate FirstAbove(s: seq<real>, m: real, a: int) {
    0 <= a < |s| && s[a] > m && forall i :: 0 <= i < a ==> s[i] <= m
  }

  /** Index `b` is the last whose value is above `m`. */
  ghost predicate LastAbove(s: seq<real>, m: real, b: int) {
    0 <= b < |s| && s[b] > m && forall i :: b < i < |s| ==> s[i] <= m
  }

  /** `cp.where(s > m)[0]`: the indices of the values strictly above `m`, ascending. */
  function AboveIndices(s: seq<real>, m: real): (r: seq<nat>)
    ensures forall k :: 0 <= k < |r| ==> r[k] < |s| && s[r[k]] > m
  {
    if s == [] then []
    else
      var init := AboveIndices(s[..|s| - 1], m);
      init + (if s[|s| - 1] > m then [|s| - 1] else [])
  }

  /** `cp.where` lists every index above `m`, each once, in ascending order. */
  lemma {:induction false} AboveIndicesComplete(s: seq<real>, m: real)
    ensures var r := AboveIndices(s, m);
            && (forall i :: 0 <= i < |s| && s[i] > m ==> i in r)
            && (forall k, l :: 0 <= k < l < |r| ==> r[k] < r[l])
  {
    if s != [] {
      AboveIndicesSnoc(s, m);
      AboveIndicesComplete(s[..|s| - 1], m);
      if s[|s| - 1] <= m {
        assert AboveIndices(s, m) == AboveIndices(s[..|s| - 1], m);
      }
    }
  }

  /** `cp.where` over a list with one more value: the same indices, then the new
      one if its value is above `m`. */
  lemma AboveIndicesSnoc(s: seq<real>, m: real)
    requires s != []
    ensures AboveIndices(s, m) == AboveIndices(s[..|s| - 1], m) + (if s[|s| - 1] > m then [|s| - 1] else [])
    ensures forall i :: 0 <= i < |s| - 1 ==> s[..|s| - 1][i] == s[i]
  {
  }

  /** `cp.where` is empty exactly when no value is above `m`. */
  lemma {:induction false} AboveIndicesEmpty(s: seq<real>, m: real)
    ensures AboveIndices(s, m) == [] <==> forall i :: 0 <= i < |s| ==> s[i] <= m
  {
    if s != [] {
      AboveIndicesSnoc(s, m);
      AboveIndicesEmpty(s[..|s| - 1], m);
    }
  }

  /** The first entry of `cp.where` is the first index above `m`. */
  lemma {:induction false} AboveIndicesFirst(s: seq<real>, m: real)
    requires AboveIndices(s, m) != []
    ensures FirstAbove(s, m, AboveIndices(s, m)[0])
  {
    var prefix := s[..|s| - 1];
    AboveIndicesSnoc(s, m);
    if AboveIndices(prefix, m) == [] {
      AboveIndicesEmpty(prefix, m);
    } else {
      AboveIndicesFirst(prefix, m);
    }
  }

  /** The last entry of `cp.where` is the last index above `m`. */
  lemma {:induction false} AboveIndicesLast(s: seq<real>, m: real)
    requires AboveIndices(s, m) != []
    ensures LastAbove(s, m, AboveIndices(s, m)[|AboveIndices(s, m)| - 1])
  {
    var prefix := s[..|s| - 1];
    AboveIndicesSnoc(s, m);
    if s[|s| - 1] <= m {
      assert AboveIndices(s, m) == AboveIndices(prefix, m);
      AboveIndicesLast(prefix, m);
    }
  }

  /** `cp.where` is empty exactly when no value is above `m`; otherwise its ends are
      the first and the last index above `m`. */
  lemma AboveIndicesEnds(s: seq<real>, m: real)
    ensures var r := AboveIndices(s, m);
            && (r == [] <==> forall i :: 0 <= i < |s| ==> s[i] <= m)
            && (r != [] ==> FirstAbove(s, m, r[0]) && LastAbove(s, m, r[|r| - 1]))
  {
    AboveIndicesEmpty(s, m);
    if AboveIndices(s, m) != [] {
      AboveIndicesFirst(s, m);
      AboveIndicesLast(s, m);
    }
  }

  /** Some correlation lies strictly above the mean of the curve. */
  ghost predicate Found(rows: seq<CurveRow>) {
    |rows| > 0 && exists i :: 0 <= i < |rows| && rows[i].value > Mean(Values(rows))
  }

  /** A sample offset in seconds. */
  function Secs(offset: int, rate: nat): real
    requires rate > 0
  {
    (offset as real) / (rate as real)
  }

  /** What `find_longest_same_fragment` returns: the span in seconds and whether it
      counts as a match. */
  datatype Fragment = Fragment(startSecs: real, endSecs: real, isCorrelate: bool)

  /** `find_longest_same_fragment`: the offsets of the first and the last row whose
      correlation is strictly above the mean, in seconds, flagged as a match when
      the mean is more than twice the median. With nothing above the mean (an empty
      curve included) it gives zeros and no match. */
  function FindLongestSameFragment(rows: seq<CurveRow>, rate: nat): (f: Fragment)
    requires rate > 0
    ensures !Found(rows) ==> f == Fragment(0.0, 0.0, false)
    ensures Found(rows) ==>
              var vs := Values(rows);
              var m := Mean(vs);
              && (exists a, b :: && FirstAbove(vs, m, a) && LastAbove(vs, m, b)
                                 && f.startSecs == Secs(rows[a].offset, rate)
                                 && f.endSecs == Secs(rows[b].offset, rate))
              && (f.isCorrelate <==> m > 2.0 * Median(vs))
  {
    if |rows| == 0 then Fragment(0.0, 0.0, false)
    else
      var vs := Values(rows);
      var m := Mean(vs);
      var above := AboveIndices(vs, m);
      AboveIndicesEnds(vs, m);
      if |above| == 0 then Fragment(0.0, 0.0, false)
      else
        var f := Fragment(Secs(rows[above[0]].offset, rate), Secs(rows[above[|above| - 1]].offset, rate),
                          m > Median(vs) * 2.0);
        assert FirstAbove(vs, m, above[0]) && LastAbove(vs, m, above[|above| - 1]);
        f
  }

  /** There is only one first and one last index above `m`, and the first comes no
      later than the last. */
  lemma AboveEndsUnique(s: seq<real>, m: real, a: int, a': int, b: int, b': int)
    requires FirstAbove(s, m, a) && FirstAbove(s, m, a')
    requires LastAbove(s, m, b) && LastAbove(s, m, b')
    ensures a == a' && b == b' && a <= b
  {
  }

  /** A curve has a stretch above its mean exactly when its correlations are not all
      equal. */
  lemma FoundIffNotConstant(rows: seq<CurveRow>)
    requires |rows| > 0
    ensures Found(rows) <==> exists i, j :: 0 <= i < |rows| && 0 <= j < |rows| && rows[i].value != rows[j].value
  {
    var vs := Values(rows);
    AboveMeanIffNotConstant(vs);
    if exists i, j :: 0 <= i < |rows| && 0 <= j < |rows| && rows[i].value != rows[j].value {
      var i, j :| 0 <= i < |rows| && 0 <= j < |rows| && rows[i].value != rows[j].value;
      assert vs[i] != vs[j];
    }
    if exists i, j :: 0 <= i < |vs| && 0 <= j < |vs| && vs[i] != vs[j] {
      var i, j :| 0 <= i < |vs| && 0 <= j < |vs| && vs[i] != vs[j];
      assert rows[i].value != rows[j].value;
    }
  }

  lemma SecsOfMultiple(i: nat, rate: nat)
    requires rate > 0
    ensures Secs(i * rate, rate) == i as real
  {
    assert (i * rate) as real == (i as real) * (rate as real);
  }

  /** On a curve laid out one row per second, as the per-second pass lays it out, the
      span runs from the first to the last second above the mean, so it starts no
      later than it ends and both ends lie on the curve. */
  lemma FragmentInSeconds(rows: seq<CurveRow>, rate: nat)
    requires rate > 0
    requires forall i :: 0 <= i < |rows| ==> rows[i].offset == i * rate
    ensures var f := FindLongestSameFragment(rows, rate);
            && 0.0 <= f.startSecs <= f.endSecs
            && (Found(rows) ==>
                  exists a, b :: && FirstAbove(Values(rows), Mean(Values(rows)), a)
                                 && LastAbove(Values(rows), Mean(Values(rows)), b)
                                 && f.startSecs == a as real && f.endSecs == b as real)
  {
    var f := FindLongestSameFragment(rows, rate);
    if Found(rows) {
      var vs := Values(rows);
      var m := Mean(vs);
      var a, b :| && FirstAbove(vs, m, a) && LastAbove(vs, m, b)
                  && f.startSecs == Secs(rows[a].offset, rate)
                  && f.endSecs == Secs(rows[b].offset, rate);
      AboveEndsUnique(vs, m, a, a, b, b);
      SecsOfMultiple(a, rate);
      SecsOfMultiple(b, rate);
    }
  }

  // ---------------------------------------------------------------------------
  // find_offsets_by_window

  /** The peak column of the coarse pass, `offsets_by_windows[:, 2]`. */
  function Peaks(matches: seq<WindowMatch>): (ps: seq<real>)
    ensures |ps| == |matches|
    ensures forall i :: 0 <= i < |matches| ==> ps[i] == matches[i].peak
  {
    seq(|matches|, i requires 0 <= i < |matches| => matches[i].peak)
  }

  /** `cp.argmax(offsets_by_windows[:, 2])`: the first window of greatest peak. */
  function BestWindow(matches: seq<WindowMatch>): (k: nat)
    requires |matches| > 0
    ensures k < |matches|
    ensures forall j :: 0 <= j < |matches| ==> matches[j].peak <= matches[k].peak
    ensures forall j :: 0 <= j < k ==> matches[j].peak < matches[k].peak
  {
    ArgMax(Peaks(matches))
  }

  /** The four times `find_offsets_by_window` returns, in seconds. */
  datatype Candidates = Candidates(file1Start: real, file1End: real, file2Start: real, file2End: real)

  /** `cp.array([0, 0, 0, 0])`: no match. */
  const NoMatch := Candidates(0.0, 0.0, 0.0, 0.0)

  /** The aligned overlap around the best coarse window. */
  function AlignOnBest(audio1: Samples, audio2: Samples, matches: seq<WindowMatch>, rate: nat): Aligned
    requires |matches| > 0 && rate > 0
  {
    var best := matches[BestWindow(matches)];
    NormalizeFragments(best.offset1, best.offset2, audio1, audio2, rate)
  }

  /** The overlap length around the best coarse window. */
  function BestOverlap(audio1: Samples, audio2: Samples, matches: seq<WindowMatch>): int
    requires |matches| > 0
  {
    var best := matches[BestWindow(matches)];
    OverlapLength(best.offset1, best.offset2, |audio1|, |audio2|)
  }

  /** The per-second pass over the cut tracks succeeds exactly when the overlap holds
      a whole second. When it does not, the cut tracks are empty or unequal: an empty
      first slice has no whole second, and a first slice longer than an empty second
      one raises the length error. */
  lemma SyncOnAligned(best1: int, best2: int, audio1: Samples, audio2: Samples, rate: nat,
                      blockScore: (Samples, Samples) -> real)
    requires rate > 0
    ensures var al := NormalizeFragments(best1, best2, audio1, audio2, rate);
            SyncMovingWindow(al.truncated1, al.truncated2, rate, blockScore).Ok?
            <==> OverlapLength(best1, best2, |audio1|, |audio2|) >= rate
  {
    var al := NormalizeFragments(best1, best2, audio1, audio2, rate);
    var n := OverlapLength(best1, best2, |audio1|, |audio2|);
    if n > 0 {
      assert |al.truncated1| == n == |al.truncated2|;
    } else if best1 - best2 >= 0 {
      assert al.truncated1 == [];
    } else {
      assert al.truncated2 == [];
    }
  }

  /** `find_offsets_by_window`: the candidate opening in each of the two tracks, or
      four zeros when the curve does not count as a match. */
  function FindOffsetsByWindow(audio1: Samples, audio2: Samples, w: nat, rate: nat,
                               blockScore: (Samples, Samples) -> real): (r: Result<Candidates, CorrelatorError>)
    requires w > 0 && rate > 0
    ensures |audio1| <= w ==> r == Err(NoWindows)
    ensures |audio1| > w && |audio2| == 0 ==> r == Err(EmptyInput)
    ensures r.Ok? <==> |audio1| > w && |audio2| > 0
                       && BestOverlap(audio1, audio2, AsyncMovingWindow(audio1, audio2, w).value) >= rate
    ensures r.Ok? ==> var c := r.value;
              && 0.0 <= c.file1Start <= c.file1End
              && 0.0 <= c.file2Start <= c.file2End
              && c.file1End - c.file1Start == c.file2End - c.file2Start
    ensures r.Ok? && r.value != NoMatch ==>
              var matches := AsyncMovingWindow(audio1, audio2, w).value;
              var best := matches[BestWindow(matches)];
              r.value.file1Start - r.value.file2Start == Secs(best.offset1 - best.offset2, rate)
  {
    var matches :- AsyncMovingWindow(audio1, audio2, w);
    var al := AlignOnBest(audio1, audio2, matches, rate);
    var best := matches[BestWindow(matches)];
    SyncOnAligned(best.offset1, best.offset2, audio1, audio2, rate, blockScore);
    var rows :- SyncMovingWindow(al.truncated1, al.truncated2, rate, blockScore);
    var f := FindLongestSameFragment(rows, rate);
    FragmentInSeconds(rows, rate);
    if !f.isCorrelate then Ok(NoMatch)
    else
      Ok(Candidates(al.offset1Secs + f.startSecs, al.offset1Secs + f.endSecs,
                    al.offset2Secs + f.startSecs, al.offset2Secs + f.endSecs))
  }

  /** The per-second curve over the overlap around the best coarse window. */
  function AlignedCurve(audio1: Samples, audio2: Samples, w: nat, rate: nat,
                        blockScore: (Samples, Samples) -> real): (r: Result<seq<CurveRow>, CorrelatorError>)
    requires w > 0 && rate > 0
    ensures r.Ok? ==> |r.value| > 0 && forall i :: 0 <= i < |r.value| ==> r.value[i].offset == i * rate
  {
    var matches :- AsyncMovingWindow(audio1, audio2, w);
    var al := AlignOnBest(audio1, audio2, matches, rate);
    SyncMovingWindow(al.truncated1, al.truncated2, rate, blockScore)
  }

  /** `c` is the four zeros when `f` is not flagged as a match, and otherwise `f`
      shifted in each track by how far that track was advanced. */
  ghost predicate FromFragment(f: Fragment, al: Aligned, c: Candidates) {
    && (!f.isCorrelate ==> c == NoMatch)
    && (f.isCorrelate ==> c == Candidates(al.offset1Secs + f.startSecs, al.offset1Secs + f.endSecs,
                                          al.offset2Secs + f.startSecs, al.offset2Secs + f.endSecs))
  }

  /** The four zeros come back exactly when the curve is not flagged as a match;
      otherwise each track's candidate is the fragment shifted by how far that track
      was advanced. */
  lemma FindOffsetsByWindowValue(audio1: Samples, audio2: Samples, w: nat, rate: nat,
                                 blockScore: (Samples, Samples) -> real)
    requires w > 0 && rate > 0
    requires FindOffsetsByWindow(audio1, audio2, w, rate, blockScore).Ok?
    ensures AlignedCurve(audio1, audio2, w, rate, blockScore).Ok?
    ensures FromFragment(FindLongestSameFragment(AlignedCurve(audio1, audio2, w, rate, blockScore).value, rate),
                         AlignOnBest(audio1, audio2, AsyncMovingWindow(audio1, audio2, w).value, rate),
                         FindOffsetsByWindow(audio1, audio2, w, rate, blockScore).value)
  {
    var matches := AsyncMovingWindow(audio1, audio2, w).value;
    var al := AlignOnBest(audio1, audio2, matches, rate);
    var curve := SyncMovingWindow(al.truncated1, al.truncated2, rate, blockScore);
    assert curve.Ok?;
    assert AlignedCurve(audio1, audio2, w, rate, blockScore) == curve;
  }

  /** A curve is a match when some second lies above its mean and the mean is more
      than twice its median. */
  ghost predicate IsMatch(rows: seq<CurveRow>) {
    Found(rows) && Mean(Values(rows)) > 2.0 * Median(Values(rows))
  }

  /** `c` runs, in each track, from the first to the last second above the curve's
      mean, shifted by how far that track was advanced. */
  ghost predicate ShiftedSpan(rows: seq<CurveRow>, al: Aligned, c: Candidates)
    requires |rows| > 0
  {
    var vs := Values(rows);
    exists a, b :: && FirstAbove(vs, Mean(vs), a) && LastAbove(vs, Mean(vs), b)
                   && c == Candidates(al.offset1Secs + a as real, al.offset1Secs + b as real,
                                      al.offset2Secs + a as real, al.offset2Secs + b as real)
  }

  /** `c` is the four zeros for a curve that is not a match, and the span of its
      seconds above the mean, shifted per track, for one that is. */
  ghost predicate FromCurve(rows: seq<CurveRow>, al: Aligned, c: Candidates)
    requires |rows| > 0
  {
    && (!IsMatch(rows) ==> c == NoMatch)
    && (IsMatch(rows) ==> ShiftedSpan(rows, al, c))
  }

  /** Without a match the four zeros come back; with one, each track's candidate
      runs from the first to the last second above the mean, shifted by how far
      that track was advanced. */
  lemma FindOffsetsByWindowSpan(audio1: Samples, audio2: Samples, w: nat, rate: nat,
                                blockScore: (Samples, Samples) -> real)
    requires w > 0 && rate > 0
    requires FindOffsetsByWindow(audio1, audio2, w, rate, blockScore).Ok?
    ensures AlignedCurve(audio1, audio2, w, rate, blockScore).Ok?
    ensures FromCurve(AlignedCurve(audio1, audio2, w, rate, blockScore).value,
                      AlignOnBest(audio1, audio2, AsyncMovingWindow(audio1, audio2, w).value, rate),
                      FindOffsetsByWindow(audio1, audio2, w, rate, blockScore).value)
  {
    FindOffsetsByWindowValue(audio1, audio2, w, rate, blockScore);
    ShiftedFragment(AlignedCurve(audio1, audio2, w, rate, blockScore).value, rate,
                    AlignOnBest(audio1, audio2, AsyncMovingWindow(audio1, audio2, w).value, rate),
                    FindOffsetsByWindow(audio1, audio2, w, rate, blockScore).value);
  }

  /** Candidates built from a per-second curve's fragment, in terms of the curve. */
  lemma ShiftedFragment(rows: seq<CurveRow>, rate: nat, al: Aligned, c: Candidates)
    requires rate > 0 && |rows| > 0
    requires forall i :: 0 <= i < |rows| ==> rows[i].offset == i * rate
    requires FromFragment(FindLongestSameFragment(rows, rate), al, c)
    ensures FromCurve(rows, al, c)
  {
    FragmentInSeconds(rows, rate);
  }

  // ---------------------------------------------------------------------------
  // find_all_offsets

  /** What stops `find_all_offsets`: a file name without a number, or a failure of
      one of the correlation passes. */
  datatype OffsetsError = NameError(name: string) | CorrelationError(cause: CorrelatorError)

  /** `offsets_by_audio`: the (start, end) candidates found for each file. */
  type OffsetsByAudio = Dict<string, seq<(real, real)>>

  /** The names of the files, in order. */
  function Names(files: seq<Track>): (ns: seq<string>)
    ensures |ns| == |files|
    ensures forall i :: 0 <= i < |files| ==> ns[i] == files[i].name
  {
    seq(|files|, i requires 0 <= i < |files| => files[i].name)
  }

  /** `{file: [] for file, _ in files}`. */
  function NoOffsets(files: seq<Track>): (d: OffsetsByAudio)
    requires DistinctNames(files)
    ensures DistinctKeys(d)
    ensures Keys(d) == Names(files)
    ensures forall i :: 0 <= i < |d| ==> d[i].1 == []
  {
    seq(|files|, i requires 0 <= i < |files| => (files[i].name, []))
  }

  /** The filter at main.py:92: only this one pair is examined. */
  predicate IsExamined(p: TrackPair) {
    p.first.name == "11.wav" && p.second.name == "12.wav"
  }

  /** One turn of the loop of `find_all_offsets`. */
  function RecordPair(d: OffsetsByAudio, p: TrackPair, w: nat, rate: nat,
                      blockScore: (Samples, Samples) -> real): (r: Result<OffsetsByAudio, OffsetsError>)
    requires DistinctKeys(d) && w > 0 && rate > 0
    ensures r.Ok? ==> DistinctKeys(r.value)
  {
    if !IsExamined(p) then Ok(d)
    else
      match FindOffsetsByWindow(p.first.samples, p.second.samples, w, rate, blockScore)
      case Err(e) => Err(CorrelationError(e))
      case Ok(c) =>
        var d1 := SetDefaultAppend(d, p.first.name, (c.file1Start, c.file1End));
        Ok(SetDefaultAppend(d1, p.second.name, (c.file2Start, c.file2End)))
  }

  /** The loop of `find_all_offsets` over a list of pairs, from `d`. */
  function RecordAll(d: OffsetsByAudio, pairs: seq<TrackPair>, w: nat, rate: nat,
                     blockScore: (Samples, Samples) -> real): (r: Result<OffsetsByAudio, OffsetsError>)
    requires DistinctKeys(d) && w > 0 && rate > 0
    ensures r.Ok? ==> DistinctKeys(r.value)
  {
    if pairs == [] then Ok(d)
    else
      var prev :- RecordAll(d, pairs[..|pairs| - 1], w, rate, blockScore);
      RecordPair(prev, pairs[|pairs| - 1], w, rate, blockScore)
  }

  /** `find_all_offsets` as a value. */
  function AllOffsets(files: seq<Track>, window: nat, w: nat, rate: nat,
                      blockScore: (Samples, Samples) -> real): Result<OffsetsByAudio, OffsetsError>
    requires DistinctNames(files) && w > 0 && rate > 0
  {
    match ScheduledPairs(files, window)
    case Err(BadFileName(name)) => Err(NameError(name))
    case Ok(pairs) => RecordAll(NoOffsets(files), pairs, w, rate, blockScore)
  }

  /** One examined pair: both files get their candidate appended, or the failure
      of the search ends the loop. */
  method AppendCandidates(offsets: OffsetsByAudio, p: TrackPair, w: nat, rate: nat,
                          blockScore: (Samples, Samples) -> real)
    returns (r: Result<OffsetsByAudio, OffsetsError>)
    requires DistinctKeys(offsets) && w > 0 && rate > 0 && IsExamined(p)
    ensures r == RecordPair(offsets, p, w, rate, blockScore)
  {
    var c := FindOffsetsByWindow(p.first.samples, p.second.samples, w, rate, blockScore);
    if c.Err? {
      return Err(CorrelationError(c.error));
    }
    var next := SetDefaultAppend(offsets, p.first.name, (c.value.file1Start, c.value.file1End));
    next := SetDefaultAppend(next, p.second.name, (c.value.file2Start, c.value.file2End));
    r := Ok(next);
  }

  /** One more pair for the loop. */
  lemma RecordAllSnoc(d: OffsetsByAudio, pairs: seq<TrackPair>, i: nat, w: nat, rate: nat,
                      blockScore: (Samples, Samples) -> real)
    requires DistinctKeys(d) && w > 0 && rate > 0 && i < |pairs|
    requires RecordAll(d, pairs[..i], w, rate, blockScore).Ok?
    ensures RecordAll(d, pairs[..i + 1], w, rate, blockScore)
            == RecordPair(RecordAll(d, pairs[..i], w, rate, blockScore).value, pairs[i], w, rate, blockScore)
  {
    assert pairs[..i + 1][..i] == pairs[..i];
  }

  /** `find_all_offsets`. */
  method FindAllOffsets(files: seq<Track>, window: nat, w: nat, rate: nat,
                        blockScore: (Samples, Samples) -> real)
    returns (r: Result<OffsetsByAudio, OffsetsError>)
    requires DistinctNames(files) && w > 0 && rate > 0
    ensures r == AllOffsets(files, window, w, rate, blockScore)
  {
    var offsets := NoOffsets(files);
    var scheduled, registry := GeneratePairs(files, window);
    if scheduled.Err? {
      r := Err(NameError(scheduled.error.name));
      return;
    }
    var pairs := scheduled.value;
    var i := 0;
    while i < |pairs|
      invariant i <= |pairs| && DistinctKeys(offsets)
      invariant RecordAll(NoOffsets(files), pairs[..i], w, rate, blockScore) == Ok(offsets)
    {
      RecordAllSnoc(NoOffsets(files), pairs, i, w, rate, blockScore);
      if IsExamined(pairs[i]) {
        var next := AppendCandidates(offsets, pairs[i], w, rate, blockScore);
        if next.Err? {
          r := next;
          RecordAllStops(NoOffsets(files), pairs, i + 1, w, rate, blockScore);
          return;
        }
        offsets := next.value;
      }
      i := i + 1;
    }
    assert pairs[..i] == pairs;
    r := Ok(offsets);
  }

  /** Once a prefix fails, the whole loop fails with the same error. */
  lemma {:induction false} RecordAllStops(d: OffsetsByAudio, pairs: seq<TrackPair>, k: nat, w: nat, rate: nat,
                                          blockScore: (Samples, Samples) -> real)
    requires DistinctKeys(d) && w > 0 && rate > 0 && k <= |pairs|
    requires RecordAll(d, pairs[..k], w, rate, blockScore).Err?
    ensures RecordAll(d, pairs, w, rate, blockScore) == RecordAll(d, pairs[..k], w, rate, blockScore)
  {
    if k < |pairs| {
      var init := pairs[..|pairs| - 1];
      assert init[..k] == pairs[..k];
      RecordAllStops(d, init, k, w, rate, blockScore);
    } else {
      assert pairs[..k] == pairs;
    }
  }

  // ---------------------------------------------------------------------------
  // What find_all_offsets keeps

  /** The number of candidates a dictionary lists under a key. */
  function CountAt(d: OffsetsByAudio, k: string): nat {
    |ListOf(d, k)|
  }

  /** How many sides of the examined pairs are the file named `k`. */
  function Appearances(pairs: seq<TrackPair>, k: string): nat {
    if pairs == [] then 0
    else
      var p := pairs[|pairs| - 1];
      Appearances(pairs[..|pairs| - 1], k)
      + (if IsExamined(p) && p.first.name == k then 1 else 0)
      + (if IsExamined(p) && p.second.name == k then 1 else 0)
  }

  /** Appending under `key` adds one candidate there and none elsewhere. */
  lemma CountAfterAppend(d: OffsetsByAudio, key: string, v: (real, real), k: string)
    requires DistinctKeys(d)
    ensures CountAt(SetDefaultAppend(d, key, v), k) == CountAt(d, k) + (if key == k then 1 else 0)
  {
  }

  /** One turn of the loop adds one candidate per side of an examined pair. */
  lemma RecordPairCounts(d: OffsetsByAudio, p: TrackPair, w: nat, rate: nat,
                         blockScore: (Samples, Samples) -> real, k: string)
    requires DistinctKeys(d) && w > 0 && rate > 0
    requires RecordPair(d, p, w, rate, blockScore).Ok?
    ensures CountAt(RecordPair(d, p, w, rate, blockScore).value, k) == CountAt(d, k) + Appearances([p], k)
  {
    assert [p][..0] == [];
    if IsExamined(p) {
      var c := FindOffsetsByWindow(p.first.samples, p.second.samples, w, rate, blockScore).value;
      var d1 := SetDefaultAppend(d, p.first.name, (c.file1Start, c.file1End));
      CountAfterAppend(d, p.first.name, (c.file1Start, c.file1End), k);
      CountAfterAppend(d1, p.second.name, (c.file2Start, c.file2End), k);
    }
  }

  /** Each examined pair adds exactly one candidate to each of its two files, and
      nothing else is added. */
  lemma {:induction false} RecordAllCounts(d: OffsetsByAudio, pairs: seq<TrackPair>, w: nat, rate: nat,
                                           blockScore: (Samples, Samples) -> real, k: string)
    requires DistinctKeys(d) && w > 0 && rate > 0
    requires RecordAll(d, pairs, w, rate, blockScore).Ok?
    ensures CountAt(RecordAll(d, pairs, w, rate, blockScore).value, k) == CountAt(d, k) + Appearances(pairs, k)
  {
    if pairs != [] {
      var init := pairs[..|pairs| - 1];
      var p := pairs[|pairs| - 1];
      RecordAllCounts(d, init, w, rate, blockScore, k);
      var prev := RecordAll(d, init, w, rate, blockScore).value;
      RecordPairCounts(prev, p, w, rate, blockScore, k);
      assert [p][..0] == [];
    }
  }

  /** Keys all already present are kept in place, in order. */
  lemma {:induction false} RecordAllKeys(d: OffsetsByAudio, pairs: seq<TrackPair>, w: nat, rate: nat,
                                         blockScore: (Samples, Samples) -> real)
    requires DistinctKeys(d) && w > 0 && rate > 0
    requires forall p :: 0 <= p < |pairs| ==> pairs[p].first.name in Keys(d) && pairs[p].second.name in Keys(d)
    requires RecordAll(d, pairs, w, rate, blockScore).Ok?
    ensures Keys(RecordAll(d, pairs, w, rate, blockScore).value) == Keys(d)
  {
    if pairs != [] {
      var init := pairs[..|pairs| - 1];
      assert forall p :: 0 <= p < |init| ==> init[p] == pairs[p];
      RecordAllKeys(d, init, w, rate, blockScore);
    }
  }

  /** `find_all_offsets` keeps one list per input file, in input order. */
  lemma AllOffsetsKeys(files: seq<Track>, window: nat, w: nat, rate: nat,
                       blockScore: (Samples, Samples) -> real)
    requires DistinctNames(files) && w > 0 && rate > 0
    requires AllOffsets(files, window, w, rate, blockScore).Ok?
    ensures Keys(AllOffsets(files, window, w, rate, blockScore).value) == Names(files)
  {
    var pairs := ScheduledPairs(files, window).value;
    ScheduledPairsFromFiles(files, window);
    var d := NoOffsets(files);
    forall p | 0 <= p < |pairs| ensures pairs[p].first.name in Keys(d) && pairs[p].second.name in Keys(d) {
      var a :| 0 <= a < |files| && files[a] == pairs[p].first;
      var b :| 0 <= b < |files| && files[b] == pairs[p].second;
      assert Keys(d)[a] == pairs[p].first.name;
      assert Keys(d)[b] == pairs[p].second.name;
    }
    RecordAllKeys(d, pairs, w, rate, blockScore);
  }

  /** Each file ends with one candidate per examined pair it belongs to. */
  lemma AllOffsetsCounts(files: seq<Track>, window: nat, w: nat, rate: nat,
                         blockScore: (Samples, Samples) -> real, i: nat)
    requires DistinctNames(files) && w > 0 && rate > 0 && i < |files|
    requires AllOffsets(files, window, w, rate, blockScore).Ok?
    ensures CountAt(AllOffsets(files, window, w, rate, blockScore).value, files[i].name)
            == Appearances(ScheduledPairs(files, window).value, files[i].name)
  {
    var d := NoOffsets(files);
    GetAt(d, i);
    RecordAllCounts(d, ScheduledPairs(files, window).value, w, rate, blockScore, files[i].name);
  }

  /** The candidates one pair adds under `k`: for an examined pair with a result, the
      first file's span when `k` is its first file, then the second file's span
      when `k` is its second. */
  function PairCandidates(p: TrackPair, k: string, w: nat, rate: nat,
                          blockScore: (Samples, Samples) -> real): seq<(real, real)>
    requires w > 0 && rate > 0
  {
    if !IsExamined(p) then []
    else
      match FindOffsetsByWindow(p.first.samples, p.second.samples, w, rate, blockScore)
      case Err(_) => []
      case Ok(c) =>
        (if p.first.name == k then [(c.file1Start, c.file1End)] else [])
        + (if p.second.name == k then [(c.file2Start, c.file2End)] else [])
  }

  /** The candidates all the pairs add under `k`, in pair order. */
  function CandidatesFor(pairs: seq<TrackPair>, k: string, w: nat, rate: nat,
                         blockScore: (Samples, Samples) -> real): seq<(real, real)>
    requires w > 0 && rate > 0
  {
    if pairs == [] then []
    else CandidatesFor(pairs[..|pairs| - 1], k, w, rate, blockScore) + PairCandidates(pairs[|pairs| - 1], k, w, rate, blockScore)
  }

  /** One turn of the loop adds the pair's candidates for `k` at the end of its list. */
  lemma RecordPairContents(d: OffsetsByAudio, p: TrackPair, w: nat, rate: nat,
                           blockScore: (Samples, Samples) -> real, k: string)
    requires DistinctKeys(d) && w > 0 && rate > 0
    requires RecordPair(d, p, w, rate, blockScore).Ok?
    ensures ListOf(RecordPair(d, p, w, rate, blockScore).value, k) == ListOf(d, k) + PairCandidates(p, k, w, rate, blockScore)
  {
    if IsExamined(p) {
      var c := FindOffsetsByWindow(p.first.samples, p.second.samples, w, rate, blockScore).value;
      var c1, c2 := (c.file1Start, c.file1End), (c.file2Start, c.file2End);
      var d1 := SetDefaultAppend(d, p.first.name, c1);
      ListOfAppend(d, p.first.name, c1, k);
      ListOfAppend(d1, p.second.name, c2, k);
      var s1 := if p.first.name == k then [c1] else [];
      var s2 := if p.second.name == k then [c2] else [];
      assert PairCandidates(p, k, w, rate, blockScore) == s1 + s2;
      ConcatAssoc(ListOf(d, k), s1, s2);
    }
  }

  /** The loop leaves under `k` its list in `d` followed by every candidate the
      pairs add under `k`, in pair order. */
  lemma {:induction false} RecordAllContents(d: OffsetsByAudio, pairs: seq<TrackPair>, w: nat, rate: nat,
                                             blockScore: (Samples, Samples) -> real, k: string)
    requires DistinctKeys(d) && w > 0 && rate > 0
    requires RecordAll(d, pairs, w, rate, blockScore).Ok?
    ensures ListOf(RecordAll(d, pairs, w, rate, blockScore).value, k) == ListOf(d, k) + CandidatesFor(pairs, k, w, rate, blockScore)
  {
    if pairs != [] {
      var init := pairs[..|pairs| - 1];
      var p := pairs[|pairs| - 1];
      RecordAllContents(d, init, w, rate, blockScore, k);
      var prev := RecordAll(d, init, w, rate, blockScore).value;
      assert RecordAll(d, pairs, w, rate, blockScore) == RecordPair(prev, p, w, rate, blockScore);
      RecordPairContents(prev, p, w, rate, blockScore, k);
      var a, b, c := ListOf(d, k), CandidatesFor(init, k, w, rate, blockScore), PairCandidates(p, k, w, rate, blockScore);
      assert CandidatesFor(pairs, k, w, rate, blockScore) == b + c;
      ConcatAssoc(a, b, c);
    }
  }

  /** `find_all_offsets` gives each file exactly the candidates of the examined
      pairs it belongs to, in the order the pairs were generated. */
  lemma AllOffsetsContents(files: seq<Track>, window: nat, w: nat, rate: nat,
                           blockScore: (Samples, Samples) -> real, i: nat)
    requires DistinctNames(files) && w > 0 && rate > 0 && i < |files|
    requires AllOffsets(files, window, w, rate, blockScore).Ok?
    ensures Get(AllOffsets(files, window, w, rate, blockScore).value, files[i].name)
            == Some(CandidatesFor(ScheduledPairs(files, window).value, files[i].name, w, rate, blockScore))
  {
    var d := NoOffsets(files);
    var pairs := ScheduledPairs(files, window).value;
    var name := files[i].name;
    var r := AllOffsets(files, window, w, rate, blockScore).value;
    assert RecordAll(d, pairs, w, rate, blockScore) == Ok(r);
    GetAt(d, i);
    assert ListOf(d, name) == [];
    RecordAllContents(d, pairs, w, rate, blockScore, name);
    var cs := CandidatesFor(pairs, name, w, rate, blockScore);
    assert [] + cs == cs;
    AllOffsetsKeys(files, window, w, rate, blockScore);
    assert Keys(r)[i] == name;
  }

  /** With the pair the filter lets through absent, every list stays empty. */
  lemma {:induction false} NoExaminedPairNoChange(d: OffsetsByAudio, pairs: seq<TrackPair>, w: nat, rate: nat,
                                                  blockScore: (Samples, Samples) -> real)
    requires DistinctKeys(d) && w > 0 && rate > 0
    requires forall p :: 0 <= p < |pairs| ==> !IsExamined(pairs[p])
    ensures RecordAll(d, pairs, w, rate, blockScore) == Ok(d)
  {
    if pairs != [] {
      var init := pairs[..|pairs| - 1];
      assert forall p :: 0 <= p < |init| ==> init[p] == pairs[p];
      NoExaminedPairNoChange(d, init, w, rate, blockScore);
    }
  }
}
