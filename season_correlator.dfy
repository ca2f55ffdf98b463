/** The correlation stage of s3_correlator.py: each scheduled pair of episodes long
    enough to compare is correlated second by second over its aligned overlap, and
    each curve is saved under a file name that carries both names and both shifts. */
module SeasonCorrelator {
  import opened Common
  import opened Text
  import opened Correlator
  import opened FragmentsNormalizer
  import opened PairScheduler
  import MainPipeline

  /** A pair is compared only when both tracks last at least this many seconds. */
  const MinSeconds: nat := 30

  /** One entry of `results`: the two names, the shift of each track in seconds and
      the per-second correlation curve over their overlap. */
  datatype Correlation = Correlation(file1: string, file2: string, offset1Secs: real, offset2Secs: real,
                                     curve: seq<CurveRow>)

  /** The part of the loop of `analyze_files` after the length guard: the coarse
      pass, the cut to the overlap, the guard on the cut tracks and the per-second
      pass. */
  function CorrelateTracks(name1: string, name2: string, audio1: Samples, audio2: Samples,
                           w: nat, rate: nat, blockScore: (Samples, Samples) -> real)
    : (r: Result<Option<Correlation>, CorrelatorError>)
    requires w > 0 && rate > 0
    ensures r.Ok? && r.value.Some? ==>
              && r.value.value.file1 == name1 && r.value.value.file2 == name2
              && r.value.value.offset1Secs >= 0.0 && r.value.value.offset2Secs >= 0.0
    ensures r.Ok? && r.value.Some? ==>
              && AsyncMovingWindow(audio1, audio2, w).Ok?
              && var al := MainPipeline.AlignOnBest(audio1, audio2, AsyncMovingWindow(audio1, audio2, w).value, rate);
                 && r.value.value.offset1Secs == al.offset1Secs && r.value.value.offset2Secs == al.offset2Secs
                 && MainPipeline.AlignedCurve(audio1, audio2, w, rate, blockScore) == Ok(r.value.value.curve)
  {
    var matches :- AsyncMovingWindow(audio1, audio2, w);
    var al := MainPipeline.AlignOnBest(audio1, audio2, matches, rate);
    if |al.truncated1| == 0 || |al.truncated2| == 0 || |al.truncated1| != |al.truncated2| then Ok(None)
    else
      var rows :- SyncMovingWindow(al.truncated1, al.truncated2, rate, blockScore);
      Ok(Some(Correlation(name1, name2, al.offset1Secs, al.offset2Secs, rows)))
  }

  /** The body of the loop of `analyze_files` for one pair: `None` for a pair it skips,
      or the failure of a correlation pass. */
  function AnalyzePair(p: TrackPair, w: nat, rate: nat, blockScore: (Samples, Samples) -> real)
    : (r: Result<Option<Correlation>, CorrelatorError>)
    requires w > 0 && rate > 0
    ensures r.Ok? && r.value.Some? ==>
              && r.value.value.file1 == p.first.name && r.value.value.file2 == p.second.name
              && r.value.value.offset1Secs >= 0.0 && r.value.value.offset2Secs >= 0.0
    ensures r.Ok? && r.value.Some? ==>
              var audio1, audio2 := p.first.samples, p.second.samples;
              && AsyncMovingWindow(audio1, audio2, w).Ok?
              && var al := MainPipeline.AlignOnBest(audio1, audio2, AsyncMovingWindow(audio1, audio2, w).value, rate);
                 && r.value.value.offset1Secs == al.offset1Secs && r.value.value.offset2Secs == al.offset2Secs
                 && MainPipeline.AlignedCurve(audio1, audio2, w, rate, blockScore) == Ok(r.value.value.curve)
  {
    var audio1, audio2 := p.first.samples, p.second.samples;
    if |audio1| < MinSeconds * rate || |audio2| < MinSeconds * rate then Ok(None)
    else CorrelateTracks(p.first.name, p.second.name, audio1, audio2, w, rate, blockScore)
  }

  /** The guards leave only two ways to fail: a first track no longer than one
      window, or an overlap shorter than one second. The length error of the
      per-second pass and the empty-track error cannot happen. */
  lemma AnalyzePairErrors(p: TrackPair, w: nat, rate: nat, blockScore: (Samples, Samples) -> real)
    requires w > 0 && rate > 0
    ensures var r := AnalyzePair(p, w, rate, blockScore);
            r.Err? ==> r.error == NoWindows || r.error == NoFullSecond
  {
    var audio1, audio2 := p.first.samples, p.second.samples;
    if |audio1| >= MinSeconds * rate && |audio2| >= MinSeconds * rate {
      assert |audio2| > 0;
    }
  }

  /** A pair yields a curve exactly when both tracks last 30 seconds, the first is
      longer than one window, and the overlap around the best window holds a whole
      second; the curve then has one row per second of the overlap. */
  lemma AnalyzePairSucceeds(p: TrackPair, w: nat, rate: nat, blockScore: (Samples, Samples) -> real)
    requires w > 0 && rate > 0
    ensures var audio1, audio2 := p.first.samples, p.second.samples;
            var r := AnalyzePair(p, w, rate, blockScore);
            && (r.Ok? && r.value.Some? <==>
                  && |audio1| >= MinSeconds * rate && |audio2| >= MinSeconds * rate && |audio1| > w
                  && MainPipeline.BestOverlap(audio1, audio2, AsyncMovingWindow(audio1, audio2, w).value) >= rate)
            && (r.Ok? && r.value.Some? ==>
                  |r.value.value.curve|
                  == MainPipeline.BestOverlap(audio1, audio2, AsyncMovingWindow(audio1, audio2, w).value) / rate)
  {
    var audio1, audio2 := p.first.samples, p.second.samples;
    if |audio1| >= MinSeconds * rate && |audio2| >= MinSeconds * rate && |audio1| > w {
      var matches := AsyncMovingWindow(audio1, audio2, w).value;
      var best := matches[MainPipeline.BestWindow(matches)];
      UsableIffPositiveOverlap(best.offset1, best.offset2, audio1, audio2, rate);
      MainPipeline.SyncOnAligned(best.offset1, best.offset2, audio1, audio2, rate, blockScore);
    }
  }

  /** What `analyze_files` does with a list of pairs: the results in the order of
      the pairs, or the first failure. */
  function AnalyzeAll(pairs: seq<TrackPair>, w: nat, rate: nat, blockScore: (Samples, Samples) -> real)
    : (r: Result<seq<Correlation>, CorrelatorError>)
    requires w > 0 && rate > 0
    ensures r.Ok? ==> |r.value| <= |pairs|
  {
    if pairs == [] then Ok([])
    else
      var prev :- AnalyzeAll(pairs[..|pairs| - 1], w, rate, blockScore);
      var one :- AnalyzePair(pairs[|pairs| - 1], w, rate, blockScore);
      match one
      case None => Ok(prev)
      case Some(c) => Ok(prev + [c])
  }

  /** What the loop body gives for each pair, in pair order. */
  function Outcomes(pairs: seq<TrackPair>, w: nat, rate: nat, blockScore: (Samples, Samples) -> real)
    : (os: seq<Result<Option<Correlation>, CorrelatorError>>)
    requires w > 0 && rate > 0
    ensures |os| == |pairs|
    ensures forall i :: 0 <= i < |pairs| ==> os[i] == AnalyzePair(pairs[i], w, rate, blockScore)
  {
    if pairs == [] then []
    else
      var init := pairs[..|pairs| - 1];
      assert forall i :: 0 <= i < |init| ==> init[i] == pairs[i];
      Outcomes(init, w, rate, blockScore) + [AnalyzePair(pairs[|pairs| - 1], w, rate, blockScore)]
  }

  /** `rs` holds, in order, the results of the outcomes at the strictly increasing
      positions `idx`, and every other outcome is a skip. */
  ghost predicate KeptInOrder<T, E>(os: seq<Result<Option<T>, E>>, rs: seq<T>, idx: seq<nat>) {
    && |idx| == |rs|
    && (forall k, l :: 0 <= k < l < |idx| ==> idx[k] < idx[l])
    && (forall k :: 0 <= k < |idx| ==> idx[k] < |os| && os[idx[k]] == Ok(Some(rs[k])))
    && (forall p :: 0 <= p < |os| && p !in idx ==> os[p] == Ok(None))
  }

  /** One more skipped outcome keeps the kept results. */
  lemma KeptSkip<T, E>(os: seq<Result<Option<T>, E>>, rs: seq<T>, idx: seq<nat>)
    requires KeptInOrder(os, rs, idx)
    ensures KeptInOrder(os + [Ok(None)], rs, idx)
  {
    var os' := os + [Ok(None)];
    forall p | 0 <= p < |os'| && p !in idx ensures os'[p] == Ok(None) {
      if p < |os| {
        assert os'[p] == os[p];
      }
    }
  }

  /** One more outcome with a result extends the kept results by it. */
  lemma KeptSnoc<T, E>(os: seq<Result<Option<T>, E>>, rs: seq<T>, idx: seq<nat>, c: T)
    requires KeptInOrder(os, rs, idx)
    ensures KeptInOrder(os + [Ok(Some(c))], rs + [c], idx + [|os|])
  {
    var os', idx' := os + [Ok(Some(c))], idx + [|os|];
    forall p | 0 <= p < |os'| && p !in idx' ensures os'[p] == Ok(None) {
      assert os'[p] == os[p];
    }
  }

  /** `results` keeps generation order: it holds the results of the pairs that gave
      one, in the order the pairs came, and every other pair was skipped. */
  lemma {:induction false} AnalyzeAllInOrder(pairs: seq<TrackPair>, w: nat, rate: nat,
                                             blockScore: (Samples, Samples) -> real)
    requires w > 0 && rate > 0
    requires AnalyzeAll(pairs, w, rate, blockScore).Ok?
    ensures exists idx :: KeptInOrder(Outcomes(pairs, w, rate, blockScore), AnalyzeAll(pairs, w, rate, blockScore).value, idx)
  {
    var os := Outcomes(pairs, w, rate, blockScore);
    if pairs == [] {
      assert KeptInOrder(os, [], []);
    } else {
      var init := pairs[..|pairs| - 1];
      AnalyzeAllInOrder(init, w, rate, blockScore);
      var prev := AnalyzeAll(init, w, rate, blockScore).value;
      var osInit := Outcomes(init, w, rate, blockScore);
      var idx :| KeptInOrder(osInit, prev, idx);
      var rs := AnalyzeAll(pairs, w, rate, blockScore).value;
      var one := AnalyzePair(pairs[|pairs| - 1], w, rate, blockScore);
      match one.value
      case None =>
        assert rs == prev;
        KeptSkip(osInit, prev, idx);
      case Some(c) =>
        assert rs == prev + [c];
        KeptSnoc(osInit, prev, idx, c);
    }
  }

  /** Every result comes from one of the pairs, with its names in the pair's order. */
  lemma AnalyzeAllFromPairs(pairs: seq<TrackPair>, w: nat, rate: nat, blockScore: (Samples, Samples) -> real)
    requires w > 0 && rate > 0
    requires AnalyzeAll(pairs, w, rate, blockScore).Ok?
    ensures var rs := AnalyzeAll(pairs, w, rate, blockScore).value;
            forall k :: 0 <= k < |rs| ==>
              exists p :: 0 <= p < |pairs| && rs[k].file1 == pairs[p].first.name && rs[k].file2 == pairs[p].second.name
  {
    var rs := AnalyzeAll(pairs, w, rate, blockScore).value;
    var os := Outcomes(pairs, w, rate, blockScore);
    AnalyzeAllInOrder(pairs, w, rate, blockScore);
    var idx :| KeptInOrder(os, rs, idx);
    forall k | 0 <= k < |rs|
      ensures exists p :: 0 <= p < |pairs| && rs[k].file1 == pairs[p].first.name && rs[k].file2 == pairs[p].second.name
    {
      var p := idx[k];
      assert os[p] == AnalyzePair(pairs[p], w, rate, blockScore) == Ok(Some(rs[k]));
    }
  }

  /** Once a prefix fails, the whole loop fails with the same error. */
  lemma {:induction false} AnalyzeAllStops(pairs: seq<TrackPair>, k: nat, w: nat, rate: nat,
                                           blockScore: (Samples, Samples) -> real)
    requires w > 0 && rate > 0 && k <= |pairs|
    requires AnalyzeAll(pairs[..k], w, rate, blockScore).Err?
    ensures AnalyzeAll(pairs, w, rate, blockScore) == AnalyzeAll(pairs[..k], w, rate, blockScore)
  {
    if k < |pairs| {
      var init := pairs[..|pairs| - 1];
      assert init[..k] == pairs[..k];
      AnalyzeAllStops(init, k, w, rate, blockScore);
    } else {
      assert pairs[..k] == pairs;
    }
  }

  /** What stops `analyze_files`. */
  datatype AnalyzeError = NameError(name: string) | CorrelationError(cause: CorrelatorError)

  /** `analyze_files` as a value. */
  function AnalyzedFiles(files: seq<Track>, window: nat, w: nat, rate: nat,
                         blockScore: (Samples, Samples) -> real): Result<seq<Correlation>, AnalyzeError>
    requires w > 0 && rate > 0
  {
    match ScheduledPairs(files, window)
    case Err(BadFileName(name)) => Err(NameError(name))
    case Ok(pairs) =>
      match AnalyzeAll(pairs, w, rate, blockScore)
      case Err(e) => Err(CorrelationError(e))
      case Ok(rs) => Ok(rs)
  }

  /** `analyze_files`: the pairs are taken as `generate_pairs` yields them and the
      kept ones are appended to `results`. */
  method AnalyzeFiles(files: seq<Track>, window: nat, w: nat, rate: nat,
                      blockScore: (Samples, Samples) -> real)
    returns (r: Result<seq<Correlation>, AnalyzeError>)
    requires DistinctNames(files) && w > 0 && rate > 0
    ensures r == AnalyzedFiles(files, window, w, rate, blockScore)
  {
    var scheduled, registry := GeneratePairs(files, window);
    if scheduled.Err? {
      return Err(NameError(scheduled.error.name));
    }
    var pairs := scheduled.value;
    var results: seq<Correlation> := [];
    var i := 0;
    while i < |pairs|
      invariant i <= |pairs|
      invariant AnalyzeAll(pairs[..i], w, rate, blockScore) == Ok(results)
    {
      assert pairs[..i + 1][..i] == pairs[..i];
      var one := AnalyzePair(pairs[i], w, rate, blockScore);
      if one.Err? {
        AnalyzeAllStops(pairs, i + 1, w, rate, blockScore);
        return Err(CorrelationError(one.error));
      }
      if one.value.Some? {
        results := results + [one.value.value];
      }
      i := i + 1;
    }
    assert pairs[..i] == pairs;
    r := Ok(results);
  }

  /** In every result the first file comes before the second in the sorted order,
      fewer than SERIES_WINDOW places ahead. */
  lemma AnalyzedFilesOrdered(files: seq<Track>, window: nat, w: nat, rate: nat,
                             blockScore: (Samples, Samples) -> real)
    requires w > 0 && rate > 0
    requires AnalyzedFiles(files, window, w, rate, blockScore).Ok?
    ensures var rs := AnalyzedFiles(files, window, w, rate, blockScore).value;
            var sorted := SortedTracks(files);
            forall k :: 0 <= k < |rs| ==>
              exists a, b :: 0 <= a < b < |sorted| && b < a + window
                             && rs[k].file1 == sorted[a].name && rs[k].file2 == sorted[b].name
  {
    var pairs := ScheduledPairs(files, window).value;
    var rs := AnalyzeAll(pairs, w, rate, blockScore).value;
    var sorted := SortedTracks(files);
    AnalyzeAllFromPairs(pairs, w, rate, blockScore);
    ScheduledPairsExactly(files, window);
    forall k | 0 <= k < |rs|
      ensures exists a, b :: 0 <= a < b < |sorted| && b < a + window
                             && rs[k].file1 == sorted[a].name && rs[k].file2 == sorted[b].name
    {
      var p :| 0 <= p < |pairs| && rs[k].file1 == pairs[p].first.name && rs[k].file2 == pairs[p].second.name;
      assert IsScheduledPair(sorted, window, pairs[p]);
      var a, b :| 0 <= a < b < |sorted| && b < a + window && pairs[p] == TrackPair(sorted[a], sorted[b]);
    }
  }

  // ---------------------------------------------------------------------------
  // The result file name

  /** `int(offset * 1000)`: a shift in whole milliseconds. */
  function Millis(secs: real): int {
    Trunc(secs * 1000.0)
  }

  /** `f'{file1}_{file2}_{int(offset1 * 1000)}_{int(offset2 * 1000)}.csv'`. */
  function ResultFileName(c: Correlation): string {
    c.file1 + "_" + c.file2 + "_" + IntToString(Millis(c.offset1Secs)) + "_" + IntToString(Millis(c.offset2Secs)) + ".csv"
  }

  /** The shifts are never negative, so the milliseconds in a result file name are
      the shifts rounded down, never more than one millisecond below them. */
  lemma MillisOfShift(secs: real)
    requires secs >= 0.0
    ensures Millis(secs) >= 0
    ensures (Millis(secs) as real) / 1000.0 <= secs < (Millis(secs) as real) / 1000.0 + 0.001
  {
  }
}
