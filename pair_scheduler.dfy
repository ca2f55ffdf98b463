/** `generate_pairs` and `load_to_gpu_if_needed` (main.py, and their copies in
    s3_correlator.py): the episodes of a season, sorted by the number in their file
    names, are paired with the next few episodes, and each track is loaded into a
    registry once and dropped when its own turn as first track is over. The
    registry holds the samples as given: the float32 cast and normalisation done on
    loading are not part of this model. */
module PairScheduler {
  import opened Common
  import opened Text
  import opened Stats

  /** A file of the season: its name and its samples. */
  datatype Track = Track(name: string, samples: Samples)

  /** One yielded pair; `first` comes before `second` in the sorted order. */
  datatype TrackPair = TrackPair(first: Track, second: Track)

  /** `int(...)` raised for this file name while sorting. */
  datatype ScheduleError = BadFileName(name: string)

  /** `int(name.split('.')[0])`: the number before the first dot. */
  function NumericName(name: string): Option<int> {
    ParseInt(Split(name, '.')[0])
  }

  /** The sort key; every name has one by the time sorting succeeds. */
  function SortKey(t: Track): int {
    match NumericName(t.name)
    case Some(v) => v
    case None => 0
  }

  /** The first file, in the given order, whose name has no number before its first
      dot: sorting computes every key and raises at that one. */
  function FirstBadName(files: seq<Track>): (r: Option<string>)
    ensures r.None? <==> forall k :: 0 <= k < |files| ==> NumericName(files[k].name).Some?
    ensures r.Some? ==> exists k :: 0 <= k < |files| && files[k].name == r.value && NumericName(r.value).None?
  {
    if files == [] then None
    else if NumericName(files[0].name).None? then Some(files[0].name)
    else
      var rest := FirstBadName(files[1..]);
      assert forall k :: 1 <= k < |files| ==> files[k] == files[1..][k - 1];
      rest
  }

  /** `files_tmp.sort(key=...)`: a stable sort by the numeric name. */
  function SortedTracks(files: seq<Track>): (sorted: seq<Track>)
    ensures SortedBy(sorted, SortKey)
    ensures multiset(sorted) == multiset(files)
    ensures |sorted| == |files|
  {
    var s := SortBy(files, SortKey);
    assert |s| == |multiset(s)| == |multiset(files)| == |files|;
    s
  }

  /** The sort is stable: files whose names carry the same number keep their input
      order, which decides the pairs formed among them. */
  lemma SortedTracksStable(files: seq<Track>, v: int)
    ensures WithKey(SortedTracks(files), SortKey, v) == WithKey(files, SortKey, v)
  {
    SortByStable(files, SortKey, v);
  }

  ghost predicate DistinctNames(tracks: seq<Track>) {
    forall a, b :: 0 <= a < b < |tracks| ==> tracks[a].name != tracks[b].name
  }

  /** Sorting keeps the names distinct. */
  lemma SortedTracksDistinct(files: seq<Track>)
    requires DistinctNames(files)
    ensures DistinctNames(SortedTracks(files))
  {
    var sorted := SortedTracks(files);
    assert NoDuplicates(files);
    SortByNoDuplicates(files, SortKey);
    forall a, b | 0 <= a < b < |sorted| ensures sorted[a].name != sorted[b].name {
      assert sorted[a] in multiset(files) && sorted[b] in multiset(files);
      var x :| 0 <= x < |files| && files[x] == sorted[a];
      var y :| 0 <= y < |files| && files[y] == sorted[b];
      assert sorted[a] != sorted[b];
    }
  }

  // ---------------------------------------------------------------------------
  // Which pairs are yielded, as positions in the sorted list

  /** One past the last partner of track `i`: `min(n, i + SERIES_WINDOW)`, but never
      below `i + 1`. */
  function RowEnd(n: nat, window: nat, i: nat): nat {
    Max(i + 1, Min(n, i + window))
  }

  /** The pairs (i, i + 1), ..., (i, j - 1). */
  function Row(i: nat, j: nat): (r: seq<(nat, nat)>)
    requires i + 1 <= j
    ensures |r| == j - (i + 1)
    ensures forall p :: 0 <= p < |r| ==> r[p] == (i, i + 1 + p)
  {
    seq(j - (i + 1), p requires 0 <= p < j - (i + 1) => (i, i + 1 + p))
  }

  /** The pairs yielded by the first `i` outer steps. */
  function PairIndicesBefore(n: nat, window: nat, i: nat): seq<(nat, nat)> {
    if i == 0 then [] else PairIndicesBefore(n, window, i - 1) + Row(i - 1, RowEnd(n, window, i - 1))
  }

  /** All pairs: the outer loop runs for i in range(n - 1). */
  function PairIndices(n: nat, window: nat): seq<(nat, nat)> {
    PairIndicesBefore(n, window, LastStep(n))
  }

  /** The first `i` outer steps yield exactly the pairs a < b with a < i, b < n and
      b < a + SERIES_WINDOW. */
  lemma {:induction false} PairIndicesBeforeMembers(n: nat, window: nat, i: nat)
    ensures forall a: nat, b: nat :: (a, b) in PairIndicesBefore(n, window, i) <==> a < i && a < b < n && b < a + window
  {
    if i > 0 {
      PairIndicesBeforeMembers(n, window, i - 1);
      var row := Row(i - 1, RowEnd(n, window, i - 1));
      forall a: nat, b: nat ensures (a, b) in row <==> a == i - 1 && a < b < n && b < a + window {
        if (a, b) in row {
          var p :| 0 <= p < |row| && row[p] == (a, b);
        }
        if a == i - 1 && a < b < n && b < a + window {
          assert row[b - i] == (a, b);
        }
      }
    }
  }

  /** `generate_pairs` yields exactly the pairs i < j < n with j < i + SERIES_WINDOW. */
  lemma PairIndicesMembers(n: nat, window: nat)
    ensures forall a: nat, b: nat :: (a, b) in PairIndices(n, window) <==> a < b < n && b < a + window
  {
    PairIndicesBeforeMembers(n, window, LastStep(n));
  }

  /** Pair p is yielded before pair q: its first index is smaller, or equal with a
      smaller second index. */
  predicate LexLess(p: (nat, nat), q: (nat, nat)) {
    p.0 < q.0 || (p.0 == q.0 && p.1 < q.1)
  }

  /** The pairs come in strictly increasing lexicographic order. */
  lemma {:induction false} PairIndicesBeforeOrdered(n: nat, window: nat, i: nat)
    ensures forall p, q :: 0 <= p < q < |PairIndicesBefore(n, window, i)| ==>
              LexLess(PairIndicesBefore(n, window, i)[p], PairIndicesBefore(n, window, i)[q])
    ensures forall p :: 0 <= p < |PairIndicesBefore(n, window, i)| ==> PairIndicesBefore(n, window, i)[p].0 < i
  {
    if i > 0 {
      PairIndicesBeforeOrdered(n, window, i - 1);
      var prev := PairIndicesBefore(n, window, i - 1);
      var row := Row(i - 1, RowEnd(n, window, i - 1));
      var all := prev + row;
      forall p, q | 0 <= p < q < |all| ensures LexLess(all[p], all[q]) {
        if q >= |prev| {
          assert all[q] == row[q - |prev|];
          if p >= |prev| {
            assert all[p] == row[p - |prev|];
          }
        }
      }
    }
  }

  lemma PairIndicesOrdered(n: nat, window: nat)
    ensures forall p, q :: 0 <= p < q < |PairIndices(n, window)| ==> LexLess(PairIndices(n, window)[p], PairIndices(n, window)[q])
  {
    PairIndicesBeforeOrdered(n, window, LastStep(n));
  }

  // ---------------------------------------------------------------------------
  // The yielded values

  predicate InRange(idx: seq<(nat, nat)>, n: nat) {
    forall p :: 0 <= p < |idx| ==> idx[p].0 < n && idx[p].1 < n
  }

  lemma PairIndicesInRange(n: nat, window: nat)
    ensures InRange(PairIndices(n, window), n)
  {
    PairIndicesMembers(n, window);
    forall p | 0 <= p < |PairIndices(n, window)| ensures PairIndices(n, window)[p].0 < n && PairIndices(n, window)[p].1 < n {
      var pr := PairIndices(n, window)[p];
      assert (pr.0, pr.1) in PairIndices(n, window);
    }
  }

  /** The pairs of tracks at the given positions, each as the registry holds it. */
  function Materialize(tracks: seq<Track>, idx: seq<(nat, nat)>): (r: seq<TrackPair>)
    requires InRange(idx, |tracks|)
    ensures |r| == |idx|
    ensures forall p :: 0 <= p < |idx| ==>
              r[p] == TrackPair(tracks[idx[p].0], tracks[idx[p].1])
  {
    seq(|idx|, p requires 0 <= p < |idx| => TrackPair(tracks[idx[p].0], tracks[idx[p].1]))
  }

  /** What `generate_pairs` yields, or the error sorting raises. */
  function ScheduledPairs(files: seq<Track>, window: nat): (r: Result<seq<TrackPair>, ScheduleError>)
    ensures r.Err? <==> exists k :: 0 <= k < |files| && NumericName(files[k].name).None?
  {
    match FirstBadName(files)
    case Some(name) => Err(BadFileName(name))
    case None =>
      PairIndicesInRange(|files|, window);
      Ok(Materialize(SortedTracks(files), PairIndices(|files|, window)))
  }

  /** `pair` is made of the sorted tracks at positions a < b with b less than
      a + SERIES_WINDOW. */
  ghost predicate IsScheduledPair(sorted: seq<Track>, window: nat, pair: TrackPair) {
    exists a, b :: 0 <= a < b < |sorted| && b < a + window && pair == TrackPair(sorted[a], sorted[b])
  }

  /** The pair of sorted positions a < b is yielded exactly when b is among the next
      SERIES_WINDOW - 1 files after a; every yielded pair is of that form. */
  lemma ScheduledPairsExactly(files: seq<Track>, window: nat)
    requires ScheduledPairs(files, window).Ok?
    ensures var pairs := ScheduledPairs(files, window).value;
            var sorted := SortedTracks(files);
            forall a, b :: 0 <= a < b < |files| && b < a + window ==>
              TrackPair(sorted[a], sorted[b]) in pairs
    ensures var pairs := ScheduledPairs(files, window).value;
            forall p :: 0 <= p < |pairs| ==> IsScheduledPair(SortedTracks(files), window, pairs[p])
  {
    var n := |files|;
    var idx := PairIndices(n, window);
    PairIndicesMembers(n, window);
    PairIndicesInRange(n, window);
    var pairs := ScheduledPairs(files, window).value;
    var sorted := SortedTracks(files);
    assert pairs == Materialize(sorted, idx);
    forall a, b | 0 <= a < b < n && b < a + window
      ensures TrackPair(sorted[a], sorted[b]) in pairs
    {
      assert (a as nat, b as nat) in idx;
      var p :| 0 <= p < |idx| && idx[p] == (a, b);
      assert pairs[p] == TrackPair(sorted[a], sorted[b]);
    }
    forall p | 0 <= p < |pairs| ensures IsScheduledPair(sorted, window, pairs[p]) {
      var a, b := idx[p].0, idx[p].1;
      assert idx[p] == (a, b);
      assert (a, b) in idx;
      assert 0 <= a < b < n && b < a + window;
      assert pairs[p] == TrackPair(sorted[a], sorted[b]);
    }
  }

  /** Every yielded pair is made of two of the given files. */
  lemma ScheduledPairsFromFiles(files: seq<Track>, window: nat)
    requires ScheduledPairs(files, window).Ok?
    ensures var pairs := ScheduledPairs(files, window).value;
            forall p :: 0 <= p < |pairs| ==> pairs[p].first in files && pairs[p].second in files
  {
    var n := |files|;
    var idx := PairIndices(n, window);
    PairIndicesInRange(n, window);
    var pairs := ScheduledPairs(files, window).value;
    var sorted := SortedTracks(files);
    assert pairs == Materialize(sorted, idx);
    forall p | 0 <= p < |pairs| ensures pairs[p].first in files && pairs[p].second in files {
      assert sorted[idx[p].0] in multiset(files) && sorted[idx[p].1] in multiset(files);
    }
  }

  // ---------------------------------------------------------------------------
  // The registry

  /** `gpu_audios`: the normalised tracks loaded so far, by file name. */
  class AudioRegistry {
    var audios: map<string, Samples>

    constructor()
      ensures audios == map[]
    {
      audios := map[];
    }

    /** `load_to_gpu_if_needed`: a name already present is left alone; otherwise its
        normalised samples are stored under it. */
    method LoadIfNeeded(name: string, audio: Samples)
      modifies this
      ensures name in old(audios) ==> audios == old(audios)
      ensures name !in old(audios) ==> audios == old(audios)[name := audio]
    {
      if name in audios {
        return;
      }
      audios := audios[name := audio];
    }

    /** `del gpu_audios[name]`. */
    method Evict(name: string)
      requires name in audios
      modifies this
      ensures audios == old(audios) - {name}
    {
      audios := audios - {name};
    }
  }

  /** The registry holding exactly the tracks at positions [lo, hi). */
  function Loaded(tracks: seq<Track>, lo: nat, hi: nat): map<string, Samples>
    requires hi <= |tracks|
  {
    if hi <= lo then map[] else Loaded(tracks, lo, hi - 1)[tracks[hi - 1].name := tracks[hi - 1].samples]
  }

  lemma {:induction false} LoadedHas(tracks: seq<Track>, lo: nat, hi: nat, k: nat)
    requires hi <= |tracks| && DistinctNames(tracks) && lo <= k < hi
    ensures tracks[k].name in Loaded(tracks, lo, hi)
    ensures Loaded(tracks, lo, hi)[tracks[k].name] == tracks[k].samples
  {
    if k < hi - 1 {
      LoadedHas(tracks, lo, hi - 1, k);
    }
  }

  lemma {:induction false} LoadedLacks(tracks: seq<Track>, lo: nat, hi: nat, k: nat)
    requires hi <= |tracks| && DistinctNames(tracks) && k < |tracks| && (k < lo || hi <= k)
    ensures tracks[k].name !in Loaded(tracks, lo, hi)
  {
    if lo < hi {
      LoadedLacks(tracks, lo, hi - 1, k);
    }
  }

  /** Dropping the first track of [lo, hi) leaves [lo + 1, hi). */
  lemma {:induction false} LoadedEvict(tracks: seq<Track>, lo: nat, hi: nat)
    requires hi <= |tracks| && DistinctNames(tracks) && lo < hi
    ensures Loaded(tracks, lo, hi) - {tracks[lo].name} == Loaded(tracks, lo + 1, hi)
  {
    if lo < hi - 1 {
      LoadedEvict(tracks, lo, hi - 1);
      assert tracks[hi - 1].name != tracks[lo].name;
    }
  }

  /** Where the registry starts outer step i: the partners already loaded by step
      i - 1, `min(n, i - 1 + SERIES_WINDOW)` exclusive. */
  function CarriedEnd(n: nat, window: nat, i: nat): nat {
    if i == 0 then 0 else Min(n, i - 1 + window)
  }

  lemma MaterializeAppend(tracks: seq<Track>, idx: seq<(nat, nat)>, a: nat, b: nat)
    requires InRange(idx, |tracks|) && a < |tracks| && b < |tracks|
    ensures InRange(idx + [(a, b)], |tracks|)
    ensures Materialize(tracks, idx + [(a, b)])
            == Materialize(tracks, idx) + [TrackPair(tracks[a], tracks[b])]
  {
  }

  lemma MaterializeConcat(tracks: seq<Track>, idx1: seq<(nat, nat)>, idx2: seq<(nat, nat)>)
    requires InRange(idx1, |tracks|) && InRange(idx2, |tracks|)
    ensures InRange(idx1 + idx2, |tracks|)
    ensures Materialize(tracks, idx1 + idx2) == Materialize(tracks, idx1) + Materialize(tracks, idx2)
  {
  }

  lemma RowAppend(i: nat, j: nat)
    requires i + 1 <= j
    ensures Row(i, j + 1) == Row(i, j) + [(i, j)]
  {
  }

  /** The pairs of track i with tracks i + 1 .. j - 1, in the order the inner loop
      yields them. */
  function RowPairs(tracks: seq<Track>, i: nat, j: nat): seq<TrackPair>
    requires i < |tracks| && j <= |tracks|
  {
    if j <= i + 1 then []
    else RowPairs(tracks, i, j - 1) + [TrackPair(tracks[i], tracks[j - 1])]
  }

  /** The pairs yielded by the first i outer steps. */
  function PairsBefore(tracks: seq<Track>, window: nat, i: nat): seq<TrackPair>
    requires i <= |tracks|
  {
    if i == 0 then []
    else PairsBefore(tracks, window, i - 1) + RowPairs(tracks, i - 1, RowEnd(|tracks|, window, i - 1))
  }

  lemma {:induction false} RowPairsMaterialize(tracks: seq<Track>, i: nat, j: nat)
    requires i + 1 <= j <= |tracks|
    ensures InRange(Row(i, j), |tracks|)
    ensures RowPairs(tracks, i, j) == Materialize(tracks, Row(i, j))
  {
    if j > i + 1 {
      RowPairsMaterialize(tracks, i, j - 1);
      RowAppend(i, j - 1);
      MaterializeAppend(tracks, Row(i, j - 1), i, j - 1);
    }
  }

  lemma {:induction false} PairsBeforeMaterialize(tracks: seq<Track>, window: nat, i: nat)
    requires i <= |tracks|
    ensures InRange(PairIndicesBefore(|tracks|, window, i), |tracks|)
    ensures PairsBefore(tracks, window, i) == Materialize(tracks, PairIndicesBefore(|tracks|, window, i))
  {
    if i > 0 {
      var n := |tracks|;
      var prev := PairIndicesBefore(n, window, i - 1);
      var row := Row(i - 1, RowEnd(n, window, i - 1));
      PairsBeforeMaterialize(tracks, window, i - 1);
      RowPairsMaterialize(tracks, i - 1, RowEnd(n, window, i - 1));
      MaterializeConcat(tracks, prev, row);
      assert PairIndicesBefore(n, window, i) == prev + row;
      assert PairsBefore(tracks, window, i)
          == PairsBefore(tracks, window, i - 1) + RowPairs(tracks, i - 1, RowEnd(n, window, i - 1));
    }
  }

  /** Loading partner j into the registry of [lo, max(j, carried)) gives the
      registry of [lo, max(j + 1, carried)): the partner is either already there or
      the next one along. */
  lemma LoadPartner(tracks: seq<Track>, lo: nat, j: nat, carried: nat)
    requires DistinctNames(tracks) && lo <= j < |tracks| && carried <= |tracks|
    ensures var hi := Max(j, carried);
            var m := Loaded(tracks, lo, hi);
            && (tracks[j].name in m <==> j < hi)
            && Loaded(tracks, lo, Max(j + 1, carried))
               == if j < hi then m else m[tracks[j].name := tracks[j].samples]
  {
    var hi := Max(j, carried);
    if j < hi {
      LoadedHas(tracks, lo, hi, j);
    } else {
      LoadedLacks(tracks, lo, hi, j);
    }
  }

  /** The inner loop's body: load partner j if needed, then read both tracks of the
      pair back from the registry. */
  method LoadAndPair(registry: AudioRegistry, tracks: seq<Track>, i: nat, j: nat, carried: nat)
    returns (pair: TrackPair)
    requires DistinctNames(tracks) && i < j < |tracks| && carried <= |tracks|
    requires registry.audios == Loaded(tracks, i, Max(j, carried))
    modifies registry
    ensures registry.audios == Loaded(tracks, i, Max(j + 1, carried))
    ensures pair == TrackPair(tracks[i], tracks[j])
  {
    LoadPartner(tracks, i, j, carried);
    registry.LoadIfNeeded(tracks[j].name, tracks[j].samples);
    LoadedHas(tracks, i, Max(j + 1, carried), i);
    LoadedHas(tracks, i, Max(j + 1, carried), j);
    pair := TrackPair(Track(tracks[i].name, registry.audios[tracks[i].name]),
                      Track(tracks[j].name, registry.audios[tracks[j].name]));
  }

  /** Loading track i into the registry the step starts with gives the registry of
      [i, max(i + 1, carried)). */
  lemma StartStep(tracks: seq<Track>, window: nat, i: nat)
    requires DistinctNames(tracks) && i + 1 < |tracks|
    ensures var carried := CarriedEnd(|tracks|, window, i);
            var m := Loaded(tracks, i, carried);
            Loaded(tracks, i, Max(i + 1, carried))
              == if tracks[i].name in m then m else m[tracks[i].name := tracks[i].samples]
  {
    var carried := CarriedEnd(|tracks|, window, i);
    assert Loaded(tracks, i, carried) == Loaded(tracks, i, Max(i, carried));
    LoadPartner(tracks, i, i, carried);
  }

  /** Once every partner is loaded, dropping track i leaves what step i + 1 starts
      with. */
  lemma EndStep(tracks: seq<Track>, window: nat, i: nat)
    requires DistinctNames(tracks) && i + 1 < |tracks|
    ensures var n := |tracks|;
            var j := RowEnd(n, window, i);
            && Max(j, CarriedEnd(n, window, i)) == j
            && tracks[i].name in Loaded(tracks, i, j)
            && Loaded(tracks, i, j) - {tracks[i].name} == Loaded(tracks, i + 1, CarriedEnd(n, window, i + 1))
  {
    var n := |tracks|;
    var j := RowEnd(n, window, i);
    LoadedHas(tracks, i, j, i);
    LoadedEvict(tracks, i, j);
    if Min(n, i + window) <= i + 1 {
      assert j == i + 1;
      assert Loaded(tracks, i + 1, j) == map[] == Loaded(tracks, i + 1, CarriedEnd(n, window, i + 1));
    } else {
      assert j == CarriedEnd(n, window, i + 1);
    }
  }

  /** One outer step of `generate_pairs`: load track i, pair it with each partner
      (loading the partner first), then drop track i. */
  method PairWithPartners(registry: AudioRegistry, tracks: seq<Track>, window: nat, i: nat)
    returns (row: seq<TrackPair>)
    requires DistinctNames(tracks) && i + 1 < |tracks|
    requires registry.audios == Loaded(tracks, i, CarriedEnd(|tracks|, window, i))
    modifies registry
    ensures row == RowPairs(tracks, i, RowEnd(|tracks|, window, i))
    ensures registry.audios == Loaded(tracks, i + 1, CarriedEnd(|tracks|, window, i + 1))
  {
    var n := |tracks|;
    var carried := CarriedEnd(n, window, i);
    var first := tracks[i];
    StartStep(tracks, window, i);
    registry.LoadIfNeeded(first.name, first.samples);
    row := [];
    var j := i + 1;
    while j < Min(n, i + window)
      invariant i + 1 <= j <= RowEnd(n, window, i)
      invariant row == RowPairs(tracks, i, j)
      invariant registry.audios == Loaded(tracks, i, Max(j, carried))
    {
      var pair := LoadAndPair(registry, tracks, i, j, carried);
      row := row + [pair];
      j := j + 1;
    }
    assert j == RowEnd(n, window, i);
    EndStep(tracks, window, i);
    registry.Evict(first.name);
  }

  /** The loops of `generate_pairs` over tracks already sorted. */
  method PairSorted(tracks: seq<Track>, window: nat) returns (pairs: seq<TrackPair>, registry: AudioRegistry)
    requires DistinctNames(tracks)
    ensures pairs == PairsBefore(tracks, window, LastStep(|tracks|))
    ensures fresh(registry)
    ensures registry.audios == Loaded(tracks, LastStep(|tracks|), CarriedEnd(|tracks|, window, LastStep(|tracks|)))
  {
    registry := new AudioRegistry();
    var n := |tracks|;
    pairs := [];
    var i := 0;
    while i + 1 < n
      invariant i == 0 || i < n
      invariant pairs == PairsBefore(tracks, window, i)
      invariant registry.audios == Loaded(tracks, i, CarriedEnd(n, window, i))
    {
      var row := PairWithPartners(registry, tracks, window, i);
      pairs := pairs + row;
      i := i + 1;
    }
    assert i == LastStep(n);
  }

  /** The number of outer steps, `len(files) - 1`, or none for no files. */
  function LastStep(n: nat): nat {
    if n == 0 then 0 else n - 1
  }

  /** `generate_pairs`, with the yielded pairs collected in order. Besides the pairs
      it hands back the registry as the loops leave it: the last file is loaded and
      never dropped. */
  method GeneratePairs(files: seq<Track>, window: nat)
    returns (r: Result<seq<TrackPair>, ScheduleError>, registry: AudioRegistry)
    requires DistinctNames(files)
    ensures r == ScheduledPairs(files, window)
    ensures fresh(registry)
    ensures r.Ok? ==> (registry.audios ==
              if |files| >= 2 && window >= 2
              then var last := SortedTracks(files)[|files| - 1]; map[last.name := last.samples]
              else map[])
  {
    var bad := FirstBadName(files);
    if bad.Some? {
      registry := new AudioRegistry();
      r := Err(BadFileName(bad.value));
      return;
    }
    var tracks := SortedTracks(files);
    SortedTracksDistinct(files);
    var pairs;
    pairs, registry := PairSorted(tracks, window);
    PairsBeforeMaterialize(tracks, window, LastStep(|tracks|));
    r := Ok(pairs);
    FinalRegistry(tracks, window, LastStep(|tracks|));
  }

  /** After the last outer step only the last track remains, provided it was ever
      loaded as a partner. */
  lemma FinalRegistry(tracks: seq<Track>, window: nat, i: nat)
    requires i == LastStep(|tracks|)
    ensures Loaded(tracks, i, CarriedEnd(|tracks|, window, i)) ==
              if |tracks| >= 2 && window >= 2
              then map[tracks[|tracks| - 1].name := tracks[|tracks| - 1].samples]
              else map[]
  {
    var n := |tracks|;
    var hi := CarriedEnd(n, window, i);
    if n >= 2 && window >= 2 {
      assert hi == n == i + 1;
      assert Loaded(tracks, i, i) == map[];
    } else {
      assert hi <= i;
    }
  }
}
