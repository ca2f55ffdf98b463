# Anime opening recogniser: a Dafny model

AnimeOpeningRecogniser finds the opening shared by the episodes of an anime season
by cross-correlating their audio tracks. The pipeline runs in these stages:

- **Pairing.** The episodes of a season are sorted by the number in their file names
  (`1.wav`, `2.wav`, ...). Each one is paired with the next few episodes (a sliding
  window of `SERIES_WINDOW` files). Each track is loaded into a registry once and
  dropped when its own turn as first track ends.
- **Coarse pass.** Fixed windows of the first track are correlated against the whole
  second track. The window with the highest peak gives a pair of sample offsets.
- **Alignment.** Both tracks are cut to their common stretch once those offsets are
  lined up.
- **Per-second pass.** The cut tracks are compared block by block, one block per
  second, giving a correlation curve.
- **Curve to candidate.** In `main.py`, the stretch of the curve above its mean
  becomes a candidate opening for each track. In `s3_correlator.py` and
  `s4_offsets_calculator.py`, the curve is saved under a file name that encodes the
  pair and its shifts. It is later read back from an archive and scanned with a
  clipped threshold until the 31st row at or below it, counted from the start
  (the miss counter is never reset).
- **Consensus.** Each file's candidates are reduced to one opening by the median of
  their starts and of their ends. Candidates whose end is the `0` sentinel are
  ignored. An end past 5:30 is replaced by start plus the mean opening length.
- **Report.** `s5_google_sheets.js` turns the titles, episodes, extraction errors,
  offsets and manual overrides of a spreadsheet into one results sheet. It has one
  row per episode with its status, its opening, the length in and out of the
  80–110 s window, and its distance from the title's median length.
- **Helpers.** Small helpers read the episode keyboard of the Telegram bot: the
  current episode, the previous-episode and previous-page buttons, and the episode
  counts. Others build the artifact paths.

Modules:

- `Common`, `Text`, `Stats` hold the Python and numpy vocabulary:
  - Python's slicing, ordered dictionaries as association lists, `str`, `int`,
    `split` and `replace`;
  - `np.mean` and `np.median` with NaN for an empty list;
  - a stable sort.
- `Correlator`, `FragmentsNormalizer`, `PairScheduler`, `MainPipeline`,
  `SeasonCorrelator`, `OffsetsCalculator`, `OffsetSearcher`, `PathUtils`,
  `MessageHelpers` and `Report` follow one source file each (`PairScheduler` covers
  both copies of `generate_pairs`).

Loops of the source are methods proved equal to a specification function:

- `PairScheduler.GeneratePairs`, `MainPipeline.FindAllOffsets`,
  `SeasonCorrelator.AnalyzeFiles`, `OffsetsCalculator.LoadArchive`,
  `OffsetsCalculator.ScanEnd`, `OffsetsCalculator.FindAndGroup`,
  `OffsetSearcher.FindTrueOffsets`, `Report.PushEpisodeRows`, `Report.FillMedian`
  and `Report.Doit`.

The properties are proved as lemmas about those functions. The GPU registry is a
class whose map field the methods update.

The track lists of one series are assumed to hold distinct file names
(`DistinctNames`), since they come from listing one folder with `os.listdir`
(`services/audio_loader.py:25`); every caller of the members that require it
meets this.

Behaviours of the code a reader may not expect, modelled as written:

- An opening is "on the edge" when its end is strictly greater than 330 s, and the
  replacement length is the mean over all files, the edited one included
  (`s4_offsets_calculator.py:112-117`).
- A file without surviving candidates keeps an entry whose median is NaN rather than
  being dropped (`s4_offsets_calculator.py:101-104`).
- A failing pairing (a first track no longer than one window, a cut first track
  longer than the second) raises and ends the loop. It is not skipped.
- In `main.py` only the pair `11.wav`/`12.wav` is examined (`main.py:92-93`).
- `main.py` divides by the peak before subtracting the mean, while
  `s3_correlator.py` does the opposite. Neither normalisation is modelled (see
  below).
- The title-status override of the report never applies. It reads a
  `title_status` column that `read_values` never fills
  (`s5_google_sheets.js:17-20`).

## Model

| member | source | states |
|---|---|---|
| Common.Trunc | s3_correlator.py:82 | `int(x)` on a float truncates toward zero: the result is the integer part, below x for positives and above it for negatives |
| Common.ClampIndex | services/fragments_normalizer.py:27-28 | a slice bound in range is kept, a negative one counts from the end, and the result never leaves [0, n] |
| Common.PySlice | services/fragments_normalizer.py:27-28 | Python slicing: an in-range slice is the Dafny slice, a start at or past the stop or past the end gives the empty list, never longer than the input |
| Common.Get | s4_offsets_calculator.py:44 | dictionary lookup finds a key exactly when it is a key, and then returns the value stored with it |
| Common.GetAt | s4_offsets_calculator.py:44 | in a dictionary with distinct keys, looking up the i-th key gives the i-th value |
| Common.SnocFacts | s4_offsets_calculator.py:44 | inserting a new key at the end appends it to the keys, changes only its lookup, and keeps keys distinct iff it was new |
| Common.SetDefaultAppend | s4_offsets_calculator.py:83-84 | `setdefault(k, []).append(v)`: an existing key keeps its place and gets v appended, a new key goes last with [v], every other key is untouched, keys stay distinct |
| Common.ListOfAppend | s4_offsets_calculator.py:83-84 | after `setdefault(k, []).append(v)` the list under k is the old one with v at its end, and every other list is unchanged |
| Common.ListOfAppendTwo | s4_offsets_calculator.py:83-84 | two `setdefault(...).append(...)` calls in a row add each value to its own key's list, in order, and a key is listed afterwards iff it was before or is one of the two |
| Common.MapValues | services/offset_searcher.py:41-49 | a dict comprehension keeps every key in place and maps each value |
| Common.MapValuesSnoc | services/offset_searcher.py:42-49 | mapping one more entry of a prefix appends that entry, mapped (the step of the loop) |
| Common.MapValuesKeys | services/offset_searcher.py:41-49 | the mapped dictionary has exactly the same keys in the same order |
| Text.NatToString | helpers/path_utils.py:6 | `str(n)` of a natural is a non-empty string of digits |
| Text.IntToString | helpers/path_utils.py:6 | `str(i)` is non-empty, digits for non-negatives and a minus before digits for negatives |
| Text.ParseNat | s4_offsets_calculator.py:40 | `int(s)` on unsigned digits succeeds exactly for a non-empty digit string |
| Text.ParseInt | s4_offsets_calculator.py:40 | `int(s)` accepts every non-empty digit string, giving a non-negative value |
| Text.NatRoundTrip | s4_offsets_calculator.py:40 | parsing the decimal form of a natural gives it back |
| Text.IntRoundTrip | s4_offsets_calculator.py:40-42 | `int(str(i)) == i` for every integer |
| Text.IntToStringInjective | helpers/path_utils.py:5-14 | different integers have different decimal forms |
| Text.IndexOf | s4_offsets_calculator.py:38 | the first occurrence of a separator known to occur |
| Text.IndexOfAfter | s4_offsets_calculator.py:38 | the first separator of `p + sep + rest` sits right after p when p lacks it |
| Text.Split | s4_offsets_calculator.py:38-39 | `split(sep)` gives at least one piece and no piece holds the separator |
| Text.SplitCons | s4_offsets_calculator.py:38-39 | a separator-free piece followed by the separator splits off as the first piece |
| Text.SplitJoin | s4_offsets_calculator.py:38-39 | splitting undoes joining when no piece holds the separator |
| Text.RemoveAppended | s4_offsets_calculator.py:39 | `replace('.csv', '')` of a name with `.csv` appended once, and nowhere else, gives the name back |
| Text.RemoveAbsent | s4_offsets_calculator.py:39 | `replace` leaves a string without the pattern unchanged |
| Text.RemoveAllAround | s4_offsets_calculator.py:39 | a character that cannot start or end the pattern splits `replace` into the parts before and after it |
| Text.IntToStringChars | s4_offsets_calculator.py:38-39 | a decimal form holds neither `/` nor `_` (nor any non-digit other than a leading minus) |
| Text.LacksFirstChar | s4_offsets_calculator.py:39 | a string without the pattern's first character contains no occurrence of it, not even overlapping an appended copy |
| Stats.NanMean | main.py:16 | `np.mean` is finite exactly for a non-empty list |
| Stats.SumAtMost | main.py:20 | values all at most m sum to at most n·m |
| Stats.SumBelow | main.py:20 | values at most m with one below m sum to less than n·m |
| Stats.SumConstant | main.py:20 | n equal values sum to n times that value |
| Stats.MeanTimesCount | main.py:16 | n times the mean is the sum |
| Stats.NotConstantHasAbove | main.py:20-22 | two different values put some value strictly above the mean |
| Stats.ConstantNoneAbove | main.py:20-22 | equal values all equal their mean, so none is above it |
| Stats.AboveMeanIffNotConstant | main.py:20-24 | some value is strictly above the mean iff the values are not all equal (both directions) |
| Stats.Insert | s5_google_sheets.js:139-153 | inserting into a sorted list keeps it sorted, adds exactly that value and puts the smaller of it and the old head first |
| Stats.Sort | s5_google_sheets.js:142 | ascending sort: sorted, same length, a permutation of the input |
| Stats.SortedHeadIsLeast | s5_google_sheets.js:142 | the head of a sorted list is at most each of its values |
| Stats.SplitHead | s5_google_sheets.js:142 | the tail of a list is the multiset minus the head, and sorted if the list is |
| Stats.SameHead | s5_google_sheets.js:142 | two sorted arrangements of one bag share their head and the rest of the bag |
| Stats.SortedUnique | s5_google_sheets.js:142 | two sorted arrangements of the same values are the same list |
| Stats.Bracketed | s5_google_sheets.js:143-152 | a value between two entries of an arrangement lies between two input values |
| Stats.Median | s5_google_sheets.js:139-153 | the median of a non-empty list lies between two of its values |
| Stats.NanMedian | s4_offsets_calculator.py:101-102 | `np.median` is finite exactly for a non-empty list |
| Stats.MedianPermutation | s4_offsets_calculator.py:101-102 | the median depends only on the multiset of values |
| Stats.InsertBy | main.py:71 | keyed insertion keeps the list sorted by key and adds exactly that element |
| Stats.SortBy | main.py:71 | `sort(key=...)` gives a list sorted by key that is a permutation of the input |
| Stats.InsertByStable | main.py:71 | keyed insertion puts the element before every element with its own key and leaves the other keys' elements in order |
| Stats.InsertByStableStep | main.py:71 | when the element goes after the head, the head has a smaller key, so the order within each key is kept |
| Stats.SortByStable | main.py:71 | the sort is stable: for every key, the elements with that key appear in their input order |
| Stats.InsertByNoDuplicates | main.py:71 | keyed insertion of a new element repeats nothing |
| Stats.SortByNoDuplicates | main.py:71 | sorting a list without repeats repeats nothing |
| Correlator.LagSumIsDot | services/correlator.py:26-27 | each valid-mode lag sum is the dot product of the window with an equally long stretch of the track |
| Correlator.CorrelateValid | services/correlator.py:26-27 | valid-mode `correlate` gives abs(len a − len v) + 1 lags, each the sum numpy defines, a dot product with a stretch of the longer input |
| Correlator.ArgMax | services/correlator.py:29-30 | `argmax` is the first index of a greatest value: nothing is greater, nothing before it is equal |
| Correlator.WindowCountDropsTail | services/correlator.py:22-24 | the number of windows drops the last window, and every window taken fits inside the first track |
| Correlator.WindowInside | services/correlator.py:23-24 | window i starts at i·w and ends by the end of the first track |
| Correlator.Chunk | services/correlator.py:23-24 | chunk i is the w samples of the track from i·w on; it gives the coarse windows and the one-second blocks of lines 47-48 |
| Correlator.MatchWindow | services/correlator.py:26-34 | one row of the coarse pass: the window's own offset, the argmax lag as the second offset, and that lag's correlation as the peak, no smaller than any lag |
| Correlator.AsyncMovingWindow | services/correlator.py:9-36 | the coarse pass fails iff the first track holds no full window or the second track is empty; otherwise one row per window, row i being the match of window i |
| Correlator.WindowMatches | services/correlator.py:23-34 | the rows in window order, each the match of its window |
| Correlator.BlocksFit | services/correlator.py:43-48 | every whole second of the shorter track fits inside both tracks |
| Correlator.SyncMovingWindow | services/correlator.py:39-66 | the per-second pass raises the length error when the first track is longer, fails when it holds no whole second, and otherwise gives one row per second at offset i·rate scored on the two blocks |
| FragmentsNormalizer.ComputeOffsetsAndIndices | services/fragments_normalizer.py:7-16 | exactly one track is advanced, by the offset difference; both slices are `length` long; seconds are samples over the rate and never negative |
| FragmentsNormalizer.NormalizeFragments | services/fragments_normalizer.py:19-30 | the shifts in seconds are non-negative, one is zero and they differ by the offset difference; with a positive overlap both slices are the overlap samples of their tracks; with a zero overlap both are empty; with a negative overlap n the advanced track's slice is empty and the other's stop counts from the end, giving its first max(0, len + n) samples |
| FragmentsNormalizer.UsableIffPositiveOverlap | s3_correlator.py:55-61 | both slices are non-empty and of equal length exactly when the overlap is positive, the only case the guard lets through |
| PairScheduler.FirstBadName | main.py:71 | the key function raises exactly when some file name has no number before its first dot, and names such a file |
| PairScheduler.SortedTracks | main.py:70-71 | the copy is sorted by the numeric name and is a permutation of the files |
| PairScheduler.SortedTracksStable | main.py:71 | files whose names carry the same number keep their input order |
| PairScheduler.SortedTracksDistinct | main.py:70-71 | sorting keeps file names distinct |
| PairScheduler.Row | main.py:79 | the inner loop of step i yields (i, i+1), ..., (i, j−1) in order |
| PairScheduler.PairIndicesBeforeMembers | main.py:75-81 | the first i outer steps yield exactly the pairs a < b < n with a < i and b < a + SERIES_WINDOW |
| PairScheduler.PairIndicesMembers | main.py:75-81 | all steps yield exactly the pairs a < b < n with b < a + SERIES_WINDOW |
| PairScheduler.PairIndicesBeforeOrdered | main.py:75-81 | the pairs come in strictly increasing lexicographic order, first indices below i |
| PairScheduler.PairIndicesOrdered | main.py:75-81 | the whole sequence of pairs is strictly increasing lexicographically, so no pair repeats |
| PairScheduler.PairIndicesInRange | main.py:75-81 | every yielded index lies inside the file list |
| PairScheduler.Materialize | main.py:81 | pair p is made of the tracks at the p-th index pair |
| PairScheduler.ScheduledPairs | main.py:69-83 | `generate_pairs` raises exactly when some file name has no leading number |
| PairScheduler.ScheduledPairsExactly | main.py:69-83 | every in-window pair of sorted positions is yielded, and every yielded pair is such a pair |
| PairScheduler.ScheduledPairsFromFiles | main.py:69-83 | every yielded track is one of the input files |
| PairScheduler.AudioRegistry.constructor | main.py:73 | the registry starts empty |
| PairScheduler.AudioRegistry.LoadIfNeeded | main.py:61-66 | a name already present leaves the registry unchanged; otherwise it is stored with its samples |
| PairScheduler.AudioRegistry.Evict | main.py:83 | `del` removes exactly that name |
| PairScheduler.LoadedHas | main.py:75-83 | every track of the window range is in the registry with its own samples |
| PairScheduler.LoadedLacks | main.py:75-83 | no track outside the window range is in the registry |
| PairScheduler.LoadedEvict | main.py:83 | dropping the first track of the range leaves the rest of the range |
| PairScheduler.MaterializeAppend | main.py:81 | one more index pair yields one more track pair |
| PairScheduler.MaterializeConcat | main.py:75-81 | the pairs of two runs of indices are the pairs of each, in order |
| PairScheduler.RowAppend | main.py:79 | one more inner step adds one pair at the end |
| PairScheduler.RowPairsMaterialize | main.py:79-81 | the inner loop's pairs are the tracks at the row's index pairs |
| PairScheduler.PairsBeforeMaterialize | main.py:75-81 | the pairs the loops build are the tracks at the scheduled index pairs |
| PairScheduler.LoadPartner | main.py:80 | loading partner j either finds it (already loaded) or adds it as the next of the range |
| PairScheduler.LoadAndPair | main.py:80-81 | after loading partner j the registry holds the range up to j, and the yielded pair is track i with track j as the registry returns them |
| PairScheduler.StartStep | main.py:76-77 | loading the first track of step i gives the registry the step needs |
| PairScheduler.EndStep | main.py:83 | once every partner is loaded, dropping track i leaves exactly what step i+1 starts with |
| PairScheduler.PairWithPartners | main.py:75-83 | one outer step yields track i with each partner in order and leaves the registry holding the partners still needed |
| PairScheduler.PairSorted | main.py:75-83 | the loops over the sorted tracks yield every step's pairs in order and leave the registry of the last step |
| PairScheduler.GeneratePairs | main.py:69-83 | the yielded pairs are exactly the scheduled ones (or the sorting error), and afterwards only the last file remains loaded |
| PairScheduler.FinalRegistry | main.py:83 | after the last step only the last track is loaded, when it was ever a partner |
| MainPipeline.Values | main.py:16-17 | the correlation column of the curve, row by row |
| MainPipeline.AboveIndices | main.py:22 | `cp.where(s > m)` lists only indices whose value is above m |
| MainPipeline.AboveIndicesComplete | main.py:22 | it lists every such index, in strictly ascending order |
| MainPipeline.AboveIndicesSnoc | main.py:22 | one more value appends its index exactly when it is above m |
| MainPipeline.AboveIndicesEmpty | main.py:22-24 | `where` is empty exactly when no value is above m |
| MainPipeline.AboveIndicesFirst | main.py:26 | `bools[0]` is the first index above m |
| MainPipeline.AboveIndicesLast | main.py:27 | `bools[-1]` is the last index above m |
| MainPipeline.AboveIndicesEnds | main.py:22-27 | empty iff nothing is above m; otherwise its ends are the first and last indices above m |
| MainPipeline.FindLongestSameFragment | main.py:14-34 | with nothing above the mean it returns zeros and no match; otherwise the span runs from the first to the last row above the mean in seconds, a match iff mean > 2·median |
| MainPipeline.AboveEndsUnique | main.py:26-27 | the first and last indices above m are unique and ordered |
| MainPipeline.FoundIffNotConstant | main.py:20-24 | a non-empty curve has a row above its mean iff its correlations are not all equal |
| MainPipeline.SecsOfMultiple | main.py:29-30 | offset i·rate is i seconds |
| MainPipeline.FragmentInSeconds | main.py:29-30 | on a per-second curve the span is 0 ≤ start ≤ end, exactly the first and last seconds above the mean |
| MainPipeline.Peaks | main.py:39 | the peak column, row by row |
| MainPipeline.BestWindow | main.py:39 | the first window of greatest peak |
| MainPipeline.SyncOnAligned | main.py:41-44 | the per-second pass over the cut tracks succeeds exactly when the overlap holds a whole second |
| MainPipeline.FindOffsetsByWindow | main.py:37-57 | it fails with the window or empty-input error exactly as the coarse pass does and succeeds iff the overlap holds a second; the two spans are ordered, non-negative and equally long, and differ by the best window's offset difference |
| MainPipeline.AlignedCurve | main.py:38-48 | the per-second curve over the overlap around the best window, when it exists, has a row for each second, the k-th at offset k seconds |
| MainPipeline.FindOffsetsByWindowValue | main.py:47-57 | the four zeros come back when the per-second curve over the aligned overlap is not a match; otherwise each track's candidate is the fragment shifted by that track's advance in seconds |
| MainPipeline.FindOffsetsByWindowSpan | main.py:14-57 | no match (nothing above the mean, or a mean at most twice the median) gives the four zeros; a match gives, per track, the first and last second above the mean plus that track's advance |
| MainPipeline.ShiftedFragment | main.py:14-57 | candidates built from a curve's fragment are the four zeros for a non-matching curve and, for a matching one, its first and last second above the mean shifted per track |
| MainPipeline.Names | main.py:87 | the file names in input order |
| MainPipeline.NoOffsets | main.py:87 | one empty list per file, keys in input order and distinct |
| MainPipeline.RecordPair | main.py:89-99 | one turn keeps keys distinct |
| MainPipeline.RecordAll | main.py:89-99 | the loop keeps keys distinct; the lists it builds are given by RecordAllContents |
| MainPipeline.AppendCandidates | main.py:95-99 | one examined pair appends both candidates, or the search's failure ends the loop (equal to its specification function) |
| MainPipeline.RecordAllSnoc | main.py:89-99 | one more pair is one more turn of the loop |
| MainPipeline.FindAllOffsets | main.py:86-106 | the loop's result is `find_all_offsets` as a value |
| MainPipeline.RecordAllStops | main.py:89-99 | once a prefix fails the whole loop fails with the same error |
| MainPipeline.CountAfterAppend | main.py:98-99 | appending under a key adds one candidate there and none elsewhere |
| MainPipeline.RecordPairCounts | main.py:92-99 | one turn adds one candidate per side of an examined pair |
| MainPipeline.RecordAllCounts | main.py:89-99 | each file gains one candidate per examined pair side it is |
| MainPipeline.RecordAllKeys | main.py:89-99 | files already present keep their places; no key is added |
| MainPipeline.AllOffsetsKeys | main.py:86-106 | the result has one list per input file, in input order |
| MainPipeline.AllOffsetsCounts | main.py:86-106 | each file ends with exactly one candidate per examined pair it belongs to |
| MainPipeline.RecordPairContents | main.py:92-99 | one turn appends, under each file, that pair's candidates for it: the first file's span, then the second's, and none for a skipped pair |
| MainPipeline.RecordAllContents | main.py:89-99 | under every file the loop leaves its earlier list followed by the candidates the pairs give it, in pair order |
| MainPipeline.AllOffsetsContents | main.py:86-106 | each input file's list holds exactly the candidates of the examined pairs it belongs to, in generation order |
| MainPipeline.NoExaminedPairNoChange | main.py:92-93 | when the one examined pair is absent, every list stays empty |
| SeasonCorrelator.CorrelateTracks | s3_correlator.py:52-65 | a result names the two files in pair order; its shifts are the aligned overlap's `offset1_secs` and `offset2_secs` around the best window (non-negative), and its curve is the per-second pass over that overlap |
| SeasonCorrelator.AnalyzePair | s3_correlator.py:43-65 | a result for a pair names its first and second file; its shifts are the aligned overlap's shifts and its curve is the per-second pass over that overlap |
| SeasonCorrelator.AnalyzePairErrors | s3_correlator.py:48-63 | after the guards only two failures remain: no coarse window, or no whole second in the overlap |
| SeasonCorrelator.AnalyzePairSucceeds | s3_correlator.py:48-65 | a pair yields a curve iff both tracks last 30 s, the first exceeds a window and the overlap holds a second; the curve has one row per whole second of overlap |
| SeasonCorrelator.AnalyzeAll | s3_correlator.py:41-67 | no more results than pairs; their order is given by AnalyzeAllInOrder |
| SeasonCorrelator.Outcomes | s3_correlator.py:41-65 | the loop body's outcome for each pair, in pair order |
| SeasonCorrelator.KeptSkip | s3_correlator.py:48-61 | a skipped pair leaves the kept results as they were |
| SeasonCorrelator.KeptSnoc | s3_correlator.py:65 | a pair with a result appends it after the earlier ones |
| SeasonCorrelator.AnalyzeAllInOrder | s3_correlator.py:41-67 | `results` keeps generation order: it is the results of the pairs that gave one, at strictly increasing pair positions, and every other pair was skipped |
| SeasonCorrelator.AnalyzeAllFromPairs | s3_correlator.py:41-67 | every result names the files of one of the pairs, in pair order |
| SeasonCorrelator.AnalyzeAllStops | s3_correlator.py:41-67 | once a prefix fails the whole loop fails with the same error |
| SeasonCorrelator.AnalyzeFiles | s3_correlator.py:40-67 | the loop over the scheduled pairs equals `analyze_files` as a value |
| SeasonCorrelator.AnalyzedFilesOrdered | s3_correlator.py:40-67 | every result is made of two sorted files a < b inside the series window |
| SeasonCorrelator.MillisOfShift | s3_correlator.py:82 | the milliseconds in a result name are the shift rounded down, within one millisecond |
| OffsetSearcher.Kept | services/offset_searcher.py:43-44 | the kept values are empty exactly when every candidate ends at the sentinel 0 |
| OffsetSearcher.KeptMembers | services/offset_searcher.py:43-44 | starts and ends keep the same candidates; a value is kept iff a non-sentinel candidate has it |
| OffsetSearcher.KeptConcat | services/offset_searcher.py:43-44 | filtering distributes over concatenation |
| OffsetSearcher.RemoveAt | services/offset_searcher.py:43-44 | taking out one candidate removes exactly it from the multiset |
| OffsetSearcher.KeptRemoveAt | services/offset_searcher.py:43-44 | the kept values split into those without one candidate and that candidate's |
| OffsetSearcher.KeptPermutation | services/offset_searcher.py:43-44 | the kept values depend only on the multiset of candidates |
| OffsetSearcher.TrueOffset | services/offset_searcher.py:43-49 | the consensus start is NaN iff every candidate is a sentinel, and the end is NaN iff the start is |
| OffsetSearcher.TrueOffsetBracketed | services/offset_searcher.py:46-47 | a finite consensus value lies between two surviving candidates' values |
| OffsetSearcher.TrueOffsetPermutation | services/offset_searcher.py:43-49 | reordering a file's candidates does not change its consensus |
| OffsetSearcher.SentinelIgnored | services/offset_searcher.py:43-44 | a candidate with end 0 changes nothing |
| OffsetSearcher.TrueOffsets | s4_offsets_calculator.py:93-107 | every file keeps its place and gets the consensus of its own candidates |
| OffsetSearcher.FindTrueOffsets | services/offset_searcher.py:37-51 | the loop's dictionary is exactly that mapping |
| OffsetsCalculator.ParseEntryName | s4_offsets_calculator.py:33-42 | a member is skipped iff its name lacks `.csv`; parsed file names hold no `_` |
| OffsetsCalculator.StemOfResultFileName | s4_offsets_calculator.py:39 | removing `.csv` from a saved name leaves its four fields joined by `_` |
| OffsetsCalculator.ArchivePathPieces | s4_offsets_calculator.py:38-39 | the fields hold no separator where none was put |
| OffsetsCalculator.JoinThree | s4_offsets_calculator.py:38 | a three-part path is its parts joined by `/` |
| OffsetsCalculator.EndsWithAfter | s4_offsets_calculator.py:33 | a suffix stays a suffix after prefixing |
| OffsetsCalculator.ArchivePathParts | s4_offsets_calculator.py:33-38 | a saved path ends in `.csv` and splits at `/` into folder, series and name |
| OffsetsCalculator.ResultFileNameFields | s4_offsets_calculator.py:39 | the saved name without `.csv` splits at `_` into its four fields |
| OffsetsCalculator.ParseWellFormed | s4_offsets_calculator.py:33-42 | a well-formed path parses to its series, files and shifts over 1000 |
| OffsetsCalculator.ParseArchivePath | s4_offsets_calculator.py:33-42 | a saved path, step by step, parses to its own fields |
| OffsetsCalculator.ArchivePathRoundTrip | s4_offsets_calculator.py:33-42 | reading back the path `analyze_season` saves gives the series, both file names and the shifts in whole milliseconds |
| OffsetsCalculator.ArchivedShiftAccurate | s4_offsets_calculator.py:41-42 | a shift read back is non-negative, at most the original and within one millisecond of it |
| OffsetsCalculator.LoadedArchive | s4_offsets_calculator.py:29-45 | the loaded archive has distinct series keys |
| OffsetsCalculator.LoadedArchiveStops | s4_offsets_calculator.py:32-44 | once a member raises, the whole load raises that error |
| OffsetsCalculator.LoadArchive | s4_offsets_calculator.py:29-45 | the loop equals `load_archive` as a value |
| OffsetsCalculator.LoadedArchiveGroups | s4_offsets_calculator.py:44 | a series is a key iff some curve belongs to it, and its list holds exactly its curves in archive order |
| OffsetsCalculator.CurveValues | s4_offsets_calculator.py:53 | the correlation column, row by row |
| OffsetsCalculator.Clipped | s4_offsets_calculator.py:55 | the filtered values are exactly the values below the limit |
| OffsetsCalculator.MaxOf | s4_offsets_calculator.py:65 | `np.max` is a value no smaller than any other |
| OffsetsCalculator.FirstAbove | s4_offsets_calculator.py:67 | none iff no value exceeds the threshold, else the first index that does |
| OffsetsCalculator.Begin | s4_offsets_calculator.py:67-68 | the start index lies on the curve |
| OffsetsCalculator.BeginFacts | s4_offsets_calculator.py:67-68 | the start is the first value above the threshold past row 3, and row 0 otherwise |
| OffsetsCalculator.MissesMonotone | s4_offsets_calculator.py:71-78 | the count of misses never decreases along the scan |
| OffsetsCalculator.ScanStopFacts | s4_offsets_calculator.py:76-78 | a scan stopped at its 31st miss has no later value above the threshold reachable within 30 misses |
| OffsetsCalculator.ScanFromFacts | s4_offsets_calculator.py:70-78 | the scan's end is the start or a value above the threshold reached within 30 misses, and no later such value is reachable |
| OffsetsCalculator.SegmentEndFacts | s4_offsets_calculator.py:70-78 | the end lies between the start and the last row and satisfies that property |
| OffsetsCalculator.ScanEnd | s4_offsets_calculator.py:70-78 | the loop computes that end |
| OffsetsCalculator.FindSegment | s4_offsets_calculator.py:53-78 | a curve is skipped iff its clipped values are empty or their mean is below twice their median; a found stretch is ordered and on the curve |
| OffsetsCalculator.FindSegmentFacts | s4_offsets_calculator.py:53-78 | a found stretch starts and ends as the threshold scan demands |
| OffsetsCalculator.PairSpan | s4_offsets_calculator.py:53-81 | a curve of fewer than two rows raises; a found span is two row offsets over the rate, the first row no later than the second |
| OffsetsCalculator.DivideMonotone | s4_offsets_calculator.py:80-81 | dividing by the rate keeps order |
| OffsetsCalculator.PairSpanOrdered | s4_offsets_calculator.py:80-81 | with ascending row offsets a found span starts no later than it ends |
| OffsetsCalculator.AppendTwo | s4_offsets_calculator.py:83-84 | two appends under different files each extend their own list |
| OffsetsCalculator.AppendTwice | s4_offsets_calculator.py:83-84 | two appends under the same file extend its list by both, in order |
| OffsetsCalculator.Record | s4_offsets_calculator.py:83-84 | each file of the pair gets its shift plus the span appended (both to one list, first shift first, when the files coincide); every file's list is the old one plus its sides, only the pair's files become listed, keys stay distinct |
| OffsetsCalculator.RecordOthers | s4_offsets_calculator.py:83-84 | no other file's list changes |
| OffsetsCalculator.AddPair | s4_offsets_calculator.py:50-84 | one turn keeps keys distinct |
| OffsetsCalculator.GroupedOffsets | s4_offsets_calculator.py:48-90 | the grouped dictionary has distinct keys; its lists are given by GroupedOffsetsContents |
| OffsetsCalculator.AppendSidesAt | s4_offsets_calculator.py:83-84 | the two appends add, for any file, exactly its sides (the shift by offset1 if it is the first file, then the shift by offset2 if it is the second) at the end of its list |
| OffsetsCalculator.SidesEmpty | s4_offsets_calculator.py:83-84 | a file gets a side iff it is one of the pair's two files |
| OffsetsCalculator.AppendSides | s4_offsets_calculator.py:83-84 | for every file the list grows by its sides, and a file is listed afterwards iff it was before or is one of the pair's two |
| OffsetsCalculator.AddPairContents | s4_offsets_calculator.py:50-84 | one turn appends the pair's spans for a file at the end of its list, and lists the file iff it was listed or gets a span |
| OffsetsCalculator.GroupedOffsetsContents | s4_offsets_calculator.py:48-90 | a file is listed iff some pair with a found stretch names it, and its list holds exactly those stretches shifted by its offset, in pair order |
| OffsetsCalculator.GroupedOffsetsStops | s4_offsets_calculator.py:50-84 | once a pair raises, the whole grouping raises that error |
| OffsetsCalculator.FindSpan | s4_offsets_calculator.py:53-81 | the method computes that pair's span |
| OffsetsCalculator.GroupPair | s4_offsets_calculator.py:50-84 | one loop turn equals its specification |
| OffsetsCalculator.FindAndGroup | s4_offsets_calculator.py:48-90 | the loop equals `find_and_group_offsets_by_series` as a value |
| OffsetsCalculator.Lengths | s4_offsets_calculator.py:112 | the length of every file's opening, end minus start |
| OffsetsCalculator.FiniteValues | s4_offsets_calculator.py:112 | the values of finite numbers, in order |
| OffsetsCalculator.NumMean | s4_offsets_calculator.py:112 | the mean is finite iff the list is non-empty and NaN-free |
| OffsetsCalculator.FixOffsets | s4_offsets_calculator.py:110-119 | every file keeps its place and start; an end not past 330 s is kept; an end past it becomes start plus the mean length (NaN with a NaN start) |
| OffsetsCalculator.FixOffsetsNoEdge | s4_offsets_calculator.py:110-119 | with no end past the edge nothing changes |
| PathUtils.SeriesPath | helpers/path_utils.py:5-6 | a series folder lies under `<base>/video/` |
| PathUtils.EpisodePath | helpers/path_utils.py:9-10 | an episode file lies in its series folder and ends in `.mp4` |
| PathUtils.ScreenshotPath | helpers/path_utils.py:13-14 | a screenshot lies under `<base>/screenshots/` and ends in `.jpg` |
| PathUtils.StartsWithTransitive | helpers/path_utils.py:5-14 | a prefix of a prefix is a prefix |
| PathUtils.PathsUnderBase | helpers/path_utils.py:1-14 | every path lies inside the artifacts folder |
| PathUtils.DropPrefix | helpers/path_utils.py:5-14 | equal strings after a common prefix are equal |
| PathUtils.DropSuffix | helpers/path_utils.py:5-14 | equal strings before a common suffix are equal |
| PathUtils.SplitTwo | helpers/path_utils.py:9-14 | two pieces joined by a separator neither holds are read back apart |
| PathUtils.SeriesPathInjective | helpers/path_utils.py:5-6 | different series get different folders |
| PathUtils.TwoFieldsApart | helpers/path_utils.py:9-10 | an episode path determines its series and episode text |
| PathUtils.EpisodePathInjective | helpers/path_utils.py:9-10 | different (series, episode) pairs get different files |
| PathUtils.ThreeFieldsApart | helpers/path_utils.py:13-14 | a screenshot path determines its three fields |
| PathUtils.ScreenshotPathInjective | helpers/path_utils.py:13-14 | different (series, episode, timestamp) triples get different files |
| MessageHelpers.AllButtons | helpers/anilibria_message_helpers.py:4-5 | the buttons of all rows, row after row |
| MessageHelpers.AllButtonsConcat | helpers/anilibria_message_helpers.py:4-5 | the buttons of two runs of rows are those of each, in order |
| MessageHelpers.AllButtonsAt | helpers/anilibria_message_helpers.py:4-5 | button j of row i sits at the row-major position |
| MessageHelpers.AllButtonsMembers | helpers/anilibria_message_helpers.py:4-5 | a text is among all buttons iff it is in some row |
| MessageHelpers.FirstWhere | helpers/anilibria_message_helpers.py:10-13 | `next(...)` finds nothing iff no button matches, else the first match |
| MessageHelpers.FirstWhereUnique | helpers/anilibria_message_helpers.py:10-13 | the first match is unique |
| MessageHelpers.FirstBracketedFlat | helpers/anilibria_message_helpers.py:24-28 | the row-by-row scan finds the same button as a scan of all buttons |
| MessageHelpers.CurrentEpisode | helpers/anilibria_message_helpers.py:23-30 | raises "No current episode" iff no button starts with `[`; otherwise parses the first such button between its brackets or raises on that button |
| MessageHelpers.CurrentEpisodeOfLabel | helpers/anilibria_message_helpers.py:23-30 | a first bracketed button `[n]` gives episode n |
| MessageHelpers.PrevEpisodeButton | helpers/anilibria_message_helpers.py:8-13 | fails exactly as the current episode fails; otherwise none iff no button reads current − 1, else the first such |
| MessageHelpers.PrevEpisodeButtonParses | helpers/anilibria_message_helpers.py:8-13 | the button found reads, as a number, current episode − 1 |
| MessageHelpers.Cont | helpers/anilibria_message_helpers.py:19 | a UTF-8 continuation byte lies in 0x80..0xBF |
| MessageHelpers.Utf8 | helpers/anilibria_message_helpers.py:19 | a character encodes to 1 to 4 bytes and never ends in 0xE2 |
| MessageHelpers.Encode | helpers/anilibria_message_helpers.py:19 | `encode()` is empty iff the text is, and never ends in 0xE2 |
| MessageHelpers.Utf8PageMark | helpers/anilibria_message_helpers.py:19 | one character's bytes hold E2 97 iff it lies in U+25C0..U+25FF |
| MessageHelpers.PageMarkConcat | helpers/anilibria_message_helpers.py:19 | the mark occurs in joined bytes iff in one part, as the first part never ends in 0xE2 |
| MessageHelpers.PageMarkIffArrow | helpers/anilibria_message_helpers.py:19 | `b'\xe2\x97' in text.encode()` iff the text holds a character in U+25C0..U+25FF |
| MessageHelpers.PrevPageButton | helpers/anilibria_message_helpers.py:16-20 | none iff no button holds such an arrow, else the first that does |
| MessageHelpers.NumericCount | helpers/anilibria_message_helpers.py:38 | the count of numeric buttons is never more than the buttons |
| MessageHelpers.NumericCountPositions | helpers/anilibria_message_helpers.py:38 | that count is the number of positions of numeric buttons |
| MessageHelpers.MoreThan3Episodes | helpers/anilibria_message_helpers.py:33-39 | true iff a previous-page button exists or at least three buttons are numeric |
| MessageHelpers.NumericValues | helpers/anilibria_message_helpers.py:44 | exactly the values of the numeric buttons |
| MessageHelpers.MaxOfNats | helpers/anilibria_message_helpers.py:44 | `max` is one of the values and no smaller than any |
| MessageHelpers.MoreThan13Episodes | helpers/anilibria_message_helpers.py:42-45 | `max` of no numbers raises; otherwise true iff some numeric button reads 13 or more |
| Report.ToNumber | s5_google_sheets.js:83-92 | a number stays itself and `undefined` becomes NaN |
| Report.AbsNum | s5_google_sheets.js:117 | `Math.abs` is finite iff its input is, non-negative, and ± the input |
| Report.TitleField | s5_google_sheets.js:17-20 | reading a column the row does not have gives `undefined` |
| Report.Filter | s5_google_sheets.js:50-55 | `filter` keeps exactly the matching elements |
| Report.Find | s5_google_sheets.js:61-62 | `find` is undefined iff nothing matches, else the first match |
| Report.MinOf | s5_google_sheets.js:57-60 | the least episode number, one of them |
| Report.MaxOf | s5_google_sheets.js:57-60 | the greatest episode number, one of them |
| Report.EpisodeNumbers | s5_google_sheets.js:55 | the episode numbers, in order |
| Report.Gather | s5_google_sheets.js:50-55 | a title's overrides, errors, offsets and episodes are exactly those with its id |
| Report.EffectiveStatus | s5_google_sheets.js:17-20 | the status used is always the title's own: the override reads a column that is never set |
| Report.EpisodeRow | s5_google_sheets.js:61-101 | an episode row carries its title id and episode, median columns still undefined |
| Report.StatusConditions | s5_google_sheets.js:66-78 | each status holds iff its condition holds and every earlier one fails, for all seven outcomes |
| Report.ManualOverridesOffsets | s5_google_sheets.js:80-81 | a manually marked episode's begin and end ignore the computed offset |
| Report.MinusOneBlanks | s5_google_sheets.js:80-81 | an override value of −1 blanks that side |
| Report.OffsetsWithoutOverride | s5_google_sheets.js:80-81 | without an override the computed offset is used, undefined when absent |
| Report.EpisodeRowLength | s5_google_sheets.js:83-92 | found iff begin or end is truthy; then the length is end − begin and in-window iff it lies in [80, 110]; otherwise length, window and minutes are undefined |
| Report.EpisodeRows | s5_google_sheets.js:57-101 | one row per episode from the least to the greatest number |
| Report.PushEpisodeRows | s5_google_sheets.js:61-101 | the loop pushes exactly those rows |
| Report.EpisodeRowsCover | s5_google_sheets.js:61-78 | a gap in the numbering, not overridden, becomes an `episode_download_error` row |
| Report.Lengths | s5_google_sheets.js:110 | the finite lengths are exactly those of the rows |
| Report.JsMedian | s5_google_sheets.js:139-153 | undefined iff there are no lengths; else a number between two of them |
| Report.JsMedianPermutation | s5_google_sheets.js:139-153 | the median depends only on the multiset of lengths |
| Report.FillRow | s5_google_sheets.js:112-119 | only the three median columns change, and a row without an opening is untouched |
| Report.FillRowFacts | s5_google_sheets.js:112-119 | a found row gets the median, and is flagged iff it differs from it by more than 10 s |
| Report.FillRows | s5_google_sheets.js:112-119 | every row is filled with the same median |
| Report.FillMedian | s5_google_sheets.js:112-119 | the loop fills every row in place, the rest unchanged |
| Report.Finish | s5_google_sheets.js:104-121 | every row of a title carries its id |
| Report.DownloadedRows | s5_google_sheets.js:57-121 | a title throws "no episodes" iff it has none; its rows carry its id |
| Report.TitleRows | s5_google_sheets.js:22-121 | every row of a title carries its id |
| Report.TitleRowsByStatus | s5_google_sheets.js:22-48 | each title status gives its summary row, no row, the strange-status throw, or the episode rows (throwing iff no episodes) |
| Report.DownloadedTitle | s5_google_sheets.js:104-121 | all too short collapses to one summary row; else one filled row per episode number with the median of their lengths |
| Report.FinishRows | s5_google_sheets.js:104-121 | the method computes that finish |
| Report.ProcessDownloaded | s5_google_sheets.js:50-121 | the method computes a downloaded title's rows |
| Report.ProcessTitle | s5_google_sheets.js:17-121 | the method computes one title's rows |
| Report.RowsOfStopsAtError | s5_google_sheets.js:16-122 | once a title throws, no later title matters |
| Report.RowsOfStep | s5_google_sheets.js:16-122 | one more title appends its rows or throws its error |
| Report.CollectRows | s5_google_sheets.js:16-122 | the loop over titles equals the rows of all titles |
| Report.Doit | s5_google_sheets.js:1-128 | `doit` computes the report: the header, then every title's rows in order of id |
| Report.RowsOfIds | s5_google_sheets.js:16-122 | every row belongs to one of the titles |
| Report.RowsOfSorted | s5_google_sheets.js:9-122 | with titles sorted by id the rows come in order of title id |
| Report.HeaderThenRows | s5_google_sheets.js:11-15 | the header does not disturb the order of the rows after it |
| Report.ReportSorted | s5_google_sheets.js:1-128 | a report starts with the header and its rows are grouped in ascending title id |

## Left out

- I/O is left out: reading folders and audio (`services/audio_loader.py` is not part of this model), writing CSV files, the archive, the sheets, printing and timing. The loops take their inputs as values.
- The `main` functions of `main.py`, `s3_correlator.py` and `s4_offsets_calculator.py`, and `analyze_season` of `main.py`, are left out. They list folders, filter processed series and format CSV lines with `{:.3f}`/`{:.1f}`.
- `config.py` is not part of this model. `RATE`, the coarse window and `SERIES_WINDOW` are parameters: the rate and window are positive, and the series window is any natural.
- Floating point is modelled as exact reals. The float32 cast, the peak/mean normalisation of `load_to_gpu_if_needed`, the z-score and standard deviation of the per-second pass, and `savetxt`'s `%1.3e` rounding are not modelled.
- The per-block score of the per-second pass (`blockScore`) and the clip limit `mean + 3·std` (`clipLimit`) are function parameters.
- Correlator.SyncMovingWindow and OffsetsCalculator.CsvRow: a per-second score is a real and never NaN. In the source a second with zero variance has a NaN z-score. In `main.py` that makes the curve's mean NaN, so no second lies above it and the pair reports no match. In `s4_offsets_calculator.py` it makes the clip limit NaN, so the clipped data is empty and the pair is skipped. The model does not capture either effect.
- The kernel-density reducer `find_true_offsets_kde` (`services/offset_searcher.py:5-34`) is left out. It uses random noise and scipy's `gaussian_kde`.
- The GPU registry keeps the samples as given. It does not hold the normalised float32 buffer.
- OffsetsCalculator.ParseEntryName: the model reads the shift fields with Text.ParseInt, so it accepts only integer text, where Python's `float(...)` also accepts forms such as `1.5`, `1e3` and `nan`. The names are written with `int(...)`, so only integer text occurs in them.
- OffsetsCalculator.LoadedArchive: a member's rows are given already parsed. `np.loadtxt` failures other than a curve of fewer than two rows are not modelled.
- `helpers/async_iterator_helpers.py` is not part of this model. It covers concurrency.
- MessageHelpers: Telegram messages are reduced to the texts of their keyboard buttons.
- MessageHelpers: `isnumeric` is limited to ASCII digits.
- MessageHelpers: `int(...)` accepts only an optional sign and ASCII digits; whitespace and underscores are not modelled.
- Text.ParseInt: Python's `int(...)` also accepts surrounding whitespace, underscores between digits and non-ASCII digits; the model accepts only an optional sign and ASCII digits. Its callers inherit this: PairScheduler.NumericName (the sort key at `main.py:71`) rejects a file such as `" 7.wav"` or `"1_0.wav"` that Python sorts, and OffsetsCalculator.ParseEntryName (`int(series_id)` at `s4_offsets_calculator.py:40`) rejects such a series id.
- Report: `read_values` and writing the sheet are left out. The sheets are taken to hold no header row: every row from row 1 is a data row, as `read_values` reads them (`s5_google_sheets.js:130-136`), with the column names supplied by `columns_str`.
- Report.ToNumber: among strings only `""` converts (to 0). Any other string becomes NaN, which is right only for non-numeric text.
- Report.Lengths: NaN lengths are dropped before the median. In JavaScript they change it: a comparator returning NaN counts as "equal", so lengths [NaN, 90] give the median NaN where the model gives 90, and [NaN] gives NaN where the model gives undefined.
- Report.MinSec: JavaScript's number-to-string conversion is modelled only for integers. Exponent forms at 1e21 and above are not modelled.
- Report.FillMedian: the rows pushed earlier are JavaScript objects mutated in place. The model updates them as values in a sequence, so aliasing is not captured.
- Report.Doit: `all_series.sort` sorts the sheet's array in place. The model sorts a copy.
- The per-second pass throws a length error when the first cut track is longer than the second (Correlator.LengthOrder). It also fails when the first cut track holds less than one second: the block array is then one-dimensional and `mean(axis=1)` raises (`services/correlator.py:47-51`); the model returns Correlator.NoFullSecond. Left out are the z-score's division by a zero standard deviation, which gives NaN rather than failing (see the NaN line above), and failures of the GPU array library itself, such as running out of device memory.
- SeasonCorrelator.AnalyzePair: the `30 * RATE` guard compares sample counts. Tracks are not checked for silence (division by a zero peak), since normalisation is left out.
