/** s4_offsets_calculator.py: the saved correlation curves of a season are read back
    from their archive, each curve is cut down to the stretch that looks like a shared
    opening, the stretches are collected per episode, reduced to one opening per
    episode by the median reducer of OffsetSearcher, and openings that run into the
    end of the compared audio are given the average length. */
module OffsetsCalculator {
  import opened Common
  import opened Text
  import opened Stats
  import opened OffsetSearcher
  import SeasonCorrelator

  // ---------------------------------------------------------------------------
  // Reading the archive (`load_archive`)

  /** One row of a saved curve as `np.loadtxt` reads it back: the sample offset of
      the second and the correlation value. */
  datatype CsvRow = CsvRow(offset: real, value: real)

  /** One member of the archive: its path and, for a curve, its rows. */
  datatype ArchiveEntry = ArchiveEntry(path: string, rows: seq<CsvRow>)

  /** What the path of a saved curve says about it. */
  datatype EntryName = EntryName(seriesId: int, file1: string, file2: string, offset1: real, offset2: real)

  /** The `ValueError`s of `load_archive`: a path that does not unpack into three
      parts, a file name that does not unpack into four fields, and a number that
      does not parse. */
  datatype LoadError = WrongPartCount(path: string) | WrongFieldCount(path: string) | NotANumber(path: string)

  /** The name handling of one member: anything not ending in `.csv` is skipped; the
      path is `<folder>/<series id>/<file name>` and the file name, without `.csv`,
      is `<file1>_<file2>_<ms1>_<ms2>`; the two shifts are read in milliseconds. */
  function ParseEntryName(path: string): (r: Result<Option<EntryName>, LoadError>)
    ensures r == Ok(None) <==> !EndsWith(path, ".csv")
    ensures r.Ok? && r.value.Some? ==> '_' !in r.value.value.file1 && '_' !in r.value.value.file2
  {
    if !EndsWith(path, ".csv") then Ok(None)
    else
      var parts := Split(path, '/');
      if |parts| != 3 then Err(WrongPartCount(path))
      else
        var fields := Split(RemoveAll(parts[2], ".csv"), '_');
        if |fields| != 4 then Err(WrongFieldCount(path))
        else
          match (ParseInt(parts[1]), ParseInt(fields[2]), ParseInt(fields[3]))
          case (Some(seriesId), Some(ms1), Some(ms2)) =>
            Ok(Some(EntryName(seriesId, fields[0], fields[1], ms1 as real / 1000.0, ms2 as real / 1000.0)))
          case _ => Err(NotANumber(path))
  }

  /** Where analyze_season in s3_correlator.py saves the curve of series `seriesId`,
      as a member of the archive of its output folder `folder`. */
  function ArchivePath(folder: string, seriesId: int, c: SeasonCorrelator.Correlation): string {
    Join([folder, IntToString(seriesId), SeasonCorrelator.ResultFileName(c)], '/')
  }

  /** The four fields of a result file name, in order. */
  function NameFields(c: SeasonCorrelator.Correlation): seq<string> {
    [c.file1, c.file2, IntToString(SeasonCorrelator.Millis(c.offset1Secs)),
     IntToString(SeasonCorrelator.Millis(c.offset2Secs))]
  }

  /** Removing `.csv` from a result file name leaves its four fields joined by `_`. */
  lemma StemOfResultFileName(c: SeasonCorrelator.Correlation)
    requires Lacks(c.file1, ".csv") && Lacks(c.file2, ".csv")
    ensures RemoveAll(SeasonCorrelator.ResultFileName(c), ".csv") == Join(NameFields(c), '_')
  {
    var fs := NameFields(c);
    var f1, f2, m1, m2 := fs[0], fs[1], fs[2], fs[3];
    IntToStringChars(SeasonCorrelator.Millis(c.offset1Secs), '.');
    IntToStringChars(SeasonCorrelator.Millis(c.offset2Secs), '.');
    LacksFirstChar(m1, ".csv");
    LacksFirstChar(m2, ".csv");
    assert fs[1..][1..][1..] == [m2];
    assert Join(fs[1..][1..], '_') == m1 + ['_'] + m2;
    assert Join(fs[1..], '_') == f2 + ['_'] + (m1 + ['_'] + m2);
    assert Join(fs, '_') == f1 + ['_'] + (f2 + ['_'] + (m1 + ['_'] + m2));
    assert SeasonCorrelator.ResultFileName(c) == f1 + ['_'] + (f2 + ['_'] + (m1 + ['_'] + (m2 + ".csv")));
    RemoveAllAround(m1, '_', m2 + ".csv", ".csv");
    RemoveAllAround(f2, '_', m1 + ['_'] + (m2 + ".csv"), ".csv");
    RemoveAllAround(f1, '_', f2 + ['_'] + (m1 + ['_'] + (m2 + ".csv")), ".csv");
    RemoveAbsent(f1, ".csv");
    RemoveAbsent(f2, ".csv");
    RemoveAbsent(m1, ".csv");
    RemoveAppended(m2, ".csv");
  }

  /** The separators of a result path occur only where they were put. */
  lemma ArchivePathPieces(folder: string, seriesId: int, c: SeasonCorrelator.Correlation)
    requires '/' !in folder && '/' !in c.file1 && '/' !in c.file2
    requires '_' !in c.file1 && '_' !in c.file2
    ensures forall k :: 0 <= k < 4 ==> '_' !in NameFields(c)[k] && '/' !in NameFields(c)[k]
    ensures '/' !in SeasonCorrelator.ResultFileName(c) && '/' !in IntToString(seriesId)
  {
    var fs := NameFields(c);
    IntToStringChars(SeasonCorrelator.Millis(c.offset1Secs), '_');
    IntToStringChars(SeasonCorrelator.Millis(c.offset2Secs), '_');
    IntToStringChars(SeasonCorrelator.Millis(c.offset1Secs), '/');
    IntToStringChars(SeasonCorrelator.Millis(c.offset2Secs), '/');
    IntToStringChars(seriesId, '/');
  }

  /** Three pieces joined by a separator. */
  lemma JoinThree(a: string, b: string, c: string, sep: char)
    ensures Join([a, b, c], sep) == a + [sep] + b + [sep] + c
  {
    assert [a, b, c][1..][1..] == [c];
    assert Join([a, b, c][1..], sep) == b + [sep] + c;
  }

  /** A string ending in a suffix still ends in it with anything in front. */
  lemma EndsWithAfter(p: string, q: string, suffix: string)
    requires EndsWith(q, suffix)
    ensures EndsWith(p + q, suffix)
  {
    assert (p + q)[|p + q| - |suffix|..] == q[|q| - |suffix|..];
  }

  /** A result path ends in `.csv` and splits at `/` into its three parts. */
  lemma ArchivePathParts(folder: string, seriesId: int, c: SeasonCorrelator.Correlation)
    requires '/' !in folder && '/' !in c.file1 && '/' !in c.file2
    requires '_' !in c.file1 && '_' !in c.file2
    ensures EndsWith(ArchivePath(folder, seriesId, c), ".csv")
    ensures Split(ArchivePath(folder, seriesId, c), '/') ==
      [folder, IntToString(seriesId), SeasonCorrelator.ResultFileName(c)]
  {
    var name := SeasonCorrelator.ResultFileName(c);
    var series := IntToString(seriesId);
    ArchivePathPieces(folder, seriesId, c);
    SplitJoin([folder, series, name], '/');
    JoinThree(folder, series, name, '/');
    var stem := name[..|name| - 4];
    assert name == stem + ".csv";
    EndsWithAfter(stem, ".csv", ".csv");
    EndsWithAfter(folder + ['/'] + series + ['/'], name, ".csv");
  }

  /** The file name of a result path, without `.csv`, splits at `_` into its four
      fields. */
  lemma ResultFileNameFields(c: SeasonCorrelator.Correlation)
    requires '/' !in c.file1 && '/' !in c.file2 && '_' !in c.file1 && '_' !in c.file2
    requires Lacks(c.file1, ".csv") && Lacks(c.file2, ".csv")
    ensures Split(RemoveAll(SeasonCorrelator.ResultFileName(c), ".csv"), '_') == NameFields(c)
  {
    ArchivePathPieces([], 0, c);
    StemOfResultFileName(c);
    SplitJoin(NameFields(c), '_');
  }

  /** The successful path of `ParseEntryName`, one step at a time. */
  lemma ParseWellFormed(path: string, folder: string, series: string, name: string, fields: seq<string>,
                        seriesId: int, ms1: int, ms2: int)
    requires EndsWith(path, ".csv") && Split(path, '/') == [folder, series, name]
    requires Split(RemoveAll(name, ".csv"), '_') == fields && |fields| == 4
    requires ParseInt(series) == Some(seriesId)
    requires ParseInt(fields[2]) == Some(ms1) && ParseInt(fields[3]) == Some(ms2)
    ensures ParseEntryName(path) ==
      Ok(Some(EntryName(seriesId, fields[0], fields[1], ms1 as real / 1000.0, ms2 as real / 1000.0)))
  {
  }

  /** `ParseWellFormed` for a result path, with every step as its helpers state it. */
  lemma ParseArchivePath(folder: string, seriesId: int, c: SeasonCorrelator.Correlation)
    requires EndsWith(ArchivePath(folder, seriesId, c), ".csv")
    requires Split(ArchivePath(folder, seriesId, c), '/') ==
      [folder, IntToString(seriesId), SeasonCorrelator.ResultFileName(c)]
    requires Split(RemoveAll(SeasonCorrelator.ResultFileName(c), ".csv"), '_') == NameFields(c)
    requires ParseInt(IntToString(seriesId)) == Some(seriesId)
    requires ParseInt(NameFields(c)[2]) == Some(SeasonCorrelator.Millis(c.offset1Secs))
    requires ParseInt(NameFields(c)[3]) == Some(SeasonCorrelator.Millis(c.offset2Secs))
    ensures ParseEntryName(ArchivePath(folder, seriesId, c)) ==
      Ok(Some(EntryName(seriesId, NameFields(c)[0], NameFields(c)[1],
        SeasonCorrelator.Millis(c.offset1Secs) as real / 1000.0,
        SeasonCorrelator.Millis(c.offset2Secs) as real / 1000.0)))
  {
    ParseWellFormed(ArchivePath(folder, seriesId, c), folder, IntToString(seriesId),
      SeasonCorrelator.ResultFileName(c), NameFields(c), seriesId,
      SeasonCorrelator.Millis(c.offset1Secs), SeasonCorrelator.Millis(c.offset2Secs));
  }

  /** Reading back the path under which a curve was saved gives back the series, both
      names and both shifts cut to whole milliseconds, provided the names contain
      neither separator nor `.csv`. */
  lemma ArchivePathRoundTrip(folder: string, seriesId: int, c: SeasonCorrelator.Correlation)
    requires '/' !in folder && '/' !in c.file1 && '/' !in c.file2
    requires '_' !in c.file1 && '_' !in c.file2
    requires Lacks(c.file1, ".csv") && Lacks(c.file2, ".csv")
    ensures ParseEntryName(ArchivePath(folder, seriesId, c)) ==
      Ok(Some(EntryName(seriesId, c.file1, c.file2,
        SeasonCorrelator.Millis(c.offset1Secs) as real / 1000.0,
        SeasonCorrelator.Millis(c.offset2Secs) as real / 1000.0)))
  {
    var fs := NameFields(c);
    ArchivePathParts(folder, seriesId, c);
    ResultFileNameFields(c);
    IntRoundTrip(seriesId);
    assert ParseInt(fs[2]) == Some(SeasonCorrelator.Millis(c.offset1Secs)) by {
      IntRoundTrip(SeasonCorrelator.Millis(c.offset1Secs));
    }
    assert ParseInt(fs[3]) == Some(SeasonCorrelator.Millis(c.offset2Secs)) by {
      IntRoundTrip(SeasonCorrelator.Millis(c.offset2Secs));
    }
    ParseArchivePath(folder, seriesId, c);
  }

  /** Shifts are never negative, so a shift read back is at most one millisecond
      below the one that was saved. */
  lemma ArchivedShiftAccurate(secs: real)
    requires secs >= 0.0
    ensures var back := SeasonCorrelator.Millis(secs) as real / 1000.0;
      0.0 <= back <= secs < back + 0.001
  {
    SeasonCorrelator.MillisOfShift(secs);
  }

  /** One pair of episodes as `load_archive` keeps it. */
  datatype LoadedPair = LoadedPair(file1: string, file2: string, offset1: real, offset2: real, rows: seq<CsvRow>)

  function Loaded(n: EntryName, rows: seq<CsvRow>): LoadedPair {
    LoadedPair(n.file1, n.file2, n.offset1, n.offset2, rows)
  }

  /** What `load_archive` returns for the members `entries`, in archive order: the
      pairs grouped by series with `setdefault(series_id, []).append(...)`, or the
      first error. */
  function LoadedArchive(entries: seq<ArchiveEntry>): (r: Result<Dict<int, seq<LoadedPair>>, LoadError>)
    ensures r.Ok? ==> DistinctKeys(r.value)
  {
    if entries == [] then Ok([])
    else
      var e := entries[|entries| - 1];
      var d :- LoadedArchive(entries[..|entries| - 1]);
      var name :- ParseEntryName(e.path);
      match name
      case None => Ok(d)
      case Some(n) => Ok(SetDefaultAppend(d, n.seriesId, Loaded(n, e.rows)))
  }

  /** Once a prefix of the members fails, the whole archive fails with its error. */
  lemma {:induction false} LoadedArchiveStops(entries: seq<ArchiveEntry>, k: nat)
    requires k <= |entries| && LoadedArchive(entries[..k]).Err?
    ensures LoadedArchive(entries) == LoadedArchive(entries[..k])
  {
    if k < |entries| {
      var init := entries[..|entries| - 1];
      assert init[..k] == entries[..k];
      LoadedArchiveStops(init, k);
    } else {
      assert entries[..k] == entries;
    }
  }

  /** `load_archive`: the loop over the members of the archive. */
  method LoadArchive(entries: seq<ArchiveEntry>) returns (r: Result<Dict<int, seq<LoadedPair>>, LoadError>)
    ensures r == LoadedArchive(entries)
  {
    var results: Dict<int, seq<LoadedPair>> := [];
    var i := 0;
    while i < |entries|
      invariant i <= |entries|
      invariant LoadedArchive(entries[..i]) == Ok(results)
    {
      var e := entries[i];
      assert entries[..i + 1][..i] == entries[..i];
      assert entries[..i + 1][i] == e;
      var parsed := ParseEntryName(e.path);
      if parsed.Err? {
        LoadedArchiveStops(entries, i + 1);
        return Err(parsed.error);
      }
      if parsed.value.Some? {
        var n := parsed.value.value;
        results := SetDefaultAppend(results, n.seriesId, Loaded(n, e.rows));
      }
      i := i + 1;
    }
    assert entries[..i] == entries;
    r := Ok(results);
  }

  /** The pairs of series `seriesId`, in archive order. */
  function SeriesPairs(entries: seq<ArchiveEntry>, seriesId: int): seq<LoadedPair> {
    if entries == [] then []
    else
      var e := entries[|entries| - 1];
      var rest := SeriesPairs(entries[..|entries| - 1], seriesId);
      match ParseEntryName(e.path)
      case Ok(Some(n)) => if n.seriesId == seriesId then rest + [Loaded(n, e.rows)] else rest
      case _ => rest
  }

  /** A series is a key of the loaded archive exactly when some curve belongs to it,
      and its list holds exactly its curves, in archive order. */
  lemma {:induction false} LoadedArchiveGroups(entries: seq<ArchiveEntry>, seriesId: int)
    requires LoadedArchive(entries).Ok?
    ensures var pairs := SeriesPairs(entries, seriesId);
      Get(LoadedArchive(entries).value, seriesId) == if pairs == [] then None else Some(pairs)
  {
    if entries != [] {
      var init, e := entries[..|entries| - 1], entries[|entries| - 1];
      assert LoadedArchive(init).Ok?;
      LoadedArchiveGroups(init, seriesId);
      var d := LoadedArchive(init).value;
      var parsed := ParseEntryName(e.path);
      assert parsed.Ok?;
      if parsed.value.Some? {
        var n := parsed.value.value;
        var v := Loaded(n, e.rows);
        assert LoadedArchive(entries).value == SetDefaultAppend(d, n.seriesId, v);
        var prev := SeriesPairs(init, seriesId);
        if n.seriesId == seriesId {
          assert SeriesPairs(entries, seriesId) == prev + [v];
          if prev == [] {
            assert prev + [v] == [v];
          }
        } else {
          assert SeriesPairs(entries, seriesId) == prev;
        }
      } else {
        assert LoadedArchive(entries).value == d;
      }
    }
  }

  // ---------------------------------------------------------------------------
  // Cutting a curve down to the opening (`find_and_group_offsets_by_series`)

  /** `corr[:, 1]`. */
  function CurveValues(rows: seq<CsvRow>): (vs: seq<real>)
    ensures |vs| == |rows| && forall i :: 0 <= i < |rows| ==> vs[i] == rows[i].value
  {
    seq(|rows|, i requires 0 <= i < |rows| => rows[i].value)
  }

  /** `values[values < limit]`: the values below the clip limit, in order. */
  function Clipped(vs: seq<real>, limit: real): (r: seq<real>)
    ensures |r| <= |vs|
    ensures forall x :: x in r <==> x in vs && x < limit
  {
    if vs == [] then []
    else
      var init := vs[..|vs| - 1];
      assert vs == init + [vs[|vs| - 1]];
      Clipped(init, limit) + (if vs[|vs| - 1] < limit then [vs[|vs| - 1]] else [])
  }

  /** `np.max` of a non-empty list. */
  function MaxOf(s: seq<real>): (m: real)
    requires |s| > 0
    ensures m in s && forall i :: 0 <= i < |s| ==> s[i] <= m
  {
    if |s| == 1 then s[0]
    else
      var m := MaxOf(s[..|s| - 1]);
      assert forall i :: 0 <= i < |s| - 1 ==> s[..|s| - 1][i] == s[i];
      if s[|s| - 1] >= m then s[|s| - 1] else m
  }

  /** The index of the first value above `thr`, if any. */
  function FirstAbove(vs: seq<real>, thr: real): (r: Option<nat>)
    ensures r.None? <==> forall i :: 0 <= i < |vs| ==> vs[i] <= thr
    ensures r.Some? ==> r.value < |vs| && vs[r.value] > thr && forall j :: 0 <= j < r.value ==> vs[j] <= thr
  {
    if vs == [] then None
    else if vs[0] > thr then Some(0)
    else
      match FirstAbove(vs[1..], thr)
      case None => None
      case Some(k) => Some(k + 1)
  }

  /** `np.argmax(values > threshold)`, with a first index of 3 or less moved to 0. */
  function Begin(vs: seq<real>, thr: real): (b: nat)
    requires |vs| > 0
    ensures b < |vs|
  {
    match FirstAbove(vs, thr)
    case Some(k) => if k > 3 then k else 0
    case None => 0
  }

  /** A start is row 0 or the first value above the threshold, past row 3; row 0
      when no value is above it or one of the first four is. */
  predicate StartsRight(vs: seq<real>, thr: real, b: nat)
    requires b < |vs|
  {
    (b > 0 ==> b > 3 && vs[b] > thr && forall j :: 0 <= j < b ==> vs[j] <= thr) &&
    (b == 0 ==> (forall j :: 0 <= j < |vs| ==> vs[j] <= thr) ||
                exists k :: 0 <= k <= 3 && k < |vs| && vs[k] > thr)
  }

  lemma BeginFacts(vs: seq<real>, thr: real)
    requires |vs| > 0
    ensures StartsRight(vs, thr, Begin(vs, thr))
  {
    match FirstAbove(vs, thr)
    case Some(k) =>
      if k <= 3 {
        assert 0 <= k <= 3 && k < |vs| && vs[k] > thr;
      }
    case None =>
  }

  /** The scan stops at the first miss past this many. */
  const MaxMisses: nat := 30

  /** The number of values in `vs[lo..hi]` at or below `thr`. */
  function Misses(vs: seq<real>, thr: real, lo: nat, hi: nat): nat
    requires lo <= hi <= |vs|
    decreases hi - lo
  {
    if hi == lo then 0 else Misses(vs, thr, lo, hi - 1) + (if vs[hi - 1] <= thr then 1 else 0)
  }

  lemma {:induction false} MissesMonotone(vs: seq<real>, thr: real, lo: nat, a: nat, b: nat)
    requires lo <= a <= b <= |vs|
    ensures Misses(vs, thr, lo, a) <= Misses(vs, thr, lo, b)
    decreases b - a
  {
    if a < b {
      MissesMonotone(vs, thr, lo, a, b - 1);
    }
  }

  /** The loop `for i in range(begin_idx, len(corr_values))` from index `i` on, with
      the current `end_idx` and `bad_count`. */
  function ScanFrom(vs: seq<real>, thr: real, i: nat, end: nat, bad: nat): nat
    requires i <= |vs|
    decreases |vs| - i
  {
    if i == |vs| then end
    else if vs[i] > thr then ScanFrom(vs, thr, i + 1, i, bad)
    else if bad + 1 > MaxMisses then end
    else ScanFrom(vs, thr, i + 1, end, bad + 1)
  }

  /** `end_idx` once the scan from `begin` is over. */
  function SegmentEnd(vs: seq<real>, thr: real, begin: nat): nat
    requires begin <= |vs|
  {
    ScanFrom(vs, thr, begin, begin, 0)
  }

  /** A scan stopped at its 31st miss has seen no value above the threshold since
      its end, and none after can be reached within 30 misses. */
  lemma ScanStopFacts(vs: seq<real>, thr: real, begin: nat, i: nat, end: nat)
    requires begin <= end <= i < |vs| && Misses(vs, thr, begin, i + 1) > MaxMisses
    requires forall j :: end < j < i ==> vs[j] <= thr
    requires vs[i] <= thr
    ensures forall j :: end < j < |vs| && vs[j] > thr ==> Misses(vs, thr, begin, j) > MaxMisses
  {
    forall j | end < j < |vs| && vs[j] > thr ensures Misses(vs, thr, begin, j) > MaxMisses {
      MissesMonotone(vs, thr, begin, i + 1, j);
    }
  }

  /** What the scan keeps true, from any point of it to its end. */
  lemma {:induction false} ScanFromFacts(vs: seq<real>, thr: real, begin: nat, i: nat, end: nat, bad: nat)
    requires begin <= end < |vs| && begin <= i <= |vs| && end <= i
    requires bad == Misses(vs, thr, begin, i) && bad <= MaxMisses
    requires Misses(vs, thr, begin, end + 1) <= MaxMisses
    requires end == begin || vs[end] > thr
    requires forall j :: end < j < i ==> vs[j] <= thr
    ensures var e := ScanFrom(vs, thr, i, end, bad);
      begin <= e < |vs| && (e == begin || vs[e] > thr) &&
      Misses(vs, thr, begin, e + 1) <= MaxMisses &&
      forall j :: e < j < |vs| && vs[j] > thr ==> Misses(vs, thr, begin, j) > MaxMisses
    decreases |vs| - i
  {
    if i < |vs| {
      if vs[i] > thr {
        assert Misses(vs, thr, begin, i + 1) == bad;
        ScanFromFacts(vs, thr, begin, i + 1, i, bad);
      } else if bad + 1 > MaxMisses {
        ScanStopFacts(vs, thr, begin, i, end);
      } else {
        assert Misses(vs, thr, begin, i + 1) == bad + 1;
        ScanFromFacts(vs, thr, begin, i + 1, end, bad + 1);
      }
    }
  }

  /** An end is the start or a value above the threshold, reached with at most 30
      misses, and any later value above the threshold lies past the 31st miss. */
  predicate EndsRight(vs: seq<real>, thr: real, begin: nat, e: nat)
    requires begin <= e < |vs|
  {
    (e == begin || vs[e] > thr) &&
    Misses(vs, thr, begin, e + 1) <= MaxMisses &&
    forall j :: e < j < |vs| && vs[j] > thr ==> Misses(vs, thr, begin, j) > MaxMisses
  }

  lemma SegmentEndFacts(vs: seq<real>, thr: real, begin: nat)
    requires begin < |vs|
    ensures var e := SegmentEnd(vs, thr, begin); begin <= e < |vs| && EndsRight(vs, thr, begin, e)
  {
    assert Misses(vs, thr, begin, begin + 1) <= 1;
    ScanFromFacts(vs, thr, begin, begin, begin, 0);
  }

  /** The scan loop of `find_and_group_offsets_by_series`. */
  method ScanEnd(vs: seq<real>, thr: real, begin: nat) returns (end: nat)
    requires begin < |vs|
    ensures end == SegmentEnd(vs, thr, begin)
  {
    end := begin;
    var bad := 0;
    var i := begin;
    while i < |vs|
      invariant begin <= i <= |vs|
      invariant ScanFrom(vs, thr, i, end, bad) == SegmentEnd(vs, thr, begin)
    {
      if vs[i] > thr {
        end := i;
      } else {
        bad := bad + 1;
        if bad > MaxMisses {
          break;
        }
      }
      i := i + 1;
    }
  }

  /** The stretch of a curve taken as the shared opening: row indices `begin` and
      `end`, both included. */
  datatype Segment = Segment(begin: nat, end: nat)

  /** Half the largest clipped value. */
  function Threshold(clipped: seq<real>): real
    requires |clipped| > 0
  {
    MaxOf(clipped) / 2.0
  }

  /** The decision for one curve given its values and clip limit: none when the
      clipped values are empty or their mean is below twice their median, else the
      stretch from the first value above the threshold (or row 0) to the end of the
      scan. */
  function FindSegment(vs: seq<real>, limit: real): (r: Option<Segment>)
    ensures var clipped := Clipped(vs, limit);
      r.None? <==> |clipped| == 0 || Mean(clipped) < Median(clipped) * 2.0
    ensures r.Some? ==> r.value.begin <= r.value.end < |vs|
  {
    var clipped := Clipped(vs, limit);
    if NanMean(clipped).LessThan(NanMedian(clipped).Scale(2.0)) then None
    else if |clipped| == 0 then None
    else
      var thr := Threshold(clipped);
      var b := Begin(vs, thr);
      SegmentEndFacts(vs, thr, b);
      Some(Segment(b, SegmentEnd(vs, thr, b)))
  }

  /** What a found stretch satisfies: it starts and ends as the scan demands,
      measured against half the largest clipped value. */
  lemma FindSegmentFacts(vs: seq<real>, limit: real)
    requires FindSegment(vs, limit).Some?
    ensures var clipped := Clipped(vs, limit);
      var s := FindSegment(vs, limit).value;
      |clipped| > 0 && s.begin <= s.end < |vs| &&
      StartsRight(vs, Threshold(clipped), s.begin) && EndsRight(vs, Threshold(clipped), s.begin, s.end)
  {
    var clipped := Clipped(vs, limit);
    var thr := Threshold(clipped);
    var b := Begin(vs, thr);
    assert FindSegment(vs, limit).value == Segment(b, SegmentEnd(vs, thr, b));
    BeginFacts(vs, thr);
    SegmentEndFacts(vs, thr, b);
  }

  /** `len(corr_values)` of a loaded curve with fewer than two rows fails: `np.loadtxt`
      gives a flat array for them, which `corr[:, 1]` cannot index. */
  datatype GroupError = NotATable(file1: string, file2: string)

  /** The stretch of one pair in seconds: `corr[begin_idx, 0] / RATE` and
      `corr[end_idx, 0] / RATE`, or none. */
  function PairSpan(p: LoadedPair, rate: nat, clipLimit: seq<real> -> real): (r: Result<Option<Span>, GroupError>)
    requires rate > 0
    ensures r.Err? <==> |p.rows| < 2
    ensures r.Ok? && r.value.Some? ==>
      (exists b, e :: 0 <= b <= e < |p.rows| &&
        r.value.value == (p.rows[b].offset / rate as real, p.rows[e].offset / rate as real))
  {
    if |p.rows| < 2 then Err(NotATable(p.file1, p.file2))
    else
      var vs := CurveValues(p.rows);
      match FindSegment(vs, clipLimit(vs))
      case None => Ok(None)
      case Some(s) => Ok(Some((p.rows[s.begin].offset / rate as real, p.rows[s.end].offset / rate as real)))
  }

  lemma DivideMonotone(a: real, b: real, d: real)
    requires a <= b && d > 0.0
    ensures a / d <= b / d
  {
    assert b / d - a / d == (b - a) / d;
  }

  /** With the row offsets in ascending order, a found stretch never ends before it
      starts. */
  lemma PairSpanOrdered(p: LoadedPair, rate: nat, clipLimit: seq<real> -> real)
    requires rate > 0
    requires forall i, j :: 0 <= i <= j < |p.rows| ==> p.rows[i].offset <= p.rows[j].offset
    requires PairSpan(p, rate, clipLimit).Ok? && PairSpan(p, rate, clipLimit).value.Some?
    ensures var span := PairSpan(p, rate, clipLimit).value.value; span.0 <= span.1
  {
    var b, e :| 0 <= b <= e < |p.rows| &&
      PairSpan(p, rate, clipLimit).value.value == (p.rows[b].offset / rate as real, p.rows[e].offset / rate as real);
    DivideMonotone(p.rows[b].offset, p.rows[e].offset, rate as real);
  }

  /** Two appends under two different files. */
  lemma AppendTwo(d: Dict<string, seq<Span>>, f1: string, c1: Span, f2: string, c2: Span)
    requires DistinctKeys(d) && f1 != f2
    ensures var r := SetDefaultAppend(SetDefaultAppend(d, f1, c1), f2, c2);
      Get(r, f1) == Some(ListOf(d, f1) + [c1]) && Get(r, f2) == Some(ListOf(d, f2) + [c2])
  {
    if Get(d, f1).None? {
      assert [] + [c1] == [c1];
    }
    if Get(d, f2).None? {
      assert [] + [c2] == [c2];
    }
  }

  /** Two appends under the same file. */
  lemma AppendTwice(d: Dict<string, seq<Span>>, f: string, c1: Span, c2: Span)
    requires DistinctKeys(d)
    ensures Get(SetDefaultAppend(SetDefaultAppend(d, f, c1), f, c2), f) == Some(ListOf(d, f) + [c1] + [c2])
  {
    if Get(d, f).None? {
      assert [] + [c1] == [c1];
    }
  }

  /** A stretch of the clip moved by `by` seconds onto a track's own time line. */
  function Shift(span: Span, amount: real): Span {
    (amount + span.0, amount + span.1)
  }

  /** The stretches recording `span` for pair `p` adds under `file`: the one shifted
      by `offset1` when `file` is its first file, then the one shifted by `offset2`
      when `file` is its second. */
  function Sides(p: LoadedPair, span: Span, file: string): seq<Span> {
    (if p.file1 == file then [Shift(span, p.offset1)] else [])
    + (if p.file2 == file then [Shift(span, p.offset2)] else [])
  }

  /** The two appends seen from one file: its list grows by its sides, at its end. */
  lemma AppendSidesAt(offsets: Dict<string, seq<Span>>, p: LoadedPair, span: Span, f: string)
    requires DistinctKeys(offsets)
    ensures ListOf(SetDefaultAppend(SetDefaultAppend(offsets, p.file1, Shift(span, p.offset1)), p.file2, Shift(span, p.offset2)), f)
            == ListOf(offsets, f) + Sides(p, span, f)
  {
    ListOfAppendTwo(offsets, p.file1, Shift(span, p.offset1), p.file2, Shift(span, p.offset2), f);
  }

  /** A file gets a side exactly when it is one of the pair's two. */
  lemma SidesEmpty(p: LoadedPair, span: Span, f: string)
    ensures Sides(p, span, f) == [] <==> f != p.file1 && f != p.file2
  {
    if f == p.file1 {
      assert Sides(p, span, f)[0] == Shift(span, p.offset1);
    } else if f == p.file2 {
      assert Sides(p, span, f)[0] == Shift(span, p.offset2);
    }
  }

  /** The same for every file at once; a file is listed afterwards iff it was
      before or is one of the pair's two. */
  lemma AppendSides(offsets: Dict<string, seq<Span>>, p: LoadedPair, span: Span)
    requires DistinctKeys(offsets)
    ensures var r := SetDefaultAppend(SetDefaultAppend(offsets, p.file1, Shift(span, p.offset1)), p.file2, Shift(span, p.offset2));
            && (forall f :: ListOf(r, f) == ListOf(offsets, f) + Sides(p, span, f))
            && (forall f :: Get(r, f).None? <==> Get(offsets, f).None? && f != p.file1 && f != p.file2)
  {
    var r := SetDefaultAppend(SetDefaultAppend(offsets, p.file1, Shift(span, p.offset1)), p.file2, Shift(span, p.offset2));
    forall f ensures ListOf(r, f) == ListOf(offsets, f) + Sides(p, span, f) {
      AppendSidesAt(offsets, p, span, f);
    }
    forall f ensures Get(r, f).None? <==> Get(offsets, f).None? && f != p.file1 && f != p.file2 {
      ListOfAppendTwo(offsets, p.file1, Shift(span, p.offset1), p.file2, Shift(span, p.offset2), f);
    }
  }

  /** `offsets.setdefault(file1, []).append(...)` and the same for `file2`: a found
      stretch shifted by `offset1` is added under `file1` and the same stretch shifted
      by `offset2` under `file2`; a pair of a file with itself gets both under that
      file, the first one first. */
  function Record(offsets: Dict<string, seq<Span>>, p: LoadedPair, span: Span): (r: Dict<string, seq<Span>>)
    requires DistinctKeys(offsets)
    ensures DistinctKeys(r)
    ensures p.file1 != p.file2 ==>
      Get(r, p.file1) == Some(ListOf(offsets, p.file1) + [Shift(span, p.offset1)]) &&
      Get(r, p.file2) == Some(ListOf(offsets, p.file2) + [Shift(span, p.offset2)])
    ensures p.file1 == p.file2 ==>
      Get(r, p.file1) == Some(ListOf(offsets, p.file1) +
        [Shift(span, p.offset1)] + [Shift(span, p.offset2)])
    ensures forall f :: ListOf(r, f) == ListOf(offsets, f) + Sides(p, span, f)
    ensures forall f :: Get(r, f).None? <==> Get(offsets, f).None? && f != p.file1 && f != p.file2
  {
    var c1, c2 := Shift(span, p.offset1), Shift(span, p.offset2);
    AppendSides(offsets, p, span);
    if p.file1 != p.file2 then
      AppendTwo(offsets, p.file1, c1, p.file2, c2);
      SetDefaultAppend(SetDefaultAppend(offsets, p.file1, c1), p.file2, c2)
    else
      AppendTwice(offsets, p.file1, c1, c2);
      SetDefaultAppend(SetDefaultAppend(offsets, p.file1, c1), p.file2, c2)
  }

  /** Recording a stretch touches no file other than the pair's two. */
  lemma RecordOthers(offsets: Dict<string, seq<Span>>, p: LoadedPair, span: Span, f: string)
    requires DistinctKeys(offsets) && f != p.file1 && f != p.file2
    ensures Get(Record(offsets, p, span), f) == Get(offsets, f)
  {
  }

  /** The loop body of `find_and_group_offsets_by_series`: a pair without a found
      stretch changes nothing, one with a stretch has it recorded. */
  function AddPair(offsets: Dict<string, seq<Span>>, p: LoadedPair, rate: nat, clipLimit: seq<real> -> real)
    : (r: Result<Dict<string, seq<Span>>, GroupError>)
    requires DistinctKeys(offsets) && rate > 0
    ensures r.Ok? ==> DistinctKeys(r.value)
  {
    var span :- PairSpan(p, rate, clipLimit);
    match span
    case None => Ok(offsets)
    case Some(s) => Ok(Record(offsets, p, s))
  }

  /** What `find_and_group_offsets_by_series` returns for the pairs `data`: every
      found stretch recorded in order, or the first error. */
  function GroupedOffsets(data: seq<LoadedPair>, rate: nat, clipLimit: seq<real> -> real)
    : (r: Result<Dict<string, seq<Span>>, GroupError>)
    requires rate > 0
    ensures r.Ok? ==> DistinctKeys(r.value)
  {
    if data == [] then Ok([])
    else
      var offsets :- GroupedOffsets(data[..|data| - 1], rate, clipLimit);
      AddPair(offsets, data[|data| - 1], rate, clipLimit)
  }

  lemma {:induction false} GroupedOffsetsStops(data: seq<LoadedPair>, k: nat, rate: nat, clipLimit: seq<real> -> real)
    requires rate > 0 && k <= |data| && GroupedOffsets(data[..k], rate, clipLimit).Err?
    ensures GroupedOffsets(data, rate, clipLimit) == GroupedOffsets(data[..k], rate, clipLimit)
  {
    if k < |data| {
      var init := data[..|data| - 1];
      assert init[..k] == data[..k];
      GroupedOffsetsStops(init, k, rate, clipLimit);
    } else {
      assert data[..k] == data;
    }
  }

  /** The stretches one pair records under `file`: none when no stretch is found. */
  function PairSpans(p: LoadedPair, file: string, rate: nat, clipLimit: seq<real> -> real): seq<Span>
    requires rate > 0
  {
    match PairSpan(p, rate, clipLimit)
    case Ok(Some(s)) => Sides(p, s, file)
    case _ => []
  }

  /** The stretches all the pairs of `data` record under `file`, in pair order. */
  function SpansFor(data: seq<LoadedPair>, file: string, rate: nat, clipLimit: seq<real> -> real): seq<Span>
    requires rate > 0
  {
    if data == [] then []
    else SpansFor(data[..|data| - 1], file, rate, clipLimit) + PairSpans(data[|data| - 1], file, rate, clipLimit)
  }

  /** One pass of the loop adds the pair's stretches for `file` at the end of its
      list, and lists `file` from then on if it records any. */
  lemma AddPairContents(offsets: Dict<string, seq<Span>>, p: LoadedPair, rate: nat, clipLimit: seq<real> -> real,
                        file: string)
    requires DistinctKeys(offsets) && rate > 0 && AddPair(offsets, p, rate, clipLimit).Ok?
    ensures var r := AddPair(offsets, p, rate, clipLimit).value;
            && ListOf(r, file) == ListOf(offsets, file) + PairSpans(p, file, rate, clipLimit)
            && (Get(r, file).None? <==> Get(offsets, file).None? && PairSpans(p, file, rate, clipLimit) == [])
  {
    var span := PairSpan(p, rate, clipLimit);
    if span.value.None? {
      assert ListOf(offsets, file) + [] == ListOf(offsets, file);
    } else {
      SidesEmpty(p, span.value.value, file);
    }
  }

  /** The grouped dictionary lists a file exactly when some pair records a stretch
      for it, and then holds exactly the stretches recorded for it, in pair order. */
  lemma {:induction false} GroupedOffsetsContents(data: seq<LoadedPair>, rate: nat, clipLimit: seq<real> -> real,
                                                  file: string)
    requires rate > 0 && GroupedOffsets(data, rate, clipLimit).Ok?
    ensures var spans := SpansFor(data, file, rate, clipLimit);
            Get(GroupedOffsets(data, rate, clipLimit).value, file) == if spans == [] then None else Some(spans)
  {
    if data != [] {
      var init := data[..|data| - 1];
      GroupedOffsetsContents(init, rate, clipLimit, file);
      AddPairContents(GroupedOffsets(init, rate, clipLimit).value, data[|data| - 1], rate, clipLimit, file);
    }
  }

  /** The search for the stretch of one pair. */
  method FindSpan(p: LoadedPair, rate: nat, clipLimit: seq<real> -> real) returns (r: Result<Option<Span>, GroupError>)
    requires rate > 0
    ensures r == PairSpan(p, rate, clipLimit)
  {
    if |p.rows| < 2 {
      return Err(NotATable(p.file1, p.file2));
    }
    var vs := CurveValues(p.rows);
    var clipped := Clipped(vs, clipLimit(vs));
    if NanMean(clipped).LessThan(NanMedian(clipped).Scale(2.0)) || |clipped| == 0 {
      return Ok(None);
    }
    var thr := Threshold(clipped);
    var b := Begin(vs, thr);
    var e := ScanEnd(vs, thr, b);
    assert FindSegment(vs, clipLimit(vs)) == Some(Segment(b, e));
    r := Ok(Some((p.rows[b].offset / rate as real, p.rows[e].offset / rate as real)));
  }

  /** One pass of the loop of `find_and_group_offsets_by_series`. */
  method GroupPair(offsets: Dict<string, seq<Span>>, p: LoadedPair, rate: nat, clipLimit: seq<real> -> real)
    returns (r: Result<Dict<string, seq<Span>>, GroupError>)
    requires DistinctKeys(offsets) && rate > 0
    ensures r == AddPair(offsets, p, rate, clipLimit)
  {
    var span := FindSpan(p, rate, clipLimit);
    if span.Err? {
      return Err(span.error);
    }
    if span.value.None? {
      return Ok(offsets);
    }
    r := Ok(Record(offsets, p, span.value.value));
  }

  /** `find_and_group_offsets_by_series`. */
  method FindAndGroup(data: seq<LoadedPair>, rate: nat, clipLimit: seq<real> -> real)
    returns (r: Result<Dict<string, seq<Span>>, GroupError>)
    requires rate > 0
    ensures r == GroupedOffsets(data, rate, clipLimit)
  {
    var offsets: Dict<string, seq<Span>> := [];
    var i := 0;
    while i < |data|
      invariant i <= |data|
      invariant GroupedOffsets(data[..i], rate, clipLimit) == Ok(offsets)
    {
      assert data[..i + 1][..i] == data[..i];
      var step := GroupPair(offsets, data[i], rate, clipLimit);
      if step.Err? {
        GroupedOffsetsStops(data, i + 1, rate, clipLimit);
        return step;
      }
      offsets := step.value;
      i := i + 1;
    }
    assert data[..i] == data;
    r := Ok(offsets);
  }

  // ---------------------------------------------------------------------------
  // Openings that run into the end of the audio (`fix_offsets`)

  /** An opening ending later than this many seconds (`5 * 60 + 30`) is taken to run
      into the end of the compared audio. */
  const EdgeSeconds: real := 330.0

  /** `end_offset - start_offset` of every file. */
  function Lengths(t: Dict<string, (Num, Num)>): (ls: seq<Num>)
    ensures |ls| == |t| && forall i :: 0 <= i < |t| ==> ls[i] == t[i].1.1.Sub(t[i].1.0)
  {
    seq(|t|, i requires 0 <= i < |t| => t[i].1.1.Sub(t[i].1.0))
  }

  function FiniteValues(xs: seq<Num>): (vs: seq<real>)
    requires forall i :: 0 <= i < |xs| ==> xs[i].Finite?
    ensures |vs| == |xs| && forall i :: 0 <= i < |xs| ==> vs[i] == xs[i].v
  {
    seq(|xs|, i requires 0 <= i < |xs| && xs[i].Finite? => xs[i].v)
  }

  /** `np.mean` of floats that may be NaN: NaN for an empty list or one holding NaN. */
  function NumMean(xs: seq<Num>): (m: Num)
    ensures m.Finite? <==> |xs| > 0 && forall i :: 0 <= i < |xs| ==> xs[i].Finite?
  {
    if |xs| > 0 && forall i :: 0 <= i < |xs| ==> xs[i].Finite? then Finite(Mean(FiniteValues(xs))) else NaN
  }

  /** `fix_offsets`: every file keeps its place and its start; an end past the edge is
      replaced so that the opening gets the average length of all files, on-edge
      ones included; every other end is kept. */
  function FixOffsets(t: Dict<string, (Num, Num)>): (r: Dict<string, (Num, Num)>)
    ensures Keys(r) == Keys(t)
    ensures forall i :: 0 <= i < |r| ==> r[i].1.0 == t[i].1.0
    ensures forall i :: 0 <= i < |r| && !t[i].1.1.GreaterThan(EdgeSeconds) ==> r[i].1.1 == t[i].1.1
    ensures forall i :: 0 <= i < |r| && t[i].1.1.GreaterThan(EdgeSeconds) && t[i].1.0.Finite? ==>
      r[i].1.1.Sub(r[i].1.0) == NumMean(Lengths(t))
    ensures forall i :: 0 <= i < |r| && t[i].1.1.GreaterThan(EdgeSeconds) && t[i].1.0.NaN? ==> r[i].1.1.NaN?
  {
    var average := NumMean(Lengths(t));
    seq(|t|, i requires 0 <= i < |t| =>
      (t[i].0, (t[i].1.0, if t[i].1.1.GreaterThan(EdgeSeconds) then t[i].1.0.Add(average) else t[i].1.1)))
  }

  /** Without an opening past the edge, nothing is fixed. */
  lemma FixOffsetsNoEdge(t: Dict<string, (Num, Num)>)
    requires forall i :: 0 <= i < |t| ==> !t[i].1.1.GreaterThan(EdgeSeconds)
    ensures FixOffsets(t) == t
  {
    var r := FixOffsets(t);
    forall i | 0 <= i < |t| ensures r[i] == t[i] {
      assert Keys(r)[i] == Keys(t)[i];
    }
  }
}
