/** s5_google_sheets.js: the report that turns the pipeline's sheets into the results
    sheet. Titles are taken in order of id; a title that was not processed gives one
    summary row (or none), a processed title one row per episode number from its
    first to its last episode, with the opening span, its length, and how far that
    length lies from the title's median length. */
module Report {
  import opened Common
  import opened Text
  import opened Stats

  // ---------------------------------------------------------------------------
  // JavaScript values

  /** A cell read from a sheet or a value the script computes: `undefined`, a number
      (possibly NaN), a string or a boolean. An empty cell reads as `""`. */
  datatype JsValue = Undefined | Number(n: Num) | Str(s: string) | Bool(b: bool)

  function Int(i: int): JsValue { Number(Finite(i as real)) }

  /** `!!v`: `undefined`, `0`, NaN, `""` and `false` are the falsy values. */
  predicate Truthy(v: JsValue) {
    match v
    case Undefined => false
    case Number(n) => n.Finite? && n.v != 0.0
    case Str(s) => s != ""
    case Bool(b) => b
  }

  /** `Number.isInteger(v)`. */
  predicate IsInteger(v: JsValue) {
    v.Number? && v.n.Finite? && v.n.v == v.n.v.Floor as real
  }

  /** The number a value becomes under `-` and `/`: `undefined` is NaN, `""` is 0 and
      a boolean is 0 or 1. Any non-empty string becomes NaN here. */
  function ToNumber(v: JsValue): (x: Num)
    ensures v.Number? ==> x == v.n
    ensures v.Undefined? ==> x.NaN?
  {
    match v
    case Undefined => NaN
    case Number(n) => n
    case Str(s) => if s == "" then Finite(0.0) else NaN
    case Bool(b) => Finite(if b then 1.0 else 0.0)
  }

  /** `Math.abs(x)`. */
  function AbsNum(x: Num): (r: Num)
    ensures r.Finite? <==> x.Finite?
    ensures r.Finite? ==> r.v >= 0.0 && (r.v == x.v || r.v == -x.v)
  {
    if x.NaN? then NaN else if x.v < 0.0 then Finite(-x.v) else x
  }

  // ---------------------------------------------------------------------------
  // The sheets

  /** A row of `series`, read with the columns `id,name,status`. */
  datatype Title = Title(id: int, name: JsValue, status: JsValue)

  datatype Episode = Episode(seriesId: int, episode: int)

  datatype ExtractError = ExtractError(seriesId: int, episode: int, code: string)

  datatype Offset = Offset(seriesId: int, episode: int, begin: JsValue, end: JsValue)

  /** A row of `overrides`: a hand-made correction of a title or of one episode; the
      cells left empty read as `""`. */
  datatype Override = Override(seriesId: int, titleStatus: JsValue, episode: JsValue,
                               epStatus: JsValue, begin: JsValue, end: JsValue)

  datatype Sheets = Sheets(series: seq<Title>, episodes: seq<Episode>, errors: seq<ExtractError>,
                           offsets: seq<Offset>, overrides: seq<Override>)

  /** `title[column]` of an object built by `read_values` from `id,name,status`. */
  function TitleField(t: Title, column: string): (v: JsValue)
    ensures column != "id" && column != "name" && column != "status" ==> v == Undefined
  {
    if column == "id" then Int(t.id)
    else if column == "name" then t.name
    else if column == "status" then t.status
    else Undefined
  }

  function TitleId(t: Title): int { t.id }

  /** What `doit` throws. */
  datatype ReportError =
    | StrangeStatus(status: JsValue) // `Strange status: ${title.status}`
    | NoEpisodes(titleId: int)       // `Title has no episodes`

  // ---------------------------------------------------------------------------
  // Array helpers

  /** `s.filter(p)`. */
  function Filter<T(!new)>(s: seq<T>, p: T -> bool): (r: seq<T>)
    ensures |r| <= |s|
    ensures forall x :: x in r <==> x in s && p(x)
  {
    if s == [] then []
    else (if p(s[0]) then [s[0]] else []) + Filter(s[1..], p)
  }

  /** `s.find(p)`: the first element satisfying `p`, `undefined` when none does. */
  function Find<T(==)>(s: seq<T>, p: T -> bool): (r: Option<T>)
    ensures r.None? <==> forall i :: 0 <= i < |s| ==> !p(s[i])
    ensures r.Some? ==> exists i :: 0 <= i < |s| && s[i] == r.value && p(s[i]) &&
                                    forall j :: 0 <= j < i ==> !p(s[j])
  {
    if s == [] then None
    else if p(s[0]) then Some(s[0])
    else
      assert forall i :: 1 <= i < |s| ==> s[1..][i - 1] == s[i];
      var r := Find(s[1..], p);
      if r.Some? then
        var i :| 0 <= i < |s[1..]| && s[1..][i] == r.value && p(s[1..][i]) &&
                 forall j :: 0 <= j < i ==> !p(s[1..][j]);
        assert s[i + 1] == r.value;
        r
      else r
  }

  /** `Math.min(...s)`. */
  function MinOf(s: seq<int>): (m: int)
    requires s != []
    ensures m in s && forall x :: x in s ==> m <= x
  {
    if |s| == 1 then s[0]
    else
      var m := MinOf(s[1..]);
      assert forall x :: x in s ==> x == s[0] || x in s[1..];
      if s[0] <= m then s[0] else m
  }

  /** `Math.max(...s)`. */
  function MaxOf(s: seq<int>): (m: int)
    requires s != []
    ensures m in s && forall x :: x in s ==> x <= m
  {
    if |s| == 1 then s[0]
    else
      var m := MaxOf(s[1..]);
      assert forall x :: x in s ==> x == s[0] || x in s[1..];
      if s[0] >= m then s[0] else m
  }

  // ---------------------------------------------------------------------------
  // One title's data

  /** The rows of each sheet that belong to one title, in sheet order; for `episodes`
      only the episode numbers. */
  datatype TitleData = TitleData(overrides: seq<Override>, errors: seq<ExtractError>,
                                 offsets: seq<Offset>, episodes: seq<int>)

  function EpisodeNumbers(eps: seq<Episode>): (r: seq<int>)
    ensures |r| == |eps|
    ensures forall k :: 0 <= k < |eps| ==> r[k] == eps[k].episode
  {
    seq(|eps|, k requires 0 <= k < |eps| => eps[k].episode)
  }

  /** The four `filter` calls of `doit` for the title with this id. */
  function Gather(s: Sheets, id: int): (d: TitleData)
    ensures forall o :: o in d.overrides <==> o in s.overrides && o.seriesId == id
    ensures forall e :: e in d.errors <==> e in s.errors && e.seriesId == id
    ensures forall o :: o in d.offsets <==> o in s.offsets && o.seriesId == id
    ensures forall n :: n in d.episodes <==> Episode(id, n) in s.episodes
  {
    var eps := Filter(s.episodes, (e: Episode) => e.seriesId == id);
    var numbers := EpisodeNumbers(eps);
    assert forall n :: n in numbers <==> Episode(id, n) in eps by {
      forall n ensures n in numbers <==> Episode(id, n) in eps {
        if n in numbers {
          var k :| 0 <= k < |numbers| && numbers[k] == n;
          assert eps[k] in eps;
        }
        if Episode(id, n) in eps {
          var k :| 0 <= k < |eps| && eps[k] == Episode(id, n);
          assert numbers[k] == n;
        }
      }
    }
    TitleData(Filter(s.overrides, (o: Override) => o.seriesId == id),
              Filter(s.errors, (e: ExtractError) => e.seriesId == id),
              Filter(s.offsets, (o: Offset) => o.seriesId == id),
              numbers)
  }

  /** Lines 17-20: a title with exactly one override row would take that row's title
      status, but the guard reads `title.title_status`, a column the title object
      never has, so the status is always the sheet's own. */
  function EffectiveStatus(t: Title, overrides: seq<Override>): (status: JsValue)
    ensures status == t.status
  {
    if |overrides| == 1 && Truthy(TitleField(t, "title_status")) then overrides[0].titleStatus
    else t.status
  }

  // ---------------------------------------------------------------------------
  // One episode

  /** `title_overrides.find(row => row.episode === episode)`. */
  function OverrideOf(d: TitleData, e: int): Option<Override> {
    Find(d.overrides, (o: Override) => o.episode == Int(e))
  }

  /** `title_offsets.find(offset => offset.episode === episode)`. */
  function OffsetOf(d: TitleData, e: int): Option<Offset> {
    Find(d.offsets, (o: Offset) => o.episode == e)
  }

  /** `title_errors.find(err => err.episode === episode && err.code === code)` is found. */
  predicate HasError(d: TitleData, e: int, code: string) {
    Find(d.errors, (err: ExtractError) => err.episode == e && err.code == code).Some?
  }

  /** `Number.isInteger(override?.begin)`. */
  predicate MarkedManually(ov: Option<Override>) {
    ov.Some? && IsInteger(ov.value.begin)
  }

  /** `override?.ep_status` is truthy. */
  predicate HasStatusOverride(ov: Option<Override>) {
    ov.Some? && Truthy(ov.value.epStatus)
  }

  datatype EpisodeStatus =
    | Overridden(cell: JsValue)
    | Manual
    | DownloadError
    | TooShort
    | FfmpegErrors
    | OpeningFound
    | OpeningNotFound

  /** The `status` cell of each outcome. */
  function StatusCell(st: EpisodeStatus): JsValue {
    match st
    case Overridden(cell) => cell
    case Manual => Str("episode_marked_manually")
    case DownloadError => Str("episode_download_error")
    case TooShort => Str("episode_is_too_short")
    case FfmpegErrors => Str("ffmpeg_thrown_errors")
    case OpeningFound => Str("opening_found")
    case OpeningNotFound => Str("opening_not_found")
  }

  /** The chain of conditionals that decides `ep_status`. */
  function Status(d: TitleData, e: int): EpisodeStatus {
    var ov := OverrideOf(d, e);
    if HasStatusOverride(ov) then Overridden(ov.value.epStatus)
    else if MarkedManually(ov) then Manual
    else if e !in d.episodes then DownloadError
    else if HasError(d, e, "TooShort") then TooShort
    else if HasError(d, e, "Errors") then FfmpegErrors
    else if OffsetOf(d, e).Some? then OpeningFound
    else OpeningNotFound
  }

  datatype Side = Begin | End

  /** `op_begin` (line 80) and `op_end` (line 81): a `-1` in the override blanks the
      value; otherwise a manually marked episode takes the override's value and any
      other the computed offset's, `undefined` when there is none. */
  function OpValue(ov: Option<Override>, off: Option<Offset>, side: Side): JsValue {
    var overridden := if ov.None? then Undefined else if side == Begin then ov.value.begin else ov.value.end;
    if overridden == Int(-1) then Undefined
    else if MarkedManually(ov) then overridden
    else if off.None? then Undefined
    else if side == Begin then off.value.begin
    else off.value.end
  }

  /** `${Math.trunc(x / 60)}:${Math.trunc(x % 60)}`, with JavaScript's `%` keeping the
      sign of `x`. */
  function MinSec(x: Num): string {
    if x.NaN? then "NaN:NaN"
    else
      var mins := Trunc(x.v / 60.0);
      IntToString(mins) + ":" + IntToString(Trunc(x.v - 60.0 * mins as real))
  }

  /** `length >= 80 && length <= 110`, false for NaN. */
  predicate InWindow(length: Num) {
    length.Finite? && 80.0 <= length.v <= 110.0
  }

  /** One row of the results sheet, its thirteen columns by name. */
  datatype Row = Row(titleId: JsValue, titleName: JsValue, episode: JsValue, status: JsValue,
                     begin: JsValue, end: JsValue, inMins: JsValue, found: JsValue,
                     length: JsValue, inWindow: JsValue,
                     medianLength: JsValue, diffFromMedian: JsValue, diffLarge: JsValue)

  const Header: Row := Row(Str("title_id"), Str("title_name"), Str("episode"), Str("status"),
                           Str("op_begin_secs"), Str("op_end_secs"), Str("in_mins"), Str("found"),
                           Str("length"), Str("is_length_in_window"),
                           Str("median_length"), Str("diff_from_median"), Str("is_diff_large"))

  /** The one row standing for a whole title, every other column `""`. */
  function SummaryRow(t: Title, status: string): Row {
    Row(Int(t.id), t.name, Str(""), Str(status), Str(""), Str(""), Str(""), Str(""),
        Str(""), Str(""), Str(""), Str(""), Str(""))
  }

  /** Lines 83-92: `in_mins`, `found`, `length` and `is_length_in_window` of a span. */
  function Derived(b: JsValue, en: JsValue): (JsValue, JsValue, JsValue, JsValue) {
    var found := Truthy(b) || Truthy(en);
    var length := ToNumber(en).Sub(ToNumber(b));
    if found then
      (Str(MinSec(ToNumber(b)) + " - " + MinSec(ToNumber(en))), Bool(true), Number(length), Bool(InWindow(length)))
    else (Undefined, Bool(false), Undefined, Undefined)
  }

  /** The row pushed for episode `e` before the median is known (lines 61-101). */
  function EpisodeRow(t: Title, d: TitleData, e: int): (row: Row)
    ensures row.titleId == Int(t.id) && row.episode == Int(e)
    ensures row.medianLength == Undefined && row.diffFromMedian == Undefined && row.diffLarge == Undefined
  {
    var ov := OverrideOf(d, e);
    var off := OffsetOf(d, e);
    var b := OpValue(ov, off, Begin);
    var en := OpValue(ov, off, End);
    var (inMins, found, length, inWindow) := Derived(b, en);
    Row(Int(t.id), t.name, Int(e), StatusCell(Status(d, e)), b, en, inMins, found, length, inWindow,
        Undefined, Undefined, Undefined)
  }

  /** `Gather` and `EpisodeRow` agree on how an episode is decided: the chain of
      lines 66-78 in terms of the sheets' rows. */
  lemma StatusConditions(d: TitleData, e: int)
    ensures var ov := OverrideOf(d, e);
      (Status(d, e).Overridden? <==> HasStatusOverride(ov)) &&
      (Status(d, e) == Manual <==> !HasStatusOverride(ov) && MarkedManually(ov)) &&
      (Status(d, e) == DownloadError <==> !HasStatusOverride(ov) && !MarkedManually(ov) && e !in d.episodes)
    ensures var ov := OverrideOf(d, e);
      var pending := !HasStatusOverride(ov) && !MarkedManually(ov) && e in d.episodes;
      var tooShort := exists i :: 0 <= i < |d.errors| && d.errors[i].episode == e && d.errors[i].code == "TooShort";
      var failed := exists i :: 0 <= i < |d.errors| && d.errors[i].episode == e && d.errors[i].code == "Errors";
      var offset := exists i :: 0 <= i < |d.offsets| && d.offsets[i].episode == e;
      (Status(d, e) == TooShort <==> pending && tooShort) &&
      (Status(d, e) == FfmpegErrors <==> pending && !tooShort && failed) &&
      (Status(d, e) == OpeningFound <==> pending && !tooShort && !failed && offset) &&
      (Status(d, e) == OpeningNotFound <==> pending && !tooShort && !failed && !offset)
  {
  }

  /** Line 80-81: the computed offset plays no part once the episode is marked
      manually. */
  lemma ManualOverridesOffsets(ov: Option<Override>, off: Option<Offset>, off': Option<Offset>, side: Side)
    requires MarkedManually(ov)
    ensures OpValue(ov, off, side) == OpValue(ov, off', side)
  {
  }

  /** A `-1` in the override blanks that end of the span, whatever else is known. */
  lemma MinusOneBlanks(ov: Option<Override>, off: Option<Offset>)
    requires ov.Some?
    ensures ov.value.begin == Int(-1) ==> OpValue(ov, off, Begin) == Undefined
    ensures ov.value.end == Int(-1) ==> OpValue(ov, off, End) == Undefined
  {
  }

  /** Without an override the span is the computed offset's, if any. */
  lemma OffsetsWithoutOverride(off: Option<Offset>)
    ensures OpValue(None, off, Begin) == (if off.Some? then off.value.begin else Undefined)
    ensures OpValue(None, off, End) == (if off.Some? then off.value.end else Undefined)
  {
  }

  /** Lines 83-92: a row is found when either end is truthy; then its length is
      `end - begin` and it is in the window exactly when that is within [80, 110];
      otherwise the derived columns are `undefined`. */
  lemma EpisodeRowLength(t: Title, d: TitleData, e: int)
    ensures var row := EpisodeRow(t, d, e);
      row.found == Bool(Truthy(row.begin) || Truthy(row.end)) &&
      (Truthy(row.found) ==>
        var length := ToNumber(row.end).Sub(ToNumber(row.begin));
        row.length == Number(length) &&
        (row.inWindow == Bool(true) <==>
          ToNumber(row.begin).Finite? && ToNumber(row.end).Finite? &&
          80.0 <= ToNumber(row.end).v - ToNumber(row.begin).v <= 110.0)) &&
      (!Truthy(row.found) ==> row.length == Undefined && row.inWindow == Undefined && row.inMins == Undefined)
  {
  }

  // ---------------------------------------------------------------------------
  // One title

  /** Lines 58-60: a row for every episode number from `lo` to `hi`. */
  function EpisodeRows(t: Title, d: TitleData, lo: int, hi: int): (rows: seq<Row>)
    requires lo <= hi
    ensures |rows| == hi - lo + 1
    ensures forall k :: 0 <= k < |rows| ==> rows[k] == EpisodeRow(t, d, lo + k)
  {
    seq(hi - lo + 1, k requires 0 <= k < hi - lo + 1 => EpisodeRow(t, d, lo + k))
  }

  /** The loop of lines 60-102, pushing one row per episode number. */
  method PushEpisodeRows(t: Title, d: TitleData, lo: int, hi: int) returns (rows: seq<Row>)
    requires lo <= hi
    ensures rows == EpisodeRows(t, d, lo, hi)
  {
    rows := [];
    var episode := lo;
    while episode <= hi
      invariant lo <= episode <= hi + 1
      invariant |rows| == episode - lo
      invariant forall k :: 0 <= k < |rows| ==> rows[k] == EpisodeRow(t, d, lo + k)
    {
      rows := rows + [EpisodeRow(t, d, episode)];
      episode := episode + 1;
    }
    assert |rows| == |EpisodeRows(t, d, lo, hi)|;
  }

  /** Every episode number in the range has its row, a number missing from the
      downloads and from the overrides being reported as a download error. */
  lemma EpisodeRowsCover(t: Title, d: TitleData, lo: int, hi: int, e: int)
    requires lo <= e <= hi
    ensures var rows := EpisodeRows(t, d, lo, hi);
      |rows| == hi - lo + 1 && rows[e - lo].episode == Int(e) && rows[e - lo].titleId == Int(t.id) &&
      (e !in d.episodes && OverrideOf(d, e).None? ==> rows[e - lo].status == Str("episode_download_error"))
  {
    var rows := EpisodeRows(t, d, lo, hi);
    assert rows[e - lo] == EpisodeRow(t, d, lo + (e - lo));
    assert lo + (e - lo) == e;
  }

  /** `row[8]` of every row, without the `undefined` ones (line 110); only finite
      lengths are kept. */
  function Lengths(rows: seq<Row>): (vs: seq<real>)
    ensures |vs| <= |rows|
    ensures forall x :: x in vs <==> exists k :: 0 <= k < |rows| && rows[k].length == Number(Finite(x))
  {
    if rows == [] then []
    else
      var init := rows[..|rows| - 1];
      assert forall k :: 0 <= k < |init| ==> init[k] == rows[k];
      Lengths(init) + (if rows[|rows| - 1].length.Number? && rows[|rows| - 1].length.n.Finite?
                       then [rows[|rows| - 1].length.n.v] else [])
  }

  /** `median(values)` of lines 139-153: `undefined` for an empty list, otherwise the
      middle value of a sorted copy, or the mean of the two middle values. */
  function JsMedian(values: seq<real>): (m: JsValue)
    ensures m == Undefined <==> values == []
    ensures m != Undefined ==>
      m.Number? && m.n.Finite? &&
      (exists i :: 0 <= i < |values| && values[i] <= m.n.v) &&
      (exists j :: 0 <= j < |values| && m.n.v <= values[j])
  {
    if values == [] then Undefined else Number(Finite(Median(values)))
  }

  /** The median depends only on which lengths there are. */
  lemma JsMedianPermutation(values: seq<real>, values': seq<real>)
    requires multiset(values) == multiset(values')
    ensures JsMedian(values) == JsMedian(values')
  {
    if values != [] {
      MedianPermutation(values, values');
    } else {
      assert |values'| == |multiset(values')| == 0;
    }
  }

  /** Lines 111-119 for one row: a found row gets the title's median length, its
      distance from it and whether that distance exceeds 10; only those three
      columns change, and a row that was not found is left alone. */
  function FillRow(row: Row, m: JsValue): (r: Row)
    ensures r.(medianLength := row.medianLength, diffFromMedian := row.diffFromMedian, diffLarge := row.diffLarge) == row
    ensures !Truthy(row.found) ==> r == row
  {
    if !Truthy(row.found) then row
    else
      var diff := AbsNum(ToNumber(m).Sub(ToNumber(row.length)));
      row.(medianLength := m, diffFromMedian := Number(diff), diffLarge := Bool(diff.GreaterThan(10.0)))
  }

  /** A found row gets the median and is flagged exactly when median and length are
      numbers more than 10 apart. */
  lemma FillRowFacts(row: Row, m: JsValue)
    ensures var r := FillRow(row, m);
      Truthy(row.found) ==>
        r.medianLength == m &&
        (r.diffLarge == Bool(true) <==>
          ToNumber(m).Finite? && ToNumber(row.length).Finite? &&
          (ToNumber(m).v - ToNumber(row.length).v > 10.0 || ToNumber(row.length).v - ToNumber(m).v > 10.0))
  {
  }

  function FillRows(rows: seq<Row>, m: JsValue): (r: seq<Row>)
    ensures |r| == |rows|
    ensures forall k :: 0 <= k < |rows| ==> r[k] == FillRow(rows[k], m)
  {
    seq(|rows|, k requires 0 <= k < |rows| => FillRow(rows[k], m))
  }

  /** The loop of lines 111-119, overwriting the last three columns of each found row. */
  method FillMedian(rows: seq<Row>, m: JsValue) returns (filled: seq<Row>)
    ensures |filled| == |rows|
    ensures forall k :: 0 <= k < |rows| ==> filled[k] == FillRow(rows[k], m)
  {
    filled := rows;
    var i := 0;
    while i < |filled|
      invariant i <= |filled| == |rows|
      invariant forall k :: 0 <= k < i ==> filled[k] == FillRow(rows[k], m)
      invariant forall k :: i <= k < |rows| ==> filled[k] == rows[k]
    {
      if Truthy(filled[i].found) {
        var diff := AbsNum(ToNumber(m).Sub(ToNumber(filled[i].length)));
        filled := filled[i := filled[i].(medianLength := m, diffFromMedian := Number(diff),
                                          diffLarge := Bool(diff.GreaterThan(10.0)))];
      }
      i := i + 1;
    }
  }

  /** `title_result_rows.every(row => row[3] === 'episode_is_too_short')`. */
  predicate AllTooShort(rows: seq<Row>) {
    forall k :: 0 <= k < |rows| ==> rows[k].status == Str("episode_is_too_short")
  }

  /** Lines 104-121: a title whose every episode is too short collapses to one row;
      otherwise its rows get the median columns. */
  function Finish(t: Title, rows: seq<Row>): (r: seq<Row>)
    requires forall k :: 0 <= k < |rows| ==> rows[k].titleId == Int(t.id)
    ensures forall k :: 0 <= k < |r| ==> r[k].titleId == Int(t.id)
  {
    if AllTooShort(rows) then [SummaryRow(t, "all_title_episodes_are_too_short")]
    else FillRows(rows, JsMedian(Lengths(rows)))
  }

  /** Lines 50-121 for a downloaded title: it throws when it has no episodes, and
      otherwise gives its episode rows, finished. */
  function DownloadedRows(t: Title, d: TitleData): (r: Result<seq<Row>, ReportError>)
    ensures r.Err? <==> d.episodes == []
    ensures r.Err? ==> r.error == NoEpisodes(t.id)
    ensures r.Ok? ==> forall k :: 0 <= k < |r.value| ==> r.value[k].titleId == Int(t.id)
  {
    if d.episodes == [] then Err(NoEpisodes(t.id))
    else Ok(Finish(t, EpisodeRows(t, d, MinOf(d.episodes), MaxOf(d.episodes))))
  }

  /** The rows one title adds to the results (lines 17-121), or what it throws. */
  function TitleRows(s: Sheets, t: Title): (r: Result<seq<Row>, ReportError>)
    ensures r.Ok? ==> forall k :: 0 <= k < |r.value| ==> r.value[k].titleId == Int(t.id)
  {
    var d := Gather(s, t.id);
    var status := EffectiveStatus(t, d.overrides);
    if status == Str("sr_already_has_timestamps") then Ok([SummaryRow(t, "title_already_has_timestamps")])
    else if status == Str("sr_downloading_error") then Ok([SummaryRow(t, "title_has_not_been_provided_by_bot")])
    else if status == Str("sr_few_episodes") then Ok([SummaryRow(t, "title_has_less_than_4_episodes")])
    else if status == Str("sr_initialized") then Ok([])
    else if status != Str("sr_downloaded") then Err(StrangeStatus(status))
    else DownloadedRows(t, d)
  }

  /** Lines 22-48: the statuses that give a summary row give exactly one, an
      initialized title gives none, any status but `sr_downloaded` throws, and a
      downloaded title throws exactly when the episodes sheet has no row for it. */
  lemma TitleRowsByStatus(s: Sheets, t: Title)
    ensures t.status == Str("sr_already_has_timestamps") ==>
      TitleRows(s, t) == Ok([SummaryRow(t, "title_already_has_timestamps")])
    ensures t.status == Str("sr_downloading_error") ==>
      TitleRows(s, t) == Ok([SummaryRow(t, "title_has_not_been_provided_by_bot")])
    ensures t.status == Str("sr_few_episodes") ==>
      TitleRows(s, t) == Ok([SummaryRow(t, "title_has_less_than_4_episodes")])
    ensures t.status == Str("sr_initialized") ==> TitleRows(s, t) == Ok([])
    ensures t.status !in {Str("sr_already_has_timestamps"), Str("sr_downloading_error"), Str("sr_few_episodes"),
                          Str("sr_initialized"), Str("sr_downloaded")} ==>
      TitleRows(s, t) == Err(StrangeStatus(t.status))
    ensures t.status == Str("sr_downloaded") ==>
      (TitleRows(s, t) == Err(NoEpisodes(t.id)) <==> forall n :: Episode(t.id, n) !in s.episodes)
  {
    var d := Gather(s, t.id);
    if d.episodes != [] {
      assert Episode(t.id, d.episodes[0]) in s.episodes;
    }
  }

  /** A downloaded title with episodes collapses to one row when every episode is too
      short, and else gives one row per episode number from the first to the last,
      each with the median of the title's lengths. */
  lemma DownloadedTitle(t: Title, d: TitleData)
    requires d.episodes != []
    ensures var lo, hi := MinOf(d.episodes), MaxOf(d.episodes);
      var rows := EpisodeRows(t, d, lo, hi);
      var r := DownloadedRows(t, d);
      (AllTooShort(rows) ==> r == Ok([SummaryRow(t, "all_title_episodes_are_too_short")])) &&
      (!AllTooShort(rows) ==>
        r.Ok? && |r.value| == hi - lo + 1 &&
        forall k :: 0 <= k < |r.value| ==> r.value[k] == FillRow(EpisodeRow(t, d, lo + k), JsMedian(Lengths(rows))))
  {
  }

  /** Lines 104-121. */
  method FinishRows(t: Title, rows: seq<Row>) returns (r: seq<Row>)
    requires forall k :: 0 <= k < |rows| ==> rows[k].titleId == Int(t.id)
    ensures r == Finish(t, rows)
  {
    if AllTooShort(rows) {
      return [SummaryRow(t, "all_title_episodes_are_too_short")];
    }
    r := FillMedian(rows, JsMedian(Lengths(rows)));
    assert r == FillRows(rows, JsMedian(Lengths(rows)));
  }

  /** Lines 50-121, the body of `doit` for a downloaded title. */
  method ProcessDownloaded(t: Title, d: TitleData) returns (r: Result<seq<Row>, ReportError>)
    ensures r == DownloadedRows(t, d)
  {
    if d.episodes == [] {
      return Err(NoEpisodes(t.id));
    }
    var rows := PushEpisodeRows(t, d, MinOf(d.episodes), MaxOf(d.episodes));
    var finished := FinishRows(t, rows);
    return Ok(finished);
  }

  /** The body of `doit`'s loop for one title (lines 17-121). */
  method ProcessTitle(s: Sheets, t: Title) returns (r: Result<seq<Row>, ReportError>)
    ensures r == TitleRows(s, t)
  {
    var d := Gather(s, t.id);
    var status := EffectiveStatus(t, d.overrides);
    if status == Str("sr_already_has_timestamps") {
      return Ok([SummaryRow(t, "title_already_has_timestamps")]);
    }
    if status == Str("sr_downloading_error") {
      return Ok([SummaryRow(t, "title_has_not_been_provided_by_bot")]);
    }
    if status == Str("sr_few_episodes") {
      return Ok([SummaryRow(t, "title_has_less_than_4_episodes")]);
    }
    if status == Str("sr_initialized") {
      return Ok([]);
    }
    if status != Str("sr_downloaded") {
      return Err(StrangeStatus(status));
    }
    r := ProcessDownloaded(t, d);
  }

  // ---------------------------------------------------------------------------
  // The whole report

  /** The rows of these titles in turn, each title's rows given by `rowsOf`, or the
      first error thrown. */
  function RowsOf(titles: seq<Title>, rowsOf: Title -> Result<seq<Row>, ReportError>): Result<seq<Row>, ReportError> {
    if titles == [] then Ok([])
    else
      var before :- RowsOf(titles[..|titles| - 1], rowsOf);
      var rows :- rowsOf(titles[|titles| - 1]);
      Ok(before + rows)
  }

  function TitleRowsOf(s: Sheets): Title -> Result<seq<Row>, ReportError> {
    t => TitleRows(s, t)
  }

  /** `doit`: the header, then the rows of every title in order of id (a stable sort);
      a throw leaves no report. */
  function Report(s: Sheets): Result<seq<Row>, ReportError> {
    var rows :- RowsOf(SortBy(s.series, TitleId), TitleRowsOf(s));
    Ok([Header] + rows)
  }

  /** Once a title throws, the titles after it do not matter. */
  lemma {:induction false} RowsOfStopsAtError(titles: seq<Title>, rowsOf: Title -> Result<seq<Row>, ReportError>, n: nat)
    requires n <= |titles| && RowsOf(titles[..n], rowsOf).Err?
    ensures RowsOf(titles, rowsOf) == RowsOf(titles[..n], rowsOf)
    decreases |titles|
  {
    if n < |titles| {
      var init := titles[..|titles| - 1];
      assert init[..n] == titles[..n];
      RowsOfStopsAtError(init, rowsOf, n);
    } else {
      assert titles[..n] == titles;
    }
  }

  /** One more title: its rows are appended, or its error ends the report. */
  lemma RowsOfStep(titles: seq<Title>, rowsOf: Title -> Result<seq<Row>, ReportError>, i: nat, before: seq<Row>)
    requires i < |titles| && RowsOf(titles[..i], rowsOf) == Ok(before)
    ensures rowsOf(titles[i]).Err? ==> RowsOf(titles[..i + 1], rowsOf) == Err(rowsOf(titles[i]).error)
    ensures rowsOf(titles[i]).Ok? ==> RowsOf(titles[..i + 1], rowsOf) == Ok(before + rowsOf(titles[i]).value)
  {
    assert titles[..i + 1][..i] == titles[..i];
  }

  /** The loop of lines 16-122 over the titles in order. */
  method CollectRows(s: Sheets, titles: seq<Title>) returns (r: Result<seq<Row>, ReportError>)
    ensures r == RowsOf(titles, TitleRowsOf(s))
  {
    var rowsOf := TitleRowsOf(s);
    var result := [];
    var i := 0;
    assert titles[..0] == [];
    while i < |titles|
      invariant i <= |titles|
      invariant RowsOf(titles[..i], rowsOf) == Ok(result)
    {
      var rows := ProcessTitle(s, titles[i]);
      assert rowsOf(titles[i]) == rows;
      RowsOfStep(titles, rowsOf, i, result);
      if rows.Err? {
        RowsOfStopsAtError(titles, rowsOf, i + 1);
        return Err(rows.error);
      }
      result := result + rows.value;
      i := i + 1;
    }
    assert titles[..i] == titles;
    return Ok(result);
  }

  /** `doit`: sort the titles, collect their rows under the header. */
  method Doit(s: Sheets) returns (r: Result<seq<Row>, ReportError>)
    ensures r == Report(s)
  {
    var titles := SortBy(s.series, TitleId);
    var rows := CollectRows(s, titles);
    if rows.Err? {
      return Err(rows.error);
    }
    return Ok([Header] + rows.value);
  }

  /** `a.id <= b.id` for two title-id cells. */
  predicate IdAtMost(a: JsValue, b: JsValue) {
    a.Number? && b.Number? && a.n.Finite? && b.n.Finite? && a.n.v <= b.n.v
  }

  /** Each title's rows carry its id. */
  ghost predicate RowsCarryId(rowsOf: Title -> Result<seq<Row>, ReportError>) {
    forall t :: rowsOf(t).Ok? ==> forall k :: 0 <= k < |rowsOf(t).value| ==> rowsOf(t).value[k].titleId == Int(t.id)
  }

  /** Every row belongs to one of the titles. */
  lemma {:induction false} RowsOfIds(titles: seq<Title>, rowsOf: Title -> Result<seq<Row>, ReportError>)
    requires RowsCarryId(rowsOf)
    ensures RowsOf(titles, rowsOf).Ok? ==>
      forall k :: 0 <= k < |RowsOf(titles, rowsOf).value| ==>
        exists m :: 0 <= m < |titles| && RowsOf(titles, rowsOf).value[k].titleId == Int(titles[m].id)
  {
    if titles != [] && RowsOf(titles, rowsOf).Ok? {
      var n := |titles| - 1;
      var init := titles[..n];
      RowsOfIds(init, rowsOf);
      var before, last := RowsOf(init, rowsOf).value, rowsOf(titles[n]).value;
      var rows := RowsOf(titles, rowsOf).value;
      assert rows == before + last;
      forall k | 0 <= k < |rows|
        ensures exists m :: 0 <= m < |titles| && rows[k].titleId == Int(titles[m].id)
      {
        if k < |before| {
          var m :| 0 <= m < |init| && before[k].titleId == Int(init[m].id);
          assert titles[m] == init[m];
        } else {
          assert rows[k] == last[k - |before|];
          assert rows[k].titleId == Int(titles[n].id);
        }
      }
    }
  }

  /** Titles taken in order of id give rows in order of title id. */
  lemma {:induction false} RowsOfSorted(titles: seq<Title>, rowsOf: Title -> Result<seq<Row>, ReportError>)
    requires SortedBy(titles, TitleId) && RowsCarryId(rowsOf)
    ensures RowsOf(titles, rowsOf).Ok? ==>
      forall i, j :: 0 <= i < j < |RowsOf(titles, rowsOf).value| ==>
        IdAtMost(RowsOf(titles, rowsOf).value[i].titleId, RowsOf(titles, rowsOf).value[j].titleId)
  {
    if titles != [] && RowsOf(titles, rowsOf).Ok? {
      var n := |titles| - 1;
      var init := titles[..n];
      assert SortedBy(init, TitleId) by {
        forall i, j | 0 <= i < j < |init| ensures TitleId(init[i]) <= TitleId(init[j]) {
          assert init[i] == titles[i] && init[j] == titles[j];
        }
      }
      RowsOfSorted(init, rowsOf);
      RowsOfIds(init, rowsOf);
      var before, last := RowsOf(init, rowsOf).value, rowsOf(titles[n]).value;
      var rows := RowsOf(titles, rowsOf).value;
      assert rows == before + last;
      forall i, j | 0 <= i < j < |rows|
        ensures IdAtMost(rows[i].titleId, rows[j].titleId)
      {
        if j < |before| {
          assert rows[i] == before[i] && rows[j] == before[j];
        } else if i >= |before| {
          assert rows[i] == last[i - |before|] && rows[j] == last[j - |before|];
        } else {
          var m :| 0 <= m < |init| && before[i].titleId == Int(init[m].id);
          assert init[m] == titles[m];
          assert TitleId(titles[m]) <= TitleId(titles[n]);
          assert rows[j] == last[j - |before|];
        }
      }
    }
  }

  /** Putting the header in front keeps the data rows in order. */
  lemma HeaderThenRows(rows: seq<Row>)
    requires forall i, j :: 0 <= i < j < |rows| ==> IdAtMost(rows[i].titleId, rows[j].titleId)
    ensures var all := [Header] + rows;
      forall i, j :: 1 <= i < j < |all| ==> IdAtMost(all[i].titleId, all[j].titleId)
  {
    var all := [Header] + rows;
    forall i, j | 1 <= i < j < |all|
      ensures IdAtMost(all[i].titleId, all[j].titleId)
    {
      assert all[i] == rows[i - 1] && all[j] == rows[j - 1];
    }
  }

  /** The results sheet opens with the header and lists the titles in order of id. */
  lemma ReportSorted(s: Sheets)
    ensures Report(s).Ok? ==>
      |Report(s).value| >= 1 && Report(s).value[0] == Header &&
      forall i, j :: 1 <= i < j < |Report(s).value| ==> IdAtMost(Report(s).value[i].titleId, Report(s).value[j].titleId)
  {
    var titles := SortBy(s.series, TitleId);
    var rowsOf := TitleRowsOf(s);
    assert RowsCarryId(rowsOf) by {
      forall t | rowsOf(t).Ok?
        ensures forall k :: 0 <= k < |rowsOf(t).value| ==> rowsOf(t).value[k].titleId == Int(t.id)
      {
        assert rowsOf(t) == TitleRows(s, t);
      }
    }
    RowsOfSorted(titles, rowsOf);
    if RowsOf(titles, rowsOf).Ok? {
      HeaderThenRows(RowsOf(titles, rowsOf).value);
    }
  }
}
