/** helpers/anilibria_message_helpers.py: reading the inline keyboard under a message of
    the release bot. A keyboard is its rows of buttons, and a button is modelled by its
    text: every helper looks at nothing else. */
module MessageHelpers {
  import opened Common
  import opened Text

  /** `message.reply_markup.rows`, each row the texts of its buttons. */
  type Keyboard = seq<seq<string>>

  datatype HelperError =
    | NoCurrentEpisode          // `ValueError('No current episode')`
    | NotAnInteger(text: string) // `int(...)` refuses the text between the brackets
    | NoNumericButton           // `max` of an empty list

  // ---------------------------------------------------------------------------
  // get_all_buttons

  /** `get_all_buttons`: the buttons row after row, each row left to right. */
  function AllButtons(rows: Keyboard): (r: seq<string>)
    ensures rows == [] ==> r == []
  {
    if rows == [] then [] else rows[0] + AllButtons(rows[1..])
  }

  lemma {:induction false} AllButtonsConcat(a: Keyboard, b: Keyboard)
    ensures AllButtons(a + b) == AllButtons(a) + AllButtons(b)
    decreases |a|
  {
    if a == [] {
      assert a + b == b;
    } else {
      assert (a + b)[1..] == a[1..] + b;
      AllButtonsConcat(a[1..], b);
    }
  }

  /** Row-major order: button `j` of row `i` comes right after all the buttons of the
      rows above it, and there is nothing else. */
  lemma AllButtonsAt(rows: Keyboard, i: nat, j: nat)
    requires i < |rows| && j < |rows[i]|
    ensures |AllButtons(rows[..i])| + j < |AllButtons(rows)|
    ensures AllButtons(rows)[|AllButtons(rows[..i])| + j] == rows[i][j]
  {
    assert rows == rows[..i] + rows[i..];
    AllButtonsConcat(rows[..i], rows[i..]);
    assert rows[i..][0] == rows[i];
  }

  /** Every flattened button sits in some row. */
  lemma {:induction false} AllButtonsMembers(rows: Keyboard, t: string)
    ensures t in AllButtons(rows) <==> exists i :: 0 <= i < |rows| && t in rows[i]
    decreases |rows|
  {
    if rows != [] {
      AllButtonsMembers(rows[1..], t);
      assert forall i :: 1 <= i < |rows| ==> rows[1..][i - 1] == rows[i];
      if t in AllButtons(rows[1..]) {
        var i :| 0 <= i < |rows[1..]| && t in rows[1..][i];
        assert t in rows[i + 1];
      }
    }
  }

  // ---------------------------------------------------------------------------
  // next(...) searches

  /** `next((b for b in ts if p(b)), None)`, as the position of that button. */
  function FirstWhere(ts: seq<string>, p: string -> bool): (r: Option<nat>)
    ensures r.None? <==> forall k :: 0 <= k < |ts| ==> !p(ts[k])
    ensures r.Some? ==> r.value < |ts| && p(ts[r.value]) && forall k :: 0 <= k < r.value ==> !p(ts[k])
  {
    if ts == [] then None
    else if p(ts[0]) then Some(0)
    else
      assert forall k :: 1 <= k < |ts| ==> ts[1..][k - 1] == ts[k];
      match FirstWhere(ts[1..], p)
      case None => None
      case Some(k) => Some(k + 1)
  }

  /** The first match is the only position matching with no match before it. */
  lemma FirstWhereUnique(ts: seq<string>, p: string -> bool, k: nat)
    requires k < |ts| && p(ts[k])
    requires forall j :: 0 <= j < k ==> !p(ts[j])
    ensures FirstWhere(ts, p) == Some(k)
  {
    var r := FirstWhere(ts, p);
    assert r.Some?;
    assert !(r.value < k);
    assert !(k < r.value);
  }

  // ---------------------------------------------------------------------------
  // get_current_episode

  predicate Bracketed(t: string) { StartsWith(t, "[") }

  /** The nested loops of `get_current_episode`: the first text starting with `[`,
      searched row by row. */
  function FirstBracketed(rows: Keyboard): Option<string>
  {
    if rows == [] then None
    else
      match FirstWhere(rows[0], Bracketed)
      case Some(j) => Some(rows[0][j])
      case None => FirstBracketed(rows[1..])
  }

  /** The nested scan finds the same button as one scan of the flattened keyboard. */
  lemma {:induction false} FirstBracketedFlat(rows: Keyboard)
    ensures var k := FirstWhere(AllButtons(rows), Bracketed);
      FirstBracketed(rows) == if k.Some? then Some(AllButtons(rows)[k.value]) else None
    decreases |rows|
  {
    if rows != [] {
      var all, rest := AllButtons(rows), AllButtons(rows[1..]);
      assert all == rows[0] + rest;
      match FirstWhere(rows[0], Bracketed)
      case Some(j) =>
        assert all[j] == rows[0][j];
        FirstWhereUnique(all, Bracketed, j);
      case None =>
        FirstBracketedFlat(rows[1..]);
        match FirstWhere(rest, Bracketed)
        case Some(k) =>
          assert all[|rows[0]| + k] == rest[k];
          assert forall j :: |rows[0]| <= j < |rows[0]| + k ==> all[j] == rest[j - |rows[0]|];
          FirstWhereUnique(all, Bracketed, |rows[0]| + k);
        case None =>
          assert forall j :: |rows[0]| <= j < |all| ==> all[j] == rest[j - |rows[0]|];
    }
  }

  /** `get_current_episode`: `int(text[1:-1])` for the first text starting with `[`;
      an error when no text does or when the text between the brackets is no integer. */
  function CurrentEpisode(rows: Keyboard): (r: Result<int, HelperError>)
    ensures r == Err(NoCurrentEpisode) <==> forall t :: t in AllButtons(rows) ==> !StartsWith(t, "[")
    ensures r.Err? ==> r == Err(NoCurrentEpisode) || (r.error.NotAnInteger? && StartsWith(r.error.text, "[") && r.error.text in AllButtons(rows))
    ensures r.Ok? ==>
      exists k :: 0 <= k < |AllButtons(rows)| && Bracketed(AllButtons(rows)[k]) &&
        (forall j :: 0 <= j < k ==> !Bracketed(AllButtons(rows)[j])) &&
        ParseInt(PySlice(AllButtons(rows)[k], 1, -1)) == Some(r.value)
  {
    FirstBracketedFlat(rows);
    match FirstBracketed(rows)
    case None => Err(NoCurrentEpisode)
    case Some(t) =>
      match ParseInt(PySlice(t, 1, -1))
      case None => Err(NotAnInteger(t))
      case Some(n) => Ok(n)
  }

  /** The label the bot gives the current episode, `[<n>]`, is read back as `n`. */
  lemma CurrentEpisodeOfLabel(rows: Keyboard, n: int)
    requires FirstBracketed(rows) == Some("[" + IntToString(n) + "]")
    ensures CurrentEpisode(rows) == Ok(n)
  {
    var t := "[" + IntToString(n) + "]";
    assert PySlice(t, 1, -1) == IntToString(n) by {
      assert PySlice(t, 1, -1) == t[1..|t| - 1];
    }
    IntRoundTrip(n);
  }

  // ---------------------------------------------------------------------------
  // get_prev_episode_button

  /** `get_prev_episode_button`: the position of the first button labelled with the
      number before the current episode, none when there is no such button; the
      current episode's own error propagates. */
  function PrevEpisodeButton(rows: Keyboard): (r: Result<Option<nat>, HelperError>)
    ensures r.Err? <==> CurrentEpisode(rows).Err?
    ensures r.Err? ==> r.error == CurrentEpisode(rows).error
    ensures r.Ok? ==>
      var prev := IntToString(CurrentEpisode(rows).value - 1);
      var all := AllButtons(rows);
      (r.value.None? <==> prev !in all) &&
      (r.value.Some? ==> r.value.value < |all| && all[r.value.value] == prev && prev !in all[..r.value.value])
  {
    var n :- CurrentEpisode(rows);
    Ok(FirstWhere(AllButtons(rows), t => t == IntToString(n - 1)))
  }

  /** The button found reads back as the previous episode number. */
  lemma PrevEpisodeButtonParses(rows: Keyboard)
    requires PrevEpisodeButton(rows).Ok? && PrevEpisodeButton(rows).value.Some?
    ensures ParseInt(AllButtons(rows)[PrevEpisodeButton(rows).value.value]) == Some(CurrentEpisode(rows).value - 1)
  {
    IntRoundTrip(CurrentEpisode(rows).value - 1);
  }

  // ---------------------------------------------------------------------------
  // get_prev_page_button: `str.encode()` and a byte search

  /** A continuation byte `10xxxxxx` carrying the low six bits of `x`. */
  function Cont(x: nat): (b: nat)
    ensures 0x80 <= b < 0xC0
  {
    0x80 + x % 64
  }

  /** The UTF-8 bytes of one character. */
  function Utf8(c: char): (bs: seq<nat>)
    ensures 1 <= |bs| <= 4
    ensures forall i :: 0 <= i < |bs| ==> bs[i] < 0x100
    ensures bs[|bs| - 1] != 0xE2
  {
    var n := c as int;
    if n < 0x80 then [n]
    else if n < 0x800 then [0xC0 + n / 64, Cont(n)]
    else if n < 0x10000 then [0xE0 + n / 4096, Cont(n / 64), Cont(n)]
    else [0xF0 + n / 0x40000, Cont(n / 4096), Cont(n / 64), Cont(n)]
  }

  /** `s.encode()`: the UTF-8 bytes of every character in turn. */
  function Encode(s: string): (bs: seq<nat>)
    ensures s == [] <==> bs == []
    ensures bs != [] ==> bs[|bs| - 1] != 0xE2
  {
    if s == [] then [] else Encode(s[..|s| - 1]) + Utf8(s[|s| - 1])
  }

  /** `b'\xe2\x97' in bs`. */
  predicate HasPageMark(bs: seq<nat>) {
    exists i :: 0 <= i < |bs| - 1 && bs[i] == 0xE2 && bs[i + 1] == 0x97
  }

  /** The characters whose UTF-8 form starts with `E2 97`: U+25C0 to U+25FF, the
      block holding `◀`. */
  predicate IsPageArrow(c: char) { 0x25C0 <= c as int <= 0x25FF }

  lemma Utf8PageMark(c: char)
    ensures HasPageMark(Utf8(c)) <==> IsPageArrow(c)
  {
    var n := c as int;
    var bs := Utf8(c);
    if IsPageArrow(c) {
      assert n / 4096 == 2 && (n / 64) % 64 == 0x17;
      assert bs[0] == 0xE2 && bs[1] == 0x97;
    }
    if HasPageMark(bs) {
      var i :| 0 <= i < |bs| - 1 && bs[i] == 0xE2 && bs[i + 1] == 0x97;
      assert i == 0;
      assert 0x800 <= n < 0x10000 && n / 4096 == 2 && (n / 64) % 64 == 0x17;
    }
  }

  /** The mark in a concatenation lies in one part, or straddles the joint. */
  lemma PageMarkConcat(a: seq<nat>, b: seq<nat>)
    requires a != [] ==> a[|a| - 1] != 0xE2
    ensures HasPageMark(a + b) <==> HasPageMark(a) || HasPageMark(b)
  {
    var ab := a + b;
    if HasPageMark(ab) {
      var i :| 0 <= i < |ab| - 1 && ab[i] == 0xE2 && ab[i + 1] == 0x97;
      if i < |a| {
        assert i != |a| - 1;
        assert a[i] == 0xE2 && a[i + 1] == 0x97;
      } else {
        assert b[i - |a|] == 0xE2 && b[i - |a| + 1] == 0x97;
      }
    }
    if HasPageMark(a) {
      var i :| 0 <= i < |a| - 1 && a[i] == 0xE2 && a[i + 1] == 0x97;
      assert ab[i] == 0xE2 && ab[i + 1] == 0x97;
    }
    if HasPageMark(b) {
      var i :| 0 <= i < |b| - 1 && b[i] == 0xE2 && b[i + 1] == 0x97;
      assert ab[|a| + i] == 0xE2 && ab[|a| + i + 1] == 0x97;
    }
  }

  /** The byte search of `get_prev_page_button` finds exactly the texts holding a
      page arrow: `E2` only ever opens a three-byte character, so the two bytes
      never straddle two characters. */
  lemma {:induction false} PageMarkIffArrow(s: string)
    ensures HasPageMark(Encode(s)) <==> exists j :: 0 <= j < |s| && IsPageArrow(s[j])
  {
    if s != [] {
      var init := s[..|s| - 1];
      PageMarkIffArrow(init);
      PageMarkConcat(Encode(init), Utf8(s[|s| - 1]));
      Utf8PageMark(s[|s| - 1]);
      assert forall j :: 0 <= j < |init| ==> init[j] == s[j];
      if exists j :: 0 <= j < |s| && IsPageArrow(s[j]) {
        var j :| 0 <= j < |s| && IsPageArrow(s[j]);
        if j < |init| {
          assert IsPageArrow(init[j]);
        }
      }
    }
  }

  predicate HasPageArrow(t: string) { exists j :: 0 <= j < |t| && IsPageArrow(t[j]) }

  predicate PageButton(t: string) { HasPageMark(Encode(t)) }

  /** `get_prev_page_button`: the position of the first button whose text holds a
      page arrow, none when no text does. */
  function PrevPageButton(rows: Keyboard): (r: Option<nat>)
    ensures r.None? <==> forall k :: 0 <= k < |AllButtons(rows)| ==> !HasPageArrow(AllButtons(rows)[k])
    ensures r.Some? ==>
      r.value < |AllButtons(rows)| && HasPageArrow(AllButtons(rows)[r.value]) &&
      forall k :: 0 <= k < r.value ==> !HasPageArrow(AllButtons(rows)[k])
  {
    var all := AllButtons(rows);
    forall k | 0 <= k < |all|
      ensures PageButton(all[k]) <==> HasPageArrow(all[k])
    {
      PageMarkIffArrow(all[k]);
    }
    var r := FirstWhere(all, PageButton);
    assert (forall k :: 0 <= k < |all| ==> !HasPageArrow(all[k])) ==>
      forall k :: 0 <= k < |all| ==> !PageButton(all[k]);
    r
  }

  // ---------------------------------------------------------------------------
  // are_more_then_3_episodes_in_series and are_more_then_13_episodes_in_series

  /** `text.isnumeric()` on ASCII text: non-empty and all decimal digits. */
  predicate IsNumeric(t: string) { |t| > 0 && IsDigits(t) }

  /** The positions of the numeric texts. */
  function NumericPositions(ts: seq<string>): set<nat> {
    set k: nat | k < |ts| && IsNumeric(ts[k])
  }

  /** `len([1 for button in ... if button.text.isnumeric()])`. */
  function NumericCount(ts: seq<string>): (n: nat)
    ensures n <= |ts|
  {
    if ts == [] then 0
    else NumericCount(ts[..|ts| - 1]) + (if IsNumeric(ts[|ts| - 1]) then 1 else 0)
  }

  /** The count is the number of numeric positions. */
  lemma {:induction false} NumericCountPositions(ts: seq<string>)
    ensures NumericCount(ts) == |NumericPositions(ts)|
  {
    if ts != [] {
      var init := ts[..|ts| - 1];
      NumericCountPositions(init);
      assert forall k :: 0 <= k < |init| ==> init[k] == ts[k];
      var last := |ts| - 1;
      if IsNumeric(ts[last]) {
        assert NumericPositions(ts) == NumericPositions(init) + {last};
      } else {
        assert NumericPositions(ts) == NumericPositions(init);
      }
    }
  }

  /** `are_more_then_3_episodes_in_series`: a previous page exists, or at least three
      texts are numeric. */
  function MoreThan3Episodes(rows: Keyboard): (r: bool)
    ensures r <==> PrevPageButton(rows).Some? || |NumericPositions(AllButtons(rows))| >= 3
  {
    NumericCountPositions(AllButtons(rows));
    if PrevPageButton(rows).Some? then true
    else NumericCount(AllButtons(rows)) >= 3
  }

  /** `[int(button.text) for button in ... if button.text.isnumeric()]`. */
  function NumericValues(ts: seq<string>): (vs: seq<nat>)
    ensures vs == [] <==> forall k :: 0 <= k < |ts| ==> !IsNumeric(ts[k])
    ensures forall v :: v in vs <==> exists k :: 0 <= k < |ts| && IsNumeric(ts[k]) && DigitsValue(ts[k]) == v
  {
    if ts == [] then []
    else
      var init := ts[..|ts| - 1];
      assert forall k :: 0 <= k < |init| ==> init[k] == ts[k];
      NumericValues(init) + (if IsNumeric(ts[|ts| - 1]) then [DigitsValue(ts[|ts| - 1])] else [])
  }

  /** `max(vs)` of a non-empty list. */
  function MaxOfNats(vs: seq<nat>): (m: nat)
    requires vs != []
    ensures m in vs && forall v :: v in vs ==> v <= m
  {
    if |vs| == 1 then vs[0]
    else
      var m := MaxOfNats(vs[..|vs| - 1]);
      assert forall v :: v in vs ==> v in vs[..|vs| - 1] || v == vs[|vs| - 1];
      if m < vs[|vs| - 1] then vs[|vs| - 1] else m
  }

  /** `are_more_then_13_episodes_in_series`: whether the largest numeric text is at
      least 13; an error when no text is numeric. */
  function MoreThan13Episodes(rows: Keyboard): (r: Result<bool, HelperError>)
    ensures r.Err? <==> forall k :: 0 <= k < |AllButtons(rows)| ==> !IsNumeric(AllButtons(rows)[k])
    ensures r.Err? ==> r.error == NoNumericButton
    ensures r == Ok(true) <==>
      exists k :: 0 <= k < |AllButtons(rows)| &&
        IsNumeric(AllButtons(rows)[k]) && DigitsValue(AllButtons(rows)[k]) >= 13
  {
    var vs := NumericValues(AllButtons(rows));
    if vs == [] then Err(NoNumericButton)
    else
      var m := MaxOfNats(vs);
      assert forall k :: 0 <= k < |AllButtons(rows)| && IsNumeric(AllButtons(rows)[k]) ==>
        DigitsValue(AllButtons(rows)[k]) in vs;
      assert m >= 13 ==>
        exists k :: 0 <= k < |AllButtons(rows)| &&
          IsNumeric(AllButtons(rows)[k]) && DigitsValue(AllButtons(rows)[k]) >= 13;
      Ok(m >= 13)
  }
}
