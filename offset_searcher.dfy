/** The median reducer of services/offset_searcher.py, which s4_offsets_calculator.py
    repeats word for word: the candidate spans of each file are cut down to those
    whose end is not the `0` sentinel, and the file's true opening is the median of
    the surviving starts and the median of the surviving ends. */
module OffsetSearcher {
  import opened Common
  import opened Stats

  /** One candidate opening of a file, in seconds: `(start, end)`. An end of `0`
      marks a pair of episodes in which no opening was matched. */
  type Span = (real, real)

  datatype Side = Start | End

  function Pick(s: Span, side: Side): real {
    if side == Start then s.0 else s.1
  }

  /** `[offset[0] for offset in offsets if offset[1] != 0]` for the starts and the
      same with `offset[1]` for the ends. */
  function Kept(offsets: seq<Span>, side: Side): (r: seq<real>)
    ensures |r| <= |offsets|
    ensures r == [] <==> forall i :: 0 <= i < |offsets| ==> offsets[i].1 == 0.0
  {
    if offsets == [] then []
    else
      var last := offsets[|offsets| - 1];
      assert forall i :: 0 <= i < |offsets| - 1 ==> offsets[..|offsets| - 1][i] == offsets[i];
      Kept(offsets[..|offsets| - 1], side) + (if last.1 != 0.0 then [Pick(last, side)] else [])
  }

  /** Both lists keep the same candidates, so they are equally long, and a value is
      kept exactly when some candidate with a non-zero end supplies it. */
  lemma {:induction false} KeptMembers(offsets: seq<Span>, side: Side)
    ensures |Kept(offsets, Start)| == |Kept(offsets, End)|
    ensures forall x :: x in Kept(offsets, side) <==>
      exists i :: 0 <= i < |offsets| && offsets[i].1 != 0.0 && Pick(offsets[i], side) == x
  {
    if offsets != [] {
      var init := offsets[..|offsets| - 1];
      KeptMembers(init, side);
      assert forall i :: 0 <= i < |init| ==> init[i] == offsets[i];
    }
  }

  lemma {:induction false} KeptConcat(a: seq<Span>, b: seq<Span>, side: Side)
    ensures Kept(a + b, side) == Kept(a, side) + Kept(b, side)
    decreases |b|
  {
    if b == [] {
      assert a + b == a;
    } else {
      var b' := b[..|b| - 1];
      assert (a + b)[..|a + b| - 1] == a + b';
      assert (a + b)[|a + b| - 1] == b[|b| - 1];
      KeptConcat(a, b', side);
    }
  }

  /** Taking one candidate out of the list. */
  lemma RemoveAt(offsets: seq<Span>, j: nat)
    requires j < |offsets|
    ensures multiset(offsets[..j] + offsets[j + 1..]) == multiset(offsets) - multiset{offsets[j]}
  {
    assert offsets == offsets[..j] + [offsets[j]] + offsets[j + 1..];
  }

  /** The kept values of a list are those of the list without one candidate plus
      those of that candidate. */
  lemma KeptRemoveAt(offsets: seq<Span>, j: nat, side: Side)
    requires j < |offsets|
    ensures multiset(Kept(offsets, side)) ==
      multiset(Kept(offsets[..j] + offsets[j + 1..], side)) + multiset(Kept([offsets[j]], side))
  {
    var x := offsets[j];
    assert offsets == offsets[..j] + [x] + offsets[j + 1..];
    KeptConcat(offsets[..j] + [x], offsets[j + 1..], side);
    KeptConcat(offsets[..j], [x], side);
    KeptConcat(offsets[..j], offsets[j + 1..], side);
  }

  /** The kept values depend only on which candidates there are, not on their order. */
  lemma {:induction false} KeptPermutation(offsets: seq<Span>, offsets': seq<Span>, side: Side)
    requires multiset(offsets) == multiset(offsets')
    ensures multiset(Kept(offsets, side)) == multiset(Kept(offsets', side))
    decreases |offsets|
  {
    if offsets != [] {
      var n := |offsets| - 1;
      var x := offsets[n];
      assert x in multiset(offsets');
      var j :| 0 <= j < |offsets'| && offsets'[j] == x;
      RemoveAt(offsets, n);
      RemoveAt(offsets', j);
      KeptRemoveAt(offsets, n, side);
      KeptRemoveAt(offsets', j, side);
      assert offsets[..n] + offsets[n + 1..] == offsets[..n];
      KeptPermutation(offsets[..n], offsets'[..j] + offsets'[j + 1..], side);
    }
  }

  /** The true opening of one file: `(np.median(start_offsets), np.median(end_offsets))`,
      NaN on both sides when no candidate survives. */
  function TrueOffset(offsets: seq<Span>): (r: (Num, Num))
    ensures r.0.NaN? <==> (forall i :: 0 <= i < |offsets| ==> offsets[i].1 == 0.0)
    ensures r.1.NaN? <==> r.0.NaN?
  {
    (NanMedian(Kept(offsets, Start)), NanMedian(Kept(offsets, End)))
  }

  /** Each finite component lies between two surviving candidates' values. */
  lemma TrueOffsetBracketed(offsets: seq<Span>, side: Side)
    requires var r := TrueOffset(offsets); (if side == Start then r.0 else r.1).Finite?
    ensures var m := (var r := TrueOffset(offsets); if side == Start then r.0 else r.1).v;
      (exists i :: 0 <= i < |offsets| && offsets[i].1 != 0.0 && Pick(offsets[i], side) <= m) &&
      (exists j :: 0 <= j < |offsets| && offsets[j].1 != 0.0 && m <= Pick(offsets[j], side))
  {
    var k := Kept(offsets, side);
    var m := Median(k);
    KeptMembers(offsets, side);
    var a :| 0 <= a < |k| && k[a] <= m;
    var b :| 0 <= b < |k| && m <= k[b];
    assert k[a] in k && k[b] in k;
  }

  /** Reordering the candidates of a file does not change its true opening. */
  lemma TrueOffsetPermutation(offsets: seq<Span>, offsets': seq<Span>)
    requires multiset(offsets) == multiset(offsets')
    ensures TrueOffset(offsets) == TrueOffset(offsets')
  {
    KeptPermutation(offsets, offsets', Start);
    KeptPermutation(offsets, offsets', End);
    var s, s' := Kept(offsets, Start), Kept(offsets', Start);
    var e, e' := Kept(offsets, End), Kept(offsets', End);
    if s != [] {
      MedianPermutation(s, s');
    } else {
      assert |s'| == |multiset(s')| == 0;
    }
    if e != [] {
      MedianPermutation(e, e');
    } else {
      assert |e'| == |multiset(e')| == 0;
    }
  }

  /** A candidate with the sentinel end changes nothing. */
  lemma SentinelIgnored(offsets: seq<Span>, start: real)
    ensures TrueOffset(offsets + [(start, 0.0)]) == TrueOffset(offsets)
  {
    var o := offsets + [(start, 0.0)];
    assert o[..|o| - 1] == offsets;
    assert Kept(o, Start) == Kept(offsets, Start);
    assert Kept(o, End) == Kept(offsets, End);
  }

  /** `find_true_offsets`: every file of the input, in the same order, with its true
      opening. */
  function TrueOffsets(offsetsByAudio: Dict<string, seq<Span>>): (r: Dict<string, (Num, Num)>)
    ensures Keys(r) == Keys(offsetsByAudio)
    ensures forall i :: 0 <= i < |r| ==> r[i].1 == TrueOffset(offsetsByAudio[i].1)
  {
    MapValuesKeys(offsetsByAudio, TrueOffset);
    MapValues(offsetsByAudio, TrueOffset)
  }

  /** The loop of `find_true_offsets`, filling a fresh dictionary file by file. */
  method FindTrueOffsets(offsetsByAudio: Dict<string, seq<Span>>) returns (r: Dict<string, (Num, Num)>)
    ensures r == TrueOffsets(offsetsByAudio)
  {
    r := [];
    var i := 0;
    while i < |offsetsByAudio|
      invariant i <= |offsetsByAudio|
      invariant r == MapValues(offsetsByAudio[..i], TrueOffset)
    {
      var (file, offsets) := offsetsByAudio[i];
      MapValuesSnoc(offsetsByAudio, i, TrueOffset);
      r := r + [(file, TrueOffset(offsets))];
      i := i + 1;
    }
    assert offsetsByAudio[..i] == offsetsByAudio;
  }
}
