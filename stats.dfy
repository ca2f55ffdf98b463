/** The statistics the pipeline takes from numpy and from its own JavaScript report:
    sums, means, the median (`np.median` and `median()` in the report script) and
    stable sorting by an integer key (`list.sort(key=...)`, `Array.prototype.sort`). */
module Stats {

  /** A float that may be NaN: `np.median` and `np.mean` of an empty list give NaN,
      and NaN spreads through arithmetic. */
  datatype Num = Finite(v: real) | NaN {
    function Add(other: Num): Num {
      if Finite? && other.Finite? then Finite(v + other.v) else NaN
    }

    function Sub(other: Num): Num {
      if Finite? && other.Finite? then Finite(v - other.v) else NaN
    }

    /** `x > c`: false for NaN. */
    predicate GreaterThan(c: real) { Finite? && v > c }

    /** `x < y`: false when either side is NaN. */
    predicate LessThan(other: Num) { Finite? && other.Finite? && v < other.v }

    function Scale(c: real): Num {
      if Finite? then Finite(v * c) else NaN
    }
  }

  function Sum(s: seq<real>): real {
    if s == [] then 0.0 else Sum(s[..|s| - 1]) + s[|s| - 1]
  }

  function Mean(s: seq<real>): real
    requires |s| > 0
  {
    Sum(s) / (|s| as real)
  }

  /** `np.mean`: NaN for an empty list. */
  function NanMean(s: seq<real>): (m: Num)
    ensures m.Finite? <==> |s| > 0
  {
    if s == [] then NaN else Finite(Mean(s))
  }

  lemma MulSucc(n: nat, m: real)
    ensures ((n + 1) as real) * m == (n as real) * m + m
  {
  }

  lemma {:induction false} SumAtMost(s: seq<real>, m: real)
    requires forall i :: 0 <= i < |s| ==> s[i] <= m
    ensures Sum(s) <= (|s| as real) * m
  {
    if s != [] {
      var init := s[..|s| - 1];
      assert forall i :: 0 <= i < |init| ==> init[i] == s[i];
      SumAtMost(init, m);
      MulSucc(|init|, m);
    }
  }

  /** With every value at most `m` and the one at `k` below it, the sum is below
      |s| * m. */
  lemma {:induction false} SumBelow(s: seq<real>, m: real, k: nat)
    requires forall i :: 0 <= i < |s| ==> s[i] <= m
    requires k < |s| && s[k] < m
    ensures Sum(s) < (|s| as real) * m
  {
    var init := s[..|s| - 1];
    assert forall i :: 0 <= i < |init| ==> init[i] == s[i];
    MulSucc(|init|, m);
    assert (|s| as real) * m == (|init| as real) * m + m;
    assert Sum(s) == Sum(init) + s[|s| - 1];
    if k < |s| - 1 {
      SumBelow(init, m, k);
      assert Sum(init) < (|init| as real) * m && s[|s| - 1] <= m;
    } else {
      SumAtMost(init, m);
      assert Sum(init) <= (|init| as real) * m && s[|s| - 1] < m;
    }
  }

  lemma {:induction false} SumConstant(s: seq<real>, c: real)
    requires forall i :: 0 <= i < |s| ==> s[i] == c
    ensures Sum(s) == (|s| as real) * c
  {
    if s != [] {
      var init := s[..|s| - 1];
      assert forall i :: 0 <= i < |init| ==> init[i] == s[i];
      SumConstant(init, c);
      MulSucc(|init|, c);
    }
  }

  lemma MeanTimesCount(s: seq<real>)
    requires |s| > 0
    ensures (|s| as real) * Mean(s) == Sum(s)
  {
  }

  /** Two different values put one of them strictly above the mean. */
  lemma NotConstantHasAbove(s: seq<real>, i: nat, j: nat)
    requires i < |s| && j < |s| && s[i] != s[j]
    ensures exists k :: 0 <= k < |s| && s[k] > Mean(s)
  {
    var m := Mean(s);
    MeanTimesCount(s);
    if forall k :: 0 <= k < |s| ==> s[k] <= m {
      if s[i] < m {
        SumBelow(s, m, i);
      } else {
        SumBelow(s, m, j);
      }
    }
  }

  /** Equal values are never above their mean. */
  lemma ConstantNoneAbove(s: seq<real>)
    requires |s| > 0
    requires forall k :: 0 <= k < |s| ==> s[k] == s[0]
    ensures forall k :: 0 <= k < |s| ==> s[k] == Mean(s)
  {
    SumConstant(s, s[0]);
    MeanTimesCount(s);
    assert (|s| as real) * s[0] == (|s| as real) * Mean(s);
  }

  /** Some value lies strictly above the mean exactly when the values are not all
      equal. */
  lemma AboveMeanIffNotConstant(s: seq<real>)
    requires |s| > 0
    ensures (exists i :: 0 <= i < |s| && s[i] > Mean(s)) <==> (exists i, j :: 0 <= i < |s| && 0 <= j < |s| && s[i] != s[j])
  {
    if exists i, j :: 0 <= i < |s| && 0 <= j < |s| && s[i] != s[j] {
      var i, j :| 0 <= i < |s| && 0 <= j < |s| && s[i] != s[j];
      NotConstantHasAbove(s, i, j);
    } else {
      forall k | 0 <= k < |s| ensures s[k] == s[0] { }
      ConstantNoneAbove(s);
    }
  }

  // ---------------------------------------------------------------------------
  // Sorting

  ghost predicate Sorted(s: seq<real>) {
    forall i, j :: 0 <= i < j < |s| ==> s[i] <= s[j]
  }

  function Insert(x: real, s: seq<real>): (r: seq<real>)
    requires Sorted(s)
    ensures |r| == |s| + 1
    ensures r[0] == if s == [] || x <= s[0] then x else s[0]
    ensures Sorted(r)
    ensures multiset(r) == multiset(s) + multiset{x}
  {
    if s == [] then [x]
    else if x <= s[0] then [x] + s
    else
      assert s == [s[0]] + s[1..];
      [s[0]] + Insert(x, s[1..])
  }

  /** Ascending order, as `np.sort` and `[...values].sort((a, b) => a - b)` give it. */
  function Sort(s: seq<real>): (r: seq<real>)
    ensures |r| == |s|
    ensures Sorted(r)
    ensures multiset(r) == multiset(s)
  {
    if s == [] then []
    else
      assert s == [s[0]] + s[1..];
      Insert(s[0], Sort(s[1..]))
  }

  lemma SortedHeadIsLeast(a: seq<real>, x: real)
    requires Sorted(a) && x in multiset(a)
    ensures a[0] <= x
  {
    var i :| 0 <= i < |a| && a[i] == x;
  }

  lemma SplitHead(a: seq<real>)
    requires a != []
    ensures multiset(a[1..]) == multiset(a) - multiset{a[0]}
    ensures Sorted(a) ==> Sorted(a[1..])
  {
    assert a == [a[0]] + a[1..];
  }

  /** Two sorted arrangements of the same non-empty bag start with the same value,
      and what follows is again the same bag. */
  lemma SameHead(a: seq<real>, b: seq<real>)
    requires Sorted(a) && Sorted(b) && a != [] && b != []
    requires multiset(a) == multiset(b)
    ensures a[0] == b[0]
    ensures multiset(a[1..]) == multiset(b[1..])
  {
    assert a[0] in multiset(a) && b[0] in multiset(b);
    SortedHeadIsLeast(a, b[0]);
    SortedHeadIsLeast(b, a[0]);
    SplitHead(a);
    SplitHead(b);
  }

  /** Two sorted arrangements of the same values are the same sequence. */
  lemma {:induction false} SortedUnique(a: seq<real>, b: seq<real>)
    requires Sorted(a) && Sorted(b)
    requires multiset(a) == multiset(b)
    ensures a == b
  {
    assert |a| == |multiset(a)| == |multiset(b)| == |b|;
    if a != [] {
      SameHead(a, b);
      SplitHead(a);
      SplitHead(b);
      SortedUnique(a[1..], b[1..]);
      assert a == [a[0]] + a[1..] && b == [b[0]] + b[1..];
    }
  }

  // ---------------------------------------------------------------------------
  // Median

  /** A value lying between two entries of an arrangement of `s` lies between two
      entries of `s`. */
  lemma Bracketed(s: seq<real>, t: seq<real>, lo: nat, hi: nat, m: real)
    requires multiset(t) == multiset(s) && lo < |t| && hi < |t| && t[lo] <= m <= t[hi]
    ensures exists i :: 0 <= i < |s| && s[i] <= m
    ensures exists j :: 0 <= j < |s| && m <= s[j]
  {
    assert t[lo] in multiset(s) && t[hi] in multiset(s);
    var i :| 0 <= i < |s| && s[i] == t[lo];
    var j :| 0 <= j < |s| && s[j] == t[hi];
  }

  /** `np.median` of a non-empty list, equally the report script's `median`: the
      middle value of the sorted list for an odd count, else the mean of the two
      middle values. */
  function Median(s: seq<real>): (m: real)
    requires |s| > 0
    ensures exists i :: 0 <= i < |s| && s[i] <= m
    ensures exists j :: 0 <= j < |s| && m <= s[j]
  {
    var t := Sort(s);
    var h := |t| / 2;
    if |t| % 2 == 1 then
      Bracketed(s, t, h, h, t[h]);
      t[h]
    else
      var m := (t[h - 1] + t[h]) / 2.0;
      Bracketed(s, t, h - 1, h, m);
      m
  }

  /** `np.median`: NaN for an empty list. */
  function NanMedian(s: seq<real>): (m: Num)
    ensures m.Finite? <==> |s| > 0
  {
    if s == [] then NaN else Finite(Median(s))
  }

  /** The median does not depend on the order of the values. */
  lemma MedianPermutation(s: seq<real>, s': seq<real>)
    requires |s| > 0
    requires multiset(s) == multiset(s')
    ensures |s'| > 0 && Median(s) == Median(s')
  {
    assert |s| == |multiset(s)| == |multiset(s')| == |s'|;
    SortedUnique(Sort(s), Sort(s'));
  }

  // ---------------------------------------------------------------------------
  // Stable sort by an integer key

  ghost predicate SortedBy<T>(s: seq<T>, key: T -> int) {
    forall i, j :: 0 <= i < j < |s| ==> key(s[i]) <= key(s[j])
  }

  ghost predicate NoDuplicates<T>(s: seq<T>) {
    forall i, j :: 0 <= i < j < |s| ==> s[i] != s[j]
  }

  /** Insert `x` before the first element whose key is not smaller, so that elements
      with equal keys keep their order. */
  function InsertBy<T>(x: T, s: seq<T>, key: T -> int): (r: seq<T>)
    requires SortedBy(s, key)
    ensures |r| == |s| + 1
    ensures r[0] == if s == [] || key(x) <= key(s[0]) then x else s[0]
    ensures SortedBy(r, key)
    ensures multiset(r) == multiset(s) + multiset{x}
  {
    if s == [] then [x]
    else if key(x) <= key(s[0]) then [x] + s
    else
      assert s == [s[0]] + s[1..];
      [s[0]] + InsertBy(x, s[1..], key)
  }

  /** `sorted(s, key=key)`: a stable insertion sort. */
  function SortBy<T>(s: seq<T>, key: T -> int): (r: seq<T>)
    ensures SortedBy(r, key)
    ensures multiset(r) == multiset(s)
  {
    if s == [] then []
    else
      assert s == [s[0]] + s[1..];
      InsertBy(s[0], SortBy(s[1..], key), key)
  }

  /** The elements of `s` whose key is `v`, in their order in `s`. */
  function WithKey<T>(s: seq<T>, key: T -> int, v: int): seq<T> {
    if s == [] then []
    else (if key(s[0]) == v then [s[0]] else []) + WithKey(s[1..], key, v)
  }

  lemma WithKeyCons<T>(h: T, rest: seq<T>, key: T -> int, v: int)
    ensures WithKey([h] + rest, key, v) == (if key(h) == v then [h] else []) + WithKey(rest, key, v)
  {
    assert ([h] + rest)[1..] == rest;
  }

  /** `x` goes in front of every element with its own key. */
  lemma {:induction false} InsertByStable<T>(x: T, s: seq<T>, key: T -> int, v: int)
    requires SortedBy(s, key)
    ensures WithKey(InsertBy(x, s, key), key, v) == (if key(x) == v then [x] else []) + WithKey(s, key, v)
    decreases |s|, 1
  {
    if s == [] {
      WithKeyCons(x, [], key, v);
    } else if key(x) <= key(s[0]) {
      WithKeyCons(x, s, key, v);
    } else {
      InsertByStableStep(x, s, key, v);
    }
  }

  /** The case where `x` goes after the head of `s`: the head's key is smaller, so
      the head and `x` never share the key `v`. */
  lemma {:induction false} InsertByStableStep<T>(x: T, s: seq<T>, key: T -> int, v: int)
    requires SortedBy(s, key) && s != [] && key(x) > key(s[0])
    ensures WithKey(InsertBy(x, s, key), key, v) == (if key(x) == v then [x] else []) + WithKey(s, key, v)
    decreases |s|, 0
  {
    var rest := InsertBy(x, s[1..], key);
    InsertByStable(x, s[1..], key, v);
    WithKeyCons(s[0], rest, key, v);
    var head, own, tail := (if key(s[0]) == v then [s[0]] else []), (if key(x) == v then [x] else []),
                           WithKey(s[1..], key, v);
    if head == [] {
      assert head + (own + tail) == own + tail;
    } else {
      assert own == [];
      assert head + (own + tail) == head + tail;
    }
  }

  /** Sorting is stable: the elements of each key keep their input order. */
  lemma {:induction false} SortByStable<T>(s: seq<T>, key: T -> int, v: int)
    ensures WithKey(SortBy(s, key), key, v) == WithKey(s, key, v)
  {
    if s != [] {
      SortByStable(s[1..], key, v);
      InsertByStable(s[0], SortBy(s[1..], key), key, v);
    }
  }

  lemma {:induction false} InsertByNoDuplicates<T>(x: T, s: seq<T>, key: T -> int)
    requires SortedBy(s, key) && NoDuplicates(s) && x !in s
    ensures NoDuplicates(InsertBy(x, s, key))
  {
    if s != [] && key(x) > key(s[0]) {
      assert s == [s[0]] + s[1..];
      InsertByNoDuplicates(x, s[1..], key);
      var rest := InsertBy(x, s[1..], key);
      assert s[0] !in multiset(rest) by {
        assert multiset(rest) == multiset(s[1..]) + multiset{x};
        assert s[0] !in s[1..];
      }
    }
  }

  /** Sorting a list without repeated elements repeats none. */
  lemma {:induction false} SortByNoDuplicates<T>(s: seq<T>, key: T -> int)
    requires NoDuplicates(s)
    ensures NoDuplicates(SortBy(s, key))
  {
    if s != [] {
      assert s == [s[0]] + s[1..];
      SortByNoDuplicates(s[1..], key);
      assert s[0] !in multiset(SortBy(s[1..], key)) by {
        assert s[0] !in s[1..];
      }
      InsertByNoDuplicates(s[0], SortBy(s[1..], key), key);
    }
  }
}
