/** Shared vocabulary: optional values, results with an error, Python slicing and
    Python's insertion-ordered dictionaries as association lists. */
module Common {

  /** An audio track or a slice of one: its samples in order. */
  type Samples = seq<real>

  datatype Option<T> = None | Some(value: T)

  /** The outcome of an operation that raises in the source. */
  datatype Result<T, E> = Ok(value: T) | Err(error: E) {
    predicate IsFailure() { Err? }

    function PropagateFailure<U>(): Result<U, E>
      requires Err?
    {
      Err(error)
    }

    function Extract(): T
      requires Ok?
    {
      value
    }
  }

  function Min(a: int, b: int): int { if a <= b then a else b }
  function Max(a: int, b: int): int { if a >= b then a else b }
  function Abs(a: int): nat { if a >= 0 then a else -a }
  function RealMax(a: real, b: real): real { if a >= b then a else b }

  /** Truncation toward zero: Python's `int(x)` and JavaScript's `Math.trunc(x)` on a float. */
  function Trunc(x: real): (n: int)
    ensures x >= 0.0 ==> n >= 0 && (n as real) <= x < (n as real) + 1.0
    ensures x < 0.0 ==> n <= 0 && (n as real) - 1.0 < x <= (n as real)
  {
    if x >= 0.0 then x.Floor else -((-x).Floor)
  }

  /** One bound of a Python slice: a negative index counts from the end, then the
      index is clamped into [0, n]. */
  function ClampIndex(i: int, n: nat): (r: nat)
    ensures r <= n
    ensures 0 <= i <= n ==> r == i
    ensures i < 0 && -i <= n ==> r == n + i
  {
    var j := if i < 0 then i + n else i;
    if j < 0 then 0 else if j > n then n else j
  }

  /** `s[start:stop]` with Python's (and numpy's) slicing rules for step 1. */
  function PySlice<T>(s: seq<T>, start: int, stop: int): (r: seq<T>)
    ensures |r| <= |s|
    ensures 0 <= start <= stop <= |s| ==> r == s[start..stop]
    ensures 0 <= stop <= start ==> r == []
    ensures start >= |s| ==> r == []
  {
    var lo := ClampIndex(start, |s|);
    var hi := ClampIndex(stop, |s|);
    if lo < hi then s[lo..hi] else []
  }

  lemma ConcatAssoc<T>(a: seq<T>, b: seq<T>, c: seq<T>)
    ensures a + b + c == a + (b + c)
  {
  }

  // ---------------------------------------------------------------------------
  // Python dictionaries keep insertion order; they are modelled as association
  // lists whose keys are distinct.

  type Dict<K, V> = seq<(K, V)>

  function Keys<K, V>(d: Dict<K, V>): (ks: seq<K>)
    ensures |ks| == |d|
    ensures forall i :: 0 <= i < |d| ==> ks[i] == d[i].0
  {
    if d == [] then [] else Keys(d[..|d| - 1]) + [d[|d| - 1].0]
  }

  ghost predicate DistinctKeys<K, V>(d: Dict<K, V>) {
    forall i, j :: 0 <= i < j < |d| ==> d[i].0 != d[j].0
  }

  /** `d.get(k)`. */
  function Get<K(==), V>(d: Dict<K, V>, k: K): (r: Option<V>)
    ensures r.None? <==> k !in Keys(d)
    ensures r.Some? ==> exists i :: 0 <= i < |d| && d[i] == (k, r.value)
  {
    if d == [] then None
    else if d[|d| - 1].0 == k then Some(d[|d| - 1].1)
    else
      assert Keys(d) == Keys(d[..|d| - 1]) + [d[|d| - 1].0];
      Get(d[..|d| - 1], k)
  }

  lemma {:induction false} GetAt<K, V>(d: Dict<K, V>, i: nat)
    requires DistinctKeys(d) && i < |d|
    ensures Get(d, d[i].0) == Some(d[i].1)
  {
    if i < |d| - 1 {
      GetAt(d[..|d| - 1], i);
    }
  }

  /** Keys, lookups and distinctness of a dictionary with one more entry at the end. */
  lemma SnocFacts<K, V>(d: Dict<K, V>, e: (K, V))
    ensures Keys(d + [e]) == Keys(d) + [e.0]
    ensures forall x :: Get(d + [e], x) == if e.0 == x then Some(e.1) else Get(d, x)
    ensures DistinctKeys(d + [e]) <==> DistinctKeys(d) && e.0 !in Keys(d)
  {
    var r := d + [e];
    assert r[..|r| - 1] == d;
    if DistinctKeys(d) && e.0 !in Keys(d) {
      forall i, j | 0 <= i < j < |r| ensures r[i].0 != r[j].0 {
        if j == |r| - 1 {
          assert Keys(d)[i] == r[i].0;
        }
      }
    }
    if DistinctKeys(r) {
      assert forall i :: 0 <= i < |d| ==> Keys(d)[i] == r[i].0 != r[|r| - 1].0;
    }
  }

  /** `d.setdefault(k, []).append(v)`: an existing key keeps its place and its
      list grows by one; a new key goes last with a one-element list. */
  function SetDefaultAppend<K(==,!new), V>(d: Dict<K, seq<V>>, k: K, v: V): (r: Dict<K, seq<V>>)
    requires DistinctKeys(d)
    ensures DistinctKeys(r)
    ensures k in Keys(d) ==> Keys(r) == Keys(d)
    ensures k !in Keys(d) ==> Keys(r) == Keys(d) + [k]
    ensures Get(r, k) == Some(match Get(d, k) case Some(prev) => prev + [v] case None => [v])
    ensures forall k' :: k' != k ==> Get(r, k') == Get(d, k')
  {
    if k !in Keys(d) then
      SnocFacts(d, (k, [v]));
      d + [(k, [v])]
    else
      var init := d[..|d| - 1];
      var last := d[|d| - 1];
      assert d == init + [last];
      SnocFacts(init, last);
      if last.0 == k then
        SnocFacts(init, (k, last.1 + [v]));
        init + [(k, last.1 + [v])]
      else
        var rest := SetDefaultAppend(init, k, v);
        SnocFacts(rest, last);
        rest + [last]
  }

  /** The list recorded under `k` so far, empty for a key not yet seen. */
  function ListOf<K(==), V>(d: Dict<K, seq<V>>, k: K): seq<V> {
    if Get(d, k).Some? then Get(d, k).value else []
  }

  /** `setdefault(k, []).append(v)` seen key by key: the list under `k` grows by `v`
      at its end, every other list stays as it was. */
  lemma ListOfAppend<K(!new), V>(d: Dict<K, seq<V>>, k: K, v: V, k': K)
    requires DistinctKeys(d)
    ensures ListOf(SetDefaultAppend(d, k, v), k') == ListOf(d, k') + (if k == k' then [v] else [])
  {
    if k == k' && Get(d, k).None? {
      assert [] + [v] == [v];
    }
  }

  /** Two appends in a row, seen from key `k'`. */
  lemma ListOfAppendTwo<K(!new), V>(d: Dict<K, seq<V>>, k1: K, v1: V, k2: K, v2: V, k': K)
    requires DistinctKeys(d)
    ensures ListOf(SetDefaultAppend(SetDefaultAppend(d, k1, v1), k2, v2), k')
            == ListOf(d, k') + ((if k1 == k' then [v1] else []) + (if k2 == k' then [v2] else []))
    ensures Get(SetDefaultAppend(SetDefaultAppend(d, k1, v1), k2, v2), k').None?
            <==> Get(d, k').None? && k1 != k' && k2 != k'
  {
    var d1 := SetDefaultAppend(d, k1, v1);
    ListOfAppend(d, k1, v1, k');
    ListOfAppend(d1, k2, v2, k');
    ConcatAssoc(ListOf(d, k'), if k1 == k' then [v1] else [], if k2 == k' then [v2] else []);
  }

  /** `{k: f(v) for k, v in d.items()}`: the same keys in the same order, each with
      its value mapped. */
  function MapValues<K, V, W>(d: Dict<K, V>, f: V -> W): (r: Dict<K, W>)
    ensures |r| == |d|
    ensures forall i :: 0 <= i < |d| ==> r[i] == (d[i].0, f(d[i].1))
  {
    if d == [] then []
    else
      var init := d[..|d| - 1];
      assert forall i :: 0 <= i < |init| ==> init[i] == d[i];
      MapValues(init, f) + [(d[|d| - 1].0, f(d[|d| - 1].1))]
  }

  /** Mapping one more entry of a prefix adds that entry, mapped. */
  lemma MapValuesSnoc<K, V, W>(d: Dict<K, V>, i: nat, f: V -> W)
    requires i < |d|
    ensures MapValues(d[..i + 1], f) == MapValues(d[..i], f) + [(d[i].0, f(d[i].1))]
  {
    assert d[..i + 1][..i] == d[..i];
  }

  lemma MapValuesKeys<K, V, W>(d: Dict<K, V>, f: V -> W)
    ensures Keys(MapValues(d, f)) == Keys(d)
  {
    var r := MapValues(d, f);
    assert forall i :: 0 <= i < |r| ==> Keys(r)[i] == Keys(d)[i];
  }
}
