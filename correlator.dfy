/** The two correlation passes (services/correlator.py): the coarse pass that slides
    fixed windows of the first track over the whole second track, and the per-second
    pass over two aligned slices. The sample arithmetic is exact; the per-block
    z-score and the full-mode correlation of one second are a parameter. */
module Correlator {
  import opened Common

  datatype CorrelatorError =
    | NoWindows      // `cp.stack` of an empty list of windows
    | EmptyInput     // `cp.correlate` of an empty track
    | LengthOrder    // the ValueError of the per-second pass
    | NoFullSecond   // no one-second block: the block array is one-dimensional and its mean over axis 1 fails

  // ---------------------------------------------------------------------------
  // Valid-mode correlation

  /** Sum over n in [0, count) of a[n + k] * v[n], counting only the terms where
      a[n + k] exists. */
  function LagSum(a: Samples, v: Samples, k: int, count: nat): real
    requires count <= |v|
  {
    if count == 0 then 0.0
    else
      LagSum(a, v, k, count - 1)
      + (if 0 <= count - 1 + k < |a| then a[count - 1 + k] * v[count - 1] else 0.0)
  }

  /** numpy's definition of correlation at lag k: c_k = sum_n a[n + k] * v[n]. */
  function Lag(a: Samples, v: Samples, k: int): real {
    LagSum(a, v, k, |v|)
  }

  /** The plain dot product of `v` with the stretch of `a` that starts at `k`. */
  function Dot(a: Samples, k: nat, v: Samples): real
    requires k + |v| <= |a|
  {
    if v == [] then 0.0 else Dot(a, k, v[..|v| - 1]) + a[k + |v| - 1] * v[|v| - 1]
  }

  lemma {:induction false} LagSumIsDot(a: Samples, v: Samples, k: nat, count: nat)
    requires count <= |v| && k + |v| <= |a|
    ensures LagSum(a, v, k, count) == Dot(a, k, v[..count])
  {
    if count > 0 {
      LagSumIsDot(a, v, k, count - 1);
      assert v[..count][..count - 1] == v[..count - 1];
    }
  }

  /** The lowest lag that valid mode keeps. */
  function FirstValidLag(a: Samples, v: Samples): int {
    Min(0, |a| - |v|)
  }

  /** `cp.correlate(a, v, mode='valid')`: the lags at which the shorter sequence lies
      wholly inside the longer, in ascending order of lag. When `a` is at least as
      long as `v` these are lags 0 .. |a| - |v| and each is a plain dot product of
      `v` with a stretch of `a`. */
  function CorrelateValid(a: Samples, v: Samples): (c: seq<real>)
    requires |a| > 0 && |v| > 0
    ensures |c| == Abs(|a| - |v|) + 1
    ensures forall i :: 0 <= i < |c| ==> c[i] == Lag(a, v, FirstValidLag(a, v) + i)
    ensures |a| >= |v| ==> forall k :: 0 <= k < |c| ==> k + |v| <= |a| && c[k] == Dot(a, k, v)
  {
    var c := seq(Abs(|a| - |v|) + 1, i => Lag(a, v, FirstValidLag(a, v) + i));
    if |a| >= |v| then
      assert forall k :: 0 <= k < |c| ==> c[k] == Dot(a, k, v) by {
        forall k | 0 <= k < |c| ensures c[k] == Dot(a, k, v) {
          assert FirstValidLag(a, v) == 0;
          assert c[k] == Lag(a, v, k) == LagSum(a, v, k, |v|);
          LagSumIsDot(a, v, k, |v|);
          assert v[..|v|] == v;
        }
      }
      c
    else c
  }

  // ---------------------------------------------------------------------------
  // argmax

  /** `cp.argmax`: the first index of the largest value. */
  function ArgMax(s: seq<real>): (k: nat)
    requires |s| > 0
    ensures k < |s|
    ensures forall j :: 0 <= j < |s| ==> s[j] <= s[k]
    ensures forall j :: 0 <= j < k ==> s[j] < s[k]
  {
    if |s| == 1 then 0
    else
      var k := ArgMax(s[..|s| - 1]);
      if s[|s| - 1] > s[k] then |s| - 1 else k
  }

  // ---------------------------------------------------------------------------
  // The coarse pass

  /** One row of the coarse pass: where the window starts in the first track, the lag
      of its best match in the second track and the correlation there. */
  datatype WindowMatch = WindowMatch(offset1: int, offset2: int, peak: real)

  /** Multiplying by a natural number keeps the order. */
  lemma {:induction false} MulMonotone(a: nat, b: nat, c: nat)
    requires a <= b
    ensures a * c <= b * c
  {
    if c > 0 {
      MulMonotone(a, b, c - 1);
      assert a * c == a * (c - 1) + a;
      assert b * c == b * (c - 1) + b;
    }
  }

  /** `num_fragments - 1`: one less than the number of windows, partial ones
      included, that the first track spans. */
  function WindowCount(n: nat, w: nat): int
    requires w > 0
  {
    (n + w - 1) / w - 1
  }

  /** The windows are all full and the samples left after them number between 1 and
      `w`: the last window is dropped even when it is full. */
  lemma WindowCountDropsTail(n: nat, w: nat)
    requires w > 0 && n > 0
    ensures WindowCount(n, w) >= 0
    ensures WindowCount(n, w) * w < n <= WindowCount(n, w) * w + w
    ensures WindowCount(n, w) >= 1 <==> n > w
  {
    var q := (n + w - 1) / w;
    var r := (n + w - 1) % w;
    assert n + w - 1 == q * w + r && 0 <= r < w;
    assert (q - 1) * w == q * w - w;
    if q - 1 >= 1 {
      assert (q - 1) * w >= w;
    }
  }

  /** Every counted window ends before the last sample of the track. */
  lemma WindowInside(n: nat, w: nat, i: nat)
    requires w > 0 && n > 0 && i < WindowCount(n, w)
    ensures i * w + w < n
  {
    WindowCountDropsTail(n, w);
    MulMonotone(i + 1, WindowCount(n, w), w);
    assert (i + 1) * w == i * w + w;
  }

  /** Chunk `i` of a track: samples [i * w, i * w + w). The coarse pass cuts its
      windows this way and the per-second pass its one-second blocks. */
  function Chunk(a: Samples, i: nat, w: nat): (f: Samples)
    requires i * w + w <= |a|
    ensures |f| == w
    ensures forall n :: 0 <= n < w ==> f[n] == a[i * w + n]
  {
    a[i * w..i * w + w]
  }

  /** The best match of one window in the second track: the first lag of greatest
      correlation, and that correlation. */
  function MatchWindow(audio2: Samples, fragment: Samples, start: int): (m: WindowMatch)
    requires |audio2| > 0 && |fragment| > 0
    ensures m.offset1 == start
    ensures var c := CorrelateValid(audio2, fragment);
      && 0 <= m.offset2 < |c|
      && m.peak == c[m.offset2]
      && (forall k :: 0 <= k < |c| ==> c[k] <= m.peak)
      && (forall k :: 0 <= k < m.offset2 ==> c[k] < m.peak)
    ensures |audio2| >= |fragment| ==> m.offset2 <= |audio2| - |fragment|
  {
    var c := CorrelateValid(audio2, fragment);
    var k := ArgMax(c);
    WindowMatch(start, k, c[k])
  }

  /** `correlation_with_async_moving_window`: one best match per full window of the
      first track, the last window excepted. */
  function AsyncMovingWindow(audio1: Samples, audio2: Samples, w: nat): (r: Result<seq<WindowMatch>, CorrelatorError>)
    requires w > 0
    ensures r.Ok? <==> |audio1| > w && |audio2| > 0
    ensures |audio1| <= w ==> r == Err(NoWindows)
    ensures r.Ok? ==> |r.value| == WindowCount(|audio1|, w) >= 1
    ensures r.Ok? ==> forall i :: 0 <= i < |r.value| ==>
              i * w + w < |audio1| && r.value[i] == MatchWindow(audio2, Chunk(audio1, i, w), i * w)
  {
    if |audio1| <= w then Err(NoWindows)
    else if |audio2| == 0 then Err(EmptyInput)
    else
      WindowCountDropsTail(|audio1|, w);
      Ok(WindowMatches(audio1, audio2, w, WindowCount(|audio1|, w)))
  }

  /** The best matches of windows 0 .. count - 1. */
  function WindowMatches(audio1: Samples, audio2: Samples, w: nat, count: nat): (ms: seq<WindowMatch>)
    requires w > 0 && |audio1| > 0 && |audio2| > 0 && count <= WindowCount(|audio1|, w)
    ensures |ms| == count
    ensures forall i :: 0 <= i < count ==>
              i * w + w < |audio1| && ms[i] == MatchWindow(audio2, Chunk(audio1, i, w), i * w)
  {
    if count == 0 then []
    else
      WindowInside(|audio1|, w, count - 1);
      WindowMatches(audio1, audio2, w, count - 1)
      + [MatchWindow(audio2, Chunk(audio1, count - 1, w), (count - 1) * w)]
  }

  // ---------------------------------------------------------------------------
  // The per-second pass

  /** One point of a correlation curve: a sample offset and a correlation value. */
  datatype CurveRow = CurveRow(offset: int, value: real)

  /** The whole blocks of a track of `n` samples: there are none exactly when the
      track is shorter than one block, and each lies inside the track. */
  lemma BlocksFit(n: nat, rate: nat)
    requires rate > 0
    ensures n / rate == 0 <==> n < rate
    ensures forall i :: 0 <= i < n / rate ==> i * rate + rate <= n
  {
    var q := n / rate;
    var r := n % rate;
    assert q * rate + r == n && 0 <= r < rate;
    if q >= 1 {
      MulMonotone(1, q, rate);
    }
    forall i | 0 <= i < q ensures i * rate + rate <= n {
      MulMonotone(i + 1, q, rate);
      assert (i + 1) * rate == i * rate + rate;
    }
  }

  /** `correlation_with_sync_moving_window`. `blockScore` stands for the z-score of
      each one-second block followed by the maximum of their full-mode correlation. */
  function SyncMovingWindow(audio1: Samples, audio2: Samples, rate: nat,
                            blockScore: (Samples, Samples) -> real): (r: Result<seq<CurveRow>, CorrelatorError>)
    requires rate > 0
    ensures |audio1| > |audio2| ==> r == Err(LengthOrder)
    ensures r.Err? <==> |audio1| > |audio2| || |audio1| < rate
    ensures r.Ok? ==> |r.value| == |audio1| / rate >= 1
    ensures r.Ok? ==> forall i :: 0 <= i < |r.value| ==>
              && i * rate + rate <= |audio1| <= |audio2|
              && r.value[i].offset == i * rate
              && r.value[i].value == blockScore(Chunk(audio1, i, rate), Chunk(audio2, i, rate))
  {
    if |audio1| > |audio2| then Err(LengthOrder)
    else
      var seconds := |audio1| / rate;
      BlocksFit(|audio1|, rate);
      if seconds == 0 then Err(NoFullSecond)
      else
        Ok(seq(seconds, i requires 0 <= i < seconds =>
                 CurveRow(i * rate, blockScore(Chunk(audio1, i, rate), Chunk(audio2, i, rate)))))
  }
}
