/**
 * MetricValuesList of assets/web-ui/js/profileData.js: the samples of a
 * profile, one metric vector per sample, in a chunked record array of
 * float64 fields. The samples are a sequence here; an index past the stored
 * samples but inside the last chunk reads as zeros, and one past that reads
 * a missing chunk, which is an error.
 */
module MetricValuesLists {
  import opened Wrappers
  import opened MetricValues
  import RangeMath
  import ProfileStats

  /** Elements per chunk: 1024 * 1024. */
  const ChunkSize: nat := 1048576

  /** Every sample has m metric values, the wall time first. */
  predicate Uniform(s: seq<Vec>, m: nat)
  {
    m > 0 && forall i :: 0 <= i < |s| ==> |s[i]| == m
  }

  /** Sample wall times never decrease. */
  predicate Sorted(s: seq<Vec>)
  {
    forall i, j :: 0 <= i < j < |s| ==> |s[i]| > 0 && |s[j]| > 0 && s[i][Wt] <= s[j][Wt]
  }

  /** The number of elements the allocated chunks hold. */
  function Capacity(size: nat): (c: nat)
    ensures size <= c && (size == 0 <==> c == 0)
  {
    if size == 0 then 0 else ((size - 1) / ChunkSize + 1) * ChunkSize
  }

  /** getElement: a stored sample, a zeroed slot of the last chunk, or nothing. */
  function Element(s: seq<Vec>, m: nat, idx: int): (r: Option<Vec>)
    requires Uniform(s, m)
    ensures r.Some? <==> 0 <= idx < Capacity(|s|)
    ensures r.Some? ==> |r.value| == m
    ensures 0 <= idx < |s| ==> r == Some(s[idx])
  {
    if 0 <= idx < |s| then Some(s[idx])
    else if 0 <= idx < Capacity(|s|) then Some(Fill(m, 0.0))
    else None
  }

  /** setRawMetricValuesData: the array grows to idx + 1 with zeroed slots. */
  function Stored(s: seq<Vec>, m: nat, idx: nat, v: Vec): (r: seq<Vec>)
    requires Uniform(s, m) && |v| == m
    ensures Uniform(r, m)
    ensures |r| == if idx < |s| then |s| else idx + 1
    ensures r[idx] == v
    ensures forall i :: 0 <= i < |r| && i != idx ==> r[i] == if i < |s| then s[i] else Fill(m, 0.0)
  {
    if idx < |s| then s[idx := v] else s + seq(idx - |s|, _ => Fill(m, 0.0)) + [v]
  }

  // ---------------------------------------------------------------------
  // _findNearestIdx
  // ---------------------------------------------------------------------

  /**
   * The bisection over [lo, hi). It goes left when time is below the centre
   * sample and right when it is above, so the bounds of the range always
   * bracket time, and the index it returns has time at its wall time or
   * between its wall time and its successor's.
   */
  function NearestIn(s: seq<Vec>, m: nat, time: real, lo: nat, hi: nat): (r: nat)
    requires Uniform(s, m) && lo < hi <= |s|
    requires lo == 0 || s[lo][Wt] < time
    requires hi == |s| || time < s[hi][Wt]
    ensures lo <= r < hi
    ensures Brackets(s, time, r)
    decreases hi - lo
  {
    if hi - lo == 1 then lo
    else
      var center := (lo + hi) / 2;
      if time < s[center][Wt] then NearestIn(s, m, time, lo, center)
      else if time > s[center][Wt] then NearestIn(s, m, time, center, hi)
      else center
  }

  /** Time is at sample r's wall time, or after it (or r is first) and before the next (or r is last). */
  predicate Brackets(s: seq<Vec>, time: real, r: nat)
    requires r < |s| && |s[r]| > 0 && (r + 1 < |s| ==> |s[r + 1]| > 0)
  {
    s[r][Wt] == time || ((r == 0 || s[r][Wt] < time) && (r + 1 == |s| || time < s[r + 1][Wt]))
  }

  /** _findNearestIdx over the whole list; an empty list has no chunk to read. */
  function FindNearest(s: seq<Vec>, m: nat, time: real): (r: Option<nat>)
    requires Uniform(s, m)
    ensures r.Some? <==> s != []
    ensures r.Some? ==> r.value < |s|
    ensures r.Some? ==> Brackets(s, time, r.value)
  {
    if s == [] then None else Some(NearestIn(s, m, time, 0, |s|))
  }

  /** In sorted samples the nearest index is the last one starting at or before time. */
  lemma NearestIsFloor(s: seq<Vec>, m: nat, time: real)
    requires Uniform(s, m) && Sorted(s) && s != [] && s[0][Wt] <= time
    ensures var r := FindNearest(s, m, time).value;
      s[r][Wt] <= time && forall j :: r < j < |s| && s[j][Wt] != time ==> time < s[j][Wt]
  {
    var r := FindNearest(s, m, time).value;
    if s[r][Wt] != time {
      assert r + 1 < |s| ==> time < s[r + 1][Wt];
    }
  }

  // ---------------------------------------------------------------------
  // getMetricValues
  // ---------------------------------------------------------------------

  /**
   * getMetricValues: the sample at time itself, or the interpolation between
   * the nearest sample and its neighbour on the side of time.
   */
  function MetricValuesAt(s: seq<Vec>, m: nat, time: real): (r: Result<Vec>)
    requires Uniform(s, m)
    ensures r.Ok? ==> |r.value| == m && s != []
    ensures s == [] ==> r.Err?
  {
    match FindNearest(s, m, time)
    case None => Err("no sample")
    case Some(n) =>
      if s[n][Wt] == time then Ok(s[n])
      else if s[n][Wt] < time then
        match Element(s, m, n + 1)
        case None => Err("no chunk")
        case Some(upper) => Ok(LerpByTime(s[n], upper, time))
      else
        // Time is before the first sample: there is no element below the nearest one.
        assert n == 0 && Element(s, m, n - 1).None?;
        Err("no chunk")
  }

  lemma LerpHitsTime(a: real, b: real, t: real)
    requires a < t < b
    ensures RangeMath.Lerp(a, b, (t - a) / (b - a)) == t
  {
    var x, y := t - a, b - a;
    var d := x / y;
    DivUnit(x, y);
    assert d * y == x;
    assert a * (1.0 - d) + b * d == a + d * y;
  }

  lemma DivUnit(x: real, y: real)
    requires 0.0 < x < y
    ensures 0.0 < x / y < 1.0
  {
    var d := x / y;
    assert d * y == x;
    assert d > 0.0 by {
      assert x / y == x * (1.0 / y);
    }
  }

  /** Inside sorted samples, the values at time carry time as their wall time. */
  lemma MetricValuesAtWallTime(s: seq<Vec>, m: nat, time: real)
    requires Uniform(s, m) && Sorted(s) && s != [] && s[0][Wt] <= time <= s[|s| - 1][Wt]
    ensures MetricValuesAt(s, m, time).Ok? && MetricValuesAt(s, m, time).value[Wt] == time
  {
    var n := FindNearest(s, m, time).value;
    if s[n][Wt] != time {
      if s[n][Wt] < time {
        assert n + 1 < |s|;
        LerpHitsTime(s[n][Wt], s[n + 1][Wt], time);
      }
    }
  }

  // ---------------------------------------------------------------------
  // getCumCostStats
  // ---------------------------------------------------------------------

  /** The differences between consecutive points. */
  function Deltas(points: seq<Vec>, m: nat): (r: seq<Vec>)
    requires forall k :: 0 <= k < |points| ==> |points[k]| == m
    ensures |r| == if points == [] then 0 else |points| - 1
    ensures forall k :: 0 <= k < |r| ==> |r[k]| == m
    decreases |points|
  {
    if |points| <= 1 then []
    else Deltas(points[..|points| - 1], m) + [Minus(points[|points| - 1], points[|points| - 2])]
  }

  lemma DeltasSnoc(p: seq<Vec>, x: Vec, m: nat)
    requires forall k :: 0 <= k < |p| ==> |p[k]| == m
    requires p != [] && |x| == m
    ensures Deltas(p + [x], m) == Deltas(p, m) + [Minus(x, p[|p| - 1])]
  {
    assert (p + [x])[..|p|] == p;
  }

  lemma EnvelopeSnoc(ds: seq<Vec>, d: Vec, m: nat)
    requires forall k :: 0 <= k < |ds| ==> |ds[k]| == m
    requires |d| == m
    ensures var e := ProfileStats.Envelope(ds, m);
      ProfileStats.Envelope(ds + [d], m) == (PlusNeg(e.0, d), PlusPos(e.1, d))
  {
    assert (ds + [d])[..|ds|] == ds;
  }

  /** The differences of consecutive points add up to last minus first. */
  lemma {:induction false} DeltasTelescope(points: seq<Vec>, m: nat)
    requires forall k :: 0 <= k < |points| ==> |points[k]| == m
    requires points != []
    ensures ProfileStats.SumAll(Deltas(points, m), m) == Minus(points[|points| - 1], points[0])
    decreases |points|
  {
    if |points| == 1 {
      MinusSelf(points[0]);
    } else {
      var init := points[..|points| - 1];
      DeltasTelescope(init, m);
      TelescopeStep(points, init, m);
    }
  }

  /** One more point adds its difference from the one before to the sum of the differences. */
  lemma TelescopeStep(points: seq<Vec>, init: seq<Vec>, m: nat)
    requires forall k :: 0 <= k < |points| ==> |points[k]| == m
    requires |points| >= 2 && init == points[..|points| - 1]
    requires ProfileStats.SumAll(Deltas(init, m), m) == Minus(init[|init| - 1], init[0])
    ensures ProfileStats.SumAll(Deltas(points, m), m) == Minus(points[|points| - 1], points[0])
  {
    var ds, di := Deltas(points, m), Deltas(init, m);
    var a, b, c := points[0], points[|points| - 2], points[|points| - 1];
    assert init[|init| - 1] == b && init[0] == a;
    assert ds == di + [Minus(c, b)];
    assert ds[..|ds| - 1] == di;
    MinusChain(a, b, c);
  }

  /** The first and last sample indices the loop of getCumCostStats visits. */
  function FirstIdx(s: seq<Vec>, m: nat, begin: real): (r: nat)
    requires Uniform(s, m) && s != []
    ensures r < |s|
  {
    var f := FindNearest(s, m, begin).value;
    if f < |s| - 1 && s[f][Wt] < begin then f + 1 else f
  }

  function LastIdx(s: seq<Vec>, m: nat, end: real): (r: nat)
    requires Uniform(s, m) && s != []
    ensures r < |s|
  {
    var l := FindNearest(s, m, end).value;
    if l > 0 && s[l][Wt] > end then l - 1 else l
  }

  /** The samples strictly inside the visited index range. */
  function Inside(s: seq<Vec>, m: nat, range: RangeMath.Interval): (r: seq<Vec>)
    requires Uniform(s, m) && s != []
    ensures forall k :: 0 <= k < |r| ==> |r[k]| == m
  {
    var f, l := FirstIdx(s, m, range.a), LastIdx(s, m, range.b);
    if f <= l then s[f..l + 1] else []
  }

  /** The points the cost is taken between: the values at begin, the samples inside, the values at end. */
  function CostPoints(s: seq<Vec>, m: nat, range: RangeMath.Interval): (r: Result<seq<Vec>>)
    requires Uniform(s, m)
    ensures r.Ok? <==> MetricValuesAt(s, m, range.a).Ok? && MetricValuesAt(s, m, range.b).Ok?
    ensures r.Ok? ==>
      r.value == [MetricValuesAt(s, m, range.a).value] + Inside(s, m, range) + [MetricValuesAt(s, m, range.b).value]
  {
    match MetricValuesAt(s, m, range.a)
    case Err(e) => Err(e)
    case Ok(first) =>
      match MetricValuesAt(s, m, range.b)
      case Err(e) => Err(e)
      case Ok(last) => Ok([first] + Inside(s, m, range) + [last])
  }

  /**
   * getCumCostStats as (min, max): an empty range has zero cost; otherwise
   * every step between consecutive points adds its negative part to min and
   * its positive part to max.
   */
  function CumCost(s: seq<Vec>, m: nat, range: RangeMath.Interval): (r: Result<(Vec, Vec)>)
    requires Uniform(s, m)
    ensures range.Length() == 0.0 ==> r == Ok((Fill(m, 0.0), Fill(m, 0.0)))
    ensures r.Ok? ==> |r.value.0| == m && |r.value.1| == m && NonPos(r.value.0) && NonNeg(r.value.1)
  {
    if range.Length() == 0.0 then Ok((Fill(m, 0.0), Fill(m, 0.0)))
    else match CostPoints(s, m, range)
      case Err(e) => Err(e)
      case Ok(points) =>
        ProfileStats.EnvelopeSplitsTotal(Deltas(points, m), m);
        Ok(ProfileStats.Envelope(Deltas(points, m), m))
  }

  /** min + max of the cumulative cost is the change of every metric over the range. */
  lemma CumCostIsNetChange(s: seq<Vec>, m: nat, range: RangeMath.Interval)
    requires Uniform(s, m) && range.Length() != 0.0 && CumCost(s, m, range).Ok?
    ensures Plus(CumCost(s, m, range).value.0, CumCost(s, m, range).value.1) ==
      Minus(MetricValuesAt(s, m, range.b).value, MetricValuesAt(s, m, range.a).value)
  {
    var points := CostPoints(s, m, range).value;
    ProfileStats.EnvelopeSplitsTotal(Deltas(points, m), m);
    DeltasTelescope(points, m);
  }

  /**
   * The loop of getCumCostStats: starting from first, each sample of indices
   * f..l in turn is merged into the stats as the step from the point before.
   */
  method MergeSteps(stats: ProfileStats.CumCostStats, s: seq<Vec>, m: nat, f: nat, l: int, first: Vec)
    returns (previous: Vec, ghost p: seq<Vec>)
    requires Uniform(s, m) && |first| == m && f < |s| && l < |s|
    requires stats.Valid() && |stats.min| == m && (stats.min, stats.max) == ProfileStats.Envelope([], m)
    modifies stats
    ensures p == [first] + (if f <= l then s[f..l + 1] else [])
    ensures forall k :: 0 <= k < |p| ==> |p[k]| == m
    ensures previous == p[|p| - 1]
    ensures stats.Valid() && |stats.min| == m && (stats.min, stats.max) == ProfileStats.Envelope(Deltas(p, m), m)
  {
    previous := first;
    p := [first];
    var i := f;
    while i <= l
      invariant f <= i <= |s| && (f <= l ==> i <= l + 1) && (l < f ==> i == f)
      invariant |p| == i - f + 1 && p[0] == first
      invariant forall k :: 1 <= k < |p| ==> p[k] == s[f + k - 1]
      invariant stats.Valid() && |stats.min| == m
      invariant previous == p[|p| - 1]
      invariant (stats.min, stats.max) == ProfileStats.Envelope(Deltas(p, m), m)
      decreases l + 1 - i
    {
      var current := s[i];
      MergeStep(stats, p, previous, current, m);
      p := p + [current];
      previous := current;
      i := i + 1;
    }
    PointsSlice(p, first, s, f, i);
    assert s[f..i] == if f <= l then s[f..l + 1] else [];
  }

  /** Points listed one by one from first and then s[f], s[f + 1], ... are first and a slice of s. */
  lemma PointsSlice(p: seq<Vec>, first: Vec, s: seq<Vec>, f: nat, i: nat)
    requires f <= i <= |s| && |p| == i - f + 1 && p[0] == first
    requires forall k :: 1 <= k < |p| ==> p[k] == s[f + k - 1]
    ensures p == [first] + s[f..i]
  {
  }

  /** One step of getCumCostStats: the difference from the previous point is merged into the stats. */
  method MergeStep(stats: ProfileStats.CumCostStats, ghost p: seq<Vec>, previous: Vec, current: Vec, m: nat)
    requires forall k :: 0 <= k < |p| ==> |p[k]| == m
    requires p != [] && previous == p[|p| - 1] && |current| == m
    requires stats.Valid() && |stats.min| == m && (stats.min, stats.max) == ProfileStats.Envelope(Deltas(p, m), m)
    modifies stats
    ensures stats.Valid() && |stats.min| == m
    ensures (stats.min, stats.max) == ProfileStats.Envelope(Deltas(p + [current], m), m)
  {
    DeltasSnoc(p, current, m);
    EnvelopeSnoc(Deltas(p, m), Minus(current, previous), m);
    stats.MergeMetricValues(Minus(current, previous));
  }

  class MetricValuesList {
    const metricCount: nat
    var samples: seq<Vec>

    ghost predicate Valid()
      reads this
    {
      Uniform(samples, metricCount)
    }

    constructor (m: nat)
      requires m > 0
      ensures Valid() && metricCount == m && samples == []
    {
      metricCount := m;
      samples := [];
    }

    /** setRawMetricValuesData: one metric value per metric, in the metrics' order. */
    method SetRawMetricValuesData(idx: nat, raw: Vec)
      requires Valid() && |raw| == metricCount
      modifies this
      ensures Valid() && samples == Stored(old(samples), metricCount, idx, raw)
    {
      samples := Stored(samples, metricCount, idx, raw);
    }

    /** getCumCostStats: the loop over the samples in the range, merged into fresh stats. */
    method GetCumCostStats(range: RangeMath.Interval) returns (r: Result<ProfileStats.CumCostStats>)
      requires Valid()
      ensures r.Ok? <==> CumCost(samples, metricCount, range).Ok?
      ensures r.Ok? ==> fresh(r.value) && r.value.Valid()
      ensures r.Ok? ==> (r.value.min, r.value.max) == CumCost(samples, metricCount, range).value
    {
      var m := metricCount;
      if range.Length() == 0.0 {
        var stats := new ProfileStats.CumCostStats(m);
        return Ok(stats);
      }
      var pts := CostPoints(samples, m, range);
      if pts.Err? {
        return Err(pts.error);
      }
      ghost var points := pts.value;
      var first := MetricValuesAt(samples, m, range.a).value;
      var last := MetricValuesAt(samples, m, range.b).value;
      var f, l := FirstIdx(samples, m, range.a), LastIdx(samples, m, range.b);
      var stats := new ProfileStats.CumCostStats(m);
      var previous, p := MergeSteps(stats, samples, m, f, l, first);
      assert points == p + [last];
      MergeStep(stats, p, previous, last, m);
      return Ok(stats);
    }
  }
}
