/**
 * CumCostStats and FunctionsStats of assets/web-ui/js/profileData.js.
 * Vector arithmetic is the one of module MetricValues, whose class
 * MetricValueSet performs it in place.
 */
module ProfileStats {
  import opened MetricValues
  import opened CallLists
  import RangeMath

  // ---------------------------------------------------------------------
  // CumCostStats: the signed envelope of cumulative cost.
  // ---------------------------------------------------------------------

  class CumCostStats {
    var min: Vec
    var max: Vec

    /** min never rises above 0 and max never drops below 0. */
    ghost predicate Valid()
      reads this
    {
      |min| == |max| && NonPos(min) && NonNeg(max)
    }

    constructor (m: nat)
      ensures Valid() && min == Fill(m, 0.0) && max == Fill(m, 0.0)
    {
      min := Fill(m, 0.0);
      max := Fill(m, 0.0);
    }

    /** merge: only negative parts reach min, only positive parts reach max. */
    method Merge(other: CumCostStats)
      requires Valid() && other.Valid() && |other.min| == |min|
      modifies this
      ensures Valid()
      ensures min == PlusNeg(old(min), old(other.min)) && max == PlusPos(old(max), old(other.max))
    {
      PlusNegKeepsNonPos(min, other.min);
      PlusPosKeepsNonNeg(max, other.max);
      var newMin := PlusNeg(min, other.min);
      var newMax := PlusPos(max, other.max);
      min, max := newMin, newMax;
    }

    method MergeMetricValues(v: Vec)
      requires Valid() && |v| == |min|
      modifies this
      ensures Valid()
      ensures min == PlusNeg(old(min), v) && max == PlusPos(old(max), v)
    {
      PlusNegKeepsNonPos(min, v);
      PlusPosKeepsNonNeg(max, v);
      min, max := PlusNeg(min, v), PlusPos(max, v);
    }

    /** getPosRange / getNegRange: [max(0, min), max(0, max)] and [min(0, min), min(0, max)]. */
    method GetPosNegRanges(metric: nat) returns (pos: RangeMath.Interval, neg: RangeMath.Interval)
      requires Valid() && metric < |min|
      ensures pos == RangeMath.Interval(0.0, max[metric]) && pos.Valid()
      ensures neg == RangeMath.Interval(min[metric], 0.0) && neg.Valid()
    {
      pos := RangeMath.Interval(RangeMath.Max(0.0, min[metric]), RangeMath.Max(0.0, max[metric]));
      neg := RangeMath.Interval(RangeMath.Min(0.0, min[metric]), RangeMath.Min(0.0, max[metric]));
    }
  }

  /** The envelope after folding a sequence of deltas into zero stats. */
  function Envelope(deltas: seq<Vec>, m: nat): (r: (Vec, Vec))
    requires forall k :: 0 <= k < |deltas| ==> |deltas[k]| == m
    ensures |r.0| == m && |r.1| == m
    decreases |deltas|
  {
    if deltas == [] then (Fill(m, 0.0), Fill(m, 0.0))
    else
      var e := Envelope(deltas[..|deltas| - 1], m);
      (PlusNeg(e.0, deltas[|deltas| - 1]), PlusPos(e.1, deltas[|deltas| - 1]))
  }

  function SumAll(deltas: seq<Vec>, m: nat): (r: Vec)
    requires forall k :: 0 <= k < |deltas| ==> |deltas[k]| == m
    ensures |r| == m
    decreases |deltas|
  {
    if deltas == [] then Fill(m, 0.0) else Plus(SumAll(deltas[..|deltas| - 1], m), deltas[|deltas| - 1])
  }

  /** min + max of the envelope is the total of the deltas, and min <= 0 <= max. */
  lemma {:induction false} EnvelopeSplitsTotal(deltas: seq<Vec>, m: nat)
    requires forall k :: 0 <= k < |deltas| ==> |deltas[k]| == m
    ensures Plus(Envelope(deltas, m).0, Envelope(deltas, m).1) == SumAll(deltas, m)
    ensures NonPos(Envelope(deltas, m).0) && NonNeg(Envelope(deltas, m).1)
    decreases |deltas|
  {
    if deltas != [] {
      var init := deltas[..|deltas| - 1];
      var d := deltas[|deltas| - 1];
      EnvelopeSplitsTotal(init, m);
      var e := Envelope(init, m);
      PosNegSplit(e.1, e.0, d);
      PlusCommutes(PlusPos(e.1, d), PlusNeg(e.0, d));
      PlusCommutes(e.1, e.0);
      PlusNegKeepsNonPos(e.0, d);
      PlusPosKeepsNonNeg(e.1, d);
    }
  }

  // ---------------------------------------------------------------------
  // FunctionsStats: per function index, calls and cost of outermost calls.
  // ---------------------------------------------------------------------

  datatype FnStats = FnStats(functionName: string, maxCycleDepth: nat, called: nat, inc: Vec, exc: Vec)

  predicate Uniform(calls: seq<CallInfo>, m: nat)
  {
    forall k :: 0 <= k < |calls| ==> |calls[k].inc| == m && |calls[k].exc| == m
  }

  predicate StatsShaped(s: map<int, FnStats>, m: nat)
  {
    forall k :: k in s ==> |s[k].inc| == m && |s[k].exc| == m
  }

  /** One step of the constructor's loop: the call is counted, its cost only at cycle depth 0. */
  function AddCall(s: map<int, FnStats>, c: CallInfo, m: nat): map<int, FnStats>
    requires |c.inc| == m && |c.exc| == m && StatsShaped(s, m)
  {
    var st := if c.fnIdx in s then s[c.fnIdx] else FnStats(c.name, 0, 0, Fill(m, 0.0), Fill(m, 0.0));
    var depth := if st.maxCycleDepth >= c.cycleDepth then st.maxCycleDepth else c.cycleDepth;
    var st2 := if c.cycleDepth > 0 then st.(called := st.called + 1, maxCycleDepth := depth)
      else st.(called := st.called + 1, maxCycleDepth := depth, inc := Plus(st.inc, c.inc), exc := Plus(st.exc, c.exc));
    s[c.fnIdx := st2]
  }

  function StatsOf(calls: seq<CallInfo>, m: nat): (s: map<int, FnStats>)
    requires Uniform(calls, m)
    ensures StatsShaped(s, m)
    decreases |calls|
  {
    if calls == [] then map[]
    else AddCall(StatsOf(calls[..|calls| - 1], m), calls[|calls| - 1], m)
  }

  // Independent per-function definitions of what the stats hold.

  function Called(calls: seq<CallInfo>, fn: int): nat
    decreases |calls|
  {
    if calls == [] then 0
    else Called(calls[..|calls| - 1], fn) + (if calls[|calls| - 1].fnIdx == fn then 1 else 0)
  }

  function MaxCycleDepth(calls: seq<CallInfo>, fn: int): nat
    decreases |calls|
  {
    if calls == [] then 0
    else
      var d := MaxCycleDepth(calls[..|calls| - 1], fn);
      var c := calls[|calls| - 1];
      if c.fnIdx == fn && c.cycleDepth > d then c.cycleDepth else d
  }

  /** The cost summed over the calls of fn at cycle depth 0 (exc when exc is true). */
  function OuterCost(calls: seq<CallInfo>, fn: int, m: nat, exc: bool): (r: Vec)
    requires Uniform(calls, m)
    ensures |r| == m
    decreases |calls|
  {
    if calls == [] then Fill(m, 0.0)
    else
      var s := OuterCost(calls[..|calls| - 1], fn, m, exc);
      var c := calls[|calls| - 1];
      if c.fnIdx == fn && c.cycleDepth == 0 then Plus(s, if exc then c.exc else c.inc) else s
  }

  predicate Mentions(calls: seq<CallInfo>, fn: int)
  {
    exists k :: 0 <= k < |calls| && calls[k].fnIdx == fn
  }

  /** The name recorded for fn: the one of its first call. */
  function FirstName(calls: seq<CallInfo>, fn: int): string
    requires Mentions(calls, fn)
    decreases |calls|
  {
    if calls[0].fnIdx == fn then calls[0].name
    else
      var k :| 0 <= k < |calls| && calls[k].fnIdx == fn;
      assert calls[1..][k - 1] == calls[k];
      FirstName(calls[1..], fn)
  }

  lemma FirstNameSnoc(calls: seq<CallInfo>, c: CallInfo, fn: int)
    requires Mentions(calls + [c], fn)
    ensures Mentions(calls, fn) ==> FirstName(calls + [c], fn) == FirstName(calls, fn)
    ensures !Mentions(calls, fn) ==> FirstName(calls + [c], fn) == c.name
    decreases |calls|
  {
    if calls == [] {
      assert (calls + [c])[0] == c;
    } else if calls[0].fnIdx != fn {
      assert (calls + [c])[1..] == calls[1..] + [c];
      if Mentions(calls, fn) {
        var k :| 0 <= k < |calls| && calls[k].fnIdx == fn;
        assert calls[1..][k - 1] == calls[k];
      } else {
        assert (calls + [c])[|calls|] == c;
      }
      FirstNameSnoc(calls[1..], c, fn);
    }
  }

  lemma MentionsSnoc(calls: seq<CallInfo>, c: CallInfo, fn: int)
    ensures Mentions(calls + [c], fn) <==> Mentions(calls, fn) || c.fnIdx == fn
  {
    if Mentions(calls, fn) {
      var k :| 0 <= k < |calls| && calls[k].fnIdx == fn;
      assert (calls + [c])[k] == calls[k];
    }
    if c.fnIdx == fn {
      assert (calls + [c])[|calls|] == c;
    }
    if Mentions(calls + [c], fn) {
      var k :| 0 <= k < |calls + [c]| && (calls + [c])[k].fnIdx == fn;
      if k < |calls| {
        assert (calls + [c])[k] == calls[k];
      }
    }
  }

  /**
   * The constructor's stats: a function has an entry iff some call has its
   * index, called counts every call, maxCycleDepth is the largest cycle depth
   * and inc/exc sum the calls at cycle depth 0.
   */
  lemma {:induction false} StatsOfCorrect(calls: seq<CallInfo>, m: nat, fn: int)
    requires Uniform(calls, m)
    ensures fn in StatsOf(calls, m) <==> Mentions(calls, fn)
    ensures fn in StatsOf(calls, m) ==>
      StatsOf(calls, m)[fn] == FnStats(FirstName(calls, fn), MaxCycleDepth(calls, fn), Called(calls, fn),
        OuterCost(calls, fn, m, false), OuterCost(calls, fn, m, true))
    decreases |calls|
  {
    if calls != [] {
      var init := calls[..|calls| - 1];
      var c := calls[|calls| - 1];
      assert calls == init + [c];
      StatsOfCorrect(init, m, fn);
      MentionsSnoc(init, c, fn);
      if Mentions(calls, fn) {
        FirstNameSnoc(init, c, fn);
      }
      if !Mentions(init, fn) {
        NotMentioned(init, fn, m);
        PlusZeroLeft(c.inc);
        PlusZeroLeft(c.exc);
      }
    }
  }

  lemma {:induction false} NotMentioned(calls: seq<CallInfo>, fn: int, m: nat)
    requires Uniform(calls, m) && !Mentions(calls, fn)
    ensures Called(calls, fn) == 0 && MaxCycleDepth(calls, fn) == 0
    ensures OuterCost(calls, fn, m, false) == Fill(m, 0.0) && OuterCost(calls, fn, m, true) == Fill(m, 0.0)
    decreases |calls|
  {
    if calls != [] {
      var init := calls[..|calls| - 1];
      assert forall k :: 0 <= k < |init| ==> init[k] == calls[k];
      NotMentioned(init, fn, m);
    }
  }

  lemma PlusZeroLeft(a: Vec)
    ensures Plus(Fill(|a|, 0.0), a) == a
  {
  }

  /** Both sides know the function: counts and costs add up, the deeper cycle wins. */
  function Combine(x: FnStats, y: FnStats): FnStats
    requires |x.inc| == |y.inc| && |x.exc| == |y.exc|
  {
    x.(called := x.called + y.called,
       maxCycleDepth := if x.maxCycleDepth >= y.maxCycleDepth then x.maxCycleDepth else y.maxCycleDepth,
       inc := Plus(x.inc, y.inc), exc := Plus(x.exc, y.exc))
  }

  /** merge: summed counts and costs, the larger cycle depth, missing entries copied. */
  function MergeStats(a: map<int, FnStats>, b: map<int, FnStats>, m: nat): (r: map<int, FnStats>)
    requires StatsShaped(a, m) && StatsShaped(b, m)
    ensures StatsShaped(r, m)
  {
    map k | k in a.Keys + b.Keys ::
      if k in a && k in b then Combine(a[k], b[k]) else if k in a then a[k] else b[k]
  }

  lemma {:induction false} CalledAppend(xs: seq<CallInfo>, ys: seq<CallInfo>, fn: int)
    ensures Called(xs + ys, fn) == Called(xs, fn) + Called(ys, fn)
    decreases |ys|
  {
    if ys == [] {
      assert xs + ys == xs;
    } else {
      var yi := ys[..|ys| - 1];
      assert (xs + ys)[..|xs + ys| - 1] == xs + yi;
      CalledAppend(xs, yi, fn);
    }
  }

  lemma {:induction false} MaxCycleDepthAppend(xs: seq<CallInfo>, ys: seq<CallInfo>, fn: int)
    ensures MaxCycleDepth(xs + ys, fn) ==
      if MaxCycleDepth(xs, fn) >= MaxCycleDepth(ys, fn) then MaxCycleDepth(xs, fn) else MaxCycleDepth(ys, fn)
    decreases |ys|
  {
    if ys == [] {
      assert xs + ys == xs;
    } else {
      var yi := ys[..|ys| - 1];
      assert (xs + ys)[..|xs + ys| - 1] == xs + yi;
      MaxCycleDepthAppend(xs, yi, fn);
    }
  }

  lemma {:induction false} OuterCostAppend(xs: seq<CallInfo>, ys: seq<CallInfo>, fn: int, m: nat, exc: bool)
    requires Uniform(xs, m) && Uniform(ys, m)
    ensures Uniform(xs + ys, m)
    ensures OuterCost(xs + ys, fn, m, exc) == Plus(OuterCost(xs, fn, m, exc), OuterCost(ys, fn, m, exc))
    decreases |ys|
  {
    assert Uniform(xs + ys, m) by {
      forall k | 0 <= k < |xs + ys|
        ensures |(xs + ys)[k].inc| == m && |(xs + ys)[k].exc| == m
      {
        if k < |xs| { assert (xs + ys)[k] == xs[k]; } else { assert (xs + ys)[k] == ys[k - |xs|]; }
      }
    }
    if ys == [] {
      assert xs + ys == xs;
      PlusZero(OuterCost(xs, fn, m, exc));
    } else {
      var yi := ys[..|ys| - 1];
      var y := ys[|ys| - 1];
      assert (xs + ys)[..|xs + ys| - 1] == xs + yi;
      assert Uniform(yi, m);
      OuterCostAppend(xs, yi, fn, m, exc);
      if y.fnIdx == fn && y.cycleDepth == 0 {
        PlusAssociates(OuterCost(xs, fn, m, exc), OuterCost(yi, fn, m, exc), if exc then y.exc else y.inc);
      }
    }
  }

  lemma MentionsAppend(xs: seq<CallInfo>, ys: seq<CallInfo>, fn: int)
    ensures Mentions(xs + ys, fn) <==> Mentions(xs, fn) || Mentions(ys, fn)
  {
    if Mentions(xs, fn) {
      var k :| 0 <= k < |xs| && xs[k].fnIdx == fn;
      assert (xs + ys)[k] == xs[k];
    }
    if Mentions(ys, fn) {
      var k :| 0 <= k < |ys| && ys[k].fnIdx == fn;
      assert (xs + ys)[|xs| + k] == ys[k];
    }
    if Mentions(xs + ys, fn) {
      var k :| 0 <= k < |xs + ys| && (xs + ys)[k].fnIdx == fn;
      if k < |xs| { assert (xs + ys)[k] == xs[k]; } else { assert (xs + ys)[k] == ys[k - |xs|]; }
    }
  }

  lemma {:induction false} FirstNameAppend(xs: seq<CallInfo>, ys: seq<CallInfo>, fn: int)
    requires Mentions(xs + ys, fn)
    ensures Mentions(xs, fn) ==> FirstName(xs + ys, fn) == FirstName(xs, fn)
    ensures !Mentions(xs, fn) ==> Mentions(ys, fn) && FirstName(xs + ys, fn) == FirstName(ys, fn)
    decreases |xs|
  {
    MentionsAppend(xs, ys, fn);
    if xs == [] {
      assert xs + ys == ys;
    } else {
      assert (xs + ys)[0] == xs[0];
      if xs[0].fnIdx != fn {
        assert (xs + ys)[1..] == xs[1..] + ys;
        assert Mentions(xs[1..] + ys, fn) by {
          var k :| 0 <= k < |xs + ys| && (xs + ys)[k].fnIdx == fn;
          assert (xs + ys)[1..][k - 1] == (xs + ys)[k];
        }
        assert Mentions(xs, fn) <==> Mentions(xs[1..], fn) by {
          if Mentions(xs, fn) {
            var k :| 0 <= k < |xs| && xs[k].fnIdx == fn;
            assert xs[1..][k - 1] == xs[k];
          }
          if Mentions(xs[1..], fn) {
            var k :| 0 <= k < |xs[1..]| && xs[1..][k].fnIdx == fn;
            assert xs[k + 1] == xs[1..][k];
          }
        }
        FirstNameAppend(xs[1..], ys, fn);
      }
    }
  }

  /** Merge algebra: merging the stats of two call lists gives the stats of their concatenation. */
  lemma MergeIsConcatenation(xs: seq<CallInfo>, ys: seq<CallInfo>, m: nat)
    requires Uniform(xs, m) && Uniform(ys, m)
    ensures Uniform(xs + ys, m)
    ensures MergeStats(StatsOf(xs, m), StatsOf(ys, m), m) == StatsOf(xs + ys, m)
  {
    OuterCostAppend(xs, ys, 0, m, false);
    var a, b := StatsOf(xs, m), StatsOf(ys, m);
    var r, s := MergeStats(a, b, m), StatsOf(xs + ys, m);
    forall fn | true
      ensures fn in r <==> fn in s
      ensures fn in r ==> r[fn] == s[fn]
    {
      StatsOfCorrect(xs, m, fn);
      StatsOfCorrect(ys, m, fn);
      StatsOfCorrect(xs + ys, m, fn);
      MentionsAppend(xs, ys, fn);
      if fn in r {
        FirstNameAppend(xs, ys, fn);
        CalledAppend(xs, ys, fn);
        MaxCycleDepthAppend(xs, ys, fn);
        OuterCostAppend(xs, ys, fn, m, false);
        OuterCostAppend(xs, ys, fn, m, true);
        if fn !in a {
          NotMentioned(xs, fn, m);
          PlusZeroLeft(OuterCost(ys, fn, m, false));
          PlusZeroLeft(OuterCost(ys, fn, m, true));
        } else if fn !in b {
          NotMentioned(ys, fn, m);
          PlusZero(OuterCost(xs, fn, m, false));
          PlusZero(OuterCost(xs, fn, m, true));
        }
      }
    }
  }

  /** The key order of the constructor's Map: function indices by first appearance. */
  function OrderOf(calls: seq<CallInfo>): seq<int>
    decreases |calls|
  {
    if calls == [] then []
    else
      var o := OrderOf(calls[..|calls| - 1]);
      if calls[|calls| - 1].fnIdx in o then o else o + [calls[|calls| - 1].fnIdx]
  }

  /** merge's key order: the left keys, then the right keys not yet present. */
  function MergeOrder(a: seq<int>, b: seq<int>): seq<int>
    decreases |b|
  {
    if b == [] then a
    else
      var o := MergeOrder(a, b[..|b| - 1]);
      if b[|b| - 1] in o then o else o + [b[|b| - 1]]
  }

  predicate Distinct(o: seq<int>)
  {
    forall i, j :: 0 <= i < j < |o| ==> o[i] != o[j]
  }

  /** The key order lists each function of the stats exactly once. */
  lemma {:induction false} OrderOfKeys(calls: seq<CallInfo>, m: nat)
    requires Uniform(calls, m)
    ensures Distinct(OrderOf(calls))
    ensures forall k :: k in OrderOf(calls) <==> k in StatsOf(calls, m)
    decreases |calls|
  {
    if calls != [] {
      OrderOfKeys(calls[..|calls| - 1], m);
    }
  }

  lemma {:induction false} MergeOrderKeys(a: seq<int>, b: seq<int>)
    requires Distinct(a)
    ensures Distinct(MergeOrder(a, b))
    ensures forall k :: k in MergeOrder(a, b) <==> k in a || k in b
    ensures |MergeOrder(a, b)| >= |a| && MergeOrder(a, b)[..|a|] == a
    decreases |b|
  {
    if b != [] {
      var bi := b[..|b| - 1];
      MergeOrderKeys(a, bi);
      assert forall k :: k in b <==> k in bi || k == b[|b| - 1];
      var o := MergeOrder(a, bi);
      assert (o + [b[|b| - 1]])[..|a|] == o[..|a|];
    }
  }

  /** The stats object: the constructor folds the calls, merge folds another object in. */
  class FunctionsStats {
    const metricCount: nat
    var order: seq<int>
    var stats: map<int, FnStats>

    ghost predicate Valid()
      reads this
    {
      StatsShaped(stats, metricCount) && Distinct(order) && forall k :: k in order <==> k in stats
    }

    constructor (calls: seq<CallInfo>, m: nat)
      requires Uniform(calls, m)
      ensures Valid() && metricCount == m
      ensures stats == StatsOf(calls, m) && order == OrderOf(calls)
    {
      metricCount := m;
      var s: map<int, FnStats> := map[];
      var o: seq<int> := [];
      for i := 0 to |calls|
        invariant Uniform(calls[..i], m)
        invariant s == StatsOf(calls[..i], m) && o == OrderOf(calls[..i])
      {
        assert calls[..i + 1][..i] == calls[..i];
        if calls[i].fnIdx !in s {
          OrderOfKeys(calls[..i], m);
          o := o + [calls[i].fnIdx];
        } else {
          OrderOfKeys(calls[..i], m);
        }
        s := AddCall(s, calls[i], m);
      }
      assert calls[..|calls|] == calls;
      OrderOfKeys(calls, m);
      stats, order := s, o;
    }

    /** merge: the other object's keys in their order. */
    method Merge(other: FunctionsStats)
      requires Valid() && other.Valid() && other.metricCount == metricCount
      modifies this
      ensures Valid()
      ensures stats == MergeStats(old(stats), old(other.stats), metricCount)
      ensures order == MergeOrder(old(order), old(other.order))
    {
      ghost var a, b, bo := stats, other.stats, other.order;
      var s := stats;
      var o := order;
      for i := 0 to |other.order|
        invariant stats == a && other.stats == b && other.order == bo
        invariant StatsShaped(s, metricCount)
        invariant forall k :: k in s <==> k in a || k in bo[..i]
        invariant forall k :: k in s ==>
          s[k] == (if k in bo[..i] && k in a then Combine(a[k], b[k]) else if k in a then a[k] else b[k])
        invariant o == MergeOrder(order, bo[..i])
        invariant forall k :: k in o <==> k in s
      {
        var key := other.order[i];
        assert bo[..i + 1] == bo[..i] + [key];
        assert key !in bo[..i];
        var st := other.stats[key];
        if key !in s {
          s := s[key := st];
          o := o + [key];
        } else {
          s := s[key := Combine(s[key], st)];
        }
      }
      assert bo[..|bo|] == bo;
      MergeLoopDone(a, b, bo, s, metricCount);
      MergeOrderKeys(order, bo);
      stats, order := s, o;
    }
  }

  /** After the last key the loop's map is the merge. */
  lemma MergeLoopDone(a: map<int, FnStats>, b: map<int, FnStats>, bo: seq<int>, s: map<int, FnStats>, m: nat)
    requires StatsShaped(a, m) && StatsShaped(b, m)
    requires forall k :: k in bo <==> k in b
    requires forall k :: k in s <==> k in a || k in bo
    requires forall k :: k in s ==>
      s[k] == (if k in bo && k in a then Combine(a[k], b[k]) else if k in a then a[k] else b[k])
    ensures s == MergeStats(a, b, m)
  {
    var r := MergeStats(a, b, m);
    forall k | k in s.Keys ensures k in r.Keys { }
    forall k | k in r.Keys ensures k in s.Keys { }
    assert s.Keys == r.Keys;
    assert forall k :: k in s ==> s[k] == r[k];
  }
}
