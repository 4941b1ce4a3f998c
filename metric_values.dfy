/**
 * MetricValueSet of the web UI (assets/web-ui/js/profileData.js): one value
 * per enabled metric. The metrics of a profile are listed in the order of
 * the metric table, so the wall-time metric "wt" is position 0 of a vector.
 */
module MetricValues {
  import opened RangeMath

  type Vec = seq<real>

  /** Position of the wall-time metric. */
  const Wt: nat := 0

  function Fill(n: nat, v: real): Vec
  {
    seq(n, _ => v)
  }

  function Plus(a: Vec, b: Vec): Vec
    requires |a| == |b|
  {
    seq(|a|, i requires 0 <= i < |a| => a[i] + b[i])
  }

  function Minus(a: Vec, b: Vec): Vec
    requires |a| == |b|
  {
    seq(|a|, i requires 0 <= i < |a| => a[i] - b[i])
  }

  /** addPos: only the positive components of b are added. */
  function PlusPos(a: Vec, b: Vec): Vec
    requires |a| == |b|
  {
    seq(|a|, i requires 0 <= i < |a| => if b[i] > 0.0 then a[i] + b[i] else a[i])
  }

  /** addNeg: only the negative components of b are added. */
  function PlusNeg(a: Vec, b: Vec): Vec
    requires |a| == |b|
  {
    seq(|a|, i requires 0 <= i < |a| => if b[i] < 0.0 then a[i] + b[i] else a[i])
  }

  function MinOf(a: Vec, b: Vec): Vec
    requires |a| == |b|
  {
    seq(|a|, i requires 0 <= i < |a| => Min(a[i], b[i]))
  }

  function MaxOf(a: Vec, b: Vec): Vec
    requires |a| == |b|
  {
    seq(|a|, i requires 0 <= i < |a| => Max(a[i], b[i]))
  }

  /** Componentwise a <= b. */
  predicate Le(a: Vec, b: Vec)
  {
    |a| == |b| && forall i :: 0 <= i < |a| ==> a[i] <= b[i]
  }

  predicate NonPos(a: Vec) { forall i :: 0 <= i < |a| ==> a[i] <= 0.0 }

  predicate NonNeg(a: Vec) { forall i :: 0 <= i < |a| ==> a[i] >= 0.0 }

  /** The interpolation distance of lerpByTime; equal wall times give 0. */
  function TimeDist(a: Vec, b: Vec, time: real): real
    requires |a| > 0 && |b| > 0
  {
    if a[Wt] == b[Wt] then 0.0 else (time - a[Wt]) / (b[Wt] - a[Wt])
  }

  /** lerpByTime: a copy of a for equal wall times, else every metric interpolated. */
  function LerpByTime(a: Vec, b: Vec, time: real): Vec
    requires |a| == |b| > 0
  {
    if a[Wt] == b[Wt] then a
    else seq(|a|, i requires 0 <= i < |a| => Lerp(a[i], b[i], TimeDist(a, b, time)))
  }

  // ---------------------------------------------------------------------
  // Algebra of the vector operations.
  // ---------------------------------------------------------------------

  lemma PlusCommutes(a: Vec, b: Vec)
    requires |a| == |b|
    ensures Plus(a, b) == Plus(b, a)
  {
  }

  lemma PlusAssociates(a: Vec, b: Vec, c: Vec)
    requires |a| == |b| == |c|
    ensures Plus(Plus(a, b), c) == Plus(a, Plus(b, c))
  {
  }

  lemma PlusZero(a: Vec)
    ensures Plus(a, Fill(|a|, 0.0)) == a
  {
  }

  lemma MinusInverse(a: Vec, b: Vec)
    requires |a| == |b|
    ensures Plus(Minus(a, b), b) == a
  {
  }

  lemma PlusInverse(a: Vec, b: Vec)
    requires |a| == |b|
    ensures Minus(Plus(a, b), b) == a
  {
  }

  lemma MinusSelf(a: Vec)
    ensures Minus(a, a) == Fill(|a|, 0.0)
  {
  }

  lemma ZeroIdentities(a: Vec)
    ensures Plus(Fill(|a|, 0.0), a) == a && Minus(a, Fill(|a|, 0.0)) == a
  {
  }

  /** Consecutive differences chain: (b - a) + (c - b) == c - a. */
  lemma MinusChain(a: Vec, b: Vec, c: Vec)
    requires |a| == |b| == |c|
    ensures Plus(Minus(b, a), Minus(c, b)) == Minus(c, a)
  {
  }

  /** Adding the positive and the negative part of d adds all of d. */
  lemma PosNegSplit(x: Vec, y: Vec, d: Vec)
    requires |x| == |y| == |d|
    ensures Plus(PlusPos(x, d), PlusNeg(y, d)) == Plus(Plus(x, y), d)
  {
  }

  /** addNeg can only lower a vector, addPos only raise it. */
  lemma PlusNegLowers(a: Vec, b: Vec)
    requires |a| == |b|
    ensures Le(PlusNeg(a, b), a) && Le(a, PlusPos(a, b))
  {
  }

  lemma PlusNegKeepsNonPos(a: Vec, b: Vec)
    requires |a| == |b| && NonPos(a)
    ensures NonPos(PlusNeg(a, b))
  {
  }

  lemma PlusPosKeepsNonNeg(a: Vec, b: Vec)
    requires |a| == |b| && NonNeg(a)
    ensures NonNeg(PlusPos(a, b))
  {
  }

  /** min/max are the greatest lower and the least upper bound. */
  lemma MinMaxBounds(a: Vec, b: Vec)
    requires |a| == |b|
    ensures Le(MinOf(a, b), a) && Le(MinOf(a, b), b)
    ensures Le(a, MaxOf(a, b)) && Le(b, MaxOf(a, b))
    ensures Le(a, b) ==> MinOf(a, b) == a && MaxOf(a, b) == b
  {
  }

  /** lerpByTime returns a at a's wall time and b at b's, and stays between them. */
  lemma {:induction false} LerpByTimeEnds(a: Vec, b: Vec, time: real)
    requires |a| == |b| > 0
    ensures LerpByTime(a, b, a[Wt]) == a
    ensures a[Wt] < b[Wt] && time >= b[Wt] ==> LerpByTime(a, b, time) == b
    ensures forall i :: 0 <= i < |a| ==>
      Min(a[i], b[i]) <= LerpByTime(a, b, time)[i] <= Max(a[i], b[i])
  {
    var r := LerpByTime(a, b, a[Wt]);
    if a[Wt] != b[Wt] {
      assert TimeDist(a, b, a[Wt]) == 0.0;
      assert forall i :: 0 <= i < |a| ==> r[i] == a[i];
      if a[Wt] < b[Wt] && time >= b[Wt] {
        var d := TimeDist(a, b, time);
        assert time - a[Wt] >= b[Wt] - a[Wt] > 0.0;
        DivAtLeastOne(time - a[Wt], b[Wt] - a[Wt]);
        assert d >= 1.0;
        assert forall i :: 0 <= i < |a| ==> LerpByTime(a, b, time)[i] == b[i];
      }
    } else {
      assert forall i :: 0 <= i < |a| ==> Min(a[i], b[i]) <= a[i] <= Max(a[i], b[i]);
    }
  }

  lemma DivAtLeastOne(x: real, y: real)
    requires x >= y > 0.0
    ensures x / y >= 1.0
  {
  }

  // ---------------------------------------------------------------------
  // The mutable set: every operation updates `values` in place.
  // ---------------------------------------------------------------------

  class MetricValueSet {
    var values: Vec

    constructor (v: Vec)
      ensures values == v
    {
      values := v;
    }

    /** createFromMetricsAndValue: n metrics all holding v. */
    static method CreateFromMetricsAndValue(n: nat, v: real) returns (r: Vec)
      ensures r == Fill(n, v)
    {
      r := [];
      for i := 0 to n
        invariant r == Fill(i, v)
      {
        r := r + [v];
      }
    }

    /** lerpByTime, metric by metric. */
    static method LerpByTimeOf(a: Vec, b: Vec, time: real) returns (r: Vec)
      requires |a| == |b| > 0
      ensures r == LerpByTime(a, b, time)
    {
      if a[Wt] == b[Wt] {
        return a;
      }
      var dist := (time - a[Wt]) / (b[Wt] - a[Wt]);
      r := [];
      for i := 0 to |a|
        invariant |r| == i
        invariant forall j :: 0 <= j < i ==> r[j] == Lerp(a[j], b[j], dist)
      {
        r := r + [Lerp(a[i], b[i], dist)];
      }
    }

    method Copy() returns (c: MetricValueSet)
      ensures fresh(c) && c.values == values
    {
      c := new MetricValueSet(values);
    }

    method Set(v: real)
      modifies this
      ensures values == Fill(|old(values)|, v)
    {
      for i := 0 to |values|
        invariant |values| == |old(values)|
        invariant forall j :: 0 <= j < i ==> values[j] == v
      {
        values := values[i := v];
      }
    }

    method Add(other: MetricValueSet)
      requires |other.values| == |values|
      modifies this
      ensures values == Plus(old(values), old(other.values))
    {
      ghost var a, b := values, other.values;
      for i := 0 to |values|
        invariant |values| == |a|
        invariant other != this ==> other.values == b
        invariant forall j :: 0 <= j < i ==> values[j] == a[j] + b[j]
        invariant forall j :: i <= j < |a| ==> values[j] == a[j]
      {
        values := values[i := values[i] + other.values[i]];
      }
    }

    method Sub(other: MetricValueSet)
      requires |other.values| == |values|
      modifies this
      ensures values == Minus(old(values), old(other.values))
    {
      ghost var a, b := values, other.values;
      for i := 0 to |values|
        invariant |values| == |a|
        invariant other != this ==> other.values == b
        invariant forall j :: 0 <= j < i ==> values[j] == a[j] - b[j]
        invariant forall j :: i <= j < |a| ==> values[j] == a[j]
      {
        values := values[i := values[i] - other.values[i]];
      }
    }

    method AddPos(other: MetricValueSet)
      requires |other.values| == |values|
      modifies this
      ensures values == PlusPos(old(values), old(other.values))
    {
      ghost var a, b := values, other.values;
      for i := 0 to |values|
        invariant |values| == |a|
        invariant other != this ==> other.values == b
        invariant forall j :: 0 <= j < i ==> values[j] == if b[j] > 0.0 then a[j] + b[j] else a[j]
        invariant forall j :: i <= j < |a| ==> values[j] == a[j]
      {
        if other.values[i] > 0.0 {
          values := values[i := values[i] + other.values[i]];
        }
      }
    }

    method AddNeg(other: MetricValueSet)
      requires |other.values| == |values|
      modifies this
      ensures values == PlusNeg(old(values), old(other.values))
    {
      ghost var a, b := values, other.values;
      for i := 0 to |values|
        invariant |values| == |a|
        invariant other != this ==> other.values == b
        invariant forall j :: 0 <= j < i ==> values[j] == if b[j] < 0.0 then a[j] + b[j] else a[j]
        invariant forall j :: i <= j < |a| ==> values[j] == a[j]
      {
        if other.values[i] < 0.0 {
          values := values[i := values[i] + other.values[i]];
        }
      }
    }

    method Min(other: MetricValueSet)
      requires |other.values| == |values|
      modifies this
      ensures values == MinOf(old(values), old(other.values))
    {
      ghost var a, b := values, other.values;
      for i := 0 to |values|
        invariant |values| == |a|
        invariant other != this ==> other.values == b
        invariant forall j :: 0 <= j < i ==> values[j] == RangeMath.Min(a[j], b[j])
        invariant forall j :: i <= j < |a| ==> values[j] == a[j]
      {
        values := values[i := RangeMath.Min(values[i], other.values[i])];
      }
    }

    method Max(other: MetricValueSet)
      requires |other.values| == |values|
      modifies this
      ensures values == MaxOf(old(values), old(other.values))
    {
      ghost var a, b := values, other.values;
      for i := 0 to |values|
        invariant |values| == |a|
        invariant other != this ==> other.values == b
        invariant forall j :: 0 <= j < i ==> values[j] == RangeMath.Max(a[j], b[j])
        invariant forall j :: i <= j < |a| ==> values[j] == a[j]
      {
        values := values[i := RangeMath.Max(values[i], other.values[i])];
      }
    }
  }
}
