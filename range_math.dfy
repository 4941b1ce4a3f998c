/**
 * The interval arithmetic of the web UI (assets/web-ui/js/math.js): the
 * clamp `bound`, `lerp`, and `Range`. Read-only queries are functions on the
 * value `Interval`; the in-place `scale`, `shift` and `bound` are methods of
 * the class `Range`. JavaScript's optional arguments are `Option`s, and the
 * `x || d` idiom is `OrDefault`, which also replaces an explicit 0.
 */
module RangeMath {
  import opened Wrappers

  function Min(x: real, y: real): real { if x <= y then x else y }
  function Max(x: real, y: real): real { if x >= y then x else y }

  /** `v || d` for a number: 0 and a missing value fall back to d. */
  function OrDefault(v: Option<real>, d: real): real
  {
    if v.None? || v.value == 0.0 then d else v.value
  }

  /** bound(a, low, up) = max(low || 0, min(a, up || 1)). */
  function Bound(x: real, low: Option<real>, up: Option<real>): (r: real)
    ensures var lo, hi := OrDefault(low, 0.0), OrDefault(up, 1.0);
      lo <= hi ==> lo <= r <= hi && (lo <= x <= hi ==> r == x)
    ensures var lo := OrDefault(low, 0.0); lo > OrDefault(up, 1.0) ==> r == lo
  {
    Max(OrDefault(low, 0.0), Min(x, OrDefault(up, 1.0)))
  }

  /** An explicit upper bound of 0 behaves as the default 1. */
  lemma ZeroUpperActsAsOne(x: real)
    ensures Bound(x, None, Some(0.0)) == Bound(x, None, None) == Max(0.0, Min(x, 1.0))
  {
  }

  /** Clamping is monotone, which is why Range.bound keeps a <= b. */
  lemma BoundMonotone(x: real, y: real, low: Option<real>, up: Option<real>)
    requires x <= y
    ensures Bound(x, low, up) <= Bound(y, low, up)
  {
  }

  /** lerp(a, b, dist) with dist first clamped to [0, 1]. */
  function Lerp(a: real, b: real, dist: real): (r: real)
    ensures Min(a, b) <= r <= Max(a, b)
    ensures dist <= 0.0 ==> r == a
    ensures dist >= 1.0 ==> r == b
  {
    var d := Bound(dist, None, None);
    LerpBetween(a, b, d);
    a * (1.0 - d) + b * d
  }

  lemma LerpBetween(a: real, b: real, d: real)
    requires 0.0 <= d <= 1.0
    ensures Min(a, b) <= a * (1.0 - d) + b * d <= Max(a, b)
  {
    var r := a * (1.0 - d) + b * d;
    assert r == a + (b - a) * d;
    if a <= b {
      NonNegProduct(b - a, d);
      NonNegProduct(b - a, 1.0 - d);
      assert (b - a) * d + (b - a) * (1.0 - d) == b - a;
    } else {
      NonNegProduct(a - b, d);
      NonNegProduct(a - b, 1.0 - d);
      assert (a - b) * d + (a - b) * (1.0 - d) == a - b;
    }
  }

  lemma NonNegProduct(x: real, y: real)
    requires x >= 0.0 && y >= 0.0
    ensures x * y >= 0.0
  {
  }

  /** The two ends of a Range; the constructor only admits a <= b. */
  datatype Interval = Interval(a: real, b: real)
  {
    ghost predicate Valid() { a <= b }

    function Length(): real { b - a }

    function Center(): real { (a + b) / 2.0 }

    function Contains(o: Interval): bool { a <= o.a && o.b <= b }

    function IsContainedBy(o: Interval): bool { o.Contains(this) }

    /** Closed intervals: touching ends overlap. */
    function Overlaps(o: Interval): bool { !(b < o.a || o.b < a) }
  }

  /** new Range(a, b): throws when a > b. */
  function NewInterval(a: real, b: real): (r: Result<Interval>)
    ensures r.Ok? <==> a <= b
    ensures r.Ok? ==> r.value == Interval(a, b) && r.value.Valid() && r.value.Length() >= 0.0
  {
    if a > b then Err("Invalid range") else Ok(Interval(a, b))
  }

  /** intersection: throws on disjoint ranges. */
  function Intersection(x: Interval, y: Interval): (r: Result<Interval>)
    requires x.Valid() && y.Valid()
    ensures r.Ok? <==> x.Overlaps(y)
    ensures r.Ok? ==> r.value.Valid() && x.Contains(r.value) && y.Contains(r.value)
  {
    if !x.Overlaps(y) then Err("Ranges do not overlap")
    else NewInterval(Max(x.a, y.a), Min(x.b, y.b))
  }

  /** The intersection is the largest range both contain. */
  lemma IntersectionGreatest(x: Interval, y: Interval, z: Interval)
    requires x.Valid() && y.Valid() && z.Valid()
    requires x.Contains(z) && y.Contains(z)
    ensures Intersection(x, y).Ok? && Intersection(x, y).value.Contains(z)
  {
  }

  /** subRange(ratio, num): the num-th slice of width ratio * length, clipped. */
  function SubRange(x: Interval, ratio: real, num: real): Result<Interval>
  {
    var width := ratio * x.Length();
    NewInterval(Max(x.a, x.a + width * num), Min(x.b, x.a + width * (num + 1.0)))
  }

  /** The two halves used by the call range tree. */
  lemma {:induction false} HalvesPartition(x: Interval)
    requires x.Valid()
    ensures SubRange(x, 0.5, 0.0) == Ok(Interval(x.a, x.Center()))
    ensures SubRange(x, 0.5, 1.0) == Ok(Interval(x.Center(), x.b))
    ensures x.Contains(SubRange(x, 0.5, 0.0).value) && x.Contains(SubRange(x, 0.5, 1.0).value)
  {
    var w := 0.5 * x.Length();
    assert x.a + w * 0.0 == x.a;
    assert x.a + w * (0.0 + 1.0) == x.Center();
    assert x.a + w * 1.0 == x.Center();
    assert x.a + w * (1.0 + 1.0) == x.b;
  }

  lemma OverlapsSymmetric(x: Interval, y: Interval)
    ensures x.Overlaps(y) == y.Overlaps(x)
  {
  }

  lemma OverlapsReflexive(x: Interval)
    requires x.Valid()
    ensures x.Overlaps(x)
  {
  }

  lemma TouchingOverlap(x: Interval, y: Interval)
    requires x.Valid() && y.Valid() && x.b == y.a
    ensures x.Overlaps(y)
  {
  }

  lemma ContainsReflexive(x: Interval)
    ensures x.Contains(x)
  {
  }

  lemma ContainsTransitive(x: Interval, y: Interval, z: Interval)
    requires x.Contains(y) && y.Contains(z)
    ensures x.Contains(z)
  {
  }

  lemma ContainedByConverse(x: Interval, y: Interval)
    ensures x.IsContainedBy(y) <==> y.Contains(x)
  {
  }

  lemma ContainsImpliesOverlaps(x: Interval, y: Interval)
    requires y.Valid() && x.Contains(y)
    ensures x.Overlaps(y) && y.Overlaps(x)
  {
  }

  /** A Range object, whose scale, shift and bound update its ends in place. */
  class Range {
    var a: real
    var b: real

    function Value(): Interval
      reads this
    {
      Interval(a, b)
    }

    /** The constructor without its check; see New for the checked path. */
    constructor Make(a0: real, b0: real)
      requires a0 <= b0
      ensures a == a0 && b == b0
    {
      a := a0;
      b := b0;
    }

    /** new Range(a, b): a fresh range, or the thrown error when a > b. */
    static method New(a0: real, b0: real) returns (r: Result<Range>)
      ensures r.Err? <==> a0 > b0
      ensures r.Ok? ==> fresh(r.value) && r.value.Value() == Interval(a0, b0)
    {
      if a0 > b0 {
        return Err("Invalid range");
      }
      var x := new Range.Make(a0, b0);
      return Ok(x);
    }

    /**
     * copy(): a fresh range with the same ends, through the checked
     * constructor, which throws once scaling by a negative factor has
     * left a > b.
     */
    method Copy() returns (r: Result<Range>)
      ensures r.Err? <==> a > b
      ensures r.Ok? ==> fresh(r.value) && r.value.Value() == Value()
    {
      r := New(a, b);
    }

    /** scale(factor): both ends, hence the length, multiplied by factor. */
    method Scale(factor: real)
      modifies this
      ensures a == old(a) * factor && b == old(b) * factor
      ensures Value().Length() == old(Value().Length()) * factor
    {
      a := a * factor;
      b := b * factor;
    }

    /** shift(dist): both ends moved by dist; the length is kept. */
    method Shift(dist: real)
      modifies this
      ensures a == old(a) + dist && b == old(b) + dist
      ensures Value().Length() == old(Value().Length())
    {
      a := a + dist;
      b := b + dist;
    }

    /**
     * bound(low, up): both ends clamped, reset to the bounds if that leaves
     * them out of order; from a <= b the reset never fires.
     */
    method BoundIn(low: Option<real>, up: Option<real>)
      modifies this
      ensures Value() == BoundInterval(old(Value()), low, up)
      ensures old(a) <= old(b) ==> a == Bound(old(a), low, up) && b == Bound(old(b), low, up) && a <= b
    {
      ghost var x := Value();
      if a <= b {
        BoundIntervalNoReset(x, low, up);
      }
      var lo := OrDefault(low, 0.0);
      var hi := OrDefault(up, 1.0);
      var na := Bound(a, Some(lo), Some(hi));
      var nb := Bound(b, Some(lo), Some(hi));
      if na > nb {
        na, nb := lo, hi;
      }
      a, b := na, nb;
    }
  }

  /** Range.bound as a value: the reset branch is dead whenever a <= b. */
  function BoundInterval(x: Interval, low: Option<real>, up: Option<real>): (r: Interval)
  {
    var lo := OrDefault(low, 0.0);
    var hi := OrDefault(up, 1.0);
    var a := Bound(x.a, Some(lo), Some(hi));
    var b := Bound(x.b, Some(lo), Some(hi));
    if a > b then Interval(lo, hi) else Interval(a, b)
  }

  lemma {:induction false} BoundIntervalNoReset(x: Interval, low: Option<real>, up: Option<real>)
    requires x.Valid()
    ensures BoundInterval(x, low, up) == Interval(Bound(x.a, low, up), Bound(x.b, low, up))
    ensures BoundInterval(x, low, up).Valid()
  {
    var lo := OrDefault(low, 0.0);
    var hi := OrDefault(up, 1.0);
    assert OrDefault(Some(lo), 0.0) == lo && OrDefault(Some(hi), 1.0) == hi;
    BoundMonotone(x.a, x.b, Some(lo), Some(hi));
  }
}
