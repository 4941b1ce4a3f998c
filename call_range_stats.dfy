/**
 * CallRangeTree.getTimeRangeStats in assets/web-ui/js/profileData.js: the
 * functions stats, call tree and cumulative cost of a time range, read from
 * the caches of the nodes the range contains and recomputed, from calls
 * truncated to the range, at the nodes it only overlaps.
 */
module CallRangeStats {
  import opened Wrappers
  import opened MetricValues
  import opened CallLists
  import opened CallRangeTrees
  import CallRangeQueries
  import RangeMath
  import ProfileStats
  import CallTrees
  import MetricValuesLists

  /** TimeRangeStats: the range asked for and its three aggregates. */
  datatype RangeStats = RangeStats(
    range: Interval,
    functionsStats: map<int, ProfileStats.FnStats>,
    callTree: CallTrees.Node,
    cumCost: (Vec, Vec))

  predicate StatsShaped(s: RangeStats, m: nat)
  {
    && ProfileStats.StatsShaped(s.functionsStats, m) && CallTrees.TreeShaped(s.callTree, m)
    && |s.cumCost.0| == m && |s.cumCost.1| == m && NonPos(s.cumCost.0) && NonNeg(s.cumCost.1)
  }

  /** Every node of the tree holds references into the call list and caches of the right shape. */
  ghost predicate Cached(src: Source, t: Tree)
    requires Good(src)
    decreases t
  {
    && RefsIn(t.refs, |src.recs|) && CacheShaped(t, src.m) && t.range.Valid()
    && (t.left.Some? ==> Cached(src, t.left.value))
    && (t.right.Some? ==> Cached(src, t.right.value))
  }

  predicate BoundShaped(b: Option<Vec>, m: nat)
  {
    b.Some? ==> |b.value| == m
  }

  /** Stats with no call and no cost. */
  function EmptyStats(q: Interval, m: nat): (s: RangeStats)
    ensures StatsShaped(s, m) && s.range == q && s.functionsStats == map[]
  {
    assert CallTrees.Build([], m) == CallTrees.Root(m);
    RangeStats(q, map[], CallTrees.Root(m), ZeroCost(m))
  }

  /** TimeRangeStats.merge: each aggregate merged into the first's. */
  function MergeRangeStats(a: RangeStats, b: RangeStats, m: nat): (r: RangeStats)
    requires StatsShaped(a, m) && StatsShaped(b, m)
    ensures StatsShaped(r, m) && r.range == a.range
    ensures r.functionsStats == ProfileStats.MergeStats(a.functionsStats, b.functionsStats, m)
    ensures r.callTree == CallTrees.MergeNodes(a.callTree, b.callTree, m)
    ensures r.cumCost == MergeCost(a.cumCost, b.cumCost)
  {
    PlusNegKeepsNonPos(a.cumCost.0, b.cumCost.0);
    PlusPosKeepsNonNeg(a.cumCost.1, b.cumCost.1);
    RangeStats(a.range, ProfileStats.MergeStats(a.functionsStats, b.functionsStats, m),
      CallTrees.MergeNodes(a.callTree, b.callTree, m), MergeCost(a.cumCost, b.cumCost))
  }

  /**
   * A truncation bound: the one handed down, or else, when the node reaches
   * beyond the range on that side, the metric values at the range's end.
   */
  function Bound(src: Source, given: Option<Vec>, beyond: bool, time: real): (r: Result<Option<Vec>>)
    requires Good(src) && BoundShaped(given, src.m)
    ensures r.Ok? ==> BoundShaped(r.value, src.m)
    ensures given.Some? || !beyond ==> r == Ok(given)
    ensures given.None? && beyond ==> (r.Ok? <==> ValuesAt(src, time).Ok?)
    ensures given.None? && beyond && r.Ok? ==> r.value == Some(ValuesAt(src, time).value)
  {
    if given.None? && beyond then
      match ValuesAt(src, time)
      case Err(e) => Err(e)
      case Ok(v) => Ok(Some(v))
    else Ok(given)
  }

  /** The references of refs whose call overlaps the range, in order. */
  function Overlapping(src: Source, refs: seq<nat>, q: Interval): (r: seq<nat>)
    requires Good(src) && RefsIn(refs, |src.recs|)
    ensures RefsIn(r, |src.recs|)
    decreases |refs|
  {
    if refs == [] then []
    else (if Span(src, refs[0]).Overlaps(q) then [refs[0]] else []) + Overlapping(src, refs[1..], q)
  }

  /** A reference is kept exactly when it is listed and its call overlaps the range. */
  lemma {:induction false} OverlappingMembers(src: Source, refs: seq<nat>, q: Interval, i: nat)
    requires Good(src) && RefsIn(refs, |src.recs|) && i < |src.recs|
    ensures i in Overlapping(src, refs, q) <==> i in refs && Span(src, i).Overlaps(q)
    decreases |refs|
  {
    if refs != [] {
      OverlappingMembers(src, refs[1..], q, i);
      assert refs == [refs[0]] + refs[1..];
    }
  }

  lemma {:induction false} OverlappingAppend(src: Source, a: seq<nat>, b: seq<nat>, q: Interval)
    requires Good(src) && RefsIn(a, |src.recs|) && RefsIn(b, |src.recs|)
    ensures RefsIn(a + b, |src.recs|)
    ensures Overlapping(src, a + b, q) == Overlapping(src, a, q) + Overlapping(src, b, q)
    decreases |a|
  {
    if a == [] {
      assert a + b == b;
    } else {
      assert (a + b)[0] == a[0];
      assert (a + b)[1..] == a[1..] + b;
      OverlappingAppend(src, a[1..], b, q);
    }
  }

  lemma OverlappingKeepsAllIn(src: Source, x: Interval, refs: seq<nat>, q: Interval)
    requires Good(src) && RefsIn(refs, |src.recs|) && AllIn(src, x, refs)
    ensures AllIn(src, x, Overlapping(src, refs, q))
  {
    forall i | i in Overlapping(src, refs, q)
      ensures x.Contains(Span(src, i))
    {
      OverlappingMembers(src, refs, q, i);
    }
  }

  /** Calls inside a range the query misses are all dropped. */
  lemma {:induction false} OverlappingNone(src: Source, x: Interval, refs: seq<nat>, q: Interval)
    requires Good(src) && RefsIn(refs, |src.recs|) && AllIn(src, x, refs) && !x.Overlaps(q)
    ensures Overlapping(src, refs, q) == []
    decreases |refs|
  {
    if refs != [] {
      assert refs[0] in refs;
      assert forall r :: r in refs[1..] ==> r in refs;
      OverlappingNone(src, x, refs[1..], q);
    }
  }

  /** Every call ends no earlier than it starts, as the events of a profile come in time order. */
  ghost predicate Chronological(src: Source)
    requires Good(src)
  {
    forall i :: 0 <= i < |src.recs| ==> Span(src, i).Valid()
  }

  /** Calls inside a range the query contains are all kept. */
  lemma {:induction false} OverlappingAll(src: Source, x: Interval, refs: seq<nat>, q: Interval)
    requires Good(src) && Chronological(src) && RefsIn(refs, |src.recs|) && AllIn(src, x, refs) && q.Contains(x)
    ensures Overlapping(src, refs, q) == refs
    decreases |refs|
  {
    if refs != [] {
      assert refs[0] in refs;
      RangeMath.ContainsTransitive(q, x, Span(src, refs[0]));
      RangeMath.ContainsImpliesOverlaps(q, Span(src, refs[0]));
      RangeMath.OverlapsSymmetric(q, Span(src, refs[0]));
      assert forall r :: r in refs[1..] ==> r in refs;
      OverlappingAll(src, x, refs[1..], q);
      assert refs == [refs[0]] + refs[1..];
    }
  }

  /** What TruncatedCallListEntry hands the aggregators. */
  function Clipped(src: Source, i: nat, lower: Option<Vec>, upper: Option<Vec>): (c: CallInfo)
    requires Good(src) && i < |src.recs| && BoundShaped(lower, src.m) && BoundShaped(upper, src.m)
    ensures |c.inc| == src.m && |c.exc| == src.m
  {
    InfoOf(src.recs, src.names, Truncated(src.recs, i, lower, upper))
  }

  function ClippedInfos(src: Source, refs: seq<nat>, lower: Option<Vec>, upper: Option<Vec>): (r: seq<CallInfo>)
    requires Good(src) && RefsIn(refs, |src.recs|) && BoundShaped(lower, src.m) && BoundShaped(upper, src.m)
    ensures |r| == |refs| && ProfileStats.Uniform(r, src.m)
    ensures forall k :: 0 <= k < |r| ==> r[k] == Clipped(src, refs[k], lower, upper)
  {
    seq(|refs|, k requires 0 <= k < |refs| => Clipped(src, refs[k], lower, upper))
  }

  lemma ClippedAppend(src: Source, a: seq<nat>, b: seq<nat>, lower: Option<Vec>, upper: Option<Vec>)
    requires Good(src) && RefsIn(a, |src.recs|) && RefsIn(b, |src.recs|)
    requires BoundShaped(lower, src.m) && BoundShaped(upper, src.m)
    ensures RefsIn(a + b, |src.recs|)
    ensures ClippedInfos(src, a + b, lower, upper) == ClippedInfos(src, a, lower, upper) + ClippedInfos(src, b, lower, upper)
  {
    RefsInAppend(a, b, |src.recs|);
    var whole := ClippedInfos(src, a + b, lower, upper);
    var parts := ClippedInfos(src, a, lower, upper) + ClippedInfos(src, b, lower, upper);
    forall k | 0 <= k < |whole|
      ensures whole[k] == parts[k]
    {
      if k < |a| {
        assert (a + b)[k] == a[k];
      } else {
        assert (a + b)[k] == b[k - |a|];
      }
    }
  }

  /** The children visited after the node's own calls, their results merged in; errors propagate. */
  function MergeChild(src: Source, acc: Result<RangeStats>, child: Option<Tree>, q: Interval,
                      lower: Option<Vec>, upper: Option<Vec>, sub: (Interval, Interval) -> Interval): (r: Result<RangeStats>)
    requires Good(src) && BoundShaped(lower, src.m) && BoundShaped(upper, src.m)
    requires child.Some? ==> Cached(src, child.value)
    requires q.Valid()
    requires acc.Ok? ==> StatsShaped(acc.value, src.m) && acc.value.range == q
    ensures r.Ok? ==> StatsShaped(r.value, src.m) && r.value.range == q
    decreases child, 3
  {
    if acc.Err? then acc
    else if child.None? then acc
    else
      match TimeRangeStats(src, child.value, q, lower, upper, sub)
      case Err(e) => Err(e)
      case Ok(c) => Ok(MergeRangeStats(acc.value, c, src.m))
  }

  /** The stats of the node's own calls that overlap the range, truncated to the bounds. */
  function OwnStats(src: Source, t: Tree, q: Interval, lo: Option<Vec>, up: Option<Vec>): (r: RangeStats)
    requires Good(src) && Cached(src, t) && BoundShaped(lo, src.m) && BoundShaped(up, src.m)
    ensures StatsShaped(r, src.m) && r.range == q && r.cumCost == ZeroCost(src.m)
    ensures r.functionsStats == ProfileStats.StatsOf(ClippedInfos(src, Overlapping(src, t.refs, q), lo, up), src.m)
  {
    var calls := ClippedInfos(src, Overlapping(src, t.refs, q), lo, up);
    RangeStats(q, ProfileStats.StatsOf(calls, src.m), CallTrees.Build(calls, src.m), ZeroCost(src.m))
  }

  /** A node the range overlaps without containing it: its own calls, then each child's result. */
  function NodeStats(src: Source, t: Tree, q: Interval, lo: Option<Vec>, up: Option<Vec>,
                     sub: (Interval, Interval) -> Interval): (r: Result<RangeStats>)
    requires Good(src) && Cached(src, t) && q.Valid() && BoundShaped(lo, src.m) && BoundShaped(up, src.m)
    ensures r.Ok? ==> StatsShaped(r.value, src.m) && r.value.range == q
    decreases t, 1
  {
    MergeChild(src, MergeChild(src, Ok(OwnStats(src, t, q, lo, up)), t.left, q, lo, up, sub), t.right, q, lo, up, sub)
  }

  /**
   * getTimeRangeStats(range, lowerBound, upperBound): empty stats for a node
   * the range misses, the node's caches for a node the range contains, and
   * otherwise the node's stats with the samples' cost over the part of the
   * range no child covers. That part is what Range.sub leaves, which the
   * model takes as the parameter sub.
   */
  function TimeRangeStats(src: Source, t: Tree, q: Interval, lower: Option<Vec>, upper: Option<Vec>,
                          sub: (Interval, Interval) -> Interval): (r: Result<RangeStats>)
    requires Good(src) && Cached(src, t) && q.Valid() && BoundShaped(lower, src.m) && BoundShaped(upper, src.m)
    ensures r.Ok? ==> StatsShaped(r.value, src.m) && r.value.range == q
    decreases t, 2
  {
    var m := src.m;
    if !t.range.Overlaps(q) then Ok(EmptyStats(q, m))
    else if t.range.IsContainedBy(q) then Ok(RangeStats(q, t.functionsStats, t.callTree, t.cumCost))
    else
      var lo := Bound(src, lower, t.range.a < q.a, q.a);
      var up := Bound(src, upper, t.range.b > q.b, q.b);
      if lo.Err? then Err(lo.error)
      else if up.Err? then Err(up.error)
      else
        var whole := RangeMath.Intersection(t.range, q).value;
        var afterLeft := if t.left.Some? then sub(whole, t.left.value.range) else whole;
        var remaining := if t.right.Some? then sub(afterLeft, t.right.value.range) else afterLeft;
        match NodeStats(src, t, q, lo.value, up.value, sub)
        case Err(e) => Err(e)
        case Ok(s) =>
          match MetricValuesLists.CumCost(src.samples, m, remaining)
          case Err(e) => Err(e)
          case Ok(c) =>
            PlusNegKeepsNonPos(s.cumCost.0, c.0);
            PlusPosKeepsNonNeg(s.cumCost.1, c.1);
            Ok(s.(cumCost := MergeCost(s.cumCost, c)))
  }

  /** ProfileData.getTimeRangeStats(range): the same query from the root, without bounds yet. */
  function GetTimeRangeStats(src: Source, root: Tree, q: Option<Interval>, sub: (Interval, Interval) -> Interval): (r: Result<RangeStats>)
    requires Good(src) && Cached(src, root) && (q.Some? ==> q.value.Valid())
    ensures r.Ok? ==> StatsShaped(r.value, src.m) && r.value.range == (if q.Some? then q.value else root.range)
  {
    TimeRangeStats(src, root, if q.Some? then q.value else root.range, None, None, sub)
  }

  // ---------------------------------------------------------------------
  // What a query over a built tree returns.
  // ---------------------------------------------------------------------

  /** The references of a tree: the node's own, then the left and the right subtree's. */
  function TreeRefs(t: Tree): seq<nat>
    decreases t
  {
    t.refs
      + (if t.left.Some? then TreeRefs(t.left.value) else [])
      + (if t.right.Some? then TreeRefs(t.right.value) else [])
  }

  lemma {:induction false} TreeRefsOfLayout(t: Tree)
    ensures TreeRefs(t) == AllRefs(LayoutOf(t))
    decreases t
  {
    if t.left.Some? {
      TreeRefsOfLayout(t.left.value);
    }
    if t.right.Some? {
      TreeRefsOfLayout(t.right.value);
    }
  }

  /**
   * What getTimeRangeStats relies on in a built tree: at every node, caches of
   * the right shape, calls inside the node's range, and cached functions stats
   * that are the stats of all the calls of the subtree.
   */
  ghost predicate Summarised(src: Source, t: Tree)
    requires Good(src)
    decreases t
  {
    && Cached(src, t)
    && RefsIn(TreeRefs(t), |src.recs|) && AllIn(src, t.range, TreeRefs(t)) && AllIn(src, t.range, t.refs)
    && t.functionsStats == ProfileStats.StatsOf(Infos(src, TreeRefs(t)), src.m)
    && (t.left.Some? ==> Summarised(src, t.left.value))
    && (t.right.Some? ==> Summarised(src, t.right.value))
  }

  /** A decorated layout has the caches of the right shape at every node. */
  lemma {:induction false} DecoratedCached(src: Source, l: Layout)
    requires Good(src) && WellFormed(src, l) && Decorate(src, l).Ok?
    ensures Cached(src, Decorate(src, l).value)
    decreases l
  {
    DecorateShape(src, l);
    if l.left.Some? {
      DecoratedCached(src, l.left.value);
    }
    if l.right.Some? {
      DecoratedCached(src, l.right.value);
    }
  }

  /** Every tree buildAsync decorates is summarised. */
  lemma {:induction false} DecoratedSummarised(src: Source, l: Layout)
    requires Good(src) && WellFormed(src, l) && Decorate(src, l).Ok?
    ensures Summarised(src, Decorate(src, l).value)
    decreases l
  {
    var t := Decorate(src, l).value;
    DecorateShape(src, l);
    DecoratedCached(src, l);
    DecorateStats(src, l);
    CallRangeQueries.AllRefsInRange(src, l);
    TreeRefsOfLayout(t);
    if l.left.Some? {
      DecoratedSummarised(src, l.left.value);
    }
    if l.right.Some? {
      DecoratedSummarised(src, l.right.value);
    }
  }

  /** The metric values at a time exist and carry that time as their wall time. */
  ghost predicate Pinned(src: Source, time: real)
    requires Good(src)
  {
    ValuesAt(src, time).Ok? && ValuesAt(src, time).value[Wt] == time
  }

  /** A bound handed down: none yet, or the metric values at the range's end. */
  ghost predicate BoundAt(src: Source, b: Option<Vec>, time: real)
    requires Good(src) && Pinned(src, time)
  {
    b.None? || b == Some(ValuesAt(src, time).value)
  }

  /** Inside a range the query contains, truncation to the query's ends changes no call. */
  lemma ClipKeepsContained(src: Source, refs: seq<nat>, x: Interval, q: Interval)
    requires Good(src) && RefsIn(refs, |src.recs|) && AllIn(src, x, refs) && q.Contains(x)
    requires Pinned(src, q.a) && Pinned(src, q.b)
    ensures ClippedInfos(src, refs, Some(ValuesAt(src, q.a).value), Some(ValuesAt(src, q.b).value)) == Infos(src, refs)
  {
    var va, vb := ValuesAt(src, q.a).value, ValuesAt(src, q.b).value;
    forall k | 0 <= k < |refs|
      ensures Clipped(src, refs[k], Some(va), Some(vb)) == Info(src, refs[k])
    {
      assert refs[k] in refs;
      EnclosingWindowKeepsCall(src.recs, refs[k], va, vb);
    }
  }

  /**
   * Inside the node's range, a bound not yet computed truncates nothing the
   * query's own bound would: the node does not reach beyond that end.
   */
  lemma ClipSameBounds(src: Source, refs: seq<nat>, x: Interval, q: Interval, lo: Option<Vec>, up: Option<Vec>)
    requires Good(src) && RefsIn(refs, |src.recs|) && AllIn(src, x, refs)
    requires Pinned(src, q.a) && Pinned(src, q.b)
    requires lo == Some(ValuesAt(src, q.a).value) || (lo.None? && x.a >= q.a)
    requires up == Some(ValuesAt(src, q.b).value) || (up.None? && x.b <= q.b)
    ensures BoundShaped(lo, src.m) && BoundShaped(up, src.m)
    ensures ClippedInfos(src, refs, lo, up) == ClippedInfos(src, refs, Some(ValuesAt(src, q.a).value), Some(ValuesAt(src, q.b).value))
  {
    var va, vb := ValuesAt(src, q.a).value, ValuesAt(src, q.b).value;
    forall k | 0 <= k < |refs|
      ensures Truncated(src.recs, refs[k], lo, up) == Truncated(src.recs, refs[k], Some(va), Some(vb))
    {
      assert refs[k] in refs;
    }
  }

  /** The bounds a partial node hands its children. */
  lemma PartialBounds(src: Source, x: Interval, q: Interval, lower: Option<Vec>, upper: Option<Vec>)
    requires Good(src) && Pinned(src, q.a) && Pinned(src, q.b)
    requires BoundAt(src, lower, q.a) && BoundAt(src, upper, q.b)
    ensures BoundShaped(lower, src.m) && BoundShaped(upper, src.m)
    ensures var lo := Bound(src, lower, x.a < q.a, q.a);
      lo.Ok? && BoundAt(src, lo.value, q.a) && (lo.value == Some(ValuesAt(src, q.a).value) || (lo.value.None? && x.a >= q.a))
    ensures var up := Bound(src, upper, x.b > q.b, q.b);
      up.Ok? && BoundAt(src, up.value, q.b) && (up.value == Some(ValuesAt(src, q.b).value) || (up.value.None? && x.b <= q.b))
  {
  }

  /** The stats of the calls of refs that overlap the range, each truncated to the range. */
  function RangeCallStats(src: Source, refs: seq<nat>, q: Interval): (s: map<int, ProfileStats.FnStats>)
    requires Good(src) && RefsIn(refs, |src.recs|) && Pinned(src, q.a) && Pinned(src, q.b)
  {
    ProfileStats.StatsOf(
      ClippedInfos(src, Overlapping(src, refs, q), Some(ValuesAt(src, q.a).value), Some(ValuesAt(src, q.b).value)), src.m)
  }

  /**
   * The functions stats of a query: those of the calls of the subtree that
   * overlap the range, in the tree's order, each truncated to the range.
   */
  lemma {:induction false} RangeFunctionsStats(src: Source, t: Tree, q: Interval, lower: Option<Vec>, upper: Option<Vec>,
                                               sub: (Interval, Interval) -> Interval)
    requires Good(src) && Chronological(src) && Summarised(src, t) && q.Valid()
    requires Pinned(src, q.a) && Pinned(src, q.b) && BoundAt(src, lower, q.a) && BoundAt(src, upper, q.b)
    ensures BoundShaped(lower, src.m) && BoundShaped(upper, src.m)
    ensures var r := TimeRangeStats(src, t, q, lower, upper, sub);
      r.Ok? ==> r.value.functionsStats == RangeCallStats(src, TreeRefs(t), q)
    decreases t, 2
  {
    PartialBounds(src, t.range, q, lower, upper);
    var all := TreeRefs(t);
    if !t.range.Overlaps(q) {
      OverlappingNone(src, t.range, all, q);
    } else if t.range.IsContainedBy(q) {
      OverlappingAll(src, t.range, all, q);
      ClipKeepsContained(src, all, t.range, q);
    } else {
      PartialStats(src, t, q, lower, upper, sub);
    }
  }

  /** The case of RangeFunctionsStats where the query overlaps the node without containing it. */
  lemma PartialStats(src: Source, t: Tree, q: Interval, lower: Option<Vec>, upper: Option<Vec>,
                     sub: (Interval, Interval) -> Interval)
    requires Good(src) && Chronological(src) && Summarised(src, t) && q.Valid()
    requires Pinned(src, q.a) && Pinned(src, q.b) && BoundAt(src, lower, q.a) && BoundAt(src, upper, q.b)
    requires t.range.Overlaps(q) && !t.range.IsContainedBy(q)
    ensures BoundShaped(lower, src.m) && BoundShaped(upper, src.m)
    ensures var r := TimeRangeStats(src, t, q, lower, upper, sub);
      r.Ok? ==> r.value.functionsStats == RangeCallStats(src, TreeRefs(t), q)
    decreases t, 1
  {
    PartialBounds(src, t.range, q, lower, upper);
    var lo := Bound(src, lower, t.range.a < q.a, q.a).value;
    var up := Bound(src, upper, t.range.b > q.b, q.b).value;
    var r := TimeRangeStats(src, t, q, lower, upper, sub);
    if r.Ok? {
      NodeFunctionsStats(src, t, q, lo, up, sub);
      assert NodeStats(src, t, q, lo, up, sub).Ok?;
    }
  }

  /** The references of an optional subtree. */
  function SideRefs(c: Option<Tree>): seq<nat>
  {
    if c.Some? then TreeRefs(c.value) else []
  }

  /** The functions stats NodeStats gathers at a node whose bounds agree with the query's ends. */
  lemma {:induction false} NodeFunctionsStats(src: Source, t: Tree, q: Interval, lo: Option<Vec>, up: Option<Vec>,
                                              sub: (Interval, Interval) -> Interval)
    requires Good(src) && Chronological(src) && Summarised(src, t) && q.Valid()
    requires Pinned(src, q.a) && Pinned(src, q.b) && BoundAt(src, lo, q.a) && BoundAt(src, up, q.b)
    requires lo == Some(ValuesAt(src, q.a).value) || (lo.None? && t.range.a >= q.a)
    requires up == Some(ValuesAt(src, q.b).value) || (up.None? && t.range.b <= q.b)
    ensures BoundShaped(lo, src.m) && BoundShaped(up, src.m)
    ensures var r := NodeStats(src, t, q, lo, up, sub);
      r.Ok? ==> r.value.functionsStats == RangeCallStats(src, TreeRefs(t), q)
    decreases t, 0
  {
    var m := src.m;
    var va, vb := Some(ValuesAt(src, q.a).value), Some(ValuesAt(src, q.b).value);
    ClippedSplit(src, t, q, va, vb);
    OverlappingKeepsAllIn(src, t.range, t.refs, q);
    ClipSameBounds(src, Overlapping(src, t.refs, q), t.range, q, lo, up);
    var calls := ClippedInfos(src, Overlapping(src, t.refs, q), va, vb);
    var lcalls := ClippedInfos(src, Overlapping(src, SideRefs(t.left), q), va, vb);
    var rcalls := ClippedInfos(src, Overlapping(src, SideRefs(t.right), q), va, vb);
    var withLeft := MergeChild(src, Ok(OwnStats(src, t, q, lo, up)), t.left, q, lo, up, sub);
    MergeChildStats(src, Ok(OwnStats(src, t, q, lo, up)), calls, t.left, q, lo, up, sub);
    MergeChildStats(src, withLeft, calls + lcalls, t.right, q, lo, up, sub);
  }

  /** Merging a child's result appends the child's truncated overlapping calls. */
  lemma MergeChildStats(src: Source, acc: Result<RangeStats>, accCalls: seq<CallInfo>, child: Option<Tree>, q: Interval,
                        lo: Option<Vec>, up: Option<Vec>, sub: (Interval, Interval) -> Interval)
    requires Good(src) && Chronological(src) && q.Valid()
    requires child.Some? ==> Summarised(src, child.value)
    requires Pinned(src, q.a) && Pinned(src, q.b) && BoundAt(src, lo, q.a) && BoundAt(src, up, q.b)
    requires acc.Ok? ==> StatsShaped(acc.value, src.m) && acc.value.range == q
    requires ProfileStats.Uniform(accCalls, src.m)
    requires acc.Ok? ==> acc.value.functionsStats == ProfileStats.StatsOf(accCalls, src.m)
    ensures RefsIn(SideRefs(child), |src.recs|) && BoundShaped(lo, src.m) && BoundShaped(up, src.m)
    ensures var r := MergeChild(src, acc, child, q, lo, up, sub);
      var more := ClippedInfos(src, Overlapping(src, SideRefs(child), q),
        Some(ValuesAt(src, q.a).value), Some(ValuesAt(src, q.b).value));
      r.Ok? ==> r.value.functionsStats == ProfileStats.StatsOf(accCalls + more, src.m)
    decreases child, 3
  {
    var more := ClippedInfos(src, Overlapping(src, SideRefs(child), q),
      Some(ValuesAt(src, q.a).value), Some(ValuesAt(src, q.b).value));
    if child.Some? {
      RangeFunctionsStats(src, child.value, q, lo, up, sub);
      ProfileStats.MergeIsConcatenation(accCalls, more, src.m);
    } else {
      assert accCalls + more == accCalls;
    }
  }

  /** The truncated overlapping calls of a subtree: the node's own, then each side's. */
  lemma ClippedSplit(src: Source, t: Tree, q: Interval, va: Option<Vec>, vb: Option<Vec>)
    requires Good(src) && Summarised(src, t) && BoundShaped(va, src.m) && BoundShaped(vb, src.m)
    ensures RefsIn(SideRefs(t.left), |src.recs|) && RefsIn(SideRefs(t.right), |src.recs|)
    ensures ClippedInfos(src, Overlapping(src, TreeRefs(t), q), va, vb)
      == ClippedInfos(src, Overlapping(src, t.refs, q), va, vb)
        + ClippedInfos(src, Overlapping(src, SideRefs(t.left), q), va, vb)
        + ClippedInfos(src, Overlapping(src, SideRefs(t.right), q), va, vb)
  {
    var own, la, ra := t.refs, SideRefs(t.left), SideRefs(t.right);
    assert TreeRefs(t) == own + la + ra;
    OverlappingAppend(src, own, la, q);
    OverlappingAppend(src, own + la, ra, q);
    var o1, o2, o3 := Overlapping(src, own, q), Overlapping(src, la, q), Overlapping(src, ra, q);
    ClippedAppend(src, o1, o2, va, vb);
    ClippedAppend(src, o1 + o2, o3, va, vb);
  }

  /** A node the range misses adds no cost. */
  lemma DisjointCost(src: Source, t: Tree, q: Interval, lower: Option<Vec>, upper: Option<Vec>,
                     sub: (Interval, Interval) -> Interval)
    requires Good(src) && Cached(src, t) && q.Valid() && BoundShaped(lower, src.m) && BoundShaped(upper, src.m)
    requires !t.range.Overlaps(q)
    ensures var r := TimeRangeStats(src, t, q, lower, upper, sub);
      r.Ok? && r.value.functionsStats == map[] && Plus(r.value.cumCost.0, r.value.cumCost.1) == Fill(src.m, 0.0)
  {
    assert Plus(Fill(src.m, 0.0), Fill(src.m, 0.0)) == Fill(src.m, 0.0);
  }

  /** A node the range contains adds its own net change. */
  lemma ContainedCost(src: Source, t: Tree, q: Interval, lower: Option<Vec>, upper: Option<Vec>,
                      sub: (Interval, Interval) -> Interval)
    requires Good(src) && Cached(src, t) && q.Valid() && BoundShaped(lower, src.m) && BoundShaped(upper, src.m)
    requires t.range.IsContainedBy(q) && NetCost(src, t.range, t.cumCost)
    ensures var r := TimeRangeStats(src, t, q, lower, upper, sub);
      r.Ok? && r.value.cumCost == t.cumCost && r.value.functionsStats == t.functionsStats
  {
    RangeMath.ContainsImpliesOverlaps(q, t.range);
    RangeMath.OverlapsSymmetric(q, t.range);
  }

  /** At a node without children the cost of a partial node is the cost of the samples it covers. */
  lemma LeafShape(src: Source, t: Tree, q: Interval, lower: Option<Vec>, upper: Option<Vec>,
                  sub: (Interval, Interval) -> Interval)
    requires Good(src) && Cached(src, t) && q.Valid() && BoundShaped(lower, src.m) && BoundShaped(upper, src.m)
    requires t.range.Overlaps(q) && !t.range.IsContainedBy(q) && t.left.None? && t.right.None?
    requires TimeRangeStats(src, t, q, lower, upper, sub).Ok?
    ensures var x := RangeMath.Intersection(t.range, q).value;
      var c := MetricValuesLists.CumCost(src.samples, src.m, x);
      c.Ok? && TimeRangeStats(src, t, q, lower, upper, sub).value.cumCost == MergeCost(ZeroCost(src.m), c.value)
  {
    var lo := Bound(src, lower, t.range.a < q.a, q.a).value;
    var up := Bound(src, upper, t.range.b > q.b, q.b).value;
    assert NodeStats(src, t, q, lo, up, sub) == Ok(OwnStats(src, t, q, lo, up));
  }

  /** Added to nothing, the cost of the samples over a range is the net change over it. */
  lemma SampledNetCost(src: Source, x: Interval)
    requires Good(src) && x.Valid() && MetricValuesLists.CumCost(src.samples, src.m, x).Ok?
    ensures var c := MetricValuesLists.CumCost(src.samples, src.m, x).value;
      NonPos(c.0) && NonNeg(c.1) && |c.0| == |c.1| == src.m && NetCost(src, x, MergeCost(ZeroCost(src.m), c))
  {
    var m := src.m;
    var c := MetricValuesLists.CumCost(src.samples, m, x).value;
    MergeCostAdds(ZeroCost(m), c);
    assert Plus(Fill(m, 0.0), Fill(m, 0.0)) == Fill(m, 0.0);
    assert Plus(Fill(m, 0.0), Plus(c.0, c.1)) == Plus(c.0, c.1);
    if x.Length() != 0.0 {
      MetricValuesLists.CumCostIsNetChange(src.samples, m, x);
    }
  }

  /** A node without children that the range overlaps adds the net change over the part covered. */
  lemma LeafCost(src: Source, t: Tree, q: Interval, lower: Option<Vec>, upper: Option<Vec>,
                 sub: (Interval, Interval) -> Interval)
    requires Good(src) && Cached(src, t) && q.Valid() && BoundShaped(lower, src.m) && BoundShaped(upper, src.m)
    requires t.range.Overlaps(q) && !t.range.IsContainedBy(q) && t.left.None? && t.right.None?
    ensures var r := TimeRangeStats(src, t, q, lower, upper, sub);
      r.Ok? ==> NetCost(src, RangeMath.Intersection(t.range, q).value, r.value.cumCost)
  {
    if TimeRangeStats(src, t, q, lower, upper, sub).Ok? {
      LeafShape(src, t, q, lower, upper, sub);
      SampledNetCost(src, RangeMath.Intersection(t.range, q).value);
    }
  }

  /** The root buildAsync produces holds every call of the list exactly once. */
  lemma {:induction false} BuiltRefs(src: Source, maxWt: real, fuel: nat)
    requires Good(src) && maxWt >= 0.0 && BuildRoot(src, maxWt, fuel).Ok?
    ensures var root := BuildRoot(src, maxWt, fuel).value;
      && RefsIn(TreeRefs(root), |src.recs|)
      && multiset(TreeRefs(root)) == multiset(Contained(src, RangeMath.Interval(0.0, maxWt), Ids(|src.recs|)))
  {
    var x := RangeMath.Interval(0.0, maxWt);
    var all := Ids(|src.recs|);
    assert RefsIn(all, |src.recs|);
    BuiltRefsOf(src, x, all, fuel);
  }

  /** A tree built over a range holds every call the range contains exactly once. */
  lemma BuiltRefsOf(src: Source, x: Interval, refs: seq<nat>, fuel: nat)
    requires Good(src) && RefsIn(refs, |src.recs|) && x.Valid() && Build(src, x, refs, fuel).Ok?
    ensures var root := Build(src, x, refs, fuel).value;
      RefsIn(TreeRefs(root), |src.recs|) && multiset(TreeRefs(root)) == multiset(Contained(src, x, refs))
  {
    BuildWellFormed(src, x, refs, fuel);
    TreeRefsOfLayout(Build(src, x, refs, fuel).value);
  }

  /** The root buildAsync produces is summarised and caches the net change over the whole profile. */
  lemma BuiltSummarised(src: Source, maxWt: real, fuel: nat)
    requires Good(src) && maxWt >= 0.0 && BuildRoot(src, maxWt, fuel).Ok?
    ensures var root := BuildRoot(src, maxWt, fuel).value;
      && root.range == RangeMath.Interval(0.0, maxWt)
      && Summarised(src, root) && NetCost(src, root.range, root.cumCost)
  {
    var x := RangeMath.Interval(0.0, maxWt);
    var all := Ids(|src.recs|);
    var l := Plan(src, x, all, fuel);
    PlanWellFormed(src, x, all, fuel);
    assert BuildRoot(src, maxWt, fuel) == Decorate(src, l);
    DecoratedSummarised(src, l);
    DecorateCost(src, l);
  }

  /** Without a range, the query reads the root's caches. */
  lemma WholeProfileStats(src: Source, root: Tree, sub: (Interval, Interval) -> Interval)
    requires Good(src) && Summarised(src, root) && NetCost(src, root.range, root.cumCost)
    ensures var r := GetTimeRangeStats(src, root, None, sub);
      && r.Ok? && r.value.functionsStats == ProfileStats.StatsOf(Infos(src, TreeRefs(root)), src.m)
      && NetCost(src, root.range, r.value.cumCost)
  {
    ContainedCost(src, root, root.range, None, None, sub);
  }

  /**
   * What getTimeRangeStats answers over a summarised root: without a range,
   * every call's stats and the net change of every metric over the root's
   * range; with a range whose ends the samples pin down, the stats of the
   * calls that overlap it, truncated to it.
   */
  ghost predicate Answers(src: Source, root: Tree, q: Option<Interval>, sub: (Interval, Interval) -> Interval)
    requires Good(src) && Cached(src, root) && RefsIn(TreeRefs(root), |src.recs|) && (q.Some? ==> q.value.Valid())
  {
    var r := GetTimeRangeStats(src, root, q, sub);
    && (q.None? ==> r.Ok? && r.value.functionsStats == ProfileStats.StatsOf(Infos(src, TreeRefs(root)), src.m)
                      && NetCost(src, root.range, r.value.cumCost))
    && (q.Some? && Pinned(src, q.value.a) && Pinned(src, q.value.b) && r.Ok? ==>
          r.value.functionsStats == RangeCallStats(src, TreeRefs(root), q.value))
  }

  /** A query over a summarised root, with or without a range. */
  lemma SummarisedQuery(src: Source, root: Tree, q: Option<Interval>, sub: (Interval, Interval) -> Interval)
    requires Good(src) && Chronological(src) && Summarised(src, root) && NetCost(src, root.range, root.cumCost)
    requires q.Some? ==> q.value.Valid()
    ensures Answers(src, root, q, sub)
  {
    if q.None? {
      WholeProfileStats(src, root, sub);
    } else if Pinned(src, q.value.a) && Pinned(src, q.value.b) {
      RangeFunctionsStats(src, root, q.value, None, None, sub);
    }
  }

  /**
   * ProfileData.getTimeRangeStats over the tree of the whole call list.
   * Without a range the query reads the root's caches: every call's stats and
   * the net change of every metric over the profile. With a range whose ends
   * the samples pin down, the functions stats are those of the calls that
   * overlap the range, truncated to it.
   */
  lemma ProfileTimeRangeStats(src: Source, maxWt: real, fuel: nat, q: Option<Interval>, sub: (Interval, Interval) -> Interval)
    requires Good(src) && Chronological(src) && maxWt >= 0.0 && BuildRoot(src, maxWt, fuel).Ok?
    requires q.Some? ==> q.value.Valid()
    ensures var root := BuildRoot(src, maxWt, fuel).value;
      && Cached(src, root) && RefsIn(TreeRefs(root), |src.recs|)
      && multiset(TreeRefs(root)) == multiset(Contained(src, root.range, Ids(|src.recs|)))
    ensures Answers(src, BuildRoot(src, maxWt, fuel).value, q, sub)
  {
    BuiltRefs(src, maxWt, fuel);
    BuiltSummarised(src, maxWt, fuel);
    SummarisedQuery(src, BuildRoot(src, maxWt, fuel).value, q, sub);
  }
}
