/**
 * CallRangeTree of assets/web-ui/js/profileData.js: a binary tree over the
 * wall-time span of a profile. A node owns the calls it fully contains that
 * no child takes, sorted by decreasing duration, and caches the functions
 * stats, call tree stats and cumulative cost stats of its whole subtree.
 * The build is the synchronous reading of buildAsync; the call list, the
 * function names and the metric samples are the values of a Source.
 */
module CallRangeTrees {
  import opened Wrappers
  import opened MetricValues
  import opened CallLists
  import RangeMath
  import ProfileStats
  import CallTrees
  import MetricValuesLists

  type Interval = RangeMath.Interval

  /** A half with fewer calls than this stays with its parent. */
  const MinCallsPerNode: nat := 500

  /** Call tree nodes below 1/150th of the node's range are pruned. */
  const PruneFraction: real := 150.0

  /** The call list (records and function names) and the metric samples of a profile. */
  datatype Source = Source(recs: seq<CallRecord>, names: seq<string>, samples: seq<Vec>, m: nat)

  ghost predicate Good(src: Source)
  {
    src.m > 0 && Linked(src.recs) && CallLists.Shaped(src.recs, src.m) && MetricValuesLists.Uniform(src.samples, src.m)
  }

  /** getTimeRange of call i: its start and end wall times. */
  function Span(src: Source, i: nat): Interval
    requires Good(src) && i < |src.recs|
  {
    RangeMath.Interval(src.recs[i].start[Wt], src.recs[i].end[Wt])
  }

  predicate RefsIn(refs: seq<nat>, n: nat)
  {
    forall k :: 0 <= k < |refs| ==> refs[k] < n
  }

  function LeftHalf(x: Interval): Interval { RangeMath.Interval(x.a, x.Center()) }

  function RightHalf(x: Interval): Interval { RangeMath.Interval(x.Center(), x.b) }

  // ---------------------------------------------------------------------
  // Partition of the call references.
  // ---------------------------------------------------------------------

  /** The references whose call the range fully contains, in order. */
  function Contained(src: Source, x: Interval, refs: seq<nat>): (r: seq<nat>)
    requires Good(src) && RefsIn(refs, |src.recs|)
    ensures RefsIn(r, |src.recs|) && multiset(r) <= multiset(refs)
    ensures forall c :: c in r ==> x.Contains(Span(src, c))
    decreases |refs|
  {
    if refs == [] then []
    else
      var init := refs[..|refs| - 1];
      var c := refs[|refs| - 1];
      assert refs == init + [c];
      Contained(src, x, init) + if x.Contains(Span(src, c)) then [c] else []
  }

  /** A range that contains every call keeps all the references. */
  lemma {:induction false} ContainedKeepsAll(src: Source, x: Interval, refs: seq<nat>)
    requires Good(src) && RefsIn(refs, |src.recs|)
    requires forall c :: c in refs ==> x.Contains(Span(src, c))
    ensures Contained(src, x, refs) == refs
    decreases |refs|
  {
    if refs != [] {
      assert refs == refs[..|refs| - 1] + [refs[|refs| - 1]];
      ContainedKeepsAll(src, x, refs[..|refs| - 1]);
    }
  }

  /** The first loop of buildAsync: dropped, left half, right half, or kept by the node. */
  datatype Parts = Parts(own: seq<nat>, left: seq<nat>, right: seq<nat>)

  /** x contains every call of refs. */
  predicate AllIn(src: Source, x: Interval, refs: seq<nat>)
    requires Good(src) && RefsIn(refs, |src.recs|)
  {
    forall r :: r in refs ==> x.Contains(Span(src, r))
  }

  /** x contains none of the calls of refs. */
  predicate NoneIn(src: Source, x: Interval, refs: seq<nat>)
    requires Good(src) && RefsIn(refs, |src.recs|)
  {
    forall r :: r in refs ==> !x.Contains(Span(src, r))
  }

  /** Where the first loop puts each reference. */
  predicate Placed(src: Source, x: Interval, p: Parts)
    requires Good(src) && RefsIn(p.own, |src.recs|) && RefsIn(p.left, |src.recs|) && RefsIn(p.right, |src.recs|)
  {
    && AllIn(src, LeftHalf(x), p.left)
    && AllIn(src, RightHalf(x), p.right) && NoneIn(src, LeftHalf(x), p.right)
    && AllIn(src, x, p.own) && NoneIn(src, LeftHalf(x), p.own) && NoneIn(src, RightHalf(x), p.own)
  }

  function Split(src: Source, x: Interval, refs: seq<nat>): (p: Parts)
    requires Good(src) && RefsIn(refs, |src.recs|)
    ensures RefsIn(p.own, |src.recs|) && RefsIn(p.left, |src.recs|) && RefsIn(p.right, |src.recs|)
    decreases |refs|
  {
    if refs == [] then Parts([], [], [])
    else
      var p := Split(src, x, refs[..|refs| - 1]);
      var c := refs[|refs| - 1];
      var sc := Span(src, c);
      if !x.Contains(sc) then p
      else if LeftHalf(x).Contains(sc) then p.(left := p.left + [c])
      else if RightHalf(x).Contains(sc) then p.(right := p.right + [c])
      else p.(own := p.own + [c])
  }

  /** Every contained reference lands in exactly one part; the others are dropped. */
  lemma {:induction false} SplitCounts(src: Source, x: Interval, refs: seq<nat>)
    requires Good(src) && RefsIn(refs, |src.recs|)
    ensures var p := Split(src, x, refs);
      multiset(p.own) + multiset(p.left) + multiset(p.right) == multiset(Contained(src, x, refs))
    decreases |refs|
  {
    if refs != [] {
      var init := refs[..|refs| - 1];
      var c := refs[|refs| - 1];
      SplitCounts(src, x, init);
      var p := Split(src, x, init);
      var q := Split(src, x, refs);
      var sc := Span(src, c);
      var tail := if x.Contains(sc) then [c] else [];
      assert Contained(src, x, refs) == Contained(src, x, init) + tail;
      assert multiset(Contained(src, x, refs)) == multiset(Contained(src, x, init)) + multiset(tail);
      if !x.Contains(sc) {
        assert q == p;
      } else if LeftHalf(x).Contains(sc) {
        assert multiset(q.left) == multiset(p.left) + multiset{c};
      } else if RightHalf(x).Contains(sc) {
        assert multiset(q.right) == multiset(p.right) + multiset{c};
      } else {
        assert multiset(q.own) == multiset(p.own) + multiset{c};
      }
    }
  }

  /** Each part holds the calls the loop sends there. */
  lemma {:induction false} SplitPlaced(src: Source, x: Interval, refs: seq<nat>)
    requires Good(src) && RefsIn(refs, |src.recs|)
    ensures Placed(src, x, Split(src, x, refs))
    decreases |refs|
  {
    if refs != [] {
      SplitPlaced(src, x, refs[..|refs| - 1]);
      var p := Split(src, x, refs[..|refs| - 1]);
      var c := refs[|refs| - 1];
      var q := Split(src, x, refs);
      assert p.left <= q.left && p.right <= q.right && p.own <= q.own;
    }
  }

  /** minCallsPerNode: a small half, or any half once the fuel is spent, is given back to the node. */
  function Settle(p: Parts, fuel: nat): (q: Parts)
    ensures multiset(q.own) + multiset(q.left) + multiset(q.right) ==
      multiset(p.own) + multiset(p.left) + multiset(p.right)
    ensures q.left == [] || (q.left == p.left && |p.left| >= MinCallsPerNode && fuel > 0)
    ensures q.right == [] || (q.right == p.right && |p.right| >= MinCallsPerNode && fuel > 0)
  {
    var keepL := |p.left| < MinCallsPerNode || fuel == 0;
    var keepR := |p.right| < MinCallsPerNode || fuel == 0;
    var own := p.own + (if keepL then p.left else []) + (if keepR then p.right else []);
    Parts(own, if keepL then [] else p.left, if keepR then [] else p.right)
  }

  // ---------------------------------------------------------------------
  // The sort by decreasing duration.
  // ---------------------------------------------------------------------

  function Duration(src: Source, i: nat): real
    requires Good(src) && i < |src.recs|
  {
    Span(src, i).Length()
  }

  /** Each call lasts at least as long as the next one. */
  predicate SortedDesc(src: Source, refs: seq<nat>)
    requires Good(src) && RefsIn(refs, |src.recs|)
  {
    |refs| <= 1 || (Duration(src, refs[0]) >= Duration(src, refs[1]) && SortedDesc(src, refs[1..]))
  }

  function InsertByDuration(src: Source, x: nat, s: seq<nat>): (r: seq<nat>)
    requires Good(src) && x < |src.recs| && RefsIn(s, |src.recs|)
    ensures RefsIn(r, |src.recs|) && multiset(r) == multiset(s) + multiset{x} && |r| == |s| + 1
    ensures r[0] == x || (s != [] && r[0] == s[0])
  {
    if s == [] || Duration(src, x) >= Duration(src, s[0]) then [x] + s
    else
      assert s == [s[0]] + s[1..];
      [s[0]] + InsertByDuration(src, x, s[1..])
  }

  /** Inserting keeps the order. */
  lemma {:induction false} InsertKeepsSorted(src: Source, x: nat, s: seq<nat>)
    requires Good(src) && x < |src.recs| && RefsIn(s, |src.recs|) && SortedDesc(src, s)
    ensures SortedDesc(src, InsertByDuration(src, x, s))
  {
    if s != [] && Duration(src, x) < Duration(src, s[0]) {
      var t := InsertByDuration(src, x, s[1..]);
      InsertKeepsSorted(src, x, s[1..]);
      assert ([s[0]] + t)[1..] == t;
    }
  }

  /** The order buildAsync sorts its calls into: longer calls first. */
  function SortByDuration(src: Source, s: seq<nat>): (r: seq<nat>)
    requires Good(src) && RefsIn(s, |src.recs|)
    ensures RefsIn(r, |src.recs|) && SortedDesc(src, r) && multiset(r) == multiset(s)
  {
    if s == [] then []
    else
      assert s == [s[0]] + s[1..];
      InsertKeepsSorted(src, s[0], SortByDuration(src, s[1..]));
      InsertByDuration(src, s[0], SortByDuration(src, s[1..]))
  }

  // ---------------------------------------------------------------------
  // The layout: which node keeps which call.
  // ---------------------------------------------------------------------

  /** The shape buildAsync gives the tree: each node's range, its own calls and its children. */
  datatype Layout = Layout(range: Interval, refs: seq<nat>, left: Option<Layout>, right: Option<Layout>)

  /** The references of a layout: the node's own, then the left and the right subtree's. */
  function AllRefs(l: Layout): seq<nat>
    decreases l
  {
    l.refs
      + (if l.left.Some? then AllRefs(l.left.value) else [])
      + (if l.right.Some? then AllRefs(l.right.value) else [])
  }

  /**
   * The fuel a node splits with: none for a range of zero length, whose
   * halves are the range itself, so that a child would be the node again.
   */
  function SplitFuel(x: Interval, fuel: nat): (f: nat)
    ensures f <= fuel && (x.Length() != 0.0 ==> f == fuel)
  {
    if x.Length() == 0.0 then 0 else fuel
  }

  /**
   * The partition of buildAsync, applied again to each half that keeps calls:
   * the node keeps what no child takes, sorted by decreasing duration. A
   * range of zero length keeps all its calls (see ZeroSpanCallsItself).
   */
  function Plan(src: Source, x: Interval, refs: seq<nat>, fuel: nat): (l: Layout)
    requires Good(src) && RefsIn(refs, |src.recs|) && x.Valid()
    ensures l.range == x
    decreases fuel
  {
    RangeMath.HalvesPartition(x);
    var p := Settle(Split(src, x, refs), SplitFuel(x, fuel));
    Layout(x, SortByDuration(src, p.own),
      if p.left == [] then None else Some(Plan(src, LeftHalf(x), p.left, fuel - 1)),
      if p.right == [] then None else Some(Plan(src, RightHalf(x), p.right, fuel - 1)))
  }

  /** Every owned call of the node is one the right child would not take. */
  predicate NotForRight(src: Source, x: Interval, refs: seq<nat>)
    requires Good(src) && RefsIn(refs, |src.recs|)
  {
    forall r :: r in refs ==> RightHalf(x).Contains(Span(src, r)) ==> LeftHalf(x).Contains(Span(src, r))
  }

  /**
   * The shape buildAsync promises: children cover the two halves, a node owns
   * only calls it contains and that no existing child takes, longest first.
   */
  ghost predicate WellFormed(src: Source, l: Layout)
    requires Good(src)
    decreases l
  {
    && RefsIn(l.refs, |src.recs|) && l.range.Valid()
    && AllIn(src, l.range, l.refs) && SortedDesc(src, l.refs)
    && (l.left.Some? ==>
         && l.left.value.range == LeftHalf(l.range) && NoneIn(src, LeftHalf(l.range), l.refs)
         && WellFormed(src, l.left.value))
    && (l.right.Some? ==>
         && l.right.value.range == RightHalf(l.range) && NotForRight(src, l.range, l.refs)
         && WellFormed(src, l.right.value))
  }

  lemma AllInPermutation(src: Source, x: Interval, a: seq<nat>, b: seq<nat>)
    requires Good(src) && RefsIn(a, |src.recs|) && RefsIn(b, |src.recs|)
    requires multiset(a) == multiset(b) && AllIn(src, x, a)
    ensures AllIn(src, x, b)
  {
    forall r | r in b
      ensures x.Contains(Span(src, r))
    {
      assert r in multiset(b);
      assert r in a;
    }
  }

  lemma NoneInPermutation(src: Source, x: Interval, a: seq<nat>, b: seq<nat>)
    requires Good(src) && RefsIn(a, |src.recs|) && RefsIn(b, |src.recs|)
    requires multiset(a) == multiset(b) && NoneIn(src, x, a)
    ensures NoneIn(src, x, b)
  {
    forall r | r in b
      ensures !x.Contains(Span(src, r))
    {
      assert r in multiset(b);
      assert r in a;
    }
  }

  lemma NotForRightPermutation(src: Source, x: Interval, a: seq<nat>, b: seq<nat>)
    requires Good(src) && RefsIn(a, |src.recs|) && RefsIn(b, |src.recs|)
    requires multiset(a) == multiset(b) && NotForRight(src, x, a)
    ensures NotForRight(src, x, b)
  {
    forall r | r in b
      ensures RightHalf(x).Contains(Span(src, r)) ==> LeftHalf(x).Contains(Span(src, r))
    {
      assert r in multiset(b);
      assert r in a;
    }
  }

  /** The parts handed to the children are calls of the list that their half contains. */
  lemma ChildrenPlaced(src: Source, x: Interval, refs: seq<nat>, fuel: nat)
    requires Good(src) && RefsIn(refs, |src.recs|)
    ensures var p := Settle(Split(src, x, refs), fuel);
      && RefsIn(p.left, |src.recs|) && RefsIn(p.right, |src.recs|)
      && AllIn(src, LeftHalf(x), p.left) && AllIn(src, RightHalf(x), p.right)
  {
    SplitPlaced(src, x, refs);
  }

  /** The node's own calls are calls of the list that its range contains. */
  lemma OwnContained(src: Source, x: Interval, refs: seq<nat>, fuel: nat)
    requires Good(src) && RefsIn(refs, |src.recs|) && x.Valid()
    ensures var p := Settle(Split(src, x, refs), fuel);
      RefsIn(p.own, |src.recs|) && AllIn(src, x, p.own)
  {
    RangeMath.HalvesPartition(x);
    var p0 := Split(src, x, refs);
    SplitPlaced(src, x, refs);
    var p := Settle(p0, fuel);
    var lpart := if |p0.left| < MinCallsPerNode || fuel == 0 then p0.left else [];
    var rpart := if |p0.right| < MinCallsPerNode || fuel == 0 then p0.right else [];
    assert p.own == p0.own + lpart + rpart;
    forall r | r in p.own
      ensures x.Contains(Span(src, r))
    {
      if r in p0.left {
        RangeMath.ContainsTransitive(x, LeftHalf(x), Span(src, r));
      } else if r in p0.right {
        RangeMath.ContainsTransitive(x, RightHalf(x), Span(src, r));
      }
    }
  }

  /** The node's own calls are not those its children take. */
  lemma OwnExcluded(src: Source, x: Interval, refs: seq<nat>, fuel: nat)
    requires Good(src) && RefsIn(refs, |src.recs|)
    ensures var p := Settle(Split(src, x, refs), fuel);
      RefsIn(p.own, |src.recs|)
      && (p.left != [] ==> NoneIn(src, LeftHalf(x), p.own))
      && (p.right != [] ==> NotForRight(src, x, p.own))
  {
    var p0 := Split(src, x, refs);
    SplitPlaced(src, x, refs);
    var p := Settle(p0, fuel);
    var lpart := if |p0.left| < MinCallsPerNode || fuel == 0 then p0.left else [];
    var rpart := if |p0.right| < MinCallsPerNode || fuel == 0 then p0.right else [];
    assert p.own == p0.own + lpart + rpart;
  }

  /** The node's own calls, once sorted, are contained in its range and taken by no child. */
  lemma OwnPlaced(src: Source, x: Interval, refs: seq<nat>, fuel: nat)
    requires Good(src) && RefsIn(refs, |src.recs|) && x.Valid()
    ensures var p := Settle(Split(src, x, refs), fuel);
      RefsIn(p.own, |src.recs|) &&
      var own := SortByDuration(src, p.own);
      && RefsIn(own, |src.recs|) && AllIn(src, x, own) && SortedDesc(src, own)
      && (p.left != [] ==> NoneIn(src, LeftHalf(x), own))
      && (p.right != [] ==> NotForRight(src, x, own))
  {
    OwnContained(src, x, refs, fuel);
    OwnExcluded(src, x, refs, fuel);
    var p := Settle(Split(src, x, refs), fuel);
    var own := SortByDuration(src, p.own);
    AllInPermutation(src, x, p.own, own);
    if p.left != [] {
      NoneInPermutation(src, LeftHalf(x), p.own, own);
    }
    if p.right != [] {
      NotForRightPermutation(src, x, p.own, own);
    }
  }

  /** The settled parts together hold every contained reference once. */
  lemma SettledCounts(src: Source, x: Interval, refs: seq<nat>, fuel: nat)
    requires Good(src) && RefsIn(refs, |src.recs|)
    ensures var p := Settle(Split(src, x, refs), fuel);
      multiset(p.own) + multiset(p.left) + multiset(p.right) == multiset(Contained(src, x, refs))
  {
    SplitCounts(src, x, refs);
  }

  /** What a layout node is made of. */
  lemma PlanShape(src: Source, x: Interval, refs: seq<nat>, fuel: nat)
    requires Good(src) && RefsIn(refs, |src.recs|) && x.Valid()
    ensures (RangeMath.HalvesPartition(x);
      var p := Settle(Split(src, x, refs), SplitFuel(x, fuel));
      Plan(src, x, refs, fuel) ==
        Layout(x, SortByDuration(src, p.own),
          if p.left == [] then None else Some(Plan(src, LeftHalf(x), p.left, fuel - 1)),
          if p.right == [] then None else Some(Plan(src, RightHalf(x), p.right, fuel - 1))))
  {
  }

  /** A node whose own calls and children meet buildAsync's conditions is well formed. */
  lemma NodeWellFormed(src: Source, x: Interval, own: seq<nat>, lc: Option<Layout>, rc: Option<Layout>)
    requires Good(src) && RefsIn(own, |src.recs|) && x.Valid()
    requires AllIn(src, x, own) && SortedDesc(src, own)
    requires lc.Some? ==> lc.value.range == LeftHalf(x) && NoneIn(src, LeftHalf(x), own) && WellFormed(src, lc.value)
    requires rc.Some? ==> rc.value.range == RightHalf(x) && NotForRight(src, x, own) && WellFormed(src, rc.value)
    ensures WellFormed(src, Layout(x, own, lc, rc))
  {
  }

  /** The layout has the shape buildAsync promises. */
  lemma {:induction false} PlanWellFormed(src: Source, x: Interval, refs: seq<nat>, fuel: nat)
    requires Good(src) && RefsIn(refs, |src.recs|) && x.Valid()
    ensures WellFormed(src, Plan(src, x, refs, fuel))
    decreases fuel, 1
  {
    RangeMath.HalvesPartition(x);
    var f := SplitFuel(x, fuel);
    ChildrenPlaced(src, x, refs, f);
    OwnPlaced(src, x, refs, f);
    var p := Settle(Split(src, x, refs), f);
    var lc := if p.left == [] then None else Some(Plan(src, LeftHalf(x), p.left, fuel - 1));
    var rc := if p.right == [] then None else Some(Plan(src, RightHalf(x), p.right, fuel - 1));
    if lc.Some? {
      HalfWellFormed(src, LeftHalf(x), p.left, fuel, lc.value);
    }
    if rc.Some? {
      HalfWellFormed(src, RightHalf(x), p.right, fuel, rc.value);
    }
    NodeWellFormed(src, x, SortByDuration(src, p.own), lc, rc);
    PlanShape(src, x, refs, fuel);
  }

  /** The layout of a half that keeps its own calls is well formed. */
  lemma {:induction false} HalfWellFormed(src: Source, h: Interval, part: seq<nat>, fuel: nat, l: Layout)
    requires Good(src) && RefsIn(part, |src.recs|) && h.Valid() && fuel > 0
    requires l == Plan(src, h, part, fuel - 1)
    ensures WellFormed(src, l)
    decreases fuel, 0
  {
    PlanWellFormed(src, h, part, fuel - 1);
  }

  /** The layout holds every call the range contains, each exactly once. */
  lemma {:induction false} PlanCounts(src: Source, x: Interval, refs: seq<nat>, fuel: nat)
    requires Good(src) && RefsIn(refs, |src.recs|) && x.Valid()
    ensures multiset(AllRefs(Plan(src, x, refs, fuel))) == multiset(Contained(src, x, refs))
    decreases fuel, 1
  {
    RangeMath.HalvesPartition(x);
    var f := SplitFuel(x, fuel);
    ChildrenPlaced(src, x, refs, f);
    var p := Settle(Split(src, x, refs), f);
    var lc: Option<Layout> := None;
    var rc: Option<Layout> := None;
    if p.left != [] {
      lc := Some(Plan(src, LeftHalf(x), p.left, fuel - 1));
      ChildCounts(src, LeftHalf(x), p.left, fuel - 1);
      assert multiset(AllRefs(lc.value)) == multiset(p.left);
    }
    if p.right != [] {
      rc := Some(Plan(src, RightHalf(x), p.right, fuel - 1));
      ChildCounts(src, RightHalf(x), p.right, fuel - 1);
      assert multiset(AllRefs(rc.value)) == multiset(p.right);
    }
    var la := if lc.Some? then AllRefs(lc.value) else [];
    var ra := if rc.Some? then AllRefs(rc.value) else [];
    OwnPlaced(src, x, refs, f);
    var own := SortByDuration(src, p.own);
    PlanShape(src, x, refs, fuel);
    assert Plan(src, x, refs, fuel) == Layout(x, own, lc, rc);
    assert AllRefs(Layout(x, own, lc, rc)) == own + la + ra;
    SettledCounts(src, x, refs, f);
  }

  /** A half's layout holds exactly the calls handed to it. */
  lemma {:induction false} ChildCounts(src: Source, half: Interval, refs: seq<nat>, fuel: nat)
    requires Good(src) && RefsIn(refs, |src.recs|) && half.Valid() && AllIn(src, half, refs)
    ensures multiset(AllRefs(Plan(src, half, refs, fuel))) == multiset(refs)
    decreases fuel, 2
  {
    PlanCounts(src, half, refs, fuel);
    ContainedKeepsAll(src, half, refs);
  }

  // ---------------------------------------------------------------------
  // The depth of the recursion.
  // ---------------------------------------------------------------------

  function Pow2(n: nat): (r: real)
    ensures r >= 1.0
  {
    if n == 0 then 1.0 else 2.0 * Pow2(n - 1)
  }

  /** Every call of refs lasts longer than d. */
  predicate LongerThan(src: Source, refs: seq<nat>, d: real)
    requires Good(src) && RefsIn(refs, |src.recs|)
  {
    forall c :: c in refs ==> Duration(src, c) > d
  }

  /** A call that a range contains lasts no longer than the range. */
  lemma ContainedNoLonger(src: Source, x: Interval, c: nat)
    requires Good(src) && c < |src.recs| && x.Contains(Span(src, c))
    ensures Duration(src, c) <= x.Length()
  {
  }

  /**
   * Below the depth where a half is shorter than every call, the halves
   * receive nothing and the recursion stops by itself: from fuel k on, any
   * more fuel builds the same layout.
   */
  lemma {:induction false} PlanFuelIndependent(src: Source, x: Interval, refs: seq<nat>, k: nat)
    requires Good(src) && RefsIn(refs, |src.recs|) && x.Valid()
    requires LongerThan(src, refs, x.Length() / Pow2(k + 1))
    ensures forall f: nat, g: nat {:trigger Plan(src, x, refs, f), Plan(src, x, refs, g)} ::
      k <= f <= g ==> Plan(src, x, refs, f) == Plan(src, x, refs, g)
    decreases k
  {
    RangeMath.HalvesPartition(x);
    var p := Split(src, x, refs);
    if x.Length() != 0.0 {
      var d := x.Length() / Pow2(k + 1);
      HalvesInherit(src, x, refs, d);
      if k == 0 {
        assert d == x.Length() / 2.0 by {
          assert Pow2(1) == 2.0;
        }
        HalvesEmpty(src, x, refs);
      } else {
        HalfLength(x, k);
        var k1: nat := k - 1;
        assert LeftHalf(x).Length() / Pow2(k1 + 1) == d && RightHalf(x).Length() / Pow2(k1 + 1) == d;
        PlanFuelIndependent(src, LeftHalf(x), p.left, k1);
        PlanFuelIndependent(src, RightHalf(x), p.right, k1);
      }
    }
    forall f: nat, g: nat | k <= f <= g
      ensures Plan(src, x, refs, f) == Plan(src, x, refs, g)
    {
      var q := Settle(p, SplitFuel(x, f));
      assert q == Settle(p, SplitFuel(x, g));
      PlanSameParts(src, x, refs, f, g, q);
    }
  }

  /** Two fuels build the same node when they settle the same parts and build the same children. */
  lemma PlanSameParts(src: Source, x: Interval, refs: seq<nat>, f: nat, g: nat, q: Parts)
    requires Good(src) && RefsIn(refs, |src.recs|) && x.Valid()
    requires q == Settle(Split(src, x, refs), SplitFuel(x, f)) && q == Settle(Split(src, x, refs), SplitFuel(x, g))
    requires (RangeMath.HalvesPartition(x);
      && (q.left != [] ==> Plan(src, LeftHalf(x), q.left, f - 1) == Plan(src, LeftHalf(x), q.left, g - 1))
      && (q.right != [] ==> Plan(src, RightHalf(x), q.right, f - 1) == Plan(src, RightHalf(x), q.right, g - 1)))
    ensures Plan(src, x, refs, f) == Plan(src, x, refs, g)
  {
    PlanShape(src, x, refs, f);
    PlanShape(src, x, refs, g);
  }

  /** Each half is half as long as the range, and one level down has one doubling less. */
  lemma HalfLength(x: Interval, f: nat)
    requires f > 0
    ensures LeftHalf(x).Length() / Pow2(f) == x.Length() / Pow2(f + 1)
    ensures RightHalf(x).Length() / Pow2(f) == x.Length() / Pow2(f + 1)
  {
    var P := Pow2(f);
    assert Pow2(f + 1) == 2.0 * P;
    assert LeftHalf(x).Length() == x.Length() / 2.0;
    assert RightHalf(x).Length() == x.Length() / 2.0;
  }

  /** What the halves receive are calls of refs: they last as long as those. */
  lemma HalvesInherit(src: Source, x: Interval, refs: seq<nat>, d: real)
    requires Good(src) && RefsIn(refs, |src.recs|) && LongerThan(src, refs, d)
    ensures var p := Split(src, x, refs);
      LongerThan(src, p.left, d) && LongerThan(src, p.right, d)
  {
    var p := Split(src, x, refs);
    SplitCounts(src, x, refs);
    forall c | c in p.left || c in p.right
      ensures c in refs
    {
      assert c in multiset(Contained(src, x, refs));
    }
  }

  /** When every call lasts longer than half the range, no half contains one. */
  lemma HalvesEmpty(src: Source, x: Interval, refs: seq<nat>)
    requires Good(src) && RefsIn(refs, |src.recs|) && LongerThan(src, refs, x.Length() / 2.0)
    ensures Split(src, x, refs).left == [] && Split(src, x, refs).right == []
  {
    var p := Split(src, x, refs);
    SplitPlaced(src, x, refs);
    HalvesInherit(src, x, refs, x.Length() / 2.0);
    assert LeftHalf(x).Length() == x.Length() / 2.0 && RightHalf(x).Length() == x.Length() / 2.0;
    if p.left != [] {
      ContainedNoLonger(src, LeftHalf(x), p.left[0]);
    }
    if p.right != [] {
      ContainedNoLonger(src, RightHalf(x), p.right[0]);
    }
  }

  /** Enough fuel for calls that all last longer than d > 0 in a range of length L. */
  function FuelFor(d: real, L: real): (f: nat)
    requires d > 0.0 && L >= 0.0
    ensures L / Pow2(f + 1) < d
  {
    var n := (L / d).Floor;
    var f := if n < 0 then 0 else n as nat;
    Pow2Grows(f + 1);
    var P := Pow2(f + 1);
    assert L / d < P;
    DivideBelow(L, d, P);
    f
  }

  /** L / d < P, for positive d and P, is L / P < d. */
  lemma DivideBelow(L: real, d: real, P: real)
    requires d > 0.0 && P > 0.0 && L / d < P
    ensures L / P < d
  {
    var q := L / d;
    assert L == q * d;
    assert q * d < P * d;
  }

  lemma {:induction false} Pow2Grows(n: nat)
    ensures Pow2(n) >= (n + 1) as real
  {
    if n > 0 {
      Pow2Grows(n - 1);
    }
  }

  /**
   * When every call lasts longer than some d > 0, the tree buildAsync builds
   * over the whole profile does not depend on the fuel once it reaches
   * FuelFor(d, maxWt).
   */
  lemma BuildRootFuelIndependent(src: Source, maxWt: real, d: real, g: nat)
    requires Good(src) && maxWt >= 0.0 && d > 0.0 && FuelFor(d, maxWt) <= g
    requires LongerThan(src, Ids(|src.recs|), d)
    ensures BuildRoot(src, maxWt, FuelFor(d, maxWt)) == BuildRoot(src, maxWt, g)
  {
    var x := RangeMath.Interval(0.0, maxWt);
    var f := FuelFor(d, maxWt);
    PlanFuelIndependent(src, x, Ids(|src.recs|), f);
  }

  /**
   * buildAsync's partition as written: a half with at least 500 calls is
   * built as a child, whatever the length of the range.
   */
  function SettleAsWritten(p: Parts): (q: Parts)
    ensures |p.left| >= MinCallsPerNode ==> q.left == p.left
  {
    Settle(p, 1)
  }

  /**
   * 500 calls that all start and end at the same instant x of a range of
   * zero length (a root range [0, 0] when the clock never moved): the left
   * half is x itself and receives every call, so buildAsync(x, refs) calls
   * buildAsync(x, refs) again, without end.
   */
  lemma {:induction false} ZeroSpanCallsItself(src: Source, x: Interval, refs: seq<nat>)
    requires Good(src) && RefsIn(refs, |src.recs|) && x.Length() == 0.0
    requires |refs| >= MinCallsPerNode && forall c :: c in refs ==> Span(src, c) == x
    ensures LeftHalf(x) == x && SettleAsWritten(Split(src, x, refs)).left == refs
  {
    SplitLeftAll(src, x, refs);
  }

  lemma {:induction false} SplitLeftAll(src: Source, x: Interval, refs: seq<nat>)
    requires Good(src) && RefsIn(refs, |src.recs|) && x.Length() == 0.0
    requires forall c :: c in refs ==> Span(src, c) == x
    ensures LeftHalf(x) == x && Split(src, x, refs).left == refs
    decreases |refs|
  {
    assert x.Center() == x.a;
    if refs != [] {
      var init := refs[..|refs| - 1];
      assert forall c :: c in init ==> c in refs;
      SplitLeftAll(src, x, init);
      assert refs == init + [refs[|refs| - 1]];
    }
  }

  /** The corrected build keeps a range of zero length as a leaf holding all its contained calls. */
  lemma ZeroSpanIsLeaf(src: Source, x: Interval, refs: seq<nat>, fuel: nat)
    requires Good(src) && RefsIn(refs, |src.recs|) && x.Valid() && x.Length() == 0.0
    ensures var l := Plan(src, x, refs, fuel);
      && l.left.None? && l.right.None?
      && multiset(l.refs) == multiset(Contained(src, x, refs))
  {
    PlanShape(src, x, refs, fuel);
    SettledCounts(src, x, refs, 0);
  }

  /** A well-formed layout refers to calls of the list only. */
  lemma {:induction false} WellFormedRefsIn(src: Source, l: Layout)
    requires Good(src) && WellFormed(src, l)
    ensures RefsIn(AllRefs(l), |src.recs|)
    decreases l
  {
    var la := if l.left.Some? then AllRefs(l.left.value) else [];
    var ra := if l.right.Some? then AllRefs(l.right.value) else [];
    if l.left.Some? {
      WellFormedRefsIn(src, l.left.value);
    }
    if l.right.Some? {
      WellFormedRefsIn(src, l.right.value);
    }
    assert AllRefs(l) == l.refs + la + ra;
  }

  // ---------------------------------------------------------------------
  // The tree: the layout with the aggregates each node caches.
  // ---------------------------------------------------------------------

  datatype Tree = Tree(
    range: Interval,
    refs: seq<nat>,
    left: Option<Tree>,
    right: Option<Tree>,
    functionsStats: map<int, ProfileStats.FnStats>,
    callTree: CallTrees.Node,
    cumCost: (Vec, Vec))

  /** The layout of a tree, without its caches. */
  function LayoutOf(t: Tree): Layout
    decreases t
  {
    Layout(t.range, t.refs,
      if t.left.Some? then Some(LayoutOf(t.left.value)) else None,
      if t.right.Some? then Some(LayoutOf(t.right.value)) else None)
  }

  /** What a call entry hands the aggregators. */
  function Info(src: Source, i: nat): (c: CallInfo)
    requires Good(src) && i < |src.recs|
    ensures |c.inc| == src.m && |c.exc| == src.m
  {
    InfoOf(src.recs, src.names, PlainView(src.recs, i))
  }

  function Infos(src: Source, refs: seq<nat>): (r: seq<CallInfo>)
    requires Good(src) && RefsIn(refs, |src.recs|)
    ensures |r| == |refs| && ProfileStats.Uniform(r, src.m)
    ensures forall k :: 0 <= k < |r| ==> r[k] == Info(src, refs[k]) && |r[k].inc| == src.m
  {
    seq(|refs|, k requires 0 <= k < |refs| => Info(src, refs[k]))
  }

  lemma RefsInAppend(a: seq<nat>, b: seq<nat>, n: nat)
    requires RefsIn(a, n) && RefsIn(b, n)
    ensures RefsIn(a + b, n)
  {
    forall k | 0 <= k < |a + b|
      ensures (a + b)[k] < n
    {
      if k < |a| {
        assert (a + b)[k] == a[k];
      } else {
        assert (a + b)[k] == b[k - |a|];
      }
    }
  }

  lemma InfosAppend(src: Source, a: seq<nat>, b: seq<nat>)
    requires Good(src) && RefsIn(a, |src.recs|) && RefsIn(b, |src.recs|)
    ensures RefsIn(a + b, |src.recs|) && Infos(src, a + b) == Infos(src, a) + Infos(src, b)
  {
    RefsInAppend(a, b, |src.recs|);
    var whole := Infos(src, a + b);
    var parts := Infos(src, a) + Infos(src, b);
    forall k | 0 <= k < |whole|
      ensures whole[k] == parts[k]
    {
      if k < |a| {
        assert (a + b)[k] == a[k];
      } else {
        assert (a + b)[k] == b[k - |a|];
      }
    }
  }

  function ZeroCost(m: nat): (Vec, Vec) { (Fill(m, 0.0), Fill(m, 0.0)) }

  /** CumCostStats.merge: negative parts into min, positive parts into max. */
  function MergeCost(a: (Vec, Vec), b: (Vec, Vec)): (Vec, Vec)
    requires |a.0| == |b.0| && |a.1| == |b.1|
  {
    (PlusNeg(a.0, b.0), PlusPos(a.1, b.1))
  }

  /** What the cached aggregates of a node satisfy on their own. */
  predicate CacheShaped(t: Tree, m: nat)
  {
    && CallTrees.TreeShaped(t.callTree, m) && CallTrees.Keyed(t.callTree)
    && ProfileStats.StatsShaped(t.functionsStats, m)
    && |t.cumCost.0| == m && |t.cumCost.1| == m && NonPos(t.cumCost.0) && NonNeg(t.cumCost.1)
  }


  /** The cost of a half: the child's cached cost, or the samples' cost over the half. */
  function SideCost(src: Source, half: Interval, child: Option<Tree>): (r: Result<(Vec, Vec)>)
    requires Good(src)
    requires child.Some? ==> CacheShaped(child.value, src.m)
    ensures r.Ok? ==> |r.value.0| == src.m && |r.value.1| == src.m && NonPos(r.value.0) && NonNeg(r.value.1)
  {
    if child.Some? then Ok(child.value.cumCost)
    else MetricValuesLists.CumCost(src.samples, src.m, half)
  }

  function MergeStatsOf(s: map<int, ProfileStats.FnStats>, child: Option<Tree>, m: nat): (r: map<int, ProfileStats.FnStats>)
    requires ProfileStats.StatsShaped(s, m)
    requires child.Some? ==> CacheShaped(child.value, m)
    ensures ProfileStats.StatsShaped(r, m)
  {
    if child.Some? then ProfileStats.MergeStats(s, child.value.functionsStats, m) else s
  }

  function MergeTreeOf(n: CallTrees.Node, child: Option<Tree>, m: nat): (r: CallTrees.Node)
    requires CallTrees.TreeShaped(n, m) && CallTrees.Keyed(n)
    requires child.Some? ==> CacheShaped(child.value, m)
    ensures CallTrees.TreeShaped(r, m) && CallTrees.Keyed(r)
  {
    if child.Some? then
      CallTrees.MergeKeyed(n, child.value.callTree, m);
      CallTrees.MergeNodes(n, child.value.callTree, m)
    else n
  }

  /** The node of buildAsync once its children and the cost of its halves are known. */
  function Assemble(src: Source, x: Interval, own: seq<nat>, lc: Option<Tree>, rc: Option<Tree>,
                    lcost: (Vec, Vec), rcost: (Vec, Vec)): (t: Tree)
    requires Good(src) && RefsIn(own, |src.recs|)
    requires lc.Some? ==> CacheShaped(lc.value, src.m)
    requires rc.Some? ==> CacheShaped(rc.value, src.m)
    requires |lcost.0| == src.m && |lcost.1| == src.m && NonPos(lcost.0) && NonNeg(lcost.1)
    requires |rcost.0| == src.m && |rcost.1| == src.m && NonPos(rcost.0) && NonNeg(rcost.1)
    ensures CacheShaped(t, src.m) && t.range == x && t.refs == own && t.left == lc && t.right == rc
  {
    var m := src.m;
    var calls := Infos(src, own);
    var fs := MergeStatsOf(MergeStatsOf(ProfileStats.StatsOf(calls, m), lc, m), rc, m);
    CallTrees.AddPathKeyedAll(calls, m);
    var ct := MergeTreeOf(MergeTreeOf(CallTrees.Build(calls, m), lc, m), rc, m);
    var minDuration := x.Length() / PruneFraction;
    CallTrees.PruneShaped(ct, minDuration, m);
    CallTrees.PruneKeyed(ct, minDuration);
    var c0 := ZeroCost(m);
    PlusNegKeepsNonPos(c0.0, lcost.0);
    PlusPosKeepsNonNeg(c0.1, lcost.1);
    var c1 := MergeCost(c0, lcost);
    PlusNegKeepsNonPos(c1.0, rcost.0);
    PlusPosKeepsNonNeg(c1.1, rcost.1);
    Tree(x, own, lc, rc, fs, CallTrees.PruneNode(ct, minDuration), MergeCost(c1, rcost))
  }

  /**
   * The aggregates of buildAsync over a layout: each child's caches, or the
   * samples' cost over a half without a child, merged into the node's own.
   */
  function Decorate(src: Source, l: Layout): (r: Result<Tree>)
    requires Good(src) && WellFormed(src, l)
    ensures r.Ok? ==> CacheShaped(r.value, src.m) && LayoutOf(r.value) == l
    decreases l
  {
    var lc: Result<Option<Tree>> :=
      if l.left.None? then Ok(None)
      else var c := Decorate(src, l.left.value); if c.Err? then Err(c.error) else Ok(Some(c.value));
    var rc: Result<Option<Tree>> :=
      if l.right.None? then Ok(None)
      else var c := Decorate(src, l.right.value); if c.Err? then Err(c.error) else Ok(Some(c.value));
    if lc.Err? then Err(lc.error)
    else if rc.Err? then Err(rc.error)
    else
      var lcost := SideCost(src, LeftHalf(l.range), lc.value);
      var rcost := SideCost(src, RightHalf(l.range), rc.value);
      if lcost.Err? then Err(lcost.error)
      else if rcost.Err? then Err(rcost.error)
      else Ok(Assemble(src, l.range, l.refs, lc.value, rc.value, lcost.value, rcost.value))
  }

  /** buildAsync(range, refs): the layout of the references, with its aggregates. */
  function Build(src: Source, x: Interval, refs: seq<nat>, fuel: nat): (r: Result<Tree>)
    requires Good(src) && RefsIn(refs, |src.recs|) && x.Valid()
    ensures r.Ok? ==> CacheShaped(r.value, src.m) && LayoutOf(r.value) == Plan(src, x, refs, fuel)
  {
    PlanWellFormed(src, x, refs, fuel);
    Decorate(src, Plan(src, x, refs, fuel))
  }

  /** The references of every call of a list of n calls, in order. */
  function Ids(n: nat): (r: seq<nat>)
    ensures |r| == n && RefsIn(r, n) && forall i :: 0 <= i < n ==> r[i] == i
  {
    seq(n, i => i)
  }

  /** The whole tree: every call of the list, over [0, the largest wall time]. */
  function BuildRoot(src: Source, maxWt: real, fuel: nat): Result<Tree>
    requires Good(src) && maxWt >= 0.0
  {
    Build(src, RangeMath.Interval(0.0, maxWt), Ids(|src.recs|), fuel)
  }

  // ---------------------------------------------------------------------
  // What the build guarantees.
  // ---------------------------------------------------------------------

  /** The tree is well formed and holds every call the range contains exactly once. */
  lemma BuildWellFormed(src: Source, x: Interval, refs: seq<nat>, fuel: nat)
    requires Good(src) && RefsIn(refs, |src.recs|) && x.Valid()
    requires Build(src, x, refs, fuel).Ok?
    ensures var l := LayoutOf(Build(src, x, refs, fuel).value);
      WellFormed(src, l) && RefsIn(AllRefs(l), |src.recs|)
        && multiset(AllRefs(l)) == multiset(Contained(src, x, refs))
  {
    PlanWellFormed(src, x, refs, fuel);
    WellFormedRefsIn(src, Plan(src, x, refs, fuel));
    PlanCounts(src, x, refs, fuel);
  }

  /** What the caches of a decorated node are made of. */
  lemma DecorateShape(src: Source, l: Layout)
    requires Good(src) && WellFormed(src, l) && Decorate(src, l).Ok?
    ensures var t := Decorate(src, l).value;
      && (t.left.Some? <==> l.left.Some?) && (t.right.Some? <==> l.right.Some?)
      && (l.left.Some? ==> Decorate(src, l.left.value).Ok? && t.left.value == Decorate(src, l.left.value).value)
      && (l.right.Some? ==> Decorate(src, l.right.value).Ok? && t.right.value == Decorate(src, l.right.value).value)
      && RefsIn(l.refs, |src.recs|)
      && t.functionsStats == MergeStatsOf(MergeStatsOf(ProfileStats.StatsOf(Infos(src, l.refs), src.m), t.left, src.m), t.right, src.m)
      && SideCost(src, LeftHalf(l.range), t.left).Ok? && SideCost(src, RightHalf(l.range), t.right).Ok?
      && t.cumCost == MergeCost(MergeCost(ZeroCost(src.m), SideCost(src, LeftHalf(l.range), t.left).value),
                                SideCost(src, RightHalf(l.range), t.right).value)
  {
  }

  /** A node's cached functions stats are the stats of all the calls of its subtree. */
  lemma {:induction false} DecorateStats(src: Source, l: Layout)
    requires Good(src) && WellFormed(src, l) && Decorate(src, l).Ok?
    ensures RefsIn(AllRefs(l), |src.recs|)
    ensures Decorate(src, l).value.functionsStats == ProfileStats.StatsOf(Infos(src, AllRefs(l)), src.m)
    decreases l
  {
    WellFormedRefsIn(src, l);
    DecorateShape(src, l);
    var m := src.m;
    var t := Decorate(src, l).value;
    var la: seq<nat> := [];
    var ra: seq<nat> := [];
    if l.left.Some? {
      DecorateStats(src, l.left.value);
      la := AllRefs(l.left.value);
      assert t.left.value.functionsStats == ProfileStats.StatsOf(Infos(src, la), m);
    }
    if l.right.Some? {
      DecorateStats(src, l.right.value);
      ra := AllRefs(l.right.value);
      assert t.right.value.functionsStats == ProfileStats.StatsOf(Infos(src, ra), m);
    }
    assert AllRefs(l) == l.refs + la + ra;
    assert RefsIn(la, |src.recs|) && RefsIn(ra, |src.recs|);
    var s1 := MergeStatsOf(ProfileStats.StatsOf(Infos(src, l.refs), m), t.left, m);
    InfosAppend(src, l.refs, la);
    if l.left.Some? {
      ProfileStats.MergeIsConcatenation(Infos(src, l.refs), Infos(src, la), m);
    } else {
      assert l.refs + la == l.refs;
    }
    assert s1 == ProfileStats.StatsOf(Infos(src, l.refs + la), m);
    InfosAppend(src, l.refs + la, ra);
    if l.right.Some? {
      ProfileStats.MergeIsConcatenation(Infos(src, l.refs + la), Infos(src, ra), m);
    } else {
      assert l.refs + la + ra == l.refs + la;
    }
  }

  /** The metric values at a time, read from the samples. */
  function ValuesAt(src: Source, time: real): Result<Vec>
    requires Good(src)
  {
    MetricValuesLists.MetricValuesAt(src.samples, src.m, time)
  }

  /** The cost over a range adds up to the change of the metrics from its start to its end. */
  ghost predicate NetCost(src: Source, x: Interval, c: (Vec, Vec))
    requires Good(src) && |c.0| == src.m && |c.1| == src.m
  {
    && (x.Length() == 0.0 ==> Plus(c.0, c.1) == Fill(src.m, 0.0))
    && (x.Length() > 0.0 ==>
         && ValuesAt(src, x.a).Ok? && ValuesAt(src, x.b).Ok?
         && Plus(c.0, c.1) == Minus(ValuesAt(src, x.b).value, ValuesAt(src, x.a).value))
  }

  /** Merging a cost whose parts have the right signs adds it. */
  lemma MergeCostAdds(a: (Vec, Vec), b: (Vec, Vec))
    requires |a.0| == |b.0| == |a.1| == |b.1| && NonPos(b.0) && NonNeg(b.1)
    ensures Plus(MergeCost(a, b).0, MergeCost(a, b).1) == Plus(Plus(a.0, a.1), Plus(b.0, b.1))
  {
  }

  /** The cost of a half adds up to the net change over it, with or without a child. */
  lemma SideNetCost(src: Source, half: Interval, c: Option<Tree>)
    requires Good(src) && (c.Some? ==> CacheShaped(c.value, src.m) && NetCost(src, half, c.value.cumCost))
    requires SideCost(src, half, c).Ok?
    ensures NetCost(src, half, SideCost(src, half, c).value)
  {
    if c.None? && half.Length() != 0.0 {
      MetricValuesLists.CumCostIsNetChange(src.samples, src.m, half);
    }
  }

  /** The costs of the two halves join into the net change over the whole range. */
  lemma NetCostJoins(src: Source, x: Interval, l1: (Vec, Vec), r1: (Vec, Vec))
    requires Good(src) && x.Valid()
    requires |l1.0| == src.m && |l1.1| == src.m && NonPos(l1.0) && NonNeg(l1.1)
    requires |r1.0| == src.m && |r1.1| == src.m && NonPos(r1.0) && NonNeg(r1.1)
    requires NetCost(src, LeftHalf(x), l1) && NetCost(src, RightHalf(x), r1)
    ensures NetCost(src, x, MergeCost(MergeCost(ZeroCost(src.m), l1), r1))
  {
    var m := src.m;
    var z := ZeroCost(m);
    MergeCostAdds(z, l1);
    PlusNegKeepsNonPos(z.0, l1.0);
    PlusPosKeepsNonNeg(z.1, l1.1);
    MergeCostAdds(MergeCost(z, l1), r1);
    assert Plus(z.0, z.1) == Fill(m, 0.0);
    assert Plus(Fill(m, 0.0), Plus(l1.0, l1.1)) == Plus(l1.0, l1.1);
    if x.Length() > 0.0 {
      var va, vc, vb := ValuesAt(src, x.a).value, ValuesAt(src, x.Center()).value, ValuesAt(src, x.b).value;
      assert Plus(Minus(vc, va), Minus(vb, vc)) == Minus(vb, va);
    }
  }

  /** A node's cached cumulative cost adds up to the change of every metric over its range. */
  lemma {:induction false} DecorateCost(src: Source, l: Layout)
    requires Good(src) && WellFormed(src, l) && Decorate(src, l).Ok?
    ensures NetCost(src, l.range, Decorate(src, l).value.cumCost)
    decreases l
  {
    DecorateShape(src, l);
    var t := Decorate(src, l).value;
    if l.left.Some? {
      DecorateCost(src, l.left.value);
      assert NetCost(src, LeftHalf(l.range), t.left.value.cumCost);
    }
    if l.right.Some? {
      DecorateCost(src, l.right.value);
      assert NetCost(src, RightHalf(l.range), t.right.value.cumCost);
    }
    SideNetCost(src, LeftHalf(l.range), t.left);
    SideNetCost(src, RightHalf(l.range), t.right);
    NetCostJoins(src, l.range, SideCost(src, LeftHalf(l.range), t.left).value,
                 SideCost(src, RightHalf(l.range), t.right).value);
  }

  /** The stats and the cost buildAsync caches at the top of the tree. */
  lemma BuildAggregates(src: Source, x: Interval, refs: seq<nat>, fuel: nat)
    requires Good(src) && RefsIn(refs, |src.recs|) && x.Valid()
    requires Build(src, x, refs, fuel).Ok?
    ensures var t := Build(src, x, refs, fuel).value;
      && RefsIn(AllRefs(LayoutOf(t)), |src.recs|)
      && t.functionsStats == ProfileStats.StatsOf(Infos(src, AllRefs(LayoutOf(t))), src.m)
      && NetCost(src, x, t.cumCost)
  {
    PlanWellFormed(src, x, refs, fuel);
    DecorateStats(src, Plan(src, x, refs, fuel));
    DecorateCost(src, Plan(src, x, refs, fuel));
  }
}
