/**
 * The queries of CallRangeTree in assets/web-ui/js/profileData.js over a
 * built tree: getNodeCount, getMaxDepth and getCallRefs.
 */
module CallRangeQueries {
  import opened Wrappers
  import opened CallRangeTrees
  import RangeMath

  // ---------------------------------------------------------------------
  // getNodeCount and getMaxDepth.
  // ---------------------------------------------------------------------

  /** getNodeCount: the node and the nodes of its subtrees. */
  function NodeCount(l: Layout): (r: nat)
    ensures r >= 1
    decreases l
  {
    1 + (if l.left.Some? then NodeCount(l.left.value) else 0)
      + (if l.right.Some? then NodeCount(l.right.value) else 0)
  }

  /** getMaxDepth: one more than the deepest child's. */
  function MaxDepth(l: Layout): (r: nat)
    ensures r >= 1
    decreases l
  {
    var dl := if l.left.Some? then MaxDepth(l.left.value) else 0;
    var dr := if l.right.Some? then MaxDepth(l.right.value) else 0;
    1 + if dl >= dr then dl else dr
  }

  /** A binary tree of depth d has at least d and at most 2^d - 1 nodes. */
  lemma {:induction false} DepthBoundsCount(l: Layout)
    ensures MaxDepth(l) <= NodeCount(l) < Pow2(MaxDepth(l))
    decreases l
  {
    if l.left.Some? {
      DepthBoundsCount(l.left.value);
      Pow2Grows(MaxDepth(l.left.value), MaxDepth(l) - 1);
    }
    if l.right.Some? {
      DepthBoundsCount(l.right.value);
      Pow2Grows(MaxDepth(l.right.value), MaxDepth(l) - 1);
    }
  }

  function Pow2(n: nat): (r: nat)
    ensures r >= 1
  {
    if n == 0 then 1 else 2 * Pow2(n - 1)
  }

  lemma {:induction false} Pow2Grows(a: nat, b: nat)
    requires a <= b
    ensures Pow2(a) <= Pow2(b)
    decreases b
  {
    if a < b {
      Pow2Grows(a, b - 1);
    }
  }

  // ---------------------------------------------------------------------
  // getCallRefs: the calls that overlap a range and last long enough.
  // ---------------------------------------------------------------------

  /** A call getCallRefs reports: at least minDuration long and overlapping the range. */
  predicate Wanted(src: Source, i: nat, q: Interval, minDuration: real)
    requires Good(src) && i < |src.recs|
  {
    Duration(src, i) >= minDuration && Span(src, i).Overlaps(q)
  }

  /** The wanted calls of refs, in their order. */
  function Keep(src: Source, refs: seq<nat>, q: Interval, minDuration: real): (r: seq<nat>)
    requires Good(src) && RefsIn(refs, |src.recs|)
    decreases |refs|
  {
    if refs == [] then []
    else (if Wanted(src, refs[0], q, minDuration) then [refs[0]] else []) + Keep(src, refs[1..], q, minDuration)
  }

  /** Keep selects exactly the wanted references. */
  lemma {:induction false} KeepMembers(src: Source, refs: seq<nat>, q: Interval, minDuration: real, i: nat)
    requires Good(src) && RefsIn(refs, |src.recs|) && i < |src.recs|
    ensures i in Keep(src, refs, q, minDuration) <==> i in refs && Wanted(src, i, q, minDuration)
    decreases |refs|
  {
    if refs != [] {
      KeepMembers(src, refs[1..], q, minDuration, i);
      assert refs == [refs[0]] + refs[1..];
    }
  }

  lemma {:induction false} KeepAppend(src: Source, a: seq<nat>, b: seq<nat>, q: Interval, minDuration: real)
    requires Good(src) && RefsIn(a, |src.recs|) && RefsIn(b, |src.recs|)
    ensures RefsIn(a + b, |src.recs|)
    ensures Keep(src, a + b, q, minDuration) == Keep(src, a, q, minDuration) + Keep(src, b, q, minDuration)
    decreases |a|
  {
    if a == [] {
      assert a + b == b;
    } else {
      assert (a + b)[0] == a[0];
      assert (a + b)[1..] == a[1..] + b;
      KeepAppend(src, a[1..], b, q, minDuration);
      assert Keep(src, a + b, q, minDuration)
        == (if Wanted(src, a[0], q, minDuration) then [a[0]] else []) + Keep(src, a[1..] + b, q, minDuration);
    }
  }

  /** No reference is kept when none is wanted. */
  lemma {:induction false} KeepNone(src: Source, refs: seq<nat>, q: Interval, minDuration: real)
    requires Good(src) && RefsIn(refs, |src.recs|)
    requires forall k :: 0 <= k < |refs| ==> !Wanted(src, refs[k], q, minDuration)
    ensures Keep(src, refs, q, minDuration) == []
    decreases |refs|
  {
    if refs != [] {
      assert forall k :: 0 <= k < |refs| - 1 ==> refs[1..][k] == refs[k + 1];
      KeepNone(src, refs[1..], q, minDuration);
    }
  }

  /** In a list sorted by decreasing duration, every call after a short one is short too. */
  lemma {:induction false} SortedShortTail(src: Source, refs: seq<nat>, minDuration: real)
    requires Good(src) && RefsIn(refs, |src.recs|) && SortedDesc(src, refs)
    requires refs != [] && Duration(src, refs[0]) < minDuration
    ensures forall k :: 0 <= k < |refs| ==> Duration(src, refs[k]) < minDuration
    decreases |refs|
  {
    if |refs| > 1 {
      SortedShortTail(src, refs[1..], minDuration);
      forall k | 0 < k < |refs|
        ensures Duration(src, refs[k]) < minDuration
      {
        assert refs[k] == refs[1..][k - 1];
      }
    }
  }

  lemma {:induction false} SortedSuffix(src: Source, refs: seq<nat>, i: nat)
    requires Good(src) && RefsIn(refs, |src.recs|) && SortedDesc(src, refs) && i <= |refs|
    ensures RefsIn(refs[i..], |src.recs|) && SortedDesc(src, refs[i..])
    decreases i
  {
    if i > 0 {
      SortedSuffix(src, refs[1..], i - 1);
      assert refs[1..][i - 1..] == refs[i..];
    }
  }

  /** Once a call of a sorted list is too short, nothing after it is kept either. */
  lemma ShortRest(src: Source, refs: seq<nat>, i: nat, q: Interval, minDuration: real)
    requires Good(src) && RefsIn(refs, |src.recs|) && SortedDesc(src, refs)
    requires i < |refs| && Duration(src, refs[i]) < minDuration
    ensures RefsIn(refs[..i], |src.recs|) && Keep(src, refs, q, minDuration) == Keep(src, refs[..i], q, minDuration)
  {
    SortedSuffix(src, refs, i);
    SortedShortTail(src, refs[i..], minDuration);
    KeepNone(src, refs[i..], q, minDuration);
    KeepAppend(src, refs[..i], refs[i..], q, minDuration);
    assert refs[..i] + refs[i..] == refs;
  }

  /** One more call of the list scanned. */
  lemma KeepStep(src: Source, refs: seq<nat>, i: nat, q: Interval, minDuration: real)
    requires Good(src) && RefsIn(refs, |src.recs|) && i < |refs|
    ensures RefsIn(refs[..i], |src.recs|) && RefsIn(refs[..i + 1], |src.recs|)
    ensures Keep(src, refs[..i + 1], q, minDuration)
      == Keep(src, refs[..i], q, minDuration) + (if Wanted(src, refs[i], q, minDuration) then [refs[i]] else [])
  {
    assert refs[..i + 1] == refs[..i] + [refs[i]];
    KeepAppend(src, refs[..i], [refs[i]], q, minDuration);
  }

  /**
   * The first loop of getCallRefs, over the node's own calls: the longest come
   * first, so the loop stops at the first call shorter than minDuration.
   */
  method ScanOwn(src: Source, refs: seq<nat>, q: Interval, minDuration: real, acc: seq<nat>) returns (r: seq<nat>)
    requires Good(src) && RefsIn(refs, |src.recs|) && SortedDesc(src, refs)
    ensures r == acc + Keep(src, refs, q, minDuration)
  {
    r := acc;
    var i := 0;
    assert refs[..0] == [];
    while i < |refs|
      invariant 0 <= i <= |refs|
      invariant RefsIn(refs[..i], |src.recs|)
      invariant r == acc + Keep(src, refs[..i], q, minDuration)
    {
      var c := refs[i];
      if Duration(src, c) < minDuration {
        ShortRest(src, refs, i, q, minDuration);
        return;
      }
      KeepStep(src, refs, i, q, minDuration);
      if Span(src, c).Overlaps(q) {
        r := r + [c];
      }
      i := i + 1;
    }
    assert refs[..i] == refs;
  }

  /** Every call of a well-formed subtree lies inside the subtree's range. */
  lemma {:induction false} AllRefsInRange(src: Source, l: Layout)
    requires Good(src) && WellFormed(src, l)
    ensures RefsIn(AllRefs(l), |src.recs|) && AllIn(src, l.range, AllRefs(l))
    decreases l
  {
    WellFormedRefsIn(src, l);
    RangeMath.HalvesPartition(l.range);
    var la := if l.left.Some? then AllRefs(l.left.value) else [];
    var ra := if l.right.Some? then AllRefs(l.right.value) else [];
    if l.left.Some? {
      AllRefsInRange(src, l.left.value);
    }
    if l.right.Some? {
      AllRefsInRange(src, l.right.value);
    }
    assert AllRefs(l) == l.refs + la + ra;
    forall r | r in AllRefs(l)
      ensures l.range.Contains(Span(src, r))
    {
      if r in la {
        RangeMath.ContainsTransitive(l.range, LeftHalf(l.range), Span(src, r));
      } else if r in ra {
        RangeMath.ContainsTransitive(l.range, RightHalf(l.range), Span(src, r));
      }
    }
  }

  /** A subtree shorter than minDuration, or away from the range, has nothing to report. */
  lemma NothingWanted(src: Source, l: Layout, q: Interval, minDuration: real)
    requires Good(src) && WellFormed(src, l)
    requires l.range.Length() < minDuration || !l.range.Overlaps(q)
    ensures RefsIn(AllRefs(l), |src.recs|) && Keep(src, AllRefs(l), q, minDuration) == []
  {
    AllRefsInRange(src, l);
    var all := AllRefs(l);
    forall k | 0 <= k < |all|
      ensures !Wanted(src, all[k], q, minDuration)
    {
      assert all[k] in all;
    }
    KeepNone(src, all, q, minDuration);
  }

  /** The references of an optional subtree. */
  function SubRefs(c: Option<Tree>): seq<nat>
  {
    if c.Some? then AllRefs(LayoutOf(c.value)) else []
  }

  /** A subtree getCallRefs may query: a well-formed tree over a well-formed call list. */
  ghost predicate Ready(src: Source, t: Tree)
  {
    Good(src) && WellFormed(src, LayoutOf(t))
  }

  /** What getCallRefs relies on at a well-formed node. */
  lemma TreeParts(src: Source, t: Tree, q: Interval, minDuration: real)
    requires Ready(src, t)
    ensures Good(src) && RefsIn(t.refs, |src.recs|) && SortedDesc(src, t.refs)
    ensures t.left.Some? ==> Ready(src, t.left.value)
    ensures t.right.Some? ==> Ready(src, t.right.value)
    ensures RefsIn(SubRefs(t.left), |src.recs|) && RefsIn(SubRefs(t.right), |src.recs|)
    ensures RefsIn(AllRefs(LayoutOf(t)), |src.recs|)
    ensures Keep(src, AllRefs(LayoutOf(t)), q, minDuration)
      == Keep(src, t.refs, q, minDuration) + Keep(src, SubRefs(t.left), q, minDuration)
        + Keep(src, SubRefs(t.right), q, minDuration)
  {
    if t.left.Some? {
      WellFormedRefsIn(src, LayoutOf(t.left.value));
    }
    if t.right.Some? {
      WellFormedRefsIn(src, LayoutOf(t.right.value));
    }
    assert AllRefs(LayoutOf(t)) == t.refs + SubRefs(t.left) + SubRefs(t.right);
    KeepAppend(src, t.refs, SubRefs(t.left), q, minDuration);
    KeepAppend(src, t.refs + SubRefs(t.left), SubRefs(t.right), q, minDuration);
  }

  /**
   * getCallRefs(range, minDuration, callRefs): appends to callRefs the wanted
   * calls of the subtree, the node's own first, then each child's.
   */
  method GetCallRefs(src: Source, t: Tree, q: Interval, minDuration: real, callRefs: seq<nat>) returns (r: seq<nat>)
    requires Ready(src, t)
    ensures Good(src) && RefsIn(AllRefs(LayoutOf(t)), |src.recs|)
    ensures r == callRefs + Keep(src, AllRefs(LayoutOf(t)), q, minDuration)
    decreases t
  {
    TreeParts(src, t, q, minDuration);
    if t.range.Length() < minDuration || !t.range.Overlaps(q) {
      NothingWanted(src, LayoutOf(t), q, minDuration);
      assert callRefs + [] == callRefs;
      return callRefs;
    }
    ghost var own := Keep(src, t.refs, q, minDuration);
    ghost var kl := Keep(src, SubRefs(t.left), q, minDuration);
    ghost var kr := Keep(src, SubRefs(t.right), q, minDuration);
    r := ScanOwn(src, t.refs, q, minDuration, callRefs);
    if t.left.Some? {
      r := GetCallRefs(src, t.left.value, q, minDuration, r);
    } else {
      assert r + kl == r;
    }
    if t.right.Some? {
      r := GetCallRefs(src, t.right.value, q, minDuration, r);
    } else {
      assert r + kr == r;
    }
    assert r == callRefs + own + kl + kr;
    AppendAssoc(callRefs, own, kl, kr);
  }

  lemma AppendAssoc(a: seq<nat>, b: seq<nat>, c: seq<nat>, d: seq<nat>)
    ensures a + b + c + d == a + (b + c + d)
  {
  }

  /** A reference is kept by Contained exactly when it is listed and the range contains its call. */
  lemma {:induction false} ContainedExact(src: Source, x: Interval, refs: seq<nat>, i: nat)
    requires Good(src) && RefsIn(refs, |src.recs|) && i < |src.recs|
    ensures i in Contained(src, x, refs) <==> i in refs && x.Contains(Span(src, i))
    decreases |refs|
  {
    if refs != [] {
      var init := refs[..|refs| - 1];
      ContainedExact(src, x, init, i);
      assert refs == init + [refs[|refs| - 1]];
    }
  }

  /**
   * getCallRefs over a built tree reports exactly the listed calls inside the
   * tree's range that last at least minDuration and overlap the range asked for.
   */
  lemma BuildCallRefsExact(src: Source, x: Interval, refs: seq<nat>, fuel: nat, q: Interval, minDuration: real, i: nat)
    requires Good(src) && RefsIn(refs, |src.recs|) && x.Valid() && i < |src.recs|
    requires Build(src, x, refs, fuel).Ok?
    ensures var all := AllRefs(LayoutOf(Build(src, x, refs, fuel).value));
      RefsIn(all, |src.recs|) &&
      (i in Keep(src, all, q, minDuration) <==> i in refs && x.Contains(Span(src, i)) && Wanted(src, i, q, minDuration))
  {
    BuildWellFormed(src, x, refs, fuel);
    var all := AllRefs(LayoutOf(Build(src, x, refs, fuel).value));
    KeepMembers(src, all, q, minDuration, i);
    ContainedExact(src, x, refs, i);
    assert i in all <==> i in multiset(all);
  }

  /**
   * ProfileData.getCalls: over the tree of the whole call list, exactly the
   * calls within [0, maxWt] that last at least minDuration and overlap the range.
   */
  lemma GetCallsExact(src: Source, maxWt: real, fuel: nat, q: Interval, minDuration: real, i: nat)
    requires Good(src) && maxWt >= 0.0 && BuildRoot(src, maxWt, fuel).Ok? && i < |src.recs|
    ensures var all := AllRefs(LayoutOf(BuildRoot(src, maxWt, fuel).value));
      RefsIn(all, |src.recs|) &&
      (i in Keep(src, all, q, minDuration) <==>
        RangeMath.Interval(0.0, maxWt).Contains(Span(src, i)) && Wanted(src, i, q, minDuration))
  {
    var ids := Ids(|src.recs|);
    assert ids[i] == i;
    BuildCallRefsExact(src, RangeMath.Interval(0.0, maxWt), ids, fuel, q, minDuration, i);
  }
}
