/**
 * CallTreeStatsNode and CallTreeStats of assets/web-ui/js/profileData.js:
 * the calls of a time range merged by their function-name path. A node's
 * children are kept in insertion order, keyed by function name.
 */
module CallTrees {
  import opened Wrappers
  import opened MetricValues
  import opened CallLists
  import RangeMath

  /** Number.MAX_VALUE */
  const MaxValue: real := 1.7976931348623157e308

  datatype Node = Node(name: Option<string>, children: seq<Node>, minTime: real, called: nat, inc: Vec)

  function NewNode(name: Option<string>, m: nat): Node
  {
    Node(name, [], MaxValue, 0, Fill(m, 0.0))
  }

  /** The root has no function name and counts as called once. */
  function Root(m: nat): Node
  {
    NewNode(None, m).(called := 1)
  }

  /** Every inc vector of the tree has m components. */
  predicate TreeShaped(n: Node, m: nat)
  {
    |n.inc| == m && forall i :: 0 <= i < |n.children| ==> TreeShaped(n.children[i], m)
  }

  predicate DistinctNames(cs: seq<Node>)
  {
    forall i, j :: 0 <= i < j < |cs| ==> cs[i].name != cs[j].name
  }

  /** Children are named and no two siblings share a name, at every level. */
  predicate Keyed(n: Node)
  {
    && (forall i :: 0 <= i < |n.children| ==> n.children[i].name.Some?)
    && DistinctNames(n.children)
    && forall i :: 0 <= i < |n.children| ==> Keyed(n.children[i])
  }

  /** children[name]: the position of the child with that name. */
  function ChildIndex(cs: seq<Node>, name: string): (r: Option<nat>)
    ensures r.Some? ==> r.value < |cs| && cs[r.value].name == Some(name)
    ensures r.None? ==> forall i :: 0 <= i < |cs| ==> cs[i].name != Some(name)
  {
    if cs == [] then None
    else if cs[0].name == Some(name) then Some(0)
    else match ChildIndex(cs[1..], name)
      case None => None
      case Some(k) => Some(k + 1)
  }

  /** addCallStats: earliest start, one more call, its inc added. */
  function AddStats(n: Node, c: CallInfo): Node
    requires |n.inc| == |c.inc|
  {
    n.(minTime := RangeMath.Min(n.minTime, c.startWt), called := n.called + 1, inc := Plus(n.inc, c.inc))
  }

  /** Walks the name path from n, creating missing children, and adds the call at its end. */
  function AddPath(n: Node, path: seq<string>, c: CallInfo, m: nat): (r: Node)
    requires TreeShaped(n, m) && |c.inc| == m
    ensures TreeShaped(r, m) && r.name == n.name
    decreases |path|
  {
    if path == [] then AddStats(n, c)
    else
      var k := ChildIndex(n.children, path[0]);
      var child := if k.Some? then n.children[k.value] else NewNode(Some(path[0]), m);
      var child2 := AddPath(child, path[1..], c, m);
      var cs := if k.Some? then n.children[k.value := child2] else n.children + [child2];
      assert forall i :: 0 <= i < |cs| ==> TreeShaped(cs[i], m);
      n.(children := cs)
  }

  /**
   * Properties every plain JavaScript object inherits from Object.prototype:
   * `children[name]` yields one of them for a name that was never added.
   */
  const InheritedNames: set<string> := {
    "constructor", "__proto__", "toString", "toLocaleString", "valueOf", "hasOwnProperty",
    "isPrototypeOf", "propertyIsEnumerable", "__defineGetter__", "__defineSetter__",
    "__lookupGetter__", "__lookupSetter__"
  }

  /**
   * The path walk as written over a plain object: an inherited property is
   * truthy, so no child is created and the walk goes on from a value that is
   * not a node, which fails with a TypeError at the next lookup or at
   * addCallStats.
   */
  function AddPathAsWritten(n: Node, path: seq<string>, c: CallInfo, m: nat): (r: Result<Node>)
    requires TreeShaped(n, m) && |c.inc| == m
    decreases |path|
  {
    if path == [] then Ok(AddStats(n, c))
    else
      var k := ChildIndex(n.children, path[0]);
      if k.None? && path[0] in InheritedNames then Err("TypeError")
      else
        var child := if k.Some? then n.children[k.value] else NewNode(Some(path[0]), m);
        match AddPathAsWritten(child, path[1..], c, m)
        case Err(e) => Err(e)
        case Ok(child2) =>
          var cs := if k.Some? then n.children[k.value := child2] else n.children + [child2];
          Ok(n.(children := cs))
  }

  /** Away from the inherited names the walk as written is AddPath. */
  lemma {:induction false} AsWrittenAgrees(n: Node, path: seq<string>, c: CallInfo, m: nat)
    requires TreeShaped(n, m) && |c.inc| == m
    requires forall i :: 0 <= i < |path| ==> path[i] !in InheritedNames
    ensures AddPathAsWritten(n, path, c, m) == Ok(AddPath(n, path, c, m))
    decreases |path|
  {
    if path != [] {
      var k := ChildIndex(n.children, path[0]);
      var child := if k.Some? then n.children[k.value] else NewNode(Some(path[0]), m);
      AsWrittenAgrees(child, path[1..], c, m);
    }
  }

  /** A top-level PHP function named toString breaks the walk as written, not AddPath. */
  lemma InheritedNameBreaksBuild(c: CallInfo, m: nat)
    requires |c.inc| == m && c.path == ["toString"]
    ensures AddPathAsWritten(Root(m), c.path, c, m).Err?
    ensures var t := AddPath(Root(m), c.path, c, m);
      |t.children| == 1 && t.children[0].name == Some("toString") && t.children[0].called == 1
  {
  }

  /** One call of the constructor's loop; a depth-1 call also adds its inc to the root. */
  function AddCall(root: Node, c: CallInfo, m: nat): (r: Node)
    requires TreeShaped(root, m) && |c.inc| == m
    ensures TreeShaped(r, m)
  {
    var t := AddPath(root, c.path, c, m);
    if |c.path| == 1 then t.(inc := Plus(t.inc, c.inc)) else t
  }

  function Build(calls: seq<CallInfo>, m: nat): (r: Node)
    requires forall k :: 0 <= k < |calls| ==> |calls[k].inc| == m
    ensures TreeShaped(r, m)
    decreases |calls|
  {
    if calls == [] then Root(m)
    else AddCall(Build(calls[..|calls| - 1], m), calls[|calls| - 1], m)
  }

  // ---------------------------------------------------------------------
  // getChildren: the children ordered by their earliest start.
  // ---------------------------------------------------------------------

  predicate SortedByMinTime(cs: seq<Node>)
  {
    forall i, j :: 0 <= i < j < |cs| ==> cs[i].minTime <= cs[j].minTime
  }

  /** Inserts x before the first node that starts no earlier than it. */
  function InsertByMinTime(x: Node, s: seq<Node>): (r: seq<Node>)
    requires SortedByMinTime(s)
    ensures SortedByMinTime(r) && multiset(r) == multiset(s) + multiset{x}
    ensures |r| == |s| + 1 && (r[0] == x || (s != [] && r[0] == s[0]))
  {
    if s == [] then [x]
    else if x.minTime <= s[0].minTime then ConsSorted(x, s); [x] + s
    else
      var t := InsertByMinTime(x, s[1..]);
      InsertBehind(x, s, t);
      [s[0]] + t
  }

  /** The inductive step of InsertByMinTime: x goes behind the head of s. */
  lemma InsertBehind(x: Node, s: seq<Node>, t: seq<Node>)
    requires SortedByMinTime(s) && s != [] && s[0].minTime < x.minTime
    requires SortedByMinTime(t) && multiset(t) == multiset(s[1..]) + multiset{x}
    requires |t| == |s| && (t[0] == x || (|s| > 1 && t[0] == s[1]))
    ensures SortedByMinTime([s[0]] + t) && multiset([s[0]] + t) == multiset(s) + multiset{x}
  {
    assert s == [s[0]] + s[1..];
    ConsSorted(s[0], t);
  }

  /** A node that starts no later than the head of a sorted list can go in front. */
  lemma ConsSorted(h: Node, t: seq<Node>)
    requires SortedByMinTime(t) && t != [] && h.minTime <= t[0].minTime
    ensures SortedByMinTime([h] + t)
  {
    forall i, j | 0 <= i < j < |[h] + t|
      ensures ([h] + t)[i].minTime <= ([h] + t)[j].minTime
    {
      if i > 0 {
        assert ([h] + t)[i] == t[i - 1];
      }
    }
  }

  /** getChildren: the children in order of earliest start (the comparator a.minTime - b.minTime). */
  function SortByMinTime(cs: seq<Node>): (r: seq<Node>)
    ensures SortedByMinTime(r) && multiset(r) == multiset(cs)
  {
    if cs == [] then []
    else
      assert cs == [cs[0]] + cs[1..];
      InsertByMinTime(cs[0], SortByMinTime(cs[1..]))
  }

  /** Children already in start order keep their order. */
  lemma {:induction false} SortKeepsSorted(cs: seq<Node>)
    requires SortedByMinTime(cs)
    ensures SortByMinTime(cs) == cs
  {
    if cs != [] {
      SortKeepsSorted(cs[1..]);
      assert cs == [cs[0]] + cs[1..];
    }
  }

  // ---------------------------------------------------------------------
  // Call counts over a tree.
  // ---------------------------------------------------------------------

  function Total(n: Node): nat
    decreases n, 1
  {
    n.called + TotalFrom(n, 0)
  }

  /** The totals of the children of n from position i on. */
  function TotalFrom(n: Node, i: nat): nat
    decreases n, 0, |n.children| - i
  {
    if i >= |n.children| then 0 else Total(n.children[i]) + TotalFrom(n, i + 1)
  }

  function TotalSeq(cs: seq<Node>): nat
  {
    if cs == [] then 0 else Total(cs[0]) + TotalSeq(cs[1..])
  }

  lemma {:induction false} TotalFromSeq(n: Node, i: nat)
    requires i <= |n.children|
    ensures TotalFrom(n, i) == TotalSeq(n.children[i..])
    decreases |n.children| - i
  {
    if i < |n.children| {
      TotalFromSeq(n, i + 1);
      assert n.children[i..][1..] == n.children[i + 1..];
    }
  }

  lemma {:induction false} TotalSeqAppend(a: seq<Node>, b: seq<Node>)
    ensures TotalSeq(a + b) == TotalSeq(a) + TotalSeq(b)
  {
    if a != [] {
      assert (a + b)[1..] == a[1..] + b;
      TotalSeqAppend(a[1..], b);
    } else {
      assert a + b == b;
    }
  }

  lemma {:induction false} TotalSeqUpdate(cs: seq<Node>, k: nat, x: Node)
    requires k < |cs|
    ensures TotalSeq(cs[k := x]) + Total(cs[k]) == TotalSeq(cs) + Total(x)
  {
    if k > 0 {
      assert cs[k := x][1..] == cs[1..][k - 1 := x];
      TotalSeqUpdate(cs[1..], k - 1, x);
    }
  }

  lemma TotalOf(n: Node)
    ensures Total(n) == n.called + TotalSeq(n.children)
  {
    TotalFromSeq(n, 0);
  }

  /** Adding a call along a path adds exactly one call to the tree. */
  lemma {:induction false} AddPathCountsOnce(n: Node, path: seq<string>, c: CallInfo, m: nat)
    requires TreeShaped(n, m) && |c.inc| == m
    ensures Total(AddPath(n, path, c, m)) == Total(n) + 1
    decreases |path|
  {
    var r := AddPath(n, path, c, m);
    TotalOf(n);
    TotalOf(r);
    if path != [] {
      var k := ChildIndex(n.children, path[0]);
      var child := if k.Some? then n.children[k.value] else NewNode(Some(path[0]), m);
      AddPathCountsOnce(child, path[1..], c, m);
      var child2 := AddPath(child, path[1..], c, m);
      if k.Some? {
        TotalSeqUpdate(n.children, k.value, child2);
      } else {
        TotalSeqAppend(n.children, [child2]);
        TotalOf(child);
        assert [child2][1..] == [];
      }
    }
  }

  /** The tree of n calls counts the root plus one per call. */
  lemma {:induction false} BuildCountsCalls(calls: seq<CallInfo>, m: nat)
    requires forall k :: 0 <= k < |calls| ==> |calls[k].inc| == m
    ensures Total(Build(calls, m)) == |calls| + 1
    decreases |calls|
  {
    if calls == [] {
      TotalOf(Root(m));
    } else {
      var init := calls[..|calls| - 1];
      var c := calls[|calls| - 1];
      BuildCountsCalls(init, m);
      var t := AddPath(Build(init, m), c.path, c, m);
      AddPathCountsOnce(Build(init, m), c.path, c, m);
      TotalOf(t);
      TotalOf(t.(inc := Plus(t.inc, c.inc)));
    }
  }

  // ---------------------------------------------------------------------
  // Names stay keys.
  // ---------------------------------------------------------------------

  lemma DistinctAppend(cs: seq<Node>, x: Node)
    requires DistinctNames(cs) && x.name.Some? && ChildIndex(cs, x.name.value).None?
    ensures DistinctNames(cs + [x])
  {
  }

  /** AddPath keeps sibling names distinct. */
  lemma {:induction false} AddPathKeyed(n: Node, path: seq<string>, c: CallInfo, m: nat)
    requires TreeShaped(n, m) && |c.inc| == m && Keyed(n)
    ensures Keyed(AddPath(n, path, c, m))
    decreases |path|
  {
    if path != [] {
      var k := ChildIndex(n.children, path[0]);
      var child := if k.Some? then n.children[k.value] else NewNode(Some(path[0]), m);
      AddPathKeyed(child, path[1..], c, m);
      var child2 := AddPath(child, path[1..], c, m);
      if k.None? {
        DistinctAppend(n.children, child2);
      }
    }
  }

  /** The constructor's tree has distinct sibling names everywhere. */
  lemma {:induction false} AddPathKeyedAll(calls: seq<CallInfo>, m: nat)
    requires forall k :: 0 <= k < |calls| ==> |calls[k].inc| == m
    ensures Keyed(Build(calls, m))
    decreases |calls|
  {
    if calls != [] {
      var init := calls[..|calls| - 1];
      var c := calls[|calls| - 1];
      AddPathKeyedAll(init, m);
      AddPathKeyed(Build(init, m), c.path, c, m);
    }
  }

  // ---------------------------------------------------------------------
  // merge
  // ---------------------------------------------------------------------

  /** merge: counts and inc add up, minTime is the earlier, children are merged by name. */
  function MergeNodes(a: Node, b: Node, m: nat): (r: Node)
    requires TreeShaped(a, m) && TreeShaped(b, m)
    ensures TreeShaped(r, m) && r.name == a.name
    ensures r.called == a.called + b.called && r.inc == Plus(a.inc, b.inc)
    ensures r.minTime == RangeMath.Min(a.minTime, b.minTime)
    decreases b, |b.children| + 1
  {
    Node(a.name, MergeChildren(a.children, b, 0, m), RangeMath.Min(a.minTime, b.minTime),
      a.called + b.called, Plus(a.inc, b.inc))
  }

  /** The children of b from position i on merged into cs, in b's order. */
  function MergeChildren(cs: seq<Node>, b: Node, i: nat, m: nat): (r: seq<Node>)
    requires forall j :: 0 <= j < |cs| ==> TreeShaped(cs[j], m)
    requires TreeShaped(b, m)
    ensures forall j :: 0 <= j < |r| ==> TreeShaped(r[j], m)
    decreases b, |b.children| - i
  {
    if i >= |b.children| then cs
    else
      var x := b.children[i];
      var name := if x.name.Some? then x.name.value else "undefined";
      var k := ChildIndex(cs, name);
      var cs2 := if k.Some? then cs[k.value := MergeNodes(cs[k.value], x, m)]
        else cs + [MergeNodes(NewNode(Some(name), m), x, m)];
      MergeChildren(cs2, b, i + 1, m)
  }

  /** Merging adds the call counts of the two trees. */
  lemma {:induction false} MergeAddsTotals(a: Node, b: Node, m: nat)
    requires TreeShaped(a, m) && TreeShaped(b, m)
    ensures Total(MergeNodes(a, b, m)) == Total(a) + Total(b)
    decreases b, |b.children| + 1
  {
    TotalOf(a);
    TotalOf(b);
    TotalOf(MergeNodes(a, b, m));
    MergeChildrenTotals(a.children, b, 0, m);
    TotalFromSeq(b, 0);
  }

  lemma {:induction false} MergeChildrenTotals(cs: seq<Node>, b: Node, i: nat, m: nat)
    requires forall j :: 0 <= j < |cs| ==> TreeShaped(cs[j], m)
    requires TreeShaped(b, m)
    ensures TotalSeq(MergeChildren(cs, b, i, m)) == TotalSeq(cs) + TotalFrom(b, i)
    decreases b, |b.children| - i
  {
    if i < |b.children| {
      var x := b.children[i];
      var name := if x.name.Some? then x.name.value else "undefined";
      var k := ChildIndex(cs, name);
      if k.Some? {
        MergeAddsTotals(cs[k.value], x, m);
        TotalSeqUpdate(cs, k.value, MergeNodes(cs[k.value], x, m));
      } else {
        var y := NewNode(Some(name), m);
        MergeAddsTotals(y, x, m);
        TotalOf(y);
        TotalSeqAppend(cs, [MergeNodes(y, x, m)]);
        assert [MergeNodes(y, x, m)][1..] == [];
      }
      var cs2 := if k.Some? then cs[k.value := MergeNodes(cs[k.value], x, m)]
        else cs + [MergeNodes(NewNode(Some(name), m), x, m)];
      MergeChildrenTotals(cs2, b, i + 1, m);
    }
  }

  /** Merging keeps sibling names distinct when both trees are keyed. */
  lemma {:induction false} MergeKeyed(a: Node, b: Node, m: nat)
    requires TreeShaped(a, m) && TreeShaped(b, m) && Keyed(a) && Keyed(b)
    ensures Keyed(MergeNodes(a, b, m))
    decreases b, |b.children| + 1
  {
    MergeChildrenKeyed(a.children, b, 0, m);
  }

  lemma {:induction false} MergeChildrenKeyed(cs: seq<Node>, b: Node, i: nat, m: nat)
    requires forall j :: 0 <= j < |cs| ==> TreeShaped(cs[j], m) && Keyed(cs[j]) && cs[j].name.Some?
    requires DistinctNames(cs)
    requires TreeShaped(b, m) && Keyed(b)
    ensures var r := MergeChildren(cs, b, i, m);
      DistinctNames(r) && forall j :: 0 <= j < |r| ==> Keyed(r[j]) && r[j].name.Some?
    decreases b, |b.children| - i
  {
    if i < |b.children| {
      var x := b.children[i];
      var name := x.name.value;
      var k := ChildIndex(cs, name);
      var cs2 := if k.Some? then cs[k.value := MergeNodes(cs[k.value], x, m)]
        else cs + [MergeNodes(NewNode(Some(name), m), x, m)];
      if k.Some? {
        MergeKeyed(cs[k.value], x, m);
      } else {
        MergeKeyed(NewNode(Some(name), m), x, m);
        DistinctAppend(cs, MergeNodes(NewNode(Some(name), m), x, m));
      }
      MergeChildrenKeyed(cs2, b, i + 1, m);
    }
  }

  // ---------------------------------------------------------------------
  // prune
  // ---------------------------------------------------------------------

  /** prune drops a called child whose wall-time inc is below minDuration. */
  predicate Dropped(x: Node, minDuration: real)
  {
    x.called > 0 && |x.inc| > 0 && x.inc[Wt] < minDuration
  }

  function PruneNode(n: Node, minDuration: real): (r: Node)
    ensures r.name == n.name && r.called == n.called && r.inc == n.inc && r.minTime == n.minTime
    decreases n, |n.children| + 1
  {
    n.(children := PruneFrom(n, 0, minDuration))
  }

  /** The kept children of n from position i on, each pruned in turn. */
  function PruneFrom(n: Node, i: nat, minDuration: real): seq<Node>
    decreases n, |n.children| - i
  {
    if i >= |n.children| then []
    else if Dropped(n.children[i], minDuration) then PruneFrom(n, i + 1, minDuration)
    else [PruneNode(n.children[i], minDuration)] + PruneFrom(n, i + 1, minDuration)
  }

  /** No node of the tree keeps a child prune would drop. */
  predicate Pruned(n: Node, minDuration: real)
  {
    forall i :: 0 <= i < |n.children| ==> !Dropped(n.children[i], minDuration) && Pruned(n.children[i], minDuration)
  }

  lemma {:induction false} PruneIsPruned(n: Node, minDuration: real)
    ensures Pruned(PruneNode(n, minDuration), minDuration)
    decreases n, |n.children| + 1
  {
    PruneFromIsPruned(n, 0, minDuration);
  }

  lemma {:induction false} PruneFromIsPruned(n: Node, i: nat, minDuration: real)
    ensures forall j :: 0 <= j < |PruneFrom(n, i, minDuration)| ==>
      !Dropped(PruneFrom(n, i, minDuration)[j], minDuration) && Pruned(PruneFrom(n, i, minDuration)[j], minDuration)
    decreases n, |n.children| - i
  {
    if i < |n.children| {
      PruneFromIsPruned(n, i + 1, minDuration);
      if !Dropped(n.children[i], minDuration) {
        PruneIsPruned(n.children[i], minDuration);
      }
    }
  }

  /** A tree with nothing to drop is left as it is. */
  lemma {:induction false} PruneIdempotent(n: Node, minDuration: real)
    requires Pruned(n, minDuration)
    ensures PruneNode(n, minDuration) == n
    decreases n, |n.children| + 1
  {
    PruneFromKeeps(n, 0, minDuration);
  }

  lemma {:induction false} PruneFromKeeps(n: Node, i: nat, minDuration: real)
    requires Pruned(n, minDuration) && i <= |n.children|
    ensures PruneFrom(n, i, minDuration) == n.children[i..]
    decreases n, |n.children| - i
  {
    if i < |n.children| {
      PruneIdempotent(n.children[i], minDuration);
      PruneFromKeeps(n, i + 1, minDuration);
      assert n.children[i..] == [n.children[i]] + n.children[i + 1..];
    }
  }

  /** prune keeps distinct sibling names: it only drops children. */
  lemma {:induction false} PruneKeyed(n: Node, minDuration: real)
    requires Keyed(n)
    ensures Keyed(PruneNode(n, minDuration))
    decreases n, |n.children| + 1
  {
    PruneFromKeyed(n, 0, minDuration);
  }

  lemma {:induction false} PruneFromKeyed(n: Node, i: nat, minDuration: real)
    requires Keyed(n)
    ensures var r := PruneFrom(n, i, minDuration);
      DistinctNames(r) && (forall k :: 0 <= k < |r| ==> Keyed(r[k]) && r[k].name.Some?) &&
      forall k, j :: 0 <= k < |r| && 0 <= j < i && j < |n.children| ==> r[k].name != n.children[j].name
    decreases n, |n.children| - i
  {
    if i < |n.children| {
      PruneFromKeyed(n, i + 1, minDuration);
      if !Dropped(n.children[i], minDuration) {
        PruneKeyed(n.children[i], minDuration);
      }
    }
  }

  // ---------------------------------------------------------------------
  // getMinInc / getMaxCumInc
  // ---------------------------------------------------------------------

  /** getMinInc: the componentwise minimum of the inc vectors below and at n. */
  function MinInc(n: Node, m: nat): (r: Vec)
    requires TreeShaped(n, m)
    ensures |r| == m && Le(r, n.inc)
    decreases n, |n.children| + 1
  {
    MinIncFrom(n, |n.children|, m)
  }

  /** The minimum over n.inc and the first i children. */
  function MinIncFrom(n: Node, i: nat, m: nat): (r: Vec)
    requires TreeShaped(n, m) && i <= |n.children|
    ensures |r| == m && Le(r, n.inc)
    decreases n, i
  {
    if i == 0 then n.inc
    else
      var acc := MinIncFrom(n, i - 1, m);
      var r := MinOf(acc, MinInc(n.children[i - 1], m));
      MinMaxBounds(acc, MinInc(n.children[i - 1], m));
      r
  }

  /** The sum of the children's getMaxCumInc from position i on. */
  function CumIncFrom(n: Node, i: nat, m: nat): (r: Vec)
    requires TreeShaped(n, m) && i <= |n.children|
    ensures |r| == m
    decreases n, 0, |n.children| - i
  {
    if i == |n.children| then Fill(m, 0.0)
    else Plus(MaxCumInc(n.children[i], m), CumIncFrom(n, i + 1, m))
  }

  /** getMaxCumInc: the larger of inc and the children's sum; a leaf starts from -MAX_VALUE. */
  function MaxCumInc(n: Node, m: nat): (r: Vec)
    requires TreeShaped(n, m)
    ensures |r| == m
    decreases n, 1
  {
    var sum := if |n.children| == 0 then Fill(m, -MaxValue) else CumIncFrom(n, 0, m);
    MaxOf(sum, n.inc)
  }

  /** getMaxCumInc >= inc, with equality at a leaf whose inc exceeds -MAX_VALUE. */
  lemma MaxCumIncBounds(n: Node, m: nat)
    requires TreeShaped(n, m)
    ensures Le(n.inc, MaxCumInc(n, m))
    ensures |n.children| == 0 && (forall i :: 0 <= i < m ==> n.inc[i] >= -MaxValue) ==> MaxCumInc(n, m) == n.inc
  {
    var sum := if |n.children| == 0 then Fill(m, -MaxValue) else CumIncFrom(n, 0, m);
    MinMaxBounds(sum, n.inc);
  }

  /** The stats object: the root and the operations on it. */
  class CallTreeStats {
    const metricCount: nat
    var root: Node

    ghost predicate Valid()
      reads this
    {
      TreeShaped(root, metricCount) && Keyed(root)
    }

    constructor (m: nat, calls: seq<CallInfo>)
      requires forall k :: 0 <= k < |calls| ==> |calls[k].inc| == m
      ensures Valid() && metricCount == m && root == Build(calls, m)
    {
      metricCount := m;
      var r := Root(m);
      for i := 0 to |calls|
        invariant r == Build(calls[..i], m) && Keyed(r)
      {
        assert calls[..i + 1][..i] == calls[..i];
        AddPathKeyed(r, calls[i].path, calls[i], m);
        r := AddCall(r, calls[i], m);
      }
      assert calls[..|calls|] == calls;
      root := r;
    }

    method Merge(other: CallTreeStats)
      requires Valid() && other.Valid() && other.metricCount == metricCount
      modifies this
      ensures Valid() && root == MergeNodes(old(root), old(other.root), metricCount)
    {
      MergeKeyed(root, other.root, metricCount);
      root := MergeNodes(root, other.root, metricCount);
    }

    method Prune(minDuration: real)
      requires Valid()
      modifies this
      ensures Valid() && root == PruneNode(old(root), minDuration)
      ensures Pruned(root, minDuration)
    {
      PruneIsPruned(root, minDuration);
      PruneKeyed(root, minDuration);
      PruneShaped(root, minDuration, metricCount);
      root := PruneNode(root, minDuration);
    }
  }

  lemma {:induction false} PruneShaped(n: Node, minDuration: real, m: nat)
    requires TreeShaped(n, m)
    ensures TreeShaped(PruneNode(n, minDuration), m)
    decreases n, |n.children| + 1
  {
    PruneFromShaped(n, 0, minDuration, m);
  }

  lemma {:induction false} PruneFromShaped(n: Node, i: nat, minDuration: real, m: nat)
    requires TreeShaped(n, m)
    ensures forall j :: 0 <= j < |PruneFrom(n, i, minDuration)| ==> TreeShaped(PruneFrom(n, i, minDuration)[j], m)
    decreases n, |n.children| - i
  {
    if i < |n.children| {
      PruneFromShaped(n, i + 1, minDuration, m);
      if !Dropped(n.children[i], minDuration) {
        PruneShaped(n.children[i], minDuration, m);
      }
    }
  }
}
