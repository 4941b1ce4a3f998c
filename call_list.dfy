/**
 * CallList, CallListEntry and TruncatedCallListEntry of
 * assets/web-ui/js/profileData.js. A call is stored as one record: its
 * function index, the index of its parent call (-1 for a root) and its start,
 * end and exclusive metric vectors. The source keeps the records in a
 * ChunkedRecordArray (modelled on its own in module RecordArrays); this
 * module keeps them as a sequence of records and does not go through it.
 */
module CallLists {
  import opened Wrappers
  import opened MetricValues

  datatype CallRecord = CallRecord(functionIdx: int, parentIdx: int, start: Vec, end: Vec, exc: Vec)

  /** What an element of the chunked array reads before it is written. */
  function ZeroRecord(m: nat): CallRecord
  {
    CallRecord(0, 0, Fill(m, 0.0), Fill(m, 0.0), Fill(m, 0.0))
  }

  /** Every stored parent index is -1 or below the call's own index. */
  predicate Linked(recs: seq<CallRecord>)
  {
    forall i :: 0 <= i < |recs| ==> recs[i].parentIdx < i
  }

  predicate Shaped(recs: seq<CallRecord>, m: nat)
  {
    forall i :: 0 <= i < |recs| ==> |recs[i].start| == m && |recs[i].end| == m && |recs[i].exc| == m
  }

  /** setElement(idx, ...) on the chunked array: grows to idx + 1, zero records in between. */
  function Stored(recs: seq<CallRecord>, idx: nat, r: CallRecord, m: nat): (s: seq<CallRecord>)
    ensures |s| == if idx < |recs| then |recs| else idx + 1
    ensures s[idx] == r
    ensures forall i :: 0 <= i < |s| && i != idx ==> s[i] == if i < |recs| then recs[i] else ZeroRecord(m)
  {
    if idx < |recs| then recs[idx := r]
    else recs + seq(idx - |recs|, _ => ZeroRecord(m)) + [r]
  }

  /** getFunctionName: an index past the name array reads undefined. */
  function FunctionName(names: seq<string>, fnIdx: int): string
  {
    if 0 <= fnIdx < |names| then names[fnIdx] else "undefined"
  }

  /** getDepth: the number of ancestors. */
  function Depth(recs: seq<CallRecord>, i: nat): nat
    requires Linked(recs) && i < |recs|
    decreases i
  {
    var p := recs[i].parentIdx;
    if p < 0 then 0 else 1 + Depth(recs, p)
  }

  /** The ancestors of call i with function fn, counted from parent index p upward. */
  function CountFrom(recs: seq<CallRecord>, fn: int, p: int): nat
    requires Linked(recs) && p < |recs|
    decreases p
  {
    if p < 0 then 0
    else (if recs[p].functionIdx == fn then 1 else 0) + CountFrom(recs, fn, recs[p].parentIdx)
  }

  /** Ancestors counted from parent index p upward, of any function. */
  function AncestorCountFrom(recs: seq<CallRecord>, p: int): nat
    requires Linked(recs) && p < |recs|
    decreases p
  {
    if p < 0 then 0 else 1 + AncestorCountFrom(recs, recs[p].parentIdx)
  }

  /** getCycleDepth: ancestors sharing the call's function index. */
  function CycleDepth(recs: seq<CallRecord>, i: nat): nat
    requires Linked(recs) && i < |recs|
  {
    CountFrom(recs, recs[i].functionIdx, recs[i].parentIdx)
  }

  /** getAncestors: nearest first. */
  function AncestorsFrom(recs: seq<CallRecord>, p: int): seq<nat>
    requires Linked(recs) && p < |recs|
    decreases p
  {
    if p < 0 then [] else [p as nat] + AncestorsFrom(recs, recs[p].parentIdx)
  }

  function Reverse<T>(s: seq<T>): seq<T>
  {
    if s == [] then [] else Reverse(s[1..]) + [s[0]]
  }

  /** getStack: the root first, the call itself last. */
  function Stack(recs: seq<CallRecord>, i: nat): seq<nat>
    requires Linked(recs) && i < |recs|
  {
    Reverse(AncestorsFrom(recs, recs[i].parentIdx)) + [i]
  }

  // ---------------------------------------------------------------------
  // Properties of the ancestor walks.
  // ---------------------------------------------------------------------

  lemma {:induction false} DepthIsAncestorCount(recs: seq<CallRecord>, i: nat)
    requires Linked(recs) && i < |recs|
    ensures Depth(recs, i) == AncestorCountFrom(recs, recs[i].parentIdx)
  {
    var p := recs[i].parentIdx;
    if p >= 0 {
      DepthIsAncestorCount(recs, p);
    }
  }

  lemma {:induction false} CountBelowAncestors(recs: seq<CallRecord>, fn: int, p: int)
    requires Linked(recs) && p < |recs|
    ensures CountFrom(recs, fn, p) <= AncestorCountFrom(recs, p)
    decreases p
  {
    if p >= 0 {
      CountBelowAncestors(recs, fn, recs[p].parentIdx);
    }
  }

  /** 0 <= cycleDepth <= depth. */
  lemma CycleDepthBelowDepth(recs: seq<CallRecord>, i: nat)
    requires Linked(recs) && i < |recs|
    ensures CycleDepth(recs, i) <= Depth(recs, i)
  {
    DepthIsAncestorCount(recs, i);
    CountBelowAncestors(recs, recs[i].functionIdx, recs[i].parentIdx);
  }

  lemma {:induction false} AncestorsShape(recs: seq<CallRecord>, p: int)
    requires Linked(recs) && p < |recs|
    ensures |AncestorsFrom(recs, p)| == AncestorCountFrom(recs, p)
    ensures forall k :: 0 <= k < |AncestorsFrom(recs, p)| ==> AncestorsFrom(recs, p)[k] < |recs|
    ensures forall k :: 0 <= k < |AncestorsFrom(recs, p)| - 1 ==>
      recs[AncestorsFrom(recs, p)[k]].parentIdx == AncestorsFrom(recs, p)[k + 1]
    ensures AncestorsFrom(recs, p) != [] ==> recs[AncestorsFrom(recs, p)[|AncestorsFrom(recs, p)| - 1]].parentIdx < 0
    decreases p
  {
    if p >= 0 {
      AncestorsShape(recs, recs[p].parentIdx);
    }
  }

  lemma {:induction false} ReverseIndex<T>(s: seq<T>)
    ensures |Reverse(s)| == |s|
    ensures forall k :: 0 <= k < |s| ==> Reverse(s)[k] == s[|s| - 1 - k]
  {
    if s != [] {
      ReverseIndex(s[1..]);
    }
  }

  /**
   * The stack starts at a root, ends at the call, has depth + 1 entries and
   * each entry is the parent of the next.
   */
  lemma StackShape(recs: seq<CallRecord>, i: nat)
    requires Linked(recs) && i < |recs|
    ensures |Stack(recs, i)| == Depth(recs, i) + 1
    ensures Stack(recs, i)[|Stack(recs, i)| - 1] == i
    ensures forall k :: 0 <= k < |Stack(recs, i)| ==> Stack(recs, i)[k] < |recs|
    ensures recs[Stack(recs, i)[0]].parentIdx < 0
    ensures forall k :: 0 <= k < |Stack(recs, i)| - 1 ==> recs[Stack(recs, i)[k + 1]].parentIdx == Stack(recs, i)[k]
  {
    var anc := AncestorsFrom(recs, recs[i].parentIdx);
    AncestorsShape(recs, recs[i].parentIdx);
    DepthIsAncestorCount(recs, i);
    ReverseIndex(anc);
    var s := Stack(recs, i);
    assert s == Reverse(anc) + [i];
    forall k | 0 <= k < |s| - 1
      ensures recs[s[k + 1]].parentIdx == s[k]
    {
      if k + 1 < |anc| {
        assert s[k + 1] == anc[|anc| - 2 - k] && s[k] == anc[|anc| - 1 - k];
      } else {
        assert s[k + 1] == i && s[k] == anc[0];
      }
    }
  }

  // ---------------------------------------------------------------------
  // TruncatedCallListEntry: a call seen through a time window.
  // ---------------------------------------------------------------------

  /** The metric values a call entry reports. */
  datatype CallView = CallView(idx: nat, start: Vec, end: Vec, exc: Vec)

  function PlainView(recs: seq<CallRecord>, i: nat): CallView
    requires i < |recs|
  {
    CallView(i, recs[i].start, recs[i].end, recs[i].exc)
  }

  /** getInc: end minus start, metric by metric. */
  function Inc(v: CallView): Vec
    requires |v.start| == |v.end|
  {
    Minus(v.end, v.start)
  }

  predicate StartReplaced(r: CallRecord, lower: Option<Vec>)
    requires |r.start| > 0
  {
    lower.Some? && |lower.value| > 0 && lower.value[Wt] > r.start[Wt]
  }

  predicate EndReplaced(r: CallRecord, upper: Option<Vec>)
    requires |r.end| > 0
  {
    upper.Some? && |upper.value| > 0 && upper.value[Wt] < r.end[Wt]
  }

  /**
   * new TruncatedCallListEntry(call, lowerBound, upperBound): start is
   * replaced only by a later lower bound, end only by an earlier upper
   * bound, and exc reads 0 exactly when something was replaced.
   */
  function Truncated(recs: seq<CallRecord>, i: nat, lower: Option<Vec>, upper: Option<Vec>): (v: CallView)
    requires i < |recs| && |recs[i].start| > 0 && |recs[i].end| > 0
    ensures v.idx == i
    ensures v.start == if StartReplaced(recs[i], lower) then lower.value else recs[i].start
    ensures v.end == if EndReplaced(recs[i], upper) then upper.value else recs[i].end
    ensures StartReplaced(recs[i], lower) || EndReplaced(recs[i], upper) ==> v.exc == Fill(|recs[i].exc|, 0.0)
    ensures !StartReplaced(recs[i], lower) && !EndReplaced(recs[i], upper) ==> v == PlainView(recs, i)
  {
    var r := recs[i];
    var s := if StartReplaced(r, lower) then lower.value else r.start;
    var e := if EndReplaced(r, upper) then upper.value else r.end;
    var x := if StartReplaced(r, lower) || EndReplaced(r, upper) then Fill(|r.exc|, 0.0) else r.exc;
    CallView(i, s, e, x)
  }

  /** A window that encloses the call leaves it untouched. */
  lemma EnclosingWindowKeepsCall(recs: seq<CallRecord>, i: nat, lower: Vec, upper: Vec)
    requires i < |recs| && |recs[i].start| > 0 && |recs[i].end| > 0 && |lower| > 0 && |upper| > 0
    requires lower[Wt] <= recs[i].start[Wt] && recs[i].end[Wt] <= upper[Wt]
    ensures Truncated(recs, i, Some(lower), Some(upper)) == PlainView(recs, i)
  {
  }

  /** Truncation never widens the wall-time span of the call. */
  lemma TruncationNarrows(recs: seq<CallRecord>, i: nat, lower: Option<Vec>, upper: Option<Vec>)
    requires i < |recs| && |recs[i].start| > 0 && |recs[i].end| > 0
    requires lower.Some? ==> |lower.value| > 0
    requires upper.Some? ==> |upper.value| > 0
    ensures Truncated(recs, i, lower, upper).start[Wt] >= recs[i].start[Wt]
    ensures Truncated(recs, i, lower, upper).end[Wt] <= recs[i].end[Wt]
  {
  }

  /** What the aggregators read from one call entry. */
  datatype CallInfo = CallInfo(fnIdx: int, name: string, cycleDepth: nat, inc: Vec, exc: Vec, path: seq<string>, startWt: real)

  /** The function names along a stack of call indices. */
  function PathNames(recs: seq<CallRecord>, names: seq<string>, stack: seq<nat>): (r: seq<string>)
    requires forall k :: 0 <= k < |stack| ==> stack[k] < |recs|
    ensures |r| == |stack|
    ensures forall k :: 0 <= k < |stack| ==> r[k] == FunctionName(names, recs[stack[k]].functionIdx)
  {
    if stack == [] then []
    else [FunctionName(names, recs[stack[0]].functionIdx)] + PathNames(recs, names, stack[1..])
  }

  function InfoOf(recs: seq<CallRecord>, names: seq<string>, v: CallView): (c: CallInfo)
    requires Linked(recs) && v.idx < |recs| && |v.start| == |v.end| > 0
    ensures |c.path| == Depth(recs, v.idx) + 1 && c.path[|c.path| - 1] == c.name
    ensures c.cycleDepth <= Depth(recs, v.idx)
  {
    StackShape(recs, v.idx);
    CycleDepthBelowDepth(recs, v.idx);
    var fn := recs[v.idx].functionIdx;
    CallInfo(fn, FunctionName(names, fn), CycleDepth(recs, v.idx), Inc(v), v.exc,
      PathNames(recs, names, Stack(recs, v.idx)), v.start[Wt])
  }

  // ---------------------------------------------------------------------
  // The list object.
  // ---------------------------------------------------------------------

  class CallList {
    const metricCount: nat
    var functionNames: seq<string>
    var records: seq<CallRecord>

    ghost predicate Valid()
      reads this
    {
      Shaped(records, metricCount)
    }

    /** new CallList(functionCount, metrics): every name "n/a", no call. */
    constructor (functionCount: nat, m: nat)
      ensures Valid() && metricCount == m && records == []
      ensures |functionNames| == functionCount && forall k :: 0 <= k < functionCount ==> functionNames[k] == "n/a"
    {
      metricCount := m;
      functionNames := seq(functionCount, _ => "n/a");
      records := [];
    }

    function Size(): nat
      reads this
    {
      |records|
    }

    /** getCall: throws unless 0 <= idx < size. */
    function GetCall(idx: int): (r: Result<nat>)
      reads this
      ensures r.Ok? <==> 0 <= idx < |records|
      ensures r.Ok? ==> r.value == idx
    {
      if idx < 0 || idx >= |records| then Err("Out of bound index") else Ok(idx as nat)
    }

    method SetRawCallData(idx: nat, functionIdx: int, parentIdx: int, start: Vec, end: Vec, exc: Vec)
      requires Valid() && |start| == |end| == |exc| == metricCount
      modifies this
      ensures Valid() && functionNames == old(functionNames)
      ensures records == Stored(old(records), idx, CallRecord(functionIdx, parentIdx, start, end, exc), metricCount)
    {
      records := Stored(records, idx, CallRecord(functionIdx, parentIdx, start, end, exc), metricCount);
    }

    /** setFunctionName: an index past the end extends the array, with holes read as undefined. */
    method SetFunctionName(idx: nat, name: string)
      modifies this
      ensures records == old(records)
      ensures |functionNames| == if idx < |old(functionNames)| then |old(functionNames)| else idx + 1
      ensures FunctionName(functionNames, idx) == name
      ensures forall k :: 0 <= k < |functionNames| && k != idx ==>
        FunctionName(functionNames, k) == FunctionName(old(functionNames), k)
    {
      if idx < |functionNames| {
        functionNames := functionNames[idx := name];
      } else {
        functionNames := functionNames + seq(idx - |functionNames|, _ => "undefined") + [name];
      }
    }

    /** getDepth: walks parentIdx until it turns negative. */
    method GetDepth(i: nat) returns (depth: nat)
      requires Linked(records) && i < |records|
      ensures depth == Depth(records, i)
    {
      var p := records[i].parentIdx;
      depth := 0;
      DepthIsAncestorCount(records, i);
      while p >= 0
        invariant p < |records|
        invariant depth + AncestorCountFrom(records, p) == Depth(records, i)
        decreases p + 1
      {
        p := records[p].parentIdx;
        depth := depth + 1;
      }
    }

    /** getCycleDepth: counts the ancestors with the same function index. */
    method GetCycleDepth(i: nat) returns (cycleDepth: nat)
      requires Linked(records) && i < |records|
      ensures cycleDepth == CycleDepth(records, i)
    {
      var fn := records[i].functionIdx;
      var p := records[i].parentIdx;
      cycleDepth := 0;
      while p >= 0
        invariant p < |records|
        invariant cycleDepth + CountFrom(records, fn, p) == CycleDepth(records, i)
        decreases p + 1
      {
        if records[p].functionIdx == fn {
          cycleDepth := cycleDepth + 1;
        }
        p := records[p].parentIdx;
      }
    }

    /** getAncestors: follows getParent until a root. */
    method GetAncestors(i: nat) returns (ancestors: seq<nat>)
      requires Linked(records) && i < |records|
      ensures ancestors == AncestorsFrom(records, records[i].parentIdx)
    {
      var p := records[i].parentIdx;
      ancestors := [];
      while p >= 0
        invariant p < |records|
        invariant ancestors + AncestorsFrom(records, p) == AncestorsFrom(records, records[i].parentIdx)
        decreases p + 1
      {
        ancestors := ancestors + [p as nat];
        p := records[p].parentIdx;
      }
    }
  }
}
