/**
 * ProfileDataBuilder of the web UI (assets/web-ui/js/profileData.js): it
 * replays the event stream the full reporter writes, one
 * [fnIdx, isStart, metric values...] event at a time, keeping a stack of the
 * open calls. A start event pushes a frame; an end event pops it, charges
 * its inclusive cost to the parent, takes its exclusive cost away from the
 * nearest open call of the same function and stores the call.
 */
module ProfileDataBuilders {
  import opened Wrappers
  import opened MetricValues
  import CallLists
  import MetricValuesLists

  /** An event of the stream: the function, start or end, and the metric values at that point. */
  datatype Event = Event(fnIdx: int, isStart: bool, values: Vec)

  /**
   * A frame of the stack: the call's index, the values of its start event,
   * the index of that event, its function, its parent's index (-1 at the
   * root) and the inclusive cost of its children accumulated so far.
   */
  datatype Frame = Frame(idx: nat, start: Vec, startEventIdx: nat, fnIdx: int, parentIdx: int, children: Vec)

  /**
   * Stats: the smallest and largest value of every metric over the events,
   * and of every call's inclusive cost. None stands for the initial
   * +/-Number.MAX_VALUE, which the first merged value replaces.
   */
  datatype Stats = Stats(min: seq<Option<real>>, max: seq<Option<real>>, callMin: seq<Option<real>>, callMax: seq<Option<real>>)

  function NoStats(m: nat): Stats
  {
    Stats(seq(m, _ => None), seq(m, _ => None), seq(m, _ => None), seq(m, _ => None))
  }

  predicate StatsShaped(s: Stats, m: nat)
  {
    |s.min| == m && |s.max| == m && |s.callMin| == m && |s.callMax| == m
  }

  /** Math.min against the running minimum. */
  function Lower(cur: Option<real>, v: real): (r: real)
    ensures r <= v && (cur.Some? ==> r <= cur.value)
    ensures r == v || (cur.Some? && r == cur.value)
  {
    if cur.Some? && cur.value <= v then cur.value else v
  }

  /** Math.max against the running maximum. */
  function Upper(cur: Option<real>, v: real): (r: real)
    ensures v <= r && (cur.Some? ==> cur.value <= r)
    ensures r == v || (cur.Some? && r == cur.value)
  {
    if cur.Some? && cur.value >= v then cur.value else v
  }

  /**
   * mergeMetricValue of a call's start and end values, then
   * mergeCallMetricValue of their difference: each bound moves only as far
   * as it must to cover the new values.
   */
  function MergeCall(s: Stats, start: Vec, end: Vec): (r: Stats)
    requires StatsShaped(s, |start|) && |end| == |start|
    ensures StatsShaped(r, |start|)
    ensures forall j :: 0 <= j < |start| ==>
      && r.min[j].Some? && r.min[j].value <= start[j] && r.min[j].value <= end[j]
      && (s.min[j].Some? ==> r.min[j].value <= s.min[j].value)
      && r.max[j].Some? && start[j] <= r.max[j].value && end[j] <= r.max[j].value
      && (s.max[j].Some? ==> s.max[j].value <= r.max[j].value)
      && r.callMin[j].Some? && r.callMin[j].value <= end[j] - start[j]
      && (s.callMin[j].Some? ==> r.callMin[j].value <= s.callMin[j].value)
      && r.callMax[j].Some? && end[j] - start[j] <= r.callMax[j].value
      && (s.callMax[j].Some? ==> s.callMax[j].value <= r.callMax[j].value)
    ensures forall j :: 0 <= j < |start| ==>
      && (r.min[j].value == start[j] || r.min[j].value == end[j] || r.min[j] == s.min[j])
      && (r.max[j].value == start[j] || r.max[j].value == end[j] || r.max[j] == s.max[j])
      && (r.callMin[j].value == end[j] - start[j] || r.callMin[j] == s.callMin[j])
      && (r.callMax[j].value == end[j] - start[j] || r.callMax[j] == s.callMax[j])
  {
    var m := |start|;
    Stats(
      seq(m, j requires 0 <= j < m => Some(Lower(Some(Lower(s.min[j], start[j])), end[j]))),
      seq(m, j requires 0 <= j < m => Some(Upper(Some(Upper(s.max[j], start[j])), end[j]))),
      seq(m, j requires 0 <= j < m => Some(Lower(s.callMin[j], end[j] - start[j]))),
      seq(m, j requires 0 <= j < m => Some(Upper(s.callMax[j], end[j] - start[j]))))
  }

  /** The state of the builder: its stack and counters, the calls and samples stored, the stats. */
  datatype Builder = Builder(stack: seq<Frame>, eventCount: nat, callCount: nat, currentCallCount: nat,
                             recs: seq<CallLists.CallRecord>, samples: seq<Vec>, stats: Stats)

  /** Every vector of the state has one value per metric. */
  predicate Shapely(b: Builder, m: nat)
  {
    && m > 0
    && (forall k :: 0 <= k < |b.stack| ==> |b.stack[k].start| == m && |b.stack[k].children| == m)
    && CallLists.Shaped(b.recs, m) && MetricValuesLists.Uniform(b.samples, m) && StatsShaped(b.stats, m)
  }

  /** Every frame is the child of the frame below it, and indices grow up the stack. */
  ghost predicate Chained(stack: seq<Frame>, callCount: nat, eventCount: nat)
  {
    && (forall k :: 0 <= k < |stack| ==> stack[k].idx < callCount && stack[k].startEventIdx < eventCount)
    && (stack != [] ==> stack[0].parentIdx == -1)
    && (forall j, k :: 0 <= j < k < |stack| && k == j + 1 ==> stack[k].parentIdx == stack[j].idx)
    && (forall j, k :: 0 <= j < k < |stack| ==> stack[j].idx < stack[k].idx)
  }

  /** Call i is open: some frame of the stack carries it. */
  ghost predicate IsOpen(stack: seq<Frame>, i: nat)
  {
    exists k :: 0 <= k < |stack| && stack[k].idx == i
  }

  /** Every call index handed out is open or stored with a parent below it. */
  ghost predicate Covered(b: Builder)
  {
    && |b.recs| <= b.callCount
    && (forall i :: 0 <= i < |b.recs| ==> IsOpen(b.stack, i) || b.recs[i].parentIdx < i)
    && (forall i :: |b.recs| <= i < b.callCount ==> IsOpen(b.stack, i))
  }

  /** What the builder keeps between events. */
  ghost predicate Wf(b: Builder, m: nat)
  {
    Shapely(b, m) && Chained(b.stack, b.callCount, b.eventCount) && Covered(b)
  }

  /** setMetadata: nothing open, nothing stored, no stats yet. */
  function Initial(m: nat): (r: Builder)
    requires m > 0
    ensures Wf(r, m)
  {
    Builder([], 0, 0, 0, [], [], NoStats(m))
  }

  /** The nearest frame of fn, from the top of the stack down, if any. */
  function NearestSame(stack: seq<Frame>, fn: int): (r: Option<nat>)
    ensures r.Some? ==> r.value < |stack| && stack[r.value].fnIdx == fn
    ensures r.Some? ==> forall j :: r.value < j < |stack| ==> stack[j].fnIdx != fn
    ensures r.None? ==> forall j :: 0 <= j < |stack| ==> stack[j].fnIdx != fn
    decreases |stack|
  {
    if stack == [] then None
    else if stack[|stack| - 1].fnIdx == fn then Some(|stack| - 1)
    else NearestSame(stack[..|stack| - 1], fn)
  }

  /** The top frame's children grow by the closed call's inclusive cost. */
  function Credit(stack: seq<Frame>, inc: Vec): (r: seq<Frame>)
    requires stack != [] && |stack[|stack| - 1].children| == |inc|
    ensures |r| == |stack| && r[..|stack| - 1] == stack[..|stack| - 1]
    ensures r[|stack| - 1] == stack[|stack| - 1].(children := Plus(stack[|stack| - 1].children, inc))
  {
    var top := |stack| - 1;
    stack[top := stack[top].(children := Plus(stack[top].children, inc))]
  }

  /** The nearest frame of the same function loses the closed call's exclusive cost. */
  function Debit(stack: seq<Frame>, fn: int, exc: Vec): (r: seq<Frame>)
    requires forall k :: 0 <= k < |stack| ==> |stack[k].children| == |exc|
    ensures |r| == |stack|
    ensures forall k :: 0 <= k < |stack| ==>
      r[k] == if NearestSame(stack, fn) == Some(k) then stack[k].(children := Minus(stack[k].children, exc)) else stack[k]
  {
    match NearestSame(stack, fn)
    case None => stack
    case Some(k) => stack[k := stack[k].(children := Minus(stack[k].children, exc))]
  }

  /** A start event: a frame with the next call index, the next event index and the top frame as parent. */
  function Push(b: Builder, m: nat, e: Event): (r: Builder)
    requires Shapely(b, m) && |e.values| == m
    ensures Shapely(r, m)
  {
    var parentIdx := if |b.stack| > 0 then b.stack[|b.stack| - 1].idx as int else -1;
    b.(stack := b.stack + [Frame(b.callCount, e.values, b.eventCount, e.fnIdx, parentIdx, Fill(m, 0.0))],
       callCount := b.callCount + 1, eventCount := b.eventCount + 1)
  }

  /** The exclusive cost of a closing frame: its inclusive cost less its children's. */
  function Exclusive(f: Frame, end: Vec): (r: Vec)
    requires |f.start| == |end| == |f.children|
    ensures |r| == |end| && forall j :: 0 <= j < |end| ==> r[j] == (end[j] - f.start[j]) - f.children[j]
  {
    Minus(Minus(end, f.start), f.children)
  }

  /** The stack once the top frame is closed: its parent credited, then the nearest same-function frame debited. */
  function Accounted(stack: seq<Frame>, end: Vec): (r: seq<Frame>)
    requires stack != [] && forall k :: 0 <= k < |stack| ==> |stack[k].start| == |end| && |stack[k].children| == |end|
    ensures |r| == |stack| - 1
    ensures forall k :: 0 <= k < |r| ==> r[k] == stack[k].(children := r[k].children) && |r[k].children| == |end|
  {
    var f := stack[|stack| - 1];
    var rest := stack[..|stack| - 1];
    if rest == [] then []
    else Debit(Credit(rest, Minus(end, f.start)), f.fnIdx, Exclusive(f, end))
  }

  /** An end event: the top frame is popped, accounted for and stored with its start and end values. */
  function Close(b: Builder, m: nat, e: Event): (r: Builder)
    requires Shapely(b, m) && |e.values| == m && b.stack != []
    ensures Shapely(r, m)
  {
    var f := b.stack[|b.stack| - 1];
    var end := e.values;
    var samples := MetricValuesLists.Stored(MetricValuesLists.Stored(b.samples, m, f.startEventIdx, f.start), m, b.eventCount, end);
    Builder(Accounted(b.stack, end), b.eventCount + 1, b.callCount, b.currentCallCount + 1,
            CallLists.Stored(b.recs, f.idx, CallLists.CallRecord(f.fnIdx, f.parentIdx, f.start, end, Exclusive(f, end)), m),
            samples, MergeCall(b.stats, f.start, end))
  }

  /** addEvent as a function of the state: an end event with nothing open is the TypeError of popping an empty stack. */
  function Advance(b: Builder, m: nat, e: Event): (r: Result<Builder>)
    requires Shapely(b, m) && |e.values| == m
    ensures r.Err? <==> !e.isStart && b.stack == []
    ensures r.Ok? ==> Shapely(r.value, m) && r.value.eventCount == b.eventCount + 1
    ensures r.Ok? && e.isStart ==> |r.value.stack| == |b.stack| + 1 && r.value.callCount == b.callCount + 1
    ensures r.Ok? && !e.isStart ==> |r.value.stack| == |b.stack| - 1 && r.value.callCount == b.callCount
  {
    if e.isStart then Ok(Push(b, m, e))
    else if b.stack == [] then Err("Cannot set properties of undefined")
    else Ok(Close(b, m, e))
  }

  /** Replaying a stream of events; the first error stops it. */
  function Replay(b: Builder, m: nat, events: seq<Event>): (r: Result<Builder>)
    requires Shapely(b, m) && forall k :: 0 <= k < |events| ==> |events[k].values| == m
    ensures r.Ok? ==> Shapely(r.value, m)
    decreases |events|
  {
    if events == [] then Ok(b)
    else
      match Advance(b, m, events[0])
      case Err(msg) => Err(msg)
      case Ok(n) => Replay(n, m, events[1..])
  }

  // ---------------------------------------------------------------------
  // The invariant across events.
  // ---------------------------------------------------------------------

  /** A start event opens the next call index on top of the stack, with the old top as parent. */
  lemma PushWf(b: Builder, m: nat, e: Event)
    requires Wf(b, m) && |e.values| == m
    ensures var n := Push(b, m, e); var top := n.stack[|b.stack|];
      && Wf(n, m) && n.recs == b.recs && n.stack[..|b.stack|] == b.stack
      && top.idx == b.callCount && top.fnIdx == e.fnIdx && top.start == e.values && top.parentIdx < top.idx
  {
    var n := Push(b, m, e);
    assert n.stack[..|b.stack|] == b.stack;
    forall i | IsOpen(b.stack, i)
      ensures IsOpen(n.stack, i)
    {
      var k :| 0 <= k < |b.stack| && b.stack[k].idx == i;
      assert n.stack[k].idx == i;
    }
    assert n.stack[|b.stack|].idx == b.callCount;
    assert IsOpen(n.stack, b.callCount);
  }

  /** An open call other than the top one is open below the top. */
  lemma BelowTop(stack: seq<Frame>, callCount: nat, eventCount: nat, i: nat)
    requires Chained(stack, callCount, eventCount) && stack != [] && IsOpen(stack, i)
    ensures i <= stack[|stack| - 1].idx
    ensures i != stack[|stack| - 1].idx ==> IsOpen(stack[..|stack| - 1], i)
  {
    var k :| 0 <= k < |stack| && stack[k].idx == i;
    if k < |stack| - 1 {
      assert stack[..|stack| - 1][k].idx == i;
    }
  }

  /** Accounting the frames below the top keeps their chain. */
  lemma AccountedChained(stack: seq<Frame>, end: Vec, callCount: nat, eventCount: nat)
    requires stack != [] && forall k :: 0 <= k < |stack| ==> |stack[k].start| == |end| && |stack[k].children| == |end|
    requires Chained(stack, callCount, eventCount)
    ensures Chained(Accounted(stack, end), callCount, eventCount + 1)
    ensures forall i :: IsOpen(Accounted(stack, end), i) <==> IsOpen(stack[..|stack| - 1], i)
  {
    var r := Accounted(stack, end);
    var rest := stack[..|stack| - 1];
    assert forall k :: 0 <= k < |r| ==>
      r[k].idx == stack[k].idx && r[k].parentIdx == stack[k].parentIdx && r[k].startEventIdx == stack[k].startEventIdx;
    forall j, k | 0 <= j < k < |r| && k == j + 1
      ensures r[k].parentIdx == r[j].idx
    {
    }
    forall j, k | 0 <= j < k < |r|
      ensures r[j].idx < r[k].idx
    {
    }
    forall i
      ensures IsOpen(r, i) <==> IsOpen(rest, i)
    {
      if IsOpen(r, i) {
        var k :| 0 <= k < |r| && r[k].idx == i;
        assert rest[k].idx == i;
      }
      if IsOpen(rest, i) {
        var k :| 0 <= k < |rest| && rest[k].idx == i;
        assert r[k].idx == i;
      }
    }
  }

  /** The top frame's parent index is below its own. */
  lemma ParentBelow(stack: seq<Frame>, callCount: nat, eventCount: nat)
    requires Chained(stack, callCount, eventCount) && stack != []
    ensures stack[|stack| - 1].parentIdx < stack[|stack| - 1].idx
  {
    var t := |stack| - 1;
    if t > 0 {
      assert stack[t].parentIdx == stack[t - 1].idx;
    }
  }

  /** Storing the closed top call keeps every handed-out index covered. */
  lemma CloseCovered(b: Builder, m: nat, e: Event)
    requires Wf(b, m) && |e.values| == m && b.stack != []
    ensures Covered(Close(b, m, e))
  {
    var n := Close(b, m, e);
    var f := b.stack[|b.stack| - 1];
    AccountedChained(b.stack, e.values, b.callCount, b.eventCount);
    ParentBelow(b.stack, b.callCount, b.eventCount);
    forall i | 0 <= i < |n.recs|
      ensures IsOpen(n.stack, i) || n.recs[i].parentIdx < i
    {
      if i == f.idx {
      } else if i < |b.recs| {
        assert n.recs[i] == b.recs[i];
        if IsOpen(b.stack, i) {
          BelowTop(b.stack, b.callCount, b.eventCount, i);
        }
      } else {
        assert i < f.idx < b.callCount;
        BelowTop(b.stack, b.callCount, b.eventCount, i);
      }
    }
    AllStored(b, m, e);
  }

  /** Every call above the closed one was closed before it, so the store now reaches callCount. */
  lemma AllStored(b: Builder, m: nat, e: Event)
    requires Wf(b, m) && |e.values| == m && b.stack != []
    ensures |Close(b, m, e).recs| == b.callCount
  {
    var n := Close(b, m, e);
    var f := b.stack[|b.stack| - 1];
    if |n.recs| < b.callCount {
      assert IsOpen(b.stack, |n.recs|);
      BelowTop(b.stack, b.callCount, b.eventCount, |n.recs|);
    }
  }

  /**
   * An end event closes the top call: it is stored with its function, its
   * parent (a lower index, or -1), its start and end values and
   * exc = (end - start) - children.
   */
  lemma CloseWf(b: Builder, m: nat, e: Event)
    requires Wf(b, m) && |e.values| == m && b.stack != []
    ensures var n := Close(b, m, e); var f := b.stack[|b.stack| - 1];
      && Wf(n, m) && |n.recs| == n.callCount && f.idx < |n.recs| && f.parentIdx < f.idx
      && n.recs[f.idx] == CallLists.CallRecord(f.fnIdx, f.parentIdx, f.start, e.values, Exclusive(f, e.values))
  {
    var f := b.stack[|b.stack| - 1];
    AccountedChained(b.stack, e.values, b.callCount, b.eventCount);
    CloseCovered(b, m, e);
    AllStored(b, m, e);
    ParentBelow(b.stack, b.callCount, b.eventCount);
  }

  /**
   * Closing a call changes the children of exactly two frames below it:
   * its parent gains the call's inclusive cost and the nearest open call
   * of the same function loses its exclusive cost.
   */
  lemma CloseAccounts(b: Builder, m: nat, e: Event, k: nat)
    requires Shapely(b, m) && |e.values| == m && |b.stack| >= 2 && k < |b.stack| - 1
    ensures var n := Close(b, m, e); var f := b.stack[|b.stack| - 1];
      var rest := b.stack[..|b.stack| - 1];
      var credited := if k == |rest| - 1 then Plus(rest[k].children, Minus(e.values, f.start)) else rest[k].children;
      n.stack[k].children ==
        if NearestSame(rest, f.fnIdx) == Some(k) then Minus(credited, Exclusive(f, e.values)) else credited
  {
    var f := b.stack[|b.stack| - 1];
    var rest := b.stack[..|b.stack| - 1];
    SameFunctions(rest, Credit(rest, Minus(e.values, f.start)), f.fnIdx);
  }

  /** The nearest frame of a function depends only on the functions of the frames. */
  lemma {:induction false} SameFunctions(s: seq<Frame>, t: seq<Frame>, fn: int)
    requires |s| == |t| && forall k :: 0 <= k < |s| ==> s[k].fnIdx == t[k].fnIdx
    ensures NearestSame(s, fn) == NearestSame(t, fn)
    decreases |s|
  {
    if s != [] && s[|s| - 1].fnIdx != fn {
      SameFunctions(s[..|s| - 1], t[..|t| - 1], fn);
    }
  }

  /** Every accepted event keeps the invariant. */
  lemma AdvanceWf(b: Builder, m: nat, e: Event)
    requires Wf(b, m) && |e.values| == m && Advance(b, m, e).Ok?
    ensures Wf(Advance(b, m, e).value, m)
  {
    if e.isStart { PushWf(b, m, e); } else { CloseWf(b, m, e); }
  }

  /** A replayed stream keeps the invariant. */
  lemma {:induction false} ReplayWf(b: Builder, m: nat, events: seq<Event>)
    requires Wf(b, m) && forall k :: 0 <= k < |events| ==> |events[k].values| == m
    requires Replay(b, m, events).Ok?
    ensures Wf(Replay(b, m, events).value, m)
    decreases |events|
  {
    if events != [] {
      AdvanceWf(b, m, events[0]);
      ReplayWf(Advance(b, m, events[0]).value, m, events[1..]);
    }
  }

  /** Once nothing is open, every stored call has a parent index below its own. */
  lemma ClosedLinked(b: Builder, m: nat)
    requires Wf(b, m) && b.stack == []
    ensures CallLists.Linked(b.recs) && |b.recs| == b.callCount
  {
    assert !IsOpen(b.stack, |b.recs|);
    forall i | 0 <= i < |b.recs|
      ensures b.recs[i].parentIdx < i
    {
      assert !IsOpen(b.stack, i);
    }
  }

  /** A stream that leaves nothing open from setMetadata stores a tree of calls, one per start event. */
  lemma BalancedStreamLinked(m: nat, events: seq<Event>)
    requires m > 0 && forall k :: 0 <= k < |events| ==> |events[k].values| == m
    requires Replay(Initial(m), m, events).Ok? && Replay(Initial(m), m, events).value.stack == []
    ensures CallLists.Linked(Replay(Initial(m), m, events).value.recs)
  {
    ReplayWf(Initial(m), m, events);
    ClosedLinked(Replay(Initial(m), m, events).value, m);
  }

  // ---------------------------------------------------------------------
  // The two examples of the accounting.
  // ---------------------------------------------------------------------

  /**
   * Closing a call that had no children: its exc is its inclusive cost, and
   * the frame below it gains that cost unless it is a call of the same
   * function, which gets it back as the closed call's exclusive cost.
   */
  lemma CloseLeaf(b: Builder, m: nat, e: Event)
    requires Wf(b, m) && |e.values| == m && |b.stack| >= 2
    requires b.stack[|b.stack| - 1].children == Fill(m, 0.0)
    ensures var n := Close(b, m, e); var f := b.stack[|b.stack| - 1]; var p := b.stack[|b.stack| - 2];
      && n.recs[f.idx].exc == Minus(e.values, f.start)
      && n.stack[|b.stack| - 2].children ==
           if p.fnIdx == f.fnIdx then p.children else Plus(p.children, Minus(e.values, f.start))
  {
    var f := b.stack[|b.stack| - 1];
    var inc := Minus(e.values, f.start);
    ZeroIdentities(inc);
    CloseWf(b, m, e);
    CloseAccounts(b, m, e, |b.stack| - 2);
    PlusInverse(b.stack[|b.stack| - 2].children, inc);
  }

  /** Replaying a stream is adding its first event, then replaying the rest. */
  lemma ReplayCons(b: Builder, m: nat, e: Event, rest: seq<Event>)
    requires Shapely(b, m) && |e.values| == m && forall k :: 0 <= k < |rest| ==> |rest[k].values| == m
    ensures Replay(b, m, [e] + rest) == if Advance(b, m, e).Err? then Advance(b, m, e) else Replay(Advance(b, m, e).value, m, rest)
  {
    assert ([e] + rest)[0] == e && ([e] + rest)[1..] == rest;
  }

  /** The first two events of a stream of two nested calls: both open, nothing stored. */
  lemma OpenTwo(m: nat, fa: int, fb: int, va: Vec, vb: Vec)
    requires m > 0 && |va| == |vb| == m
    ensures var b := Push(Push(Initial(m), m, Event(fa, true, va)), m, Event(fb, true, vb));
      && Wf(b, m) && b.recs == [] && b.callCount == 2
      && b.stack == [Frame(0, va, 0, fa, -1, Fill(m, 0.0)), Frame(1, vb, 1, fb, 0, Fill(m, 0.0))]
  {
    PushWf(Initial(m), m, Event(fa, true, va));
    PushWf(Push(Initial(m), m, Event(fa, true, va)), m, Event(fb, true, vb));
  }

  /** The stream a-start, b-start, b-end, a-end from setMetadata, then its result. */
  lemma ReplayTwo(m: nat, e0: Event, e1: Event, e2: Event, e3: Event)
    requires m > 0 && |e0.values| == |e1.values| == |e2.values| == |e3.values| == m
    requires e0.isStart && e1.isStart && !e2.isStart && !e3.isStart
    ensures var b2 := Push(Push(Initial(m), m, e0), m, e1);
      && Wf(b2, m) && |b2.stack| == 2
      && Replay(Initial(m), m, [e0, e1, e2, e3]) == Ok(Close(Close(b2, m, e2), m, e3))
  {
    var b0 := Initial(m);
    var b1 := Push(b0, m, e0);
    PushWf(b0, m, e0);
    var b2 := Push(b1, m, e1);
    PushWf(b1, m, e1);
    var b3 := Close(b2, m, e2);
    CloseWf(b2, m, e2);
    ReplayCons(b3, m, e3, []);
    ReplayCons(b2, m, e2, [e3]);
    ReplayCons(b1, m, e1, [e2, e3]);
    ReplayCons(b0, m, e0, [e1, e2, e3]);
    assert [e0] + [e1, e2, e3] == [e0, e1, e2, e3];
  }

  /**
   * A call of fa from va to wa around one call of another function fb from
   * vb to wb: the inner exc is wb - vb, the outer one is what is left of
   * wa - va (with A[0,100] around B[10,40]: 30 and 70).
   */
  lemma NestedCall(m: nat, fa: int, fb: int, va: Vec, vb: Vec, wb: Vec, wa: Vec)
    requires m > 0 && |va| == |vb| == |wb| == |wa| == m && fa != fb
    ensures var r := Replay(Initial(m), m,
        [Event(fa, true, va), Event(fb, true, vb), Event(fb, false, wb), Event(fa, false, wa)]);
      && r.Ok? && |r.value.recs| == 2 && r.value.stack == []
      && r.value.recs[1].exc == Minus(wb, vb) && r.value.recs[0].exc == Minus(Minus(wa, va), Minus(wb, vb))
      && r.value.recs[1].parentIdx == 0 && r.value.recs[0].parentIdx == -1
  {
    var e0, e1, e2, e3 := Event(fa, true, va), Event(fb, true, vb), Event(fb, false, wb), Event(fa, false, wa);
    ReplayTwo(m, e0, e1, e2, e3);
    OpenTwo(m, fa, fb, va, vb);
    var b2 := Push(Push(Initial(m), m, e0), m, e1);
    CloseLeaf(b2, m, e2);
    ZeroIdentities(Minus(wb, vb));
    var b3 := Close(b2, m, e2);
    CloseWf(b2, m, e2);
    CloseWf(b3, m, e3);
  }

  /**
   * A call of fa from va to wa around a recursive call of fa from vb to wb:
   * the outer call is charged its whole wa - va, the inner call's cost
   * coming back to it as exclusive cost (with A[0,30] around A[5,20]: 15
   * and 30).
   */
  lemma RecursiveCall(m: nat, fa: int, va: Vec, vb: Vec, wb: Vec, wa: Vec)
    requires m > 0 && |va| == |vb| == |wb| == |wa| == m
    ensures var r := Replay(Initial(m), m,
        [Event(fa, true, va), Event(fa, true, vb), Event(fa, false, wb), Event(fa, false, wa)]);
      && r.Ok? && |r.value.recs| == 2 && r.value.stack == []
      && r.value.recs[1].exc == Minus(wb, vb) && r.value.recs[0].exc == Minus(wa, va)
  {
    var e0, e1, e2, e3 := Event(fa, true, va), Event(fa, true, vb), Event(fa, false, wb), Event(fa, false, wa);
    ReplayTwo(m, e0, e1, e2, e3);
    OpenTwo(m, fa, fa, va, vb);
    var b2 := Push(Push(Initial(m), m, e0), m, e1);
    CloseLeaf(b2, m, e2);
    ZeroIdentities(Minus(wa, va));
    var b3 := Close(b2, m, e2);
    CloseWf(b2, m, e2);
    CloseWf(b3, m, e3);
  }

  // ---------------------------------------------------------------------
  // The builder object.
  // ---------------------------------------------------------------------

  /** The search of addEvent for the nearest open call of the closed call's function. */
  method DebitNearest(stack: seq<Frame>, fn: int, exc: Vec) returns (r: seq<Frame>)
    requires forall k :: 0 <= k < |stack| ==> |stack[k].children| == |exc|
    ensures r == Debit(stack, fn, exc)
  {
    r := stack;
    var k := |stack| - 1;
    while k >= 0
      invariant -1 <= k < |stack|
      invariant forall j :: k < j < |stack| ==> stack[j].fnIdx != fn
      decreases k
    {
      if stack[k].fnIdx == fn {
        assert NearestSame(stack, fn) == Some(k);
        r := stack[k := stack[k].(children := Minus(stack[k].children, exc))];
        return;
      }
      k := k - 1;
    }
    assert NearestSame(stack, fn).None?;
  }

  class ProfileDataBuilder {
    const metricCount: nat
    var stack: seq<Frame>
    var eventCount: nat
    var callCount: nat
    var currentCallCount: nat
    var stats: Stats
    const callList: CallLists.CallList
    const metricValuesList: MetricValuesLists.MetricValuesList

    ghost function State(): Builder
      reads this, callList, metricValuesList
    {
      Builder(stack, eventCount, callCount, currentCallCount, callList.records, metricValuesList.samples, stats)
    }

    ghost predicate Valid()
      reads this, callList, metricValuesList
    {
      && callList.Valid() && metricValuesList.Valid()
      && callList.metricCount == metricCount && metricValuesList.metricCount == metricCount
      && Wf(State(), metricCount)
    }

    /** setMetadata: a call list with a name slot per function, empty lists, no stats. */
    constructor (functionCount: nat, m: nat)
      requires m > 0
      ensures Valid() && metricCount == m && State() == Initial(m)
      ensures fresh(callList) && fresh(metricValuesList) && |callList.functionNames| == functionCount
    {
      metricCount := m;
      stack := [];
      eventCount := 0;
      callCount := 0;
      currentCallCount := 0;
      stats := NoStats(m);
      callList := new CallLists.CallList(functionCount, m);
      metricValuesList := new MetricValuesLists.MetricValuesList(m);
    }

    /** addEvent(event); false where the source throws. */
    method AddEvent(e: Event) returns (ok: bool)
      requires Valid() && |e.values| == metricCount
      modifies this, callList, metricValuesList
      ensures Valid()
      ensures ok <==> Advance(old(State()), metricCount, e).Ok?
      ensures ok ==> State() == Advance(old(State()), metricCount, e).value
      ensures !ok ==> State() == old(State())
      ensures callList.functionNames == old(callList.functionNames)
    {
      ghost var b := State();
      if e.isStart {
        var parentIdx := if |stack| > 0 then stack[|stack| - 1].idx as int else -1;
        stack := stack + [Frame(callCount, e.values, eventCount, e.fnIdx, parentIdx, Fill(metricCount, 0.0))];
        callCount := callCount + 1;
        eventCount := eventCount + 1;
        PushWf(b, metricCount, e);
        return true;
      }
      if stack == [] {
        return false;
      }
      ok := CloseTop(e);
      CloseWf(b, metricCount, e);
    }

    /** The end-event half of addEvent. */
    method CloseTop(e: Event) returns (ok: bool)
      requires callList.Valid() && metricValuesList.Valid()
      requires callList.metricCount == metricCount && metricValuesList.metricCount == metricCount
      requires Shapely(State(), metricCount) && |e.values| == metricCount && stack != []
      modifies this, callList, metricValuesList
      ensures ok && callList.Valid() && metricValuesList.Valid()
      ensures State() == Close(old(State()), metricCount, e)
      ensures callList.functionNames == old(callList.functionNames)
    {
      var f := stack[|stack| - 1];
      var end := e.values;
      var endEventIdx := eventCount;
      eventCount := eventCount + 1;
      stats := MergeCall(stats, f.start, end);
      metricValuesList.SetRawMetricValuesData(f.startEventIdx, f.start);
      metricValuesList.SetRawMetricValuesData(endEventIdx, end);
      var exc := Exclusive(f, end);
      var rest := stack[..|stack| - 1];
      if |rest| > 0 {
        rest := Credit(rest, Minus(end, f.start));
        rest := DebitNearest(rest, f.fnIdx, exc);
      }
      stack := rest;
      currentCallCount := currentCallCount + 1;
      callList.SetRawCallData(f.idx, f.fnIdx, f.parentIdx, f.start, end, exc);
      ok := true;
    }
  }
}
