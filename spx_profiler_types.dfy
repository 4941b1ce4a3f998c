/**
 * The data the native profilers share (src/spx_profiler.h) and the call
 * accounting that src/spx_profiler.c and src/spx_profiler_tracer.c both
 * perform when a call ends: a frame stack in a fixed array, a function table
 * in a fixed array, and the charging of a finished call to its ancestors.
 *
 * A function-table entry is referred to by its index in the table, which is
 * what the source's entry addresses in the entries array amount to.
 */
module SpxProfilerTypes {
  import opened Wrappers
  import opened MetricValues
  import SpxMetric

  const StackCapacity: nat := 2048
  const FuncTableCapacity: nat := 65536

  /** spx_php_function_t. */
  datatype PhpFunction = PhpFunction(
    hashCode: nat, fileName: string, line: nat, funcName: string, callType: string, className: string)

  /** func_table_entry_cmp and func_table_hmap_cmp_key: equal function and class names. */
  predicate SameFunction(a: PhpFunction, b: PhpFunction)
  {
    a.funcName == b.funcName && a.className == b.className
  }

  /** spx_profiler_func_stats_t. */
  datatype FuncStats = FuncStats(called: nat, maxCycleDepth: nat, inc: Vec, exc: Vec)

  /** spx_profiler_func_table_entry_t. */
  datatype FuncEntry = FuncEntry(idx: nat, func: PhpFunction, stats: FuncStats)

  /** stack_frame_t; entry None is a NULL func_table_entry. */
  datatype Frame = Frame(entry: Option<nat>, start: Vec, children: Vec)

  datatype EventType = CallStartEvent | CallEndEvent | FinalizeEvent

  /** spx_profiler_reporter_cost_t. */
  datatype Cost = Light | Heavy

  /**
   * spx_profiler_event_t as fill_event fills it: functions is the function
   * table's used part, caller and callee index it, inc and exc are None for
   * NULL.
   */
  datatype Event = Event(
    typ: EventType, enabledMetrics: seq<bool>, called: nat, max: Vec, cum: Vec,
    functions: seq<FuncEntry>, depth: nat,
    caller: Option<nat>, callee: Option<nat>, inc: Option<Vec>, exc: Option<Vec>)

  /** One value per metric of the table. */
  predicate Sized(v: Vec)
  {
    |v| == SpxMetric.MetricCount
  }

  function Min(a: nat, b: nat): nat
  {
    if a <= b then a else b
  }

  /** How many of the frames have a function-table entry. */
  function CountEntries(fs: seq<Frame>): (n: nat)
    ensures n <= |fs|
  {
    if fs == [] then 0 else (if fs[0].entry.Some? then 1 else 0) + CountEntries(fs[1..])
  }

  function Zeros(): (v: Vec)
    ensures Sized(v)
  {
    Fill(SpxMetric.MetricCount, 0.0)
  }

  /** The create functions keep max_depth only inside 0 < max_depth < STACK_CAPACITY. */
  function ClampMaxDepth(maxDepth: nat): (r: nat)
    ensures 1 <= r <= StackCapacity
    ensures 0 < maxDepth < StackCapacity ==> r == maxDepth
    ensures (maxDepth == 0 || maxDepth >= StackCapacity) ==> r == StackCapacity
  {
    if 0 < maxDepth < StackCapacity then maxDepth else StackCapacity
  }

  // ---- Function table -----------------------------------------------------

  predicate WellFormedEntry(en: FuncEntry)
  {
    Sized(en.stats.inc) && Sized(en.stats.exc)
  }

  /** The used part of a function table: entry k has idx k and no function is there twice. */
  predicate Table(es: seq<FuncEntry>)
  {
    && |es| <= FuncTableCapacity
    && (forall k :: 0 <= k < |es| ==> es[k].idx == k && WellFormedEntry(es[k]))
    && (forall j, k :: 0 <= j < k < |es| ==> !SameFunction(es[j].func, es[k].func))
  }

  /** The position of the entry for f, if any. */
  function Find(es: seq<FuncEntry>, f: PhpFunction): (r: Option<nat>)
    ensures r.Some? ==> r.value < |es| && SameFunction(es[r.value].func, f)
    ensures r.None? ==> forall k :: 0 <= k < |es| ==> !SameFunction(es[k].func, f)
  {
    if es == [] then None
    else if SameFunction(es[|es| - 1].func, f) then Some(|es| - 1)
    else Find(es[..|es| - 1], f)
  }

  function NewEntry(idx: nat, f: PhpFunction): (en: FuncEntry)
    ensures WellFormedEntry(en)
  {
    FuncEntry(idx, f, FuncStats(0, 0, Zeros(), Zeros()))
  }

  /**
   * func_table_get_entry: the entry for f if the table has one; otherwise a
   * new entry with idx = old size and zero stats, unless the table is full,
   * in which case None (a NULL entry).
   */
  function GetEntry(es: seq<FuncEntry>, f: PhpFunction): (seq<FuncEntry>, Option<nat>)
  {
    match Find(es, f)
    case Some(k) => (es, Some(k))
    case None =>
      if |es| == FuncTableCapacity then (es, None)
      else (es + [NewEntry(|es|, f)], Some(|es|))
  }

  /** GetEntry keeps a table a table; its result names f; it adds at most the new entry. */
  lemma GetEntryTable(es: seq<FuncEntry>, f: PhpFunction)
    requires Table(es)
    ensures var (es', r) := GetEntry(es, f);
      && Table(es')
      && es'[..|es|] == es
      && (r.Some? ==> r.value < |es'| && SameFunction(es'[r.value].func, f))
      && (r.None? <==> |es| == FuncTableCapacity && Find(es, f).None?)
      && (|es'| == |es| + 1 ==> r == Some(|es|) && es'[|es|] == NewEntry(|es|, f))
      && (|es'| == |es| || |es'| == |es| + 1)
  {
  }

  /**
   * func_table_get_entry on the table's array and its used size: the search
   * through the hash index (an hset in src/spx_profiler.c, an hmap in
   * src/spx_profiler_tracer.c) is a scan of the used entries here.
   */
  method TableGetEntry(entries: array<FuncEntry>, size: nat, f: PhpFunction) returns (size': nat, r: Option<nat>)
    requires size <= entries.Length == FuncTableCapacity && Table(entries[..size])
    modifies entries
    ensures size <= size' <= FuncTableCapacity
    ensures (entries[..size'], r) == GetEntry(old(entries[..size]), f)
    ensures Table(entries[..size'])
    ensures r.Some? ==> r.value < size'
  {
    GetEntryTable(entries[..size], f);
    ghost var es := entries[..size];
    size' := size;
    var k := size;
    while k > 0
      invariant 0 <= k <= size
      invariant Find(es, f) == Find(es[..k], f)
    {
      assert es[..k][..k - 1] == es[..k - 1];
      if SameFunction(entries[k - 1].func, f) {
        return size, Some(k - 1);
      }
      k := k - 1;
    }
    if size == FuncTableCapacity {
      return size, None;
    }
    entries[size] := NewEntry(size, f);
    size' := size + 1;
    assert entries[..size'] == es + [NewEntry(size, f)];
    r := Some(size);
  }

  /** Asking twice for the same function gives the same entry and adds nothing the second time. */
  lemma GetEntryIdempotent(es: seq<FuncEntry>, f: PhpFunction, g: PhpFunction)
    requires Table(es) && SameFunction(f, g)
    ensures var (es1, r1) := GetEntry(es, f);
      GetEntry(es1, g) == (es1, r1)
  {
    var (es1, r1) := GetEntry(es, f);
    GetEntryTable(es, f);
    if r1.Some? {
      var k := r1.value;
      assert SameFunction(es1[k].func, g);
      var r2 := Find(es1, g);
      assert r2.Some?;
      assert r2.value == k;
    } else {
      assert Find(es1, g).None?;
    }
  }

  /** Replacing an entry's stats by sized stats keeps a table a table. */
  lemma TableWithStats(es: seq<FuncEntry>, e: nat, st: FuncStats)
    requires Table(es) && e < |es| && Sized(st.inc) && Sized(st.exc)
    ensures Table(es[e := es[e].(stats := st)])
  {
  }

  // ---- Call accounting ----------------------------------------------------

  /** Frames from the bottom of the stack whose entry is e. */
  function CountSame(fs: seq<Frame>, e: nat): (n: nat)
    ensures n <= |fs|
  {
    if fs == [] then 0
    else (if fs[0].entry == Some(e) then 1 else 0) + CountSame(fs[1..], e)
  }

  lemma {:induction false} CountSameZero(fs: seq<Frame>, e: nat)
    ensures CountSame(fs, e) == 0 <==> forall j :: 0 <= j < |fs| ==> fs[j].entry != Some(e)
  {
    if fs != [] {
      CountSameZero(fs[1..], e);
      assert forall j :: 1 <= j < |fs| ==> fs[j] == fs[1..][j - 1];
    }
  }

  /** Frame k is the ancestor nearest the top that runs function e. */
  predicate IsNearest(fs: seq<Frame>, e: nat, k: nat)
    requires k < |fs|
  {
    fs[k].entry == Some(e) && CountSame(fs[k + 1..], e) == 0
  }

  lemma NearestUnique(fs: seq<Frame>, e: nat, j: nat, k: nat)
    requires j < k < |fs| && IsNearest(fs, e, k)
    ensures !IsNearest(fs, e, j)
  {
    CountSameZero(fs[j + 1..], e);
    assert fs[j + 1..][k - j - 1] == fs[k];
  }

  /** A nearest same-function ancestor exists exactly when the cycle depth is positive. */
  lemma {:induction false} NearestExists(fs: seq<Frame>, e: nat)
    ensures CountSame(fs, e) > 0 <==> exists k :: 0 <= k < |fs| && IsNearest(fs, e, k)
  {
    if fs == [] {
    } else {
      NearestExists(fs[1..], e);
      if CountSame(fs[1..], e) > 0 {
        var k :| 0 <= k < |fs[1..]| && IsNearest(fs[1..], e, k);
        assert fs[1..][k + 1..] == fs[k + 2..];
        assert IsNearest(fs, e, k + 1);
      } else if fs[0].entry == Some(e) {
        assert fs[1..] == fs[0 + 1..];
        assert IsNearest(fs, e, 0);
      } else {
        CountSameZero(fs, e);
        forall k | 0 <= k < |fs|
          ensures !IsNearest(fs, e, k)
        {
        }
      }
    }
  }

  predicate ChildrenSized(fs: seq<Frame>, n: nat)
  {
    forall k :: 0 <= k < |fs| ==> |fs[k].children| == n
  }

  /**
   * Frame k after a call of entry e ended above the frames fs: the frame just
   * below gains inc in its children and the nearest frame of e loses exc.
   */
  function AccountedFrame(fs: seq<Frame>, e: nat, inc: Vec, exc: Vec, k: nat): Frame
    requires k < |fs| && |inc| == |exc| && ChildrenSized(fs, |inc|)
  {
    var f := fs[k];
    if f.entry.None? then f
    else
      var c := if k == |fs| - 1 then Plus(f.children, inc) else f.children;
      f.(children := if IsNearest(fs, e, k) then Minus(c, exc) else c)
  }

  function Accounted(fs: seq<Frame>, e: nat, inc: Vec, exc: Vec): (r: seq<Frame>)
    requires |inc| == |exc| && ChildrenSized(fs, |inc|)
    ensures |r| == |fs|
  {
    seq(|fs|, k requires 0 <= k < |fs| => AccountedFrame(fs, e, inc, exc, k))
  }

  /** The accounting touches only children, and only of frames with an entry. */
  lemma AccountedKeepsEntries(fs: seq<Frame>, e: nat, inc: Vec, exc: Vec)
    requires |inc| == |exc| && ChildrenSized(fs, |inc|)
    ensures var r := Accounted(fs, e, inc, exc);
      && ChildrenSized(r, |inc|)
      && forall k :: 0 <= k < |fs| ==>
           r[k].entry == fs[k].entry && r[k].start == fs[k].start
           && (fs[k].entry.None? ==> r[k] == fs[k])
  {
  }

  /** The exc a finished call's stats receive, at cycle depth 0 only. */
  function EndStats(s: FuncStats, cycleDepth: nat, inc: Vec, exc: Vec): FuncStats
    requires |s.inc| == |inc| && |s.exc| == |exc|
  {
    FuncStats(
      s.called + 1,
      if s.maxCycleDepth < cycleDepth then cycleDepth else s.maxCycleDepth,
      if cycleDepth == 0 then Plus(s.inc, inc) else s.inc,
      if cycleDepth == 0 then Plus(s.exc, exc) else s.exc)
  }

  /**
   * The loop of call_end over the frames below the finished one, from the top
   * down: it charges the frame just below with inc, debits the first frame of
   * the same entry it meets with exc, and counts the frames of that entry.
   */
  method AccountAncestors(frames: array<Frame>, depth: nat, e: nat, inc: Vec, exc: Vec)
    returns (cycleDepth: nat)
    requires depth <= frames.Length && |inc| == |exc| && ChildrenSized(frames[..depth], |inc|)
    modifies frames
    ensures cycleDepth == CountSame(old(frames[..depth]), e)
    ensures frames[..depth] == Accounted(old(frames[..depth]), e, inc, exc)
    ensures forall k :: depth <= k < frames.Length ==> frames[k] == old(frames[k])
    ensures forall k :: 0 <= k < frames.Length ==>
      frames[k].entry == old(frames[k].entry) && frames[k].start == old(frames[k].start)
      && |frames[k].children| == |old(frames[k].children)|
  {
    ghost var fs := frames[..depth];
    cycleDepth := 0;
    var i := depth;
    while i > 0
      invariant 0 <= i <= depth
      invariant cycleDepth == CountSame(fs[i..], e)
      invariant forall k :: 0 <= k < i ==> frames[k] == fs[k]
      invariant forall k :: i <= k < depth ==> frames[k] == AccountedFrame(fs, e, inc, exc, k)
      invariant forall k :: depth <= k < frames.Length ==> frames[k] == old(frames[k])
    {
      i := i - 1;
      assert fs[i..][1..] == fs[i + 1..];
      var parent := frames[i];
      if parent.entry.None? {
        continue;
      }
      if i == depth - 1 {
        parent := parent.(children := Plus(parent.children, inc));
      }
      if parent.entry == Some(e) {
        cycleDepth := cycleDepth + 1;
        if cycleDepth == 1 {
          parent := parent.(children := Minus(parent.children, exc));
        }
      }
      frames[i] := parent;
    }
    assert fs[0..] == fs;
    forall k | 0 <= k < depth
      ensures frames[k].entry == fs[k].entry && frames[k].start == fs[k].start
      ensures |frames[k].children| == |fs[k].children|
    {
      assert frames[k] == AccountedFrame(fs, e, inc, exc, k);
    }
  }

  /**
   * A call B, ending at time tB after starting at sB, directly inside a call
   * A of another function: B's exclusive cost is its inclusive cost, and A's
   * children grow by it, so A's exclusive cost is its own span minus B's.
   */
  lemma ChildChargedToParent(a: nat, b: nat, sA: Vec, sB: Vec, tB: Vec, tA: Vec)
    requires a != b && Sized(sA) && Sized(sB) && Sized(tB) && Sized(tA)
    ensures var fs := [Frame(Some(a), sA, Zeros())];
      var incB := Minus(tB, sB);
      var excB := Minus(incB, Zeros());
      var after := Accounted(fs, b, incB, excB);
      && CountSame(fs, b) == 0
      && excB == incB
      && Minus(Minus(tA, sA), after[0].children) == Minus(Minus(tA, sA), Minus(tB, sB))
  {
    var fs := [Frame(Some(a), sA, Zeros())];
    var incB := Minus(tB, sB);
    assert CountSame(fs[1..], b) == 0;
    assert Accounted(fs, b, incB, Minus(incB, Zeros()))[0].children == Plus(Zeros(), incB);
    assert Plus(Zeros(), incB) == incB;
    assert Minus(incB, Zeros()) == incB;
  }

  /**
   * A call of A directly inside another call of A: the outer frame is both
   * the parent and the nearest frame of A, so it gains the inner inc and
   * loses the inner exc; the inner call is at cycle depth 1, so its costs do
   * not reach the function's totals a second time.
   */
  lemma SelfCallDebitsExclusive(a: nat, outer: Frame, inc: Vec, exc: Vec)
    requires outer.entry == Some(a) && |outer.children| == |inc| == |exc|
    ensures var fs := [outer];
      && CountSame(fs, a) == 1
      && Accounted(fs, a, inc, exc) == [outer.(children := Minus(Plus(outer.children, inc), exc))]
  {
    var fs := [outer];
    assert CountSame(fs[1..], a) == 0;
    assert IsNearest(fs, a, 0);
  }

  /** A finished call as its function's stats see it. */
  datatype EndedCall = EndedCall(cycleDepth: nat, inc: Vec, exc: Vec)

  predicate EndedSized(calls: seq<EndedCall>)
  {
    forall k :: 0 <= k < |calls| ==> Sized(calls[k].inc) && Sized(calls[k].exc)
  }

  /** The stats after the calls ended in order. */
  function StatsAfter(s: FuncStats, calls: seq<EndedCall>): (t: FuncStats)
    requires Sized(s.inc) && Sized(s.exc) && EndedSized(calls)
    ensures Sized(t.inc) && Sized(t.exc)
  {
    if calls == [] then s
    else
      var c := calls[|calls| - 1];
      EndStats(StatsAfter(s, calls[..|calls| - 1]), c.cycleDepth, c.inc, c.exc)
  }

  /** The summed inc (or exc) of the calls that ended at cycle depth 0. */
  function OuterSum(calls: seq<EndedCall>, ofInc: bool): (v: Vec)
    requires EndedSized(calls)
    ensures Sized(v)
  {
    if calls == [] then Zeros()
    else
      var c := calls[|calls| - 1];
      var rest := OuterSum(calls[..|calls| - 1], ofInc);
      if c.cycleDepth == 0 then Plus(rest, if ofInc then c.inc else c.exc) else rest
  }

  /**
   * Entry stats: called counts every ended call, max_cycle_depth is their
   * largest cycle depth, and inc and exc sum only the calls at cycle depth 0.
   */
  lemma {:induction false} StatsAfterSums(s: FuncStats, calls: seq<EndedCall>)
    requires Sized(s.inc) && Sized(s.exc) && EndedSized(calls)
    ensures var t := StatsAfter(s, calls);
      && t.called == s.called + |calls|
      && (forall k :: 0 <= k < |calls| ==> calls[k].cycleDepth <= t.maxCycleDepth)
      && s.maxCycleDepth <= t.maxCycleDepth
      && t.inc == Plus(s.inc, OuterSum(calls, true))
      && t.exc == Plus(s.exc, OuterSum(calls, false))
  {
    if calls == [] {
      PlusZero(s.inc);
      PlusZero(s.exc);
    } else {
      var init := calls[..|calls| - 1];
      StatsAfterSums(s, init);
      var c := calls[|calls| - 1];
      if c.cycleDepth == 0 {
        PlusAssoc(s.inc, OuterSum(init, true), c.inc);
        PlusAssoc(s.exc, OuterSum(init, false), c.exc);
      }
      assert forall k :: 0 <= k < |init| ==> calls[k] == init[k];
    }
  }

  lemma PlusZero(a: Vec)
    requires Sized(a)
    ensures Plus(a, Zeros()) == a
  {
  }

  lemma PlusAssoc(a: Vec, b: Vec, c: Vec)
    requires |a| == |b| == |c|
    ensures Plus(Plus(a, b), c) == Plus(a, Plus(b, c))
  {
  }
}
