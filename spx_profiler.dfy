/**
 * The first-generation tracing profiler (src/spx_profiler.c). Every metric
 * reading the source takes from its collector is a parameter here, and the
 * event a call produces is returned instead of being passed to the
 * reporter; what the reporter's cost then triggers (a noise barrier on the
 * collector) happens outside the profiler's own state.
 */
module SpxProfiler {
  import opened Wrappers
  import opened MetricValues
  import opened SpxProfilerTypes
  import SpxMetric

  /** A frame as the profiler keeps it: sized vectors, an entry inside the table. */
  predicate FrameOk(f: Frame, size: nat)
  {
    Sized(f.start) && Sized(f.children) && (f.entry.Some? ==> f.entry.value < size)
  }

  class Profiler {
    var finalized: bool
    var active: bool
    const enabled: seq<bool>
    const maxDepth: nat
    var called: nat
    var first: Vec
    var last: Vec
    var cum: Vec
    var max: Vec
    var depth: nat
    const frames: array<Frame>
    const entries: array<FuncEntry>
    var size: nat

    ghost predicate Valid()
      reads this, frames, entries
    {
      Inv() && (!finalized && active ==> depth <= maxDepth)
    }

    /** What holds of the state at every point, finalize's forced active included. */
    ghost predicate Inv()
      reads this, frames, entries
    {
      && SpxMetric.Metrics(enabled)
      && 1 <= maxDepth <= StackCapacity
      && frames.Length == StackCapacity && entries.Length == FuncTableCapacity
      && size <= FuncTableCapacity
      && Sized(first) && Sized(last) && Sized(cum) && Sized(max)
      && Table(entries[..size])
      && (finalized ==> depth == 0)
      && (forall k :: 0 <= k < StackCapacity ==> FrameOk(frames[k], size))
    }

    /** fill_event in the profiler's current state. */
    function MakeEvent(typ: EventType, d: nat, caller: Option<nat>, callee: Option<nat>, inc: Option<Vec>, exc: Option<Vec>): Event
      reads this, entries
      requires size <= entries.Length
    {
      Event(typ, enabled, called, max, cum, entries[..size], d, caller, callee, inc, exc)
    }

    /** The entry of the frame below position d, NULL at the bottom. */
    function CallerAt(d: nat): Option<nat>
      reads this, frames
      requires d <= frames.Length
    {
      if d > 0 then frames[d - 1].entry else None
    }

    /** spx_profiler_create: max_depth clamped, nothing called, no frame, empty table. */
    constructor (maxDepth0: nat, enabled0: seq<bool>)
      requires SpxMetric.Metrics(enabled0)
      ensures Valid() && fresh(frames) && fresh(entries)
      ensures !finalized && active && enabled == enabled0 && maxDepth == ClampMaxDepth(maxDepth0)
      ensures called == 0 && depth == 0 && size == 0
    {
      finalized := false;
      active := true;
      enabled := enabled0;
      maxDepth := ClampMaxDepth(maxDepth0);
      called := 0;
      first, last, cum, max := Zeros(), Zeros(), Zeros(), Zeros();
      depth := 0;
      frames := new Frame[StackCapacity](_ => Frame(None, Zeros(), Zeros()));
      entries := new FuncEntry[FuncTableCapacity](k => NewEntry(k, PhpFunction(0, "", 0, "", "", "")));
      size := 0;
    }

    /** The bookkeeping both call_start and call_end do with a reading. */
    method Collect(cur: Vec)
      requires Sized(cur) && Sized(first) && Sized(max)
      modifies this`last, this`cum, this`max
      ensures last == cur && cum == Minus(cur, first) && max == MaxOf(old(max), cur)
    {
      last := cur;
      cum := Minus(cur, first);
      max := MaxOf(max, cur);
    }

    /**
     * spx_profiler_call_start: a non-finalized start always deepens the
     * stack by one; it records a call only when the depth before it is below
     * max_depth, and emits CALL_START only when the function has an entry.
     */
    method CallStart(f: PhpFunction, cur: Vec) returns (ev: Option<Event>)
      requires Valid() && Sized(cur)
      modifies this, frames, entries
      ensures Valid()
      ensures old(finalized) ==> ev.None? && unchanged(this) && unchanged(frames) && unchanged(entries)
      ensures !old(finalized) ==> !finalized && depth == old(depth) + 1 && active == (old(depth) < maxDepth)
      ensures !active ==>
        && ev.None? && called == old(called) && size == old(size)
        && first == old(first) && last == old(last) && cum == old(cum) && max == old(max)
        && unchanged(frames) && unchanged(entries)
      ensures !old(finalized) && active ==>
        && called == old(called) + 1
        && first == (if old(called) == 0 then cur else old(first))
        && last == cur && cum == Minus(cur, first)
        && max == MaxOf(if old(called) == 0 then cur else old(max), cur)
        && (entries[..size], frames[old(depth)].entry) == GetEntry(old(entries[..size]), f)
        && (forall k :: 0 <= k < StackCapacity && k != old(depth) ==> frames[k] == old(frames[k]))
        && (frames[old(depth)].entry.Some? ==>
              && frames[old(depth)] == Frame(frames[old(depth)].entry, cur, Zeros())
              && ev == Some(MakeEvent(CallStartEvent, old(depth), CallerAt(old(depth)), frames[old(depth)].entry, None, None)))
        && (frames[old(depth)].entry.None? ==> ev.None?)
    {
      if finalized {
        return None;
      }
      active := depth < maxDepth;
      if !active {
        depth := depth + 1;
        return None;
      }
      if called == 0 {
        first := cur;
        max := cur;
      }
      Collect(cur);
      called := called + 1;
      ev := StartFrame(f, cur);
      depth := depth + 1;
    }

    /** The part of call_start that fills the frame of a recorded call. */
    method StartFrame(f: PhpFunction, cur: Vec) returns (ev: Option<Event>)
      requires Valid() && Sized(cur) && depth < maxDepth
      modifies this`size, frames, entries
      ensures Valid()
      ensures (entries[..size], frames[depth].entry) == GetEntry(old(entries[..size]), f)
      ensures forall k :: 0 <= k < StackCapacity && k != depth ==> frames[k] == old(frames[k])
      ensures frames[depth].entry.Some? ==>
        && frames[depth] == Frame(frames[depth].entry, cur, Zeros())
        && ev == Some(MakeEvent(CallStartEvent, depth, CallerAt(depth), frames[depth].entry, None, None))
      ensures frames[depth].entry.None? ==> ev.None?
    {
      var n, e := TableGetEntry(entries, size, f);
      size := n;
      if e.None? {
        frames[depth] := frames[depth].(entry := None);
        return None;
      }
      frames[depth] := Frame(e, cur, Zeros());
      ev := Some(MakeEvent(CallStartEvent, depth, CallerAt(depth), e, None, None));
    }

    /**
     * spx_profiler_call_end. The depth is decremented first; active is the
     * value the latest call_start left, not recomputed here. A recorded call
     * whose frame has an entry gets inc = cur - start and exc = inc -
     * children, is charged to its ancestors, and updates its entry's stats
     * with its cycle depth.
     */
    method CallEnd(cur: Vec) returns (ev: Option<Event>)
      requires Valid() && Sized(cur) && (finalized || depth > 0)
      modifies this, frames, entries
      ensures Valid()
      ensures forall k :: 0 <= k < StackCapacity ==> frames[k].entry == old(frames[k].entry)
      ensures old(finalized) ==> ev.None? && unchanged(this) && unchanged(frames) && unchanged(entries)
      ensures !old(finalized) ==>
        && !finalized && depth == old(depth) - 1 && active == old(active)
        && called == old(called) && first == old(first) && size == old(size)
      ensures !old(finalized) && !old(active) ==>
        && ev.None? && last == old(last) && cum == old(cum) && max == old(max)
        && unchanged(frames) && unchanged(entries)
      ensures !old(finalized) && old(active) ==> last == cur && cum == Minus(cur, first) && max == MaxOf(old(max), cur)
      ensures !old(finalized) && old(active) && old(frames[depth - 1]).entry.None? ==>
        ev.None? && unchanged(frames) && unchanged(entries)
      ensures !old(finalized) && old(active) && old(frames[depth - 1]).entry.Some? ==>
        var fr := old(frames[depth - 1]);
        var e := fr.entry.value;
        var inc := Minus(cur, fr.start);
        var exc := Minus(inc, fr.children);
        && frames[..depth] == Accounted(old(frames[..depth - 1]), e, inc, exc)
        && (forall k :: depth <= k < StackCapacity ==> frames[k] == old(frames[k]))
        && entries[..size] == old(entries[..size])[e := old(entries[e]).(stats :=
             EndStats(old(entries[e]).stats, CountSame(old(frames[..depth - 1]), e), inc, exc))]
        && ev == Some(MakeEvent(CallEndEvent, depth, CallerAt(depth), Some(e), Some(inc), Some(exc)))
    {
      if finalized {
        return None;
      }
      depth := depth - 1;
      if !active {
        return None;
      }
      Collect(cur);
      var fr := frames[depth];
      if fr.entry.None? {
        return None;
      }
      ev := EndFrame(fr, cur);
    }

    /** The part of call_end that charges a recorded frame with an entry. */
    method EndFrame(fr: Frame, cur: Vec) returns (ev: Option<Event>)
      requires Valid() && Sized(cur) && depth < StackCapacity && fr == frames[depth] && fr.entry.Some?
      modifies frames, entries
      ensures Valid()
      ensures forall k :: 0 <= k < StackCapacity ==> frames[k].entry == old(frames[k].entry)
      ensures
        var e := fr.entry.value;
        var inc := Minus(cur, fr.start);
        var exc := Minus(inc, fr.children);
        && frames[..depth] == Accounted(old(frames[..depth]), e, inc, exc)
        && (forall k :: depth <= k < StackCapacity ==> frames[k] == old(frames[k]))
        && entries[..size] == old(entries[..size])[e := old(entries[e]).(stats :=
             EndStats(old(entries[e]).stats, CountSame(old(frames[..depth]), e), inc, exc))]
        && ev == Some(MakeEvent(CallEndEvent, depth, CallerAt(depth), Some(e), Some(inc), Some(exc)))
    {
      var e := fr.entry.value;
      var inc := Minus(cur, fr.start);
      var exc := Minus(inc, fr.children);
      ghost var es := entries[..size];
      var cycleDepth := AccountAncestors(frames, depth, e, inc, exc);
      var en := entries[e];
      var st := EndStats(en.stats, cycleDepth, inc, exc);
      entries[e] := en.(stats := st);
      assert entries[..size] == es[e := en.(stats := st)];
      TableWithStats(es, e, st);
      ev := Some(MakeEvent(CallEndEvent, depth, CallerAt(depth), Some(e), Some(inc), Some(exc)));
    }

    /**
     * spx_profiler_finalize: forces active, ends every open frame (one
     * reading each), sets finalized and emits FINALIZE. With active forced,
     * the call_ends of the levels at or above max_depth collect a reading
     * and read the frame of a call that call_start skipped, which it never
     * wrote: unwritten counts them, and the model takes such a frame as one
     * without an entry. Every frame below max_depth with an entry yields
     * its CALL_END first.
     */
    method Finalize(readings: seq<Vec>) returns (events: seq<Event>, unwritten: nat)
      requires Valid() && |readings| == depth
      requires forall k :: 0 <= k < |readings| ==> Sized(readings[k])
      modifies this, frames, entries
      ensures Valid() && finalized && depth == 0
      ensures unwritten == old(depth) - Min(old(depth), maxDepth)
      ensures |events| == CountEntries(old(frames[..Min(depth, maxDepth)])) + 1
      ensures events[|events| - 1].typ == FinalizeEvent
      ensures forall k :: 0 <= k < |events| - 1 ==> events[k].typ == CallEndEvent
    {
      ghost var fs := frames[..Min(depth, maxDepth)];
      ghost var d0 := depth;
      active := true;
      unwritten := UnwindSkipped(readings);
      var i := unwritten;
      events := [];
      while depth > 0
        invariant Valid() && active && depth <= Min(d0, maxDepth) && i == d0 - depth
        invariant forall k :: 0 <= k < |fs| ==> frames[k].entry == fs[k].entry
        invariant |events| == CountEntries(fs[depth..])
        invariant forall k :: 0 <= k < |events| ==> events[k].typ == CallEndEvent
        decreases depth
      {
        assert fs[depth - 1..][1..] == fs[depth..];
        var ev := Unwind(readings[i]);
        i := i + 1;
        if ev.Some? {
          events := events + [ev.value];
        }
      }
      assert fs[0..] == fs;
      finalized := true;
      events := events + [MakeEvent(FinalizeEvent, depth, None, None, None, None)];
    }

    /** Finalize's call_ends at and above max_depth: each collects a reading and reads no frame call_start wrote. */
    method UnwindSkipped(readings: seq<Vec>) returns (unwritten: nat)
      requires Inv() && active && |readings| == depth
      requires forall k :: 0 <= k < |readings| ==> Sized(readings[k])
      modifies this`depth, this`last, this`cum, this`max
      ensures Valid() && depth == Min(old(depth), maxDepth) && unwritten == old(depth) - depth
    {
      unwritten := 0;
      while depth > maxDepth
        invariant Inv() && active && Min(old(depth), maxDepth) <= depth <= old(depth)
        invariant unwritten == old(depth) - depth
        decreases depth
      {
        depth := depth - 1;
        Collect(readings[unwritten]);
        unwritten := unwritten + 1;
      }
    }

    /** One call_end of finalize, with only what the unwinding needs to know. */
    method Unwind(cur: Vec) returns (ev: Option<Event>)
      requires Valid() && Sized(cur) && !finalized && active && depth > 0
      modifies this, frames, entries
      ensures Valid() && !finalized && active && depth == old(depth) - 1
      ensures forall k :: 0 <= k < StackCapacity ==> frames[k].entry == old(frames[k].entry)
      ensures ev.Some? <==> old(frames[depth - 1]).entry.Some?
      ensures ev.Some? ==> ev.value.typ == CallEndEvent
    {
      ev := CallEnd(cur);
    }
  }

  /**
   * With max_depth 1, a call B inside a recorded call A is skipped, and the
   * end of B leaves active false, so the end of A is skipped too: A's
   * CALL_START was emitted but its CALL_END never is.
   */
  method ShallowProfileLosesOuterEnd(a: PhpFunction, b: PhpFunction, cur: Vec)
    returns (startA: Option<Event>, endA: Option<Event>)
    requires Sized(cur)
    ensures startA.Some? && startA.value.typ == CallStartEvent && startA.value.callee == Some(0)
    ensures endA.None?
  {
    var p := new Profiler(1, seq(SpxMetric.MetricCount, _ => true));
    startA := p.CallStart(a, cur);
    var startB := p.CallStart(b, cur);
    var endB := p.CallEnd(cur);
    endA := p.CallEnd(cur);
  }

  /**
   * With max_depth 1, a call B inside a call A, both still open: finalize's
   * call_end for B reads the frame at depth 1, which call_start never wrote.
   */
  method ShallowFinalizeReadsUnwrittenFrame(a: PhpFunction, b: PhpFunction, cur: Vec)
    returns (unwritten: nat)
    requires Sized(cur)
    ensures unwritten == 1
  {
    var p := new Profiler(1, seq(SpxMetric.MetricCount, _ => true));
    var startA := p.CallStart(a, cur);
    var startB := p.CallStart(b, cur);
    var events;
    events, unwritten := p.Finalize([cur, cur]);
  }
}
