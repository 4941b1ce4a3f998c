/**
 * The tracing profiler (src/spx_profiler_tracer.c), successor of the one
 * in src/spx_profiler.c. It keeps active equal to depth < max_depth after
 * every start and end, so only frames below max_depth are recorded, and it
 * calibrates its own overhead on the first recorded call. As for the first
 * profiler, metric readings are parameters and events are returned.
 */
module SpxProfilerTracer {
  import opened Wrappers
  import opened MetricValues
  import opened SpxProfilerTypes
  import SpxMetric

  /** The average per-call overheads the calibration loops measure with the CPU clock. */
  datatype Calibration = Calibration(startNoise: nat, endNoise: nat)

  /** A noise vector of calibrate: the average on wall and CPU time, 0 elsewhere. */
  function NoiseVector(avg: nat): (v: Vec)
    ensures Sized(v)
    ensures v[SpxMetric.WallTime] == avg as real && v[SpxMetric.CpuTime] == avg as real
    ensures forall i :: 0 <= i < |v| && i != SpxMetric.WallTime && i != SpxMetric.CpuTime ==> v[i] == 0.0
  {
    Zeros()[SpxMetric.WallTime := avg as real][SpxMetric.CpuTime := avg as real]
  }

  class TracingProfiler {
    var finalized: bool
    var active: bool
    const enabled: seq<bool>
    var calibrated: bool
    var startNoise: Vec
    var endNoise: Vec
    const maxDepth: nat
    var called: nat
    var first: Vec
    var last: Vec
    var cum: Vec
    var max: Vec
    var depth: nat
    const frames: array<Frame>
    const entries: array<FuncEntry>
    var size: nat

    /** Valid, and active is depth < max_depth as every start and end leave it. */
    ghost predicate Valid()
      reads this, frames, entries
    {
      Inv() && (!finalized ==> active == (depth < maxDepth))
    }

    /** What holds of the state at every point, finalize's forced active included. */
    ghost predicate Inv()
      reads this, frames, entries
    {
      && SpxMetric.Metrics(enabled)
      && 1 <= maxDepth <= StackCapacity
      && frames.Length == StackCapacity && entries.Length == FuncTableCapacity
      && size <= FuncTableCapacity
      && Sized(first) && Sized(last) && Sized(cum) && Sized(max)
      && Sized(startNoise) && Sized(endNoise)
      && Table(entries[..size])
      && (finalized ==> depth == 0)
      && (called == 0 ==> depth == 0)
      && (called > 0 ==> calibrated)
      && (forall k :: 0 <= k < StackCapacity ==> Sized(frames[k].start) && Sized(frames[k].children))
      && (forall k :: 0 <= k < Min(depth, maxDepth) && frames[k].entry.Some? ==> frames[k].entry.value < size)
    }

    /** fill_event in the profiler's current state. */
    function MakeEvent(typ: EventType, d: nat, caller: Option<nat>, callee: Option<nat>, inc: Option<Vec>, exc: Option<Vec>): Event
      reads this, entries
      requires size <= entries.Length
    {
      Event(typ, enabled, called, max, cum, entries[..size], d, caller, callee, inc, exc)
    }

    /** The entry of the frame below position d, NULL at the bottom. */
    function CallerAt(d: nat): Option<nat>
      reads this, frames
      requires d <= frames.Length
    {
      if d > 0 then frames[d - 1].entry else None
    }

    /** spx_profiler_tracer_create: max_depth clamped, not calibrated, zero noise, empty stack and table. */
    constructor (maxDepth0: nat, enabled0: seq<bool>)
      requires SpxMetric.Metrics(enabled0)
      ensures Valid() && fresh(frames) && fresh(entries)
      ensures !finalized && active && !calibrated && enabled == enabled0 && maxDepth == ClampMaxDepth(maxDepth0)
      ensures startNoise == Zeros() && endNoise == Zeros()
      ensures called == 0 && depth == 0 && size == 0
    {
      finalized := false;
      active := true;
      enabled := enabled0;
      calibrated := false;
      startNoise, endNoise := Zeros(), Zeros();
      maxDepth := ClampMaxDepth(maxDepth0);
      called := 0;
      first, last, cum, max := Zeros(), Zeros(), Zeros(), Zeros();
      depth := 0;
      frames := new Frame[StackCapacity](_ => Frame(None, Zeros(), Zeros()));
      entries := new FuncEntry[FuncTableCapacity](k => NewEntry(k, PhpFunction(0, "", 0, "", "", "")));
      size := 0;
    }

    /** func_table_reset: the table is emptied (and its hash map reset). */
    method FuncTableReset()
      modifies this`size
      ensures size == 0
    {
      size := 0;
    }

    /**
     * The end state of calibrate: the measured noises are stored, and the
     * calibration calls leave nothing behind: called and depth are 0 and
     * the function table is empty. The calibration calls went to a null
     * reporter, so they emit no event.
     */
    method Calibrate(noise: Calibration)
      requires Valid() && !finalized && active
      modifies this`calibrated, this`startNoise, this`endNoise, this`called, this`depth, this`size
      ensures Valid() && calibrated && called == 0 && depth == 0 && size == 0
      ensures startNoise == NoiseVector(noise.startNoise) && endNoise == NoiseVector(noise.endNoise)
      ensures active
    {
      calibrated := true;
      startNoise := NoiseVector(noise.startNoise);
      endNoise := NoiseVector(noise.endNoise);
      called := 0;
      depth := 0;
      FuncTableReset();
      assert entries[..size] == [];
    }

    /** The bookkeeping start and end do with a reading. */
    method Collect(cur: Vec)
      requires Sized(cur) && Sized(first) && Sized(max)
      modifies this`last, this`cum, this`max
      ensures last == cur && cum == Minus(cur, first) && max == MaxOf(old(max), cur)
    {
      last := cur;
      cum := Minus(cur, first);
      max := MaxOf(max, cur);
    }

    /**
     * tracing_profiler_call_start: the stored active decides whether the call
     * is recorded; the first recorded call calibrates first. Either way depth
     * grows by one and active becomes depth < max_depth.
     */
    method CallStart(f: PhpFunction, cur: Vec, noise: Calibration) returns (ev: Option<Event>)
      requires Valid() && Sized(cur)
      modifies this, frames, entries
      ensures Valid()
      ensures old(finalized) ==> ev.None? && unchanged(this) && unchanged(frames) && unchanged(entries)
      ensures !old(finalized) ==> !finalized && active == (depth < maxDepth)
      ensures !old(finalized) && !old(active) ==>
        && ev.None? && depth == old(depth) + 1 && called == old(called) && size == old(size)
        && calibrated == old(calibrated)
        && first == old(first) && last == old(last) && cum == old(cum) && max == old(max)
        && unchanged(frames) && unchanged(entries)
      ensures !old(finalized) && old(active) ==>
        var calibrating := old(called) == 0 && !old(calibrated);
        var d := if calibrating then 0 else old(depth);
        && calibrated && depth == d + 1
        && (calibrating ==> startNoise == NoiseVector(noise.startNoise) && endNoise == NoiseVector(noise.endNoise))
        && (!calibrating ==> startNoise == old(startNoise) && endNoise == old(endNoise))
        && called == (if calibrating then 0 else old(called)) + 1
        && first == (if calibrating || old(called) == 0 then cur else old(first))
        && last == cur && cum == Minus(cur, first)
        && max == MaxOf(if calibrating || old(called) == 0 then cur else old(max), cur)
        && (entries[..size], frames[d].entry) == GetEntry(if calibrating then [] else old(entries[..size]), f)
        && (forall k :: 0 <= k < StackCapacity && k != d ==> frames[k] == old(frames[k]))
        && (frames[d].entry.Some? ==>
              && frames[d] == Frame(frames[d].entry, cur, Zeros())
              && ev == Some(MakeEvent(CallStartEvent, d, CallerAt(d), frames[d].entry, None, None)))
        && (frames[d].entry.None? ==> ev.None?)
    {
      if finalized {
        return None;
      }
      if !active {
        depth := depth + 1;
        active := depth < maxDepth;
        return None;
      }
      if called == 0 && !calibrated {
        Calibrate(noise);
        assert entries[..size] == [];
      }
      ev := RecordStart(f, cur);
    }

    /** A recorded call_start after calibration: the reading, the frame, the event. */
    method RecordStart(f: PhpFunction, cur: Vec) returns (ev: Option<Event>)
      requires Valid() && Sized(cur) && !finalized && active && calibrated
      modifies this`first, this`max, this`last, this`cum, this`called, this`size, this`depth, this`active,
        frames, entries
      ensures Valid() && !finalized && depth == old(depth) + 1
      ensures called == old(called) + 1
      ensures first == (if old(called) == 0 then cur else old(first))
      ensures last == cur && cum == Minus(cur, first)
      ensures max == MaxOf(if old(called) == 0 then cur else old(max), cur)
      ensures (entries[..size], frames[old(depth)].entry) == GetEntry(old(entries[..size]), f)
      ensures forall k :: 0 <= k < StackCapacity && k != old(depth) ==> frames[k] == old(frames[k])
      ensures frames[old(depth)].entry.Some? ==>
        && frames[old(depth)] == Frame(frames[old(depth)].entry, cur, Zeros())
        && ev == Some(MakeEvent(CallStartEvent, old(depth), CallerAt(old(depth)), frames[old(depth)].entry, None, None))
      ensures frames[old(depth)].entry.None? ==> ev.None?
    {
      Observe(cur);
      ev := StartFrame(f, cur);
      depth := depth + 1;
      active := depth < maxDepth;
    }

    /** The reading of a recorded call_start: the first one also sets first and max. */
    method Observe(cur: Vec)
      requires Valid() && Sized(cur) && !finalized && active && calibrated
      modifies this`first, this`max, this`last, this`cum, this`called
      ensures Valid() && called == old(called) + 1
      ensures first == (if old(called) == 0 then cur else old(first))
      ensures last == cur && cum == Minus(cur, first)
      ensures max == MaxOf(if old(called) == 0 then cur else old(max), cur)
    {
      if called == 0 {
        first := cur;
        max := cur;
      }
      Collect(cur);
      called := called + 1;
    }

    /** The part of call_start that fills the frame of a recorded call. */
    method StartFrame(f: PhpFunction, cur: Vec) returns (ev: Option<Event>)
      requires Valid() && Sized(cur) && !finalized && active
      modifies this`size, frames, entries
      ensures Valid() && old(size) <= size
      ensures (entries[..size], frames[depth].entry) == GetEntry(old(entries[..size]), f)
      ensures forall k :: 0 <= k < StackCapacity && k != depth ==> frames[k] == old(frames[k])
      ensures frames[depth].entry.Some? ==>
        && frames[depth] == Frame(frames[depth].entry, cur, Zeros())
        && ev == Some(MakeEvent(CallStartEvent, depth, CallerAt(depth), frames[depth].entry, None, None))
      ensures frames[depth].entry.None? ==> ev.None?
    {
      var n, e := TableGetEntry(entries, size, f);
      size := n;
      if e.None? {
        frames[depth] := frames[depth].(entry := None);
        return None;
      }
      frames[depth] := Frame(e, cur, Zeros());
      ev := Some(MakeEvent(CallStartEvent, depth, CallerAt(depth), e, None, None));
    }

    /**
     * tracing_profiler_call_end: fatal at depth 0; otherwise depth is
     * decremented, active becomes depth < max_depth, and only then is the
     * frame at the new depth charged, as in the first profiler.
     */
    method CallEnd(cur: Vec) returns (r: Result<Option<Event>>)
      requires Inv() && Sized(cur)
      modifies this, frames, entries
      ensures Inv()
      ensures (r.Ok? && !old(finalized)) || old(Valid()) ==> Valid()
      ensures r.Err? <==> !old(finalized) && old(depth) == 0
      ensures r.Err? ==> unchanged(this) && unchanged(frames) && unchanged(entries)
      ensures old(finalized) ==> unchanged(this) && unchanged(frames) && unchanged(entries)
      ensures old(finalized) ==> r == Ok(None)
      ensures forall k :: 0 <= k < StackCapacity ==> frames[k].entry == old(frames[k].entry)
      ensures r.Ok? && !old(finalized) ==>
        && !finalized && depth == old(depth) - 1 && active == (depth < maxDepth)
        && called == old(called) && first == old(first) && size == old(size)
      ensures r.Ok? && !old(finalized) && !active ==>
        && r.value.None? && last == old(last) && cum == old(cum) && max == old(max)
        && unchanged(frames) && unchanged(entries)
      ensures r.Ok? && !old(finalized) && active ==> last == cur && cum == Minus(cur, first) && max == MaxOf(old(max), cur)
      ensures r.Ok? && !old(finalized) && active && old(frames[depth - 1]).entry.None? ==>
        r.value.None? && unchanged(frames) && unchanged(entries)
      ensures r.Ok? && !old(finalized) && active && old(frames[depth - 1]).entry.Some? ==>
        var fr := old(frames[depth - 1]);
        var e := fr.entry.value;
        var inc := Minus(cur, fr.start);
        var exc := Minus(inc, fr.children);
        && frames[..depth] == Accounted(old(frames[..depth - 1]), e, inc, exc)
        && (forall k :: depth <= k < StackCapacity ==> frames[k] == old(frames[k]))
        && entries[..size] == old(entries[..size])[e := old(entries[e]).(stats :=
             EndStats(old(entries[e]).stats, CountSame(old(frames[..depth - 1]), e), inc, exc))]
        && r.value == Some(MakeEvent(CallEndEvent, depth, CallerAt(depth), Some(e), Some(inc), Some(exc)))
      ensures r.Ok? && r.value.Some? ==> depth < maxDepth
    {
      if finalized {
        return Ok(None);
      }
      if depth == 0 {
        return Err("Cannot rewind below 0 depth");
      }
      depth := depth - 1;
      active := depth < maxDepth;
      if !active {
        return Ok(None);
      }
      Collect(cur);
      var fr := frames[depth];
      if fr.entry.None? {
        return Ok(None);
      }
      assert depth < Min(old(depth), maxDepth);
      var ev := EndFrame(fr, cur);
      r := Ok(ev);
    }

    /** The part of call_end that charges a recorded frame with an entry. */
    method EndFrame(fr: Frame, cur: Vec) returns (ev: Option<Event>)
      requires Valid() && Sized(cur) && !finalized && active && fr == frames[depth] && fr.entry.Some?
      requires fr.entry.value < size
      modifies frames, entries
      ensures Valid()
      ensures forall k :: 0 <= k < StackCapacity ==> frames[k].entry == old(frames[k].entry)
      ensures
        var e := fr.entry.value;
        var inc := Minus(cur, fr.start);
        var exc := Minus(inc, fr.children);
        && frames[..depth] == Accounted(old(frames[..depth]), e, inc, exc)
        && (forall k :: depth <= k < StackCapacity ==> frames[k] == old(frames[k]))
        && entries[..size] == old(entries[..size])[e := old(entries[e]).(stats :=
             EndStats(old(entries[e]).stats, CountSame(old(frames[..depth]), e), inc, exc))]
        && ev == Some(MakeEvent(CallEndEvent, depth, CallerAt(depth), Some(e), Some(inc), Some(exc)))
    {
      var e := fr.entry.value;
      var inc := Minus(cur, fr.start);
      var exc := Minus(inc, fr.children);
      ghost var es := entries[..size];
      var cycleDepth := AccountAncestors(frames, depth, e, inc, exc);
      var en := entries[e];
      var st := EndStats(en.stats, cycleDepth, inc, exc);
      entries[e] := en.(stats := st);
      assert entries[..size] == es[e := en.(stats := st)];
      TableWithStats(es, e, st);
      ev := Some(MakeEvent(CallEndEvent, depth, CallerAt(depth), Some(e), Some(inc), Some(exc)));
    }

    /**
     * tracing_profiler_finalize: ends every open frame (one reading each),
     * sets finalized and emits FINALIZE. Frames at max_depth or deeper were
     * never recorded and yield nothing; every recorded frame with an entry
     * yields its CALL_END first.
     */
    method Finalize(readings: seq<Vec>) returns (events: seq<Event>)
      requires Valid() && |readings| == depth
      requires forall k :: 0 <= k < |readings| ==> Sized(readings[k])
      modifies this, frames, entries
      ensures Valid() && finalized && depth == 0
      ensures |events| == CountEntries(old(frames[..Min(depth, maxDepth)])) + 1
      ensures events[|events| - 1].typ == FinalizeEvent
      ensures forall k :: 0 <= k < |events| - 1 ==> events[k].typ == CallEndEvent
    {
      ghost var fs := frames[..Min(depth, maxDepth)];
      ghost var d0 := depth;
      active := true;
      events := [];
      var i := 0;
      while depth > 0
        invariant Inv() && depth <= d0 && i == d0 - depth
        invariant !finalized ==> active == (depth < maxDepth) || (i == 0 && active)
        invariant forall k :: 0 <= k < |fs| ==> frames[k].entry == fs[k].entry
        invariant |events| == CountEntries(fs[Min(depth, maxDepth)..])
        invariant forall k :: 0 <= k < |events| ==> events[k].typ == CallEndEvent
        decreases depth
      {
        events := UnwindCounted(readings[i], fs, events);
        i := i + 1;
      }
      assert fs[0..] == fs;
      finalized := true;
      events := events + [MakeEvent(FinalizeEvent, depth, None, None, None, None)];
    }

    /** One turn of finalize's loop: the frame is ended and its CALL_END, if any, counted. */
    method UnwindCounted(cur: Vec, ghost fs: seq<Frame>, events: seq<Event>) returns (next: seq<Event>)
      requires Inv() && Sized(cur) && !finalized && depth > 0
      requires Min(depth, maxDepth) <= |fs| <= StackCapacity
      requires forall k :: 0 <= k < |fs| ==> frames[k].entry == fs[k].entry
      requires |events| == CountEntries(fs[Min(depth, maxDepth)..])
      requires forall k :: 0 <= k < |events| ==> events[k].typ == CallEndEvent
      modifies this, frames, entries
      ensures Valid() && !finalized && depth == old(depth) - 1
      ensures forall k :: 0 <= k < |fs| ==> frames[k].entry == fs[k].entry
      ensures |next| == CountEntries(fs[Min(depth, maxDepth)..])
      ensures forall k :: 0 <= k < |next| ==> next[k].typ == CallEndEvent
    {
      ghost var d := depth;
      var ev := Unwind(cur);
      if d <= maxDepth {
        CountStep(fs, d - 1);
      }
      next := if ev.Some? then events + [ev.value] else events;
    }

    /** One call_end of finalize, with only what the unwinding needs to know. */
    method Unwind(cur: Vec) returns (ev: Option<Event>)
      requires Inv() && Sized(cur) && !finalized && depth > 0
      modifies this, frames, entries
      ensures Valid() && !finalized && depth == old(depth) - 1
      ensures forall k :: 0 <= k < StackCapacity ==> frames[k].entry == old(frames[k].entry)
      ensures ev.Some? <==> depth < maxDepth && old(frames[depth - 1]).entry.Some?
      ensures ev.Some? ==> ev.value.typ == CallEndEvent
    {
      var r := CallEnd(cur);
      ev := r.value;
    }
  }

  /** Counting the entries of fs from p on: frame p, then the rest. */
  lemma CountStep(fs: seq<Frame>, p: nat)
    requires p < |fs|
    ensures CountEntries(fs[p..]) == (if fs[p].entry.Some? then 1 else 0) + CountEntries(fs[p + 1..])
  {
    assert fs[p..][1..] == fs[p + 1..];
  }

  /**
   * The same calls that lose the outer end in the first profiler: with
   * max_depth 1, B inside A is skipped, and A's start and end are both
   * emitted.
   */
  method ShallowTraceKeepsOuterEnd(a: PhpFunction, b: PhpFunction, cur: Vec, noise: Calibration)
    returns (startA: Option<Event>, endA: Option<Event>)
    requires Sized(cur)
    ensures startA.Some? && startA.value.typ == CallStartEvent && startA.value.callee == Some(0)
    ensures endA.Some? && endA.value.typ == CallEndEvent && endA.value.callee == Some(0)
  {
    var p := new TracingProfiler(1, seq(SpxMetric.MetricCount, _ => true));
    startA := p.CallStart(a, cur, noise);
    var startB := p.CallStart(b, cur, noise);
    var endB := p.CallEnd(cur);
    var r := p.CallEnd(cur);
    endA := r.value;
  }
}
