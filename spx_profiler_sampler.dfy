/**
 * The sampling profiler (src/spx_profiler_sampler.c). It keeps the PHP
 * call stack as it is now (current) and as it was at the last sample
 * (previous); each sample replays the difference on the sampled profiler as
 * call_end and call_start calls. The heartbeat thread that raises ready
 * every sampling period becomes a tick parameter of each call: whether the
 * heartbeat fired since the previous call.
 */
module SpxProfilerSampler {
  import opened Wrappers
  import opened SpxProfilerTypes

  /** A call made to the sampled profiler. */
  datatype SampledCall = Start(func: PhpFunction) | End | Finish

  /**
   * The stack of the sampled profiler after it receives the calls from the
   * stack s: call_start pushes, call_end pops, and None when a call_end
   * finds the stack empty.
   */
  function Replay(s: seq<PhpFunction>, calls: seq<SampledCall>): Option<seq<PhpFunction>>
    decreases |calls|
  {
    if calls == [] then Some(s)
    else match calls[0]
      case Start(f) => Replay(s + [f], calls[1..])
      case End => if s == [] then None else Replay(s[..|s| - 1], calls[1..])
      case Finish => Replay(s, calls[1..])
  }

  /** Replaying a + b is replaying a, then b from where a left the stack. */
  lemma {:induction false} ReplayAppend(s: seq<PhpFunction>, a: seq<SampledCall>, b: seq<SampledCall>)
    ensures Replay(s, a + b) == if Replay(s, a).Some? then Replay(Replay(s, a).value, b) else None
    decreases |a|
  {
    if a == [] {
      assert a + b == b;
    } else {
      assert (a + b)[0] == a[0] && (a + b)[1..] == a[1..] + b;
      match a[0]
      case Start(f) => ReplayAppend(s + [f], a[1..], b);
      case End => if s != [] { ReplayAppend(s[..|s| - 1], a[1..], b); }
      case Finish => ReplayAppend(s, a[1..], b);
    }
  }

  /** The calls replay to s, a stack agreeing with prev on every frame's hash code. */
  ghost predicate Mirrored(calls: seq<SampledCall>, s: seq<PhpFunction>, prev: seq<PhpFunction>)
  {
    Replay([], calls) == Some(s) && SameHashes(s, prev)
  }

  /** Two stacks of the same depth whose frames agree on their hash codes. */
  ghost predicate SameHashes(a: seq<PhpFunction>, b: seq<PhpFunction>)
  {
    |a| == |b| && forall i :: 0 <= i < |a| ==> a[i].hashCode == b[i].hashCode
  }

  /** n calls to call_end. */
  function Ends(n: nat): (r: seq<SampledCall>)
    ensures |r| == n
  {
    if n == 0 then [] else Ends(n - 1) + [End]
  }

  /** A call to call_start for each function, in order. */
  function Starts(fs: seq<PhpFunction>): (r: seq<SampledCall>)
    ensures |r| == |fs|
  {
    if fs == [] then [] else Starts(fs[..|fs| - 1]) + [Start(fs[|fs| - 1])]
  }

  lemma {:induction false} ReplayEnds(s: seq<PhpFunction>, n: nat)
    requires n <= |s|
    ensures Replay(s, Ends(n)) == Some(s[..|s| - n])
  {
    if n > 0 {
      ReplayEnds(s, n - 1);
      ReplayAppend(s, Ends(n - 1), [End]);
      var t := s[..|s| - (n - 1)];
      assert t[..|t| - 1] == s[..|s| - n];
      assert Replay(t, [End]) == Replay(t[..|t| - 1], []);
    } else {
      assert s[..|s|] == s;
    }
  }

  lemma {:induction false} ReplayStarts(s: seq<PhpFunction>, fs: seq<PhpFunction>)
    ensures Replay(s, Starts(fs)) == Some(s + fs)
  {
    if fs != [] {
      var init, f := fs[..|fs| - 1], fs[|fs| - 1];
      ReplayStarts(s, init);
      ReplayAppend(s, Starts(init), [Start(f)]);
      assert Replay(s + init, [Start(f)]) == Replay(s + init + [f], []);
      assert s + init + [f] == s + fs;
    } else {
      assert s + fs == s;
    }
  }

  /** The length of the longest common prefix on which the hash codes agree. */
  function CommonTop(p: seq<PhpFunction>, c: seq<PhpFunction>): (k: nat)
    ensures k <= |p| && k <= |c|
    ensures forall j :: 0 <= j < k ==> p[j].hashCode == c[j].hashCode
    ensures k == |p| || k == |c| || p[k].hashCode != c[k].hashCode
  {
    if p == [] || c == [] || p[0].hashCode != c[0].hashCode then 0
    else
      var k := CommonTop(p[1..], c[1..]);
      assert forall j :: 1 <= j <= k ==> p[j] == p[1..][j - 1] && c[j] == c[1..][j - 1];
      1 + k
  }

  /**
   * The calls a sample issues: the previous frames above the common prefix
   * are ended, top first, the current frames above it are started, bottom
   * up, and on a call_end the ending frame is ended as well.
   */
  function SampleCalls(p: seq<PhpFunction>, c: seq<PhpFunction>, callEnd: bool): seq<SampledCall>
  {
    Difference(p, c, CommonTop(p, c)) + Tail(callEnd)
  }

  /** The ends of p's frames above k and the starts of c's. */
  function Difference(p: seq<PhpFunction>, c: seq<PhpFunction>, k: nat): seq<SampledCall>
    requires k <= |p| && k <= |c|
  {
    Ends(|p| - k) + Starts(c[k..])
  }

  /** The extra call_end replayed for the frame a call_end leaves. */
  function Tail(callEnd: bool): seq<SampledCall>
  {
    if callEnd then [End] else []
  }

  /**
   * The stack the sampled profiler holds after a sample from s, its mirror
   * of p: its frames below the common prefix are kept, those above are c's,
   * and the top one is gone after a call_end.
   */
  function Mirror(s: seq<PhpFunction>, c: seq<PhpFunction>, k: nat, callEnd: bool): seq<PhpFunction>
    requires k <= |s| && k <= |c|
  {
    var q := s[..k] + c[k..];
    if callEnd && q != [] then q[..|q| - 1] else q
  }

  /** Ending the frames above the common prefix and starting c's leaves s's prefix and c's frames above it. */
  lemma ReplayDifference(s: seq<PhpFunction>, p: seq<PhpFunction>, c: seq<PhpFunction>, k: nat)
    requires |s| == |p| && k <= |p| && k <= |c|
    ensures Replay(s, Difference(p, c, k)) == Some(s[..k] + c[k..])
  {
    ReplayEnds(s, |p| - k);
    assert s[..|s| - (|p| - k)] == s[..k];
    ReplayStarts(s[..k], c[k..]);
    ReplayAppend(s, Ends(|p| - k), Starts(c[k..]));
  }

  /** A sample moves the sampled profiler's stack from s to its mirror of c. */
  lemma SampleReplay(s: seq<PhpFunction>, p: seq<PhpFunction>, c: seq<PhpFunction>, callEnd: bool)
    requires |s| == |p| && (callEnd ==> |c| > 0)
    ensures Replay(s, SampleCalls(p, c, callEnd)) == Some(Mirror(s, c, CommonTop(p, c), callEnd))
  {
    var k := CommonTop(p, c);
    var body := Difference(p, c, k);
    ReplayDifference(s, p, c, k);
    var q := s[..k] + c[k..];
    ReplayAppend(s, body, Tail(callEnd));
    ReplayTail(q, callEnd);
  }

  lemma ReplayTail(q: seq<PhpFunction>, callEnd: bool)
    requires callEnd ==> q != []
    ensures Replay(q, Tail(callEnd)) == Some(if callEnd then q[..|q| - 1] else q)
  {
    if callEnd {
      assert Replay(q, [End]) == Replay(q[..|q| - 1], []);
    }
  }

  /**
   * The mirror of c made from a mirror s of p agrees with c on every frame's
   * hash code (less its top after a call_end).
   */
  lemma MirrorHashes(s: seq<PhpFunction>, p: seq<PhpFunction>, c: seq<PhpFunction>, callEnd: bool)
    requires SameHashes(s, p) && (callEnd ==> |c| > 0)
    ensures SameHashes(Mirror(s, c, CommonTop(p, c), callEnd), if callEnd then c[..|c| - 1] else c)
  {
    var k := CommonTop(p, c);
    var q := s[..k] + c[k..];
    assert forall i :: 0 <= i < |q| ==> q[i].hashCode == c[i].hashCode by {
      forall i | 0 <= i < |q|
        ensures q[i].hashCode == c[i].hashCode
      {
        if i < k {
          assert q[i] == s[i] && s[i].hashCode == p[i].hashCode;
        } else {
          assert q[i] == c[i];
        }
      }
    }
  }

  /** A sample between identical stacks ends and starts nothing but the ending frame. */
  lemma SameStackSample(s: seq<PhpFunction>, callEnd: bool)
    ensures SampleCalls(s, s, callEnd) == if callEnd then [End] else []
  {
    assert CommonTop(s, s) == |s|;
  }

  class SamplingProfiler {
    const samplingPeriodUs: nat
    var ready: bool
    const previous: array<PhpFunction>
    var previousSize: nat
    const current: array<PhpFunction>
    var currentSize: nat
    /** Every call this profiler made to the sampled profiler, in order. */
    var calls: seq<SampledCall>
    /** The sampled profiler's stack after those calls. */
    ghost var sampled: seq<PhpFunction>

    ghost predicate Valid()
      reads this, previous
    {
      && previous.Length == StackCapacity && current.Length == StackCapacity && previous != current
      && previousSize <= StackCapacity && currentSize <= StackCapacity
      && Mirrored(calls, sampled, previous[..previousSize])
    }

    function Previous(): seq<PhpFunction>
      reads this, previous
      requires previousSize <= previous.Length
    {
      previous[..previousSize]
    }

    function Current(): seq<PhpFunction>
      reads this, current
      requires currentSize <= current.Length
    {
      current[..currentSize]
    }

    constructor (samplingPeriodUs0: nat)
      requires samplingPeriodUs0 >= 1
      ensures Valid() && fresh(previous) && fresh(current)
      ensures samplingPeriodUs == samplingPeriodUs0 && ready && previousSize == 0 && currentSize == 0
      ensures calls == []
    {
      samplingPeriodUs := samplingPeriodUs0;
      ready := true;
      previous := new PhpFunction[StackCapacity](_ => PhpFunction(0, "", 0, "", "", ""));
      current := new PhpFunction[StackCapacity](_ => PhpFunction(0, "", 0, "", "", ""));
      previousSize := 0;
      currentSize := 0;
      calls := [];
      sampled := [];
    }

    /**
     * sampling_profiler_call_start: fatal when the current stack is full;
     * otherwise pushes the function and samples.
     */
    method CallStart(f: PhpFunction, tick: bool) returns (r: Result<()>)
      requires Valid()
      modifies this, previous, current
      ensures Valid()
      ensures r.Err? <==> old(currentSize) == StackCapacity
      ensures r.Err? ==> unchanged(this) && unchanged(previous) && unchanged(current)
      ensures r.Ok? ==> Current() == old(Current()) + [f] && Sampled(old(ready) || tick, old(calls), old(Previous()), Current(), false)
    {
      if currentSize == StackCapacity {
        return Err("STACK_CAPACITY exceeded");
      }
      current[currentSize] := f;
      currentSize := currentSize + 1;
      assert current[..currentSize] == old(Current()) + [f];
      ready := ready || tick;
      HandleSample(false);
      r := Ok(());
    }

    /** sampling_profiler_call_end: samples (replaying this end too), then pops. */
    method CallEnd(tick: bool)
      requires Valid() && currentSize > 0
      modifies this, previous
      ensures Valid()
      ensures Current() == old(Current()[..currentSize - 1])
      ensures Sampled(old(ready) || tick, old(calls), old(Previous()), old(Current()), true)
    {
      ready := ready || tick;
      HandleSample(true);
      currentSize := currentSize - 1;
    }

    /**
     * The effect of a sample taken while ready was r, from calls0 and the
     * previous stack p0: without ready nothing happened; with it, ready is
     * cleared, the sample calls were issued, and previous is the current
     * stack, less its top after a call_end.
     */
    ghost predicate Sampled(r: bool, calls0: seq<SampledCall>, p0: seq<PhpFunction>, c: seq<PhpFunction>, callEnd: bool)
      reads this, previous
      requires previousSize <= previous.Length
    {
      if !r then !ready && calls == calls0 && Previous() == p0
      else
        && !ready
        && (!callEnd || |c| > 0)
        && calls == calls0 + SampleCalls(p0, c, callEnd)
        && Previous() == if callEnd then c[..|c| - 1] else c
    }

    /** sampling_profiler_handle_sample. */
    method HandleSample(callEnd: bool)
      requires Valid() && (callEnd ==> currentSize > 0)
      modifies this`ready, this`previousSize, this`calls, this`sampled, previous
      ensures Valid()
      ensures Sampled(old(ready), old(calls), old(Previous()), Current(), callEnd)
      ensures !old(ready) ==> unchanged(previous)
    {
      if !ready {
        return;
      }
      ready := false;
      Resample(callEnd);
    }

    /** The body of a sample: replays the stack difference, then copies current over previous. */
    method Resample(callEnd: bool)
      requires Valid() && (callEnd ==> currentSize > 0)
      modifies this`previousSize, this`calls, this`sampled, previous
      ensures Valid()
      ensures calls == old(calls) + SampleCalls(old(Previous()), Current(), callEnd)
      ensures Previous() == if callEnd then Current()[..currentSize - 1] else Current()
    {
      ghost var p0 := Previous();
      ghost var c := Current();
      ghost var calls0 := calls;
      var commonTop := IssueDifference();
      ghost var afterDifference := calls;
      CopyCurrent();
      assert previous[..previousSize] == c;
      if callEnd {
        calls := calls + [End];
        previousSize := previousSize - 1;
        assert previous[..previousSize] == c[..|c| - 1];
      }
      assert calls == afterDifference + Tail(callEnd);
      AppendAssoc(calls0, Difference(p0, c, commonTop), Tail(callEnd));
      SampleKeepsMirror(calls0, sampled, p0, c, callEnd, calls);
      sampled := Mirror(sampled, c, commonTop, callEnd);
    }

    /** The call_end and call_start calls that take the sampled profiler from previous to current. */
    method IssueDifference() returns (k: nat)
      requires previousSize <= previous.Length && currentSize <= current.Length
      modifies this`calls
      ensures k == CommonTop(Previous(), Current())
      ensures calls == old(calls) + Difference(Previous(), Current(), k)
    {
      k := CommonTopScan();
      ghost var calls0 := calls;
      EndAbove(k);
      StartAbove(k);
      AppendAssoc(calls0, Ends(previousSize - k), Starts(Current()[k..]));
    }

    /** The scan for the first frame whose hash code differs between the two stacks. */
    method CommonTopScan() returns (k: nat)
      requires previousSize <= previous.Length && currentSize <= current.Length
      ensures k == CommonTop(Previous(), Current())
    {
      k := 0;
      while k < previousSize && k < currentSize && previous[k].hashCode == current[k].hashCode
        invariant 0 <= k <= previousSize && k <= currentSize
        invariant forall j :: 0 <= j < k ==> previous[j].hashCode == current[j].hashCode
      {
        k := k + 1;
      }
      CommonTopUnique(Previous(), Current(), k);
    }

    /** Ends the previous frames above the common prefix, top first. */
    method EndAbove(k: nat)
      requires k <= previousSize
      modifies this`calls
      ensures calls == old(calls) + Ends(previousSize - k)
    {
      var i := previousSize;
      while i > k
        invariant k <= i <= previousSize
        invariant calls == old(calls) + Ends(previousSize - i)
      {
        calls := calls + [End];
        i := i - 1;
      }
    }

    /** Starts the current frames above the common prefix, bottom up. */
    method StartAbove(k: nat)
      requires k <= currentSize <= current.Length
      modifies this`calls
      ensures calls == old(calls) + Starts(Current()[k..])
    {
      var i := k;
      while i < currentSize
        invariant k <= i <= currentSize
        invariant calls == old(calls) + Starts(current[k..i])
      {
        assert current[k..i + 1] == current[k..i] + [current[i]];
        calls := calls + [Start(current[i])];
        i := i + 1;
      }
      assert current[k..currentSize] == Current()[k..];
    }

    /** Copies the current stack over the previous one. */
    method CopyCurrent()
      requires previous.Length == current.Length && previous != current && currentSize <= current.Length
      modifies previous, this`previousSize
      ensures previousSize == currentSize && Previous() == Current()
    {
      var i := 0;
      while i < currentSize
        invariant 0 <= i <= currentSize
        invariant previous[..i] == current[..i]
      {
        previous[i] := current[i];
        i := i + 1;
      }
      previousSize := currentSize;
    }

    /** sampling_profiler_finalize: delegated to the sampled profiler. */
    method Finalize()
      requires Valid()
      modifies this`calls
      ensures Valid() && calls == old(calls) + [Finish]
    {
      ReplayAppend([], calls, [Finish]);
      calls := calls + [Finish];
    }
  }

  /** After a sample the whole history replays to a mirror of the new previous stack. */
  lemma SampleKeepsMirror(calls0: seq<SampledCall>, s: seq<PhpFunction>, p: seq<PhpFunction>, c: seq<PhpFunction>,
                          callEnd: bool, calls: seq<SampledCall>)
    requires Mirrored(calls0, s, p) && (callEnd ==> |c| > 0)
    requires calls == calls0 + SampleCalls(p, c, callEnd)
    ensures Mirrored(calls, Mirror(s, c, CommonTop(p, c), callEnd), if callEnd then c[..|c| - 1] else c)
  {
    SampleReplay(s, p, c, callEnd);
    MirrorHashes(s, p, c, callEnd);
    ReplayAppend([], calls0, SampleCalls(p, c, callEnd));
  }

  lemma AppendAssoc(a: seq<SampledCall>, b: seq<SampledCall>, c: seq<SampledCall>)
    ensures a + (b + c) == a + b + c
  {
  }

  /** The common prefix found by the scan is CommonTop. */
  lemma CommonTopUnique(p: seq<PhpFunction>, c: seq<PhpFunction>, k: nat)
    requires k <= |p| && k <= |c|
    requires forall j :: 0 <= j < k ==> p[j].hashCode == c[j].hashCode
    requires k == |p| || k == |c| || p[k].hashCode != c[k].hashCode
    ensures k == CommonTop(p, c)
  {
  }

  /** spx_profiler_sampler_create: fatal for a sampling period below 1 microsecond. */
  method Create(samplingPeriodUs: nat) returns (r: Result<SamplingProfiler>)
    ensures r.Err? <==> samplingPeriodUs < 1
    ensures r.Ok? ==> fresh(r.value) && r.value.Valid() && r.value.calls == []
  {
    if samplingPeriodUs < 1 {
      return Err("sampling_period_us must be greater than zero");
    }
    var p := new SamplingProfiler(samplingPeriodUs);
    r := Ok(p);
  }
}
