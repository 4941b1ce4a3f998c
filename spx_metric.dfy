/**
 * The metric table and the metric collector of the extension
 * (src/spx_metric.c). A collector reads raw values from the clocks, the
 * Zend engine and the I/O counters; here one such reading is a RawSources
 * value given by the caller.
 */
module SpxMetric {
  import opened Wrappers
  import opened MetricValues

  // The metrics in the order of the table in src/spx_metric.c.
  const WallTime: nat := 0
  const CpuTime: nat := 1
  const IdleTime: nat := 2
  const ZeMemory: nat := 3
  const ZeRootBuffer: nat := 4
  const ZeObjectCount: nat := 5
  const ZeErrorCount: nat := 6
  const IoBytes: nat := 7
  const IoRBytes: nat := 8
  const IoWBytes: nat := 9
  const MetricCount: nat := 10

  /** spx_fmt_value_type_t: how a metric's values are printed. */
  datatype ValueType = TimeValue | MemoryValue | QuantityValue

  datatype MetricInfo = MetricInfo(shortName: string, name: string, typ: ValueType)

  const MetricsInfo: seq<MetricInfo> := [
    MetricInfo("wt", "Wall Time", TimeValue),
    MetricInfo("ct", "CPU Time", TimeValue),
    MetricInfo("it", "Idle Time", TimeValue),
    MetricInfo("zm", "ZE memory", MemoryValue),
    MetricInfo("zr", "ZE root buffer", QuantityValue),
    MetricInfo("zo", "ZE object count", QuantityValue),
    MetricInfo("ze", "ZE error count", QuantityValue),
    MetricInfo("io", "I/O Bytes", MemoryValue),
    MetricInfo("ior", "I/O Read Bytes", MemoryValue),
    MetricInfo("iow", "I/O Written Bytes", MemoryValue)
  ]

  /** One enabled flag per metric. */
  predicate Metrics(enabled: seq<bool>)
  {
    |enabled| == MetricCount
  }

  /** The first metric from position i on whose short name is name. */
  function ShortNameFrom(name: string, i: nat): (r: Option<nat>)
    requires i <= MetricCount
    ensures r.Some? ==> i <= r.value < MetricCount
    decreases MetricCount - i
  {
    if i == MetricCount then None
    else if MetricsInfo[i].shortName == name then Some(i)
    else ShortNameFrom(name, i + 1)
  }

  /** ShortNameFrom finds the first match, and finds nothing only when there is none. */
  lemma {:induction false} ShortNameFromFirst(name: string, i: nat)
    requires i <= MetricCount
    ensures var r := ShortNameFrom(name, i);
      && (r.Some? ==>
            && i <= r.value < MetricCount && MetricsInfo[r.value].shortName == name
            && forall j :: i <= j < r.value ==> MetricsInfo[j].shortName != name)
      && (r.None? <==> forall j :: i <= j < MetricCount ==> MetricsInfo[j].shortName != name)
    decreases MetricCount - i
  {
    if i < MetricCount && MetricsInfo[i].shortName != name {
      ShortNameFromFirst(name, i + 1);
    }
  }

  /** spx_metric_get_by_short_name: the loop stops at the first equal short name; None is SPX_METRIC_NONE. */
  method GetByShortName(name: string) returns (r: Option<nat>)
    ensures r == ShortNameFrom(name, 0)
    ensures r.Some? ==> r.value < MetricCount && MetricsInfo[r.value].shortName == name
    ensures r.None? <==> forall j :: 0 <= j < MetricCount ==> MetricsInfo[j].shortName != name
  {
    ShortNameFromFirst(name, 0);
    var i := 0;
    while i < MetricCount
      invariant 0 <= i <= MetricCount
      invariant ShortNameFrom(name, i) == ShortNameFrom(name, 0)
    {
      if MetricsInfo[i].shortName == name {
        return Some(i);
      }
      i := i + 1;
    }
    return None;
  }

  /** The short names are pairwise distinct, so the first match is the only one. */
  lemma ShortNamesDistinct(i: nat, j: nat)
    requires i < MetricCount && j < MetricCount && i != j
    ensures MetricsInfo[i].shortName != MetricsInfo[j].shortName
  {
  }

  /** A short name resolves to its own metric. */
  lemma ShortNameResolves(i: nat)
    requires i < MetricCount
    ensures ShortNameFrom(MetricsInfo[i].shortName, 0) == Some(i)
  {
    ShortNameFromFirst(MetricsInfo[i].shortName, 0);
    var r := ShortNameFrom(MetricsInfo[i].shortName, 0);
    if r != Some(i) {
      if r.Some? {
        ShortNamesDistinct(i, r.value);
      }
      assert false;
    }
  }

  /** Short names are two or three lower-case letters. */
  lemma ShortNameLetters(i: nat)
    requires i < MetricCount
    ensures var s := MetricsInfo[i].shortName;
      2 <= |s| <= 3 && forall k :: 0 <= k < |s| ==> 'a' <= s[k] <= 'z'
  {
  }

  /** Metric names are printable ASCII: letters, spaces and a slash. */
  lemma NamePrintable(i: nat)
    requires i < MetricCount
    ensures var s := MetricsInfo[i].name;
      forall k :: 0 <= k < |s| ==> ' ' <= s[k] <= '~'
  {
  }

  /** One reading of the sources collect_raw_values queries. */
  datatype RawSources = RawSources(
    wallTime: real, cpuTime: real,
    zeMemory: real, zeRootBuffer: real, zeObjectCount: real, zeErrorCount: real,
    ioIn: nat, ioOut: nat)

  /** The clocks are read when a time metric is enabled. */
  predicate TimeGroup(enabled: seq<bool>)
    requires Metrics(enabled)
  {
    enabled[WallTime] || enabled[CpuTime] || enabled[IdleTime]
  }

  /** The CPU clock is read when CPU or idle time is enabled. */
  predicate CpuGroup(enabled: seq<bool>)
    requires Metrics(enabled)
  {
    enabled[CpuTime] || enabled[IdleTime]
  }

  /** The I/O counters are read when an I/O metric is enabled. */
  predicate IoGroup(enabled: seq<bool>)
    requires Metrics(enabled)
  {
    enabled[IoBytes] || enabled[IoRBytes] || enabled[IoWBytes]
  }

  /** What collect_raw_values leaves in metric i, stated metric by metric. */
  function RawValue(enabled: seq<bool>, src: RawSources, i: nat): real
    requires Metrics(enabled) && i < MetricCount
  {
    if i == WallTime then (if TimeGroup(enabled) then src.wallTime else 0.0)
    else if i == CpuTime then (if CpuGroup(enabled) then src.cpuTime else 0.0)
    else if i == IdleTime then (if CpuGroup(enabled) then src.wallTime - src.cpuTime else 0.0)
    else if i == ZeMemory then (if enabled[i] then src.zeMemory else 0.0)
    else if i == ZeRootBuffer then (if enabled[i] then src.zeRootBuffer else 0.0)
    else if i == ZeObjectCount then (if enabled[i] then src.zeObjectCount else 0.0)
    else if i == ZeErrorCount then (if enabled[i] then src.zeErrorCount else 0.0)
    else if i == IoBytes then (if IoGroup(enabled) then (src.ioIn + src.ioOut) as real else 0.0)
    else if i == IoRBytes then (if IoGroup(enabled) then src.ioIn as real else 0.0)
    else (if IoGroup(enabled) then src.ioOut as real else 0.0)
  }

  function RawValues(enabled: seq<bool>, src: RawSources): (v: Vec)
    requires Metrics(enabled)
    ensures |v| == MetricCount
  {
    seq(MetricCount, i requires 0 <= i < MetricCount => RawValue(enabled, src, i))
  }

  /**
   * collect_raw_values: zeroes every disabled metric while raising the group
   * flags (CPU and idle time fall through to wall time), then fills each group.
   */
  method CollectRawValues(enabled: seq<bool>, src: RawSources, values: array<real>)
    requires Metrics(enabled) && values.Length == MetricCount
    modifies values
    ensures values[..] == RawValues(enabled, src)
  {
    var time, cpuTime, ioStats := false, false, false;
    for i := 0 to MetricCount
      invariant time == GroupSoFar(enabled, i, {WallTime, CpuTime, IdleTime})
      invariant cpuTime == GroupSoFar(enabled, i, {CpuTime, IdleTime})
      invariant ioStats == GroupSoFar(enabled, i, {IoBytes, IoRBytes, IoWBytes})
      invariant forall j :: 0 <= j < i && !enabled[j] ==> values[j] == 0.0
    {
      if !enabled[i] {
        values[i] := 0.0;
        continue;
      }
      if i == CpuTime || i == IdleTime {
        cpuTime := true;
      }
      if i == CpuTime || i == IdleTime || i == WallTime {
        time := true;
      }
      if i == IoBytes || i == IoRBytes || i == IoWBytes {
        ioStats := true;
      }
    }
    FillGroups(enabled, src, values, time, cpuTime, ioStats);
  }

  /** The second half of collect_raw_values: each group whose flag is raised is read. */
  method FillGroups(enabled: seq<bool>, src: RawSources, values: array<real>, time: bool, cpuTime: bool, ioStats: bool)
    requires Metrics(enabled) && values.Length == MetricCount
    requires forall j :: 0 <= j < MetricCount && !enabled[j] ==> values[j] == 0.0
    requires time == TimeGroup(enabled) && cpuTime == CpuGroup(enabled) && ioStats == IoGroup(enabled)
    modifies values
    ensures values[..] == RawValues(enabled, src)
  {
    if time {
      values[WallTime] := src.wallTime;
      if cpuTime {
        values[CpuTime] := src.cpuTime;
        values[IdleTime] := values[WallTime] - values[CpuTime];
      }
    }
    FillZend(enabled, src, values);
    if ioStats {
      values[IoRBytes] := src.ioIn as real;
      values[IoWBytes] := src.ioOut as real;
      values[IoBytes] := (src.ioIn + src.ioOut) as real;
    }
    ghost var v := values[..];
    assert forall j :: 0 <= j < MetricCount ==> v[j] == RawValue(enabled, src, j);
  }

  /** The Zend engine metrics are read one by one, each when enabled. */
  method FillZend(enabled: seq<bool>, src: RawSources, values: array<real>)
    requires Metrics(enabled) && values.Length == MetricCount
    modifies values
    ensures forall j :: 0 <= j < MetricCount && (j < ZeMemory || j > ZeErrorCount) ==> values[j] == old(values[j])
    ensures values[ZeMemory] == if enabled[ZeMemory] then src.zeMemory else old(values[ZeMemory])
    ensures values[ZeRootBuffer] == if enabled[ZeRootBuffer] then src.zeRootBuffer else old(values[ZeRootBuffer])
    ensures values[ZeObjectCount] == if enabled[ZeObjectCount] then src.zeObjectCount else old(values[ZeObjectCount])
    ensures values[ZeErrorCount] == if enabled[ZeErrorCount] then src.zeErrorCount else old(values[ZeErrorCount])
  {
    if enabled[ZeMemory] {
      values[ZeMemory] := src.zeMemory;
    }
    if enabled[ZeRootBuffer] {
      values[ZeRootBuffer] := src.zeRootBuffer;
    }
    if enabled[ZeObjectCount] {
      values[ZeObjectCount] := src.zeObjectCount;
    }
    if enabled[ZeErrorCount] {
      values[ZeErrorCount] := src.zeErrorCount;
    }
  }

  /** Some metric of group below position i is enabled. */
  predicate GroupSoFar(enabled: seq<bool>, i: nat, group: set<nat>)
    requires Metrics(enabled) && i <= MetricCount
  {
    exists j :: j in group && j < i && enabled[j]
  }

  /** A disabled metric reads 0 unless an enabled metric of its group makes it read. */
  lemma DisabledReadsZero(enabled: seq<bool>, src: RawSources, i: nat)
    requires Metrics(enabled) && i < MetricCount && !enabled[i]
    requires i == WallTime ==> !TimeGroup(enabled)
    requires i in {CpuTime, IdleTime} ==> !CpuGroup(enabled)
    requires i in {IoBytes, IoRBytes, IoWBytes} ==> !IoGroup(enabled)
    ensures RawValues(enabled, src)[i] == 0.0
  {
  }

  /** Idle time is wall minus CPU time and I/O bytes are read plus written. */
  lemma DerivedMetrics(enabled: seq<bool>, src: RawSources)
    requires Metrics(enabled)
    ensures var v := RawValues(enabled, src);
      && (CpuGroup(enabled) ==> v[IdleTime] == v[WallTime] - v[CpuTime])
      && (IoGroup(enabled) ==> v[IoBytes] == v[IoRBytes] + v[IoWBytes])
  {
  }

  /**
   * spx_metric_collector_t: last holds the latest raw reading, ref the origin
   * the collected values are measured from.
   */
  class MetricCollector {
    const enabled: seq<bool>
    const refValues: array<real>
    const lastValues: array<real>

    ghost predicate Valid()
      reads this
    {
      Metrics(enabled) && refValues.Length == MetricCount && lastValues.Length == MetricCount
      && refValues != lastValues
    }

    /** spx_metric_collector_create: ref and last both start at the first reading. */
    constructor (enabled0: seq<bool>, src: RawSources)
      requires Metrics(enabled0)
      ensures Valid() && enabled == enabled0 && fresh(refValues) && fresh(lastValues)
      ensures lastValues[..] == RawValues(enabled0, src) && refValues[..] == lastValues[..]
    {
      enabled := enabled0;
      var last := new real[MetricCount];
      var ref := new real[MetricCount];
      CollectRawValues(enabled0, src, last);
      for i := 0 to MetricCount
        invariant last[..] == RawValues(enabled0, src)
        invariant forall j :: 0 <= j < i ==> ref[j] == last[j]
      {
        ref[i] := last[i];
      }
      assert ref[..] == last[..];
      refValues := ref;
      lastValues := last;
    }

    /** spx_metric_collector_collect: last := raw, and the result is raw - ref. */
    method Collect(src: RawSources, values: array<real>)
      requires Valid() && values.Length == MetricCount && values != refValues && values != lastValues
      modifies lastValues, values
      ensures lastValues[..] == RawValues(enabled, src)
      ensures values[..] == Minus(lastValues[..], refValues[..])
    {
      CollectRawValues(enabled, src, lastValues);
      for i := 0 to MetricCount
        invariant lastValues[..] == RawValues(enabled, src)
        invariant forall j :: 0 <= j < i ==> values[j] == lastValues[j] - refValues[j]
      {
        values[i] := lastValues[i] - refValues[i];
      }
    }

    /** spx_metric_collector_noise_barrier: ref moves by what the raw values gained since last. */
    method NoiseBarrier(src: RawSources)
      requires Valid()
      modifies refValues
      ensures refValues[..] == Plus(old(refValues[..]), Minus(RawValues(enabled, src), lastValues[..]))
    {
      var current := new real[MetricCount];
      CollectRawValues(enabled, src, current);
      for i := 0 to MetricCount
        invariant current[..] == RawValues(enabled, src)
        invariant forall j :: i <= j < MetricCount ==> refValues[j] == old(refValues[j])
        invariant forall j :: 0 <= j < i ==> refValues[j] == old(refValues[j]) + (current[j] - lastValues[j])
      {
        refValues[i] := refValues[i] + (current[i] - lastValues[i]);
      }
      assert current[..] == RawValues(enabled, src);
      assert forall j :: 0 <= j < MetricCount ==>
        refValues[..][j] == Plus(old(refValues[..]), Minus(current[..], lastValues[..]))[j];
    }
  }

  /** A collect at the reading the collector was created with yields zeros. */
  lemma CollectAtCreation(enabled: seq<bool>, src: RawSources)
    requires Metrics(enabled)
    ensures Minus(RawValues(enabled, src), RawValues(enabled, src)) == Fill(MetricCount, 0.0)
  {
  }

  /**
   * After a noise barrier at reading cur, a collect at reading later yields
   * the value of the collect before the barrier plus only what was gained
   * since the barrier: the interval from last to cur is hidden.
   */
  lemma NoiseBarrierHidesInterval(ref: Vec, last: Vec, cur: Vec, later: Vec)
    requires |ref| == |last| == |cur| == |later|
    ensures Minus(later, Plus(ref, Minus(cur, last))) == Plus(Minus(last, ref), Minus(later, cur))
  {
  }
}
