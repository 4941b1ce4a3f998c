/**
 * The full reporter (src/spx_reporter_full.c): the event log the web UI
 * reads. Call events are buffered as (function index, start flag,
 * cumulative metric values) and flushed, at capacity or on FINALIZE,
 * through a string builder into the output stream as one line per event;
 * FINALIZE then writes the function names and fills the metadata.
 *
 * The output stream is the string of everything printed to it. The numbers
 * are written with the corrected append_double (SpxStrBuilder.FixedDouble).
 */
module SpxReporterFull {
  import opened Wrappers
  import opened Decimal
  import opened MetricValues
  import opened SpxProfilerTypes
  import opened SpxReporting
  import opened SpxStrBuilder
  import opened CStrings
  import SpxMetric
  import SpxUtils

  const BufferCapacity: nat := 16384
  const BuilderCapacity: nat := 8 * 1024
  /** The builder is emitted once fewer chars than this remain. */
  const LineReserve: nat := 128
  const FileNameSize: nat := 512

  /** buffer_entry_t. */
  datatype BufferEntry = BufferEntry(functionIdx: nat, start: bool, values: Vec)

  /** snprintf into a buffer of size chars: what fits before the NUL. */
  function SnPrintf(text: string, size: nat): (r: string)
    ensures size > 0 ==> |r| < size && r <= text
    ensures |text| < size ==> r == text
  {
    if size == 0 then [] else SpxUtils.Truncate(text, size - 1)
  }

  /** spx_reporter_full_build_file_name: "<dir>/<key>.txt.gz". */
  function BuildFileName(dataDir: string, key: string, size: nat): string
  {
    SnPrintf(dataDir + "/" + key + ".txt.gz", size)
  }

  /** spx_reporter_full_build_metadata_file_name: "<dir>/<key>.json". */
  function BuildMetadataFileName(dataDir: string, key: string, size: nat): string
  {
    SnPrintf(dataDir + "/" + key + ".json", size)
  }

  /** When they fit, the two names share "<dir>/<key>" and differ by their extension. */
  lemma FileNamesPaired(dataDir: string, key: string)
    requires |dataDir| + |key| + 8 < FileNameSize
    ensures var stem := dataDir + "/" + key;
      && BuildFileName(dataDir, key, FileNameSize) == stem + ".txt.gz"
      && BuildMetadataFileName(dataDir, key, FileNameSize) == stem + ".json"
      && SpxUtils.Truncate(BuildFileName(dataDir, key, FileNameSize), |stem|) == stem
  {
  }

  /** The entry a call event is buffered as. */
  function EntryOf(e: Event): BufferEntry
    requires WellFormed(e) && e.typ != FinalizeEvent
  {
    BufferEntry(e.functions[e.callee.value].idx, e.typ == CallStartEvent, e.cum)
  }

  // ---- The text of a flush -------------------------------------------------

  /** What append_double writes for each value, with 4 decimals. */
  function ValueTexts(values: Vec): (r: seq<string>)
    ensures |r| == |values| && forall k :: 0 <= k < |values| ==> r[k] == FixedDouble(values[k], 4)
  {
    seq(|values|, k requires 0 <= k < |values| => FixedDouble(values[k], 4))
  }

  /** " <value>" for each enabled metric from i on. */
  function ValuePieces(enabled: seq<bool>, texts: seq<string>, i: nat): seq<string>
    requires |texts| == |enabled|
    decreases |enabled| - i
  {
    if i >= |enabled| then []
    else (if enabled[i] then [" ", texts[i]] else []) + ValuePieces(enabled, texts, i + 1)
  }

  /** The appends flush_buffer makes for one entry. */
  function Pieces(en: BufferEntry, enabled: seq<bool>): seq<string>
    requires |en.values| == |enabled|
  {
    [IntToString(en.functionIdx), " ", if en.start then "1" else "0"] + ValuePieces(enabled, ValueTexts(en.values), 0) + ["\n"]
  }

  /** The line of an entry: "<idx> <1|0>", " <value>" per enabled metric, "\n". */
  function Line(en: BufferEntry, enabled: seq<bool>): string
    requires |en.values| == |enabled|
  {
    Concat(Pieces(en, enabled))
  }

  /** An append to a builder holding t: all of s when it fits, else nothing. */
  function Push(t: string, s: string): (r: string)
    ensures r == t || r == t + s
  {
    if |t| + |s| <= BuilderCapacity then t + s else t
  }

  function PushAll(t: string, ps: seq<string>): (r: string)
    ensures |t| <= BuilderCapacity ==> |r| <= BuilderCapacity
    decreases |ps|
  {
    if ps == [] then t else PushAll(Push(t, ps[0]), ps[1..])
  }

  /** Entries well sized for the enabled metrics. */
  predicate Entries(es: seq<BufferEntry>, enabled: seq<bool>)
  {
    forall k :: 0 <= k < |es| ==> |es[k].values| == |enabled|
  }

  /** The appends of each entry. */
  function AllPieces(es: seq<BufferEntry>, enabled: seq<bool>): (r: seq<seq<string>>)
    requires Entries(es, enabled)
    ensures |r| == |es| && forall k :: 0 <= k < |es| ==> r[k] == Pieces(es[k], enabled)
  {
    seq(|es|, k requires 0 <= k < |es| => Pieces(es[k], enabled))
  }

  /**
   * What flush_buffer prints for entries with the appends pss from a
   * builder holding t: each entry's appends, the builder printed and
   * emptied once fewer than LineReserve chars remain, and what is left
   * printed at the end.
   */
  function FlushText(t: string, pss: seq<seq<string>>): string
    decreases |pss|
  {
    if pss == [] then t
    else
      var t' := PushAll(t, pss[0]);
      if BuilderCapacity - |t'| < LineReserve then t' + FlushText([], pss[1..])
      else FlushText(t', pss[1..])
  }

  /** One entry of flush_buffer, taken from the middle of the list. */
  lemma {:induction false} FlushStep(t: string, pss: seq<seq<string>>, i: nat)
    requires i < |pss|
    ensures FlushText(t, pss[i..]) ==
      var t' := PushAll(t, pss[i]);
      if BuilderCapacity - |t'| < LineReserve then t' + FlushText([], pss[i + 1..]) else FlushText(t', pss[i + 1..])
  {
    assert pss[i..][0] == pss[i] && pss[i..][1..] == pss[i + 1..];
  }

  /** A single append. */
  lemma {:induction false} PushAllOne(t: string, s: string)
    ensures PushAll(t, [s]) == Push(t, s)
  {
    assert [s][1..] == [];
  }

  /** The lines of the entries, one after the other. */
  function Lines(pss: seq<seq<string>>): string
    decreases |pss|
  {
    if pss == [] then [] else Concat(pss[0]) + Lines(pss[1..])
  }

  /** Appends that fit all go in. */
  lemma {:induction false} PushAllFits(t: string, ps: seq<string>)
    requires |t| + |Concat(ps)| <= BuilderCapacity
    ensures PushAll(t, ps) == t + Concat(ps)
    decreases |ps|
  {
    if ps != [] {
      assert Concat(ps) == ps[0] + Concat(ps[1..]);
      PushAllFits(t + ps[0], ps[1..]);
    }
  }

  /** Appends one after the other: the second list goes on from where the first stopped. */
  lemma {:induction false} PushAllAppend(t: string, a: seq<string>, b: seq<string>)
    ensures PushAll(t, a + b) == PushAll(PushAll(t, a), b)
    decreases |a|
  {
    if a != [] {
      assert (a + b)[1..] == a[1..] + b;
      PushAllAppend(Push(t, a[0]), a[1..], b);
    } else {
      assert a + b == b;
    }
  }

  /** Three appends, as the head of an entry makes them. */
  lemma {:induction false} PushAllHead(t: string, head: seq<string>)
    requires |head| == 3
    ensures PushAll(t, head) == Push(Push(Push(t, head[0]), head[1]), head[2])
  {
    var t1 := Push(t, head[0]);
    var t2 := Push(t1, head[1]);
    assert head[1..][0] == head[1] && head[1..][1..] == head[2..];
    assert head[2..][0] == head[2] && head[2..][1..] == [];
    assert PushAll(t, head) == PushAll(t1, head[1..]);
    assert PushAll(t1, head[1..]) == PushAll(t2, head[2..]);
    assert PushAll(t2, head[2..]) == PushAll(Push(t2, head[2]), []);
  }

  /** One metric's appends, then the rest. */
  lemma {:induction false} ValueStep(t: string, enabled: seq<bool>, texts: seq<string>, i: nat)
    requires |texts| == |enabled| && i < |enabled|
    ensures PushAll(t, ValuePieces(enabled, texts, i)) ==
      PushAll(if enabled[i] then Push(Push(t, " "), texts[i]) else t, ValuePieces(enabled, texts, i + 1))
  {
    var one := if enabled[i] then [" ", texts[i]] else [];
    var more := ValuePieces(enabled, texts, i + 1);
    assert ValuePieces(enabled, texts, i) == one + more;
    PushAllAppend(t, one, more);
    if enabled[i] {
      assert one[1..][1..] == [];
    } else {
      assert one == [];
    }
  }

  /** Every line takes at most LineReserve chars. */
  predicate ShortLines(pss: seq<seq<string>>)
    decreases |pss|
  {
    pss == [] || (|Concat(pss[0])| <= LineReserve && ShortLines(pss[1..]))
  }

  /**
   * No line is lost or cut: as long as every line takes at most LineReserve
   * chars, flush_buffer prints the lines of the entries in buffer order.
   */
  lemma {:induction false} FlushPrintsLines(t: string, pss: seq<seq<string>>)
    requires |t| + LineReserve <= BuilderCapacity && ShortLines(pss)
    ensures FlushText(t, pss) == t + Lines(pss)
    decreases |pss|
  {
    if pss != [] {
      var l := Concat(pss[0]);
      PushAllFits(t, pss[0]);
      var t' := t + l;
      assert PushAll(t, pss[0]) == t';
      if BuilderCapacity - |t'| < LineReserve {
        assert FlushText(t, pss) == t' + FlushText([], pss[1..]);
        FlushPrintsLines([], pss[1..]);
        assert [] + Lines(pss[1..]) == Lines(pss[1..]);
      } else {
        assert FlushText(t, pss) == FlushText(t', pss[1..]);
        FlushPrintsLines(t', pss[1..]);
      }
      assert Lines(pss) == l + Lines(pss[1..]);
      AppendAssoc(t, l, Lines(pss[1..]));
    }
  }

  /** finalize's function list: "class::func" or "func", one per line. */
  function FunctionNames(fs: seq<FuncEntry>): string
  {
    if fs == [] then [] else FunctionNames(fs[..|fs| - 1]) + QualifiedName(fs[|fs| - 1].func) + "\n"
  }

  /** The metadata finalize fills in. */
  datatype Metadata = Metadata(
    wallTimeMs: int, peakMemoryUsage: nat, calledFunctionCount: nat, enabledMetrics: seq<bool>)

  class FullReporter {
    const fileName: string
    const metadataFileName: string
    const buffer: array<BufferEntry>
    var bufferSize: nat
    const builder: StrBuilder
    /** Everything printed to the output stream. */
    var output: string
    var callCount: nat
    var recordedCallCount: nat
    var metadata: Option<Metadata>

    ghost predicate Valid()
      reads this, buffer, builder, builder.buffer
    {
      && buffer.Length == BufferCapacity && bufferSize < BufferCapacity
      && builder.Valid() && builder.capacity == BuilderCapacity
      && callCount == recordedCallCount
      && forall k :: 0 <= k < bufferSize ==> Sized(buffer[k].values)
    }

    /** The buffered entries. */
    ghost function Buffered(): seq<BufferEntry>
      reads this, buffer
      requires bufferSize <= buffer.Length
    {
      buffer[..bufferSize]
    }

    /** spx_reporter_full_create, with allocations and the stream opening that succeed. */
    constructor (dataDir: string, key: string)
      ensures Valid() && fresh(buffer) && fresh(builder) && fresh(builder.buffer)
      ensures fileName == BuildFileName(dataDir, key, FileNameSize)
      ensures metadataFileName == BuildMetadataFileName(dataDir, key, FileNameSize)
      ensures Buffered() == [] && output == "[events]\n"
      ensures callCount == 0 && metadata == None
    {
      fileName := BuildFileName(dataDir, key, FileNameSize);
      metadataFileName := BuildMetadataFileName(dataDir, key, FileNameSize);
      buffer := new BufferEntry[BufferCapacity](_ => BufferEntry(0, false, []));
      builder := new StrBuilder(BuilderCapacity);
      bufferSize := 0;
      output := "[events]\n";
      callCount, recordedCallCount := 0, 0;
      metadata := None;
    }

    /**
     * full_notify: a call end is counted; a call event is buffered, and
     * LIGHT is returned while the buffer is below capacity; otherwise the
     * buffer is flushed, FINALIZE then finalizes, and HEAVY is returned.
     */
    method Notify(e: Event, zendMemoryUsage: nat) returns (cost: Cost)
      requires Valid() && WellFormed(e)
      modifies this`callCount, this`recordedCallCount, this`bufferSize, this`output, this`metadata
      modifies buffer, builder, builder.buffer
      ensures Valid()
      ensures callCount == old(callCount) + (if e.typ == CallEndEvent then 1 else 0)
      ensures var es := old(Buffered()) + (if e.typ == FinalizeEvent then [] else [EntryOf(e)]);
        if e.typ != FinalizeEvent && |es| < BufferCapacity
        then cost == Light && Buffered() == es && output == old(output)
        else
          && cost == Heavy && Buffered() == []
          && Entries(es, e.enabledMetrics)
          && output == old(output) + FlushText([], AllPieces(es, e.enabledMetrics))
            + (if e.typ == FinalizeEvent then "[functions]\n" + FunctionNames(e.functions) else [])
      ensures e.typ == FinalizeEvent ==> metadata == Some(Metadata(
        Truncated(e.cum[SpxMetric.WallTime] / 1000.0), zendMemoryUsage, |e.functions|, e.enabledMetrics))
      ensures e.typ != FinalizeEvent ==> metadata == old(metadata)
    {
      if e.typ == CallEndEvent {
        callCount := callCount + 1;
        recordedCallCount := recordedCallCount + 1;
      }
      if e.typ != FinalizeEvent {
        Store(e);
        if bufferSize < BufferCapacity {
          return Light;
        }
      } else {
        assert old(Buffered()) + [] == old(Buffered());
      }
      Drain(e, zendMemoryUsage);
      cost := Heavy;
    }

    /** The HEAVY path of full_notify: the buffer flushed, then FINALIZE finalized. */
    method Drain(e: Event, zendMemoryUsage: nat)
      requires buffer.Length == BufferCapacity && bufferSize <= BufferCapacity
      requires builder.Valid() && builder.capacity == BuilderCapacity
      requires forall k :: 0 <= k < bufferSize ==> Sized(buffer[k].values)
      requires SpxMetric.Metrics(e.enabledMetrics) && Sized(e.cum)
      modifies this`output, this`bufferSize, this`metadata, builder, builder.buffer
      ensures builder.Valid() && bufferSize == 0
      ensures Entries(old(Buffered()), e.enabledMetrics)
      ensures output == old(output) + FlushText([], AllPieces(old(Buffered()), e.enabledMetrics))
        + (if e.typ == FinalizeEvent then "[functions]\n" + FunctionNames(e.functions) else [])
      ensures e.typ == FinalizeEvent ==> metadata == Some(Metadata(
        Truncated(e.cum[SpxMetric.WallTime] / 1000.0), zendMemoryUsage, |e.functions|, e.enabledMetrics))
      ensures e.typ != FinalizeEvent ==> metadata == old(metadata)
    {
      Flush(e.enabledMetrics);
      if e.typ == FinalizeEvent {
        ghost var o := output;
        Finalize(e, zendMemoryUsage);
        AppendAssoc(o, "[functions]\n", FunctionNames(e.functions));
      } else {
        assert output + [] == output;
      }
    }

    /** The entry of a call event put in the next buffer slot. */
    method Store(e: Event)
      requires Valid() && WellFormed(e) && e.typ != FinalizeEvent
      modifies this`bufferSize, buffer
      ensures bufferSize <= BufferCapacity && Buffered() == old(Buffered()) + [EntryOf(e)]
      ensures forall k :: 0 <= k < bufferSize ==> Sized(buffer[k].values)
    {
      buffer[bufferSize] := EntryOf(e);
      bufferSize := bufferSize + 1;
      assert Buffered() == old(Buffered()) + [EntryOf(e)];
    }

    /** flush_buffer: the text of FlushText printed, and the buffer emptied. */
    method Flush(enabled: seq<bool>)
      requires buffer.Length == BufferCapacity && bufferSize <= BufferCapacity
      requires builder.Valid() && builder.capacity == BuilderCapacity
      requires SpxMetric.Metrics(enabled) && forall k :: 0 <= k < bufferSize ==> Sized(buffer[k].values)
      modifies this`output, this`bufferSize, builder, builder.buffer
      ensures builder.Valid() && bufferSize == 0
      ensures Entries(old(Buffered()), enabled)
      ensures output == old(output) + FlushText([], AllPieces(old(Buffered()), enabled))
    {
      ghost var es := Buffered();
      assert Entries(es, enabled);
      ghost var pss := AllPieces(es, enabled);
      builder.Reset();
      var i := 0;
      while i < bufferSize
        invariant 0 <= i <= bufferSize == |es| && es == buffer[..bufferSize]
        invariant builder.Valid() && builder.capacity == BuilderCapacity
        invariant old(output) + FlushText([], pss) == output + FlushText(builder.Content(), pss[i..])
      {
        ghost var c := builder.Content();
        ghost var o := output;
        FlushStep(c, pss, i);
        assert pss[i] == Pieces(buffer[i], enabled);
        AppendEntry(buffer[i], enabled);
        if builder.Remaining() < LineReserve {
          AppendAssoc(o, builder.Content(), FlushText([], pss[i + 1..]));
          output := output + builder.Content();
          builder.Reset();
        }
        i := i + 1;
      }
      if builder.size > 0 {
        output := output + builder.Content();
      }
      bufferSize := 0;
    }

    /** The appends of flush_buffer for one entry. */
    method AppendEntry(en: BufferEntry, enabled: seq<bool>)
      requires builder.Valid() && builder.capacity == BuilderCapacity && |en.values| == |enabled|
      modifies builder, builder.buffer
      ensures builder.Valid() && builder.Content() == PushAll(old(builder.Content()), Pieces(en, enabled))
    {
      ghost var t0 := builder.Content();
      ghost var head := [IntToString(en.functionIdx), " ", if en.start then "1" else "0"];
      var texts := ValueTexts(en.values);
      ghost var values := ValuePieces(enabled, texts, 0);
      var w := builder.AppendLong(en.functionIdx);
      w := builder.AppendChar(' ');
      w := builder.AppendChar(if en.start then '1' else '0');
      PushAllHead(t0, head);
      AppendValues(enabled, texts);
      ghost var t2 := builder.Content();
      w := builder.AppendStr("\n");
      assert CStr("\n") == "\n";
      PushAllOne(t2, "\n");
      PushAllAppend(t0, head, values);
      PushAllAppend(t0, head + values, ["\n"]);
      assert Pieces(en, enabled) == head + values + ["\n"];
    }

    /**
     * The appends of flush_buffer for the enabled metric values of one
     * entry: ' ' and the value's text, as append_double writes it.
     */
    method AppendValues(enabled: seq<bool>, texts: seq<string>)
      requires builder.Valid() && builder.capacity == BuilderCapacity && |texts| == |enabled|
      modifies builder, builder.buffer
      ensures builder.Valid() && builder.Content() == PushAll(old(builder.Content()), ValuePieces(enabled, texts, 0))
    {
      ghost var t0 := builder.Content();
      var i := 0;
      while i < |enabled|
        invariant i <= |enabled| && builder.Valid()
        invariant PushAll(builder.Content(), ValuePieces(enabled, texts, i)) == PushAll(t0, ValuePieces(enabled, texts, 0))
      {
        ValueStep(builder.Content(), enabled, texts, i);
        if enabled[i] {
          AppendValue(texts[i]);
        }
        i := i + 1;
      }
    }

    /** ' ' and a value's text, each all or nothing. */
    method AppendValue(text: string)
      requires builder.Valid() && builder.capacity == BuilderCapacity
      modifies builder, builder.buffer
      ensures builder.Valid() && builder.Content() == Push(Push(old(builder.Content()), " "), text)
    {
      ghost var c := builder.Content();
      var w := builder.AppendChar(' ');
      assert builder.Content() == Push(c, " ");
      ghost var c1 := builder.Content();
      w := builder.AppendAll(text);
    }

    /** finalize: the function names printed and the metadata filled in. */
    method Finalize(e: Event, zendMemoryUsage: nat)
      requires Sized(e.cum)
      modifies this`output, this`metadata
      ensures output == old(output) + "[functions]\n" + FunctionNames(e.functions)
      ensures metadata == Some(Metadata(
        Truncated(e.cum[SpxMetric.WallTime] / 1000.0), zendMemoryUsage, |e.functions|, e.enabledMetrics))
    {
      output := output + "[functions]\n";
      ghost var head := output;
      var i := 0;
      while i < |e.functions|
        invariant i <= |e.functions|
        invariant output == head + FunctionNames(e.functions[..i])
      {
        var name := QualifiedName(e.functions[i].func);
        assert e.functions[..i + 1][..i] == e.functions[..i] && e.functions[..i + 1][i] == e.functions[i];
        assert FunctionNames(e.functions[..i + 1]) == FunctionNames(e.functions[..i]) + name + "\n";
        AppendAssoc(head, FunctionNames(e.functions[..i]), name);
        AppendAssoc(head, FunctionNames(e.functions[..i]) + name, "\n");
        output := output + name + "\n";
        i := i + 1;
      }
      assert e.functions[..i] == e.functions;
      metadata := Some(Metadata(
        Truncated(e.cum[SpxMetric.WallTime] / 1000.0), zendMemoryUsage, |e.functions|, e.enabledMetrics));
    }
  }
}
