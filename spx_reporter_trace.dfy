/**
 * The trace reporter (src/spx_reporter_trace.c): call events are buffered
 * and printed as one text row each, under a two-line header, with the
 * cumulative, inclusive and exclusive value of every enabled metric, the
 * depth, and the function name indented by the depth behind "+" for a call
 * start or "-" for a call end.
 *
 * spx_fmt's row holds 16 cells and adding one more is fatal, while a trace
 * row has three cells per enabled metric and two more: the rows below are
 * printed uncut, the way the layout is evidently meant, and the lemmas at
 * the end say when the row as written dies instead.
 */
module SpxReporterTrace {
  import opened Wrappers
  import opened CStrings
  import opened MetricValues
  import opened SpxProfilerTypes
  import opened SpxReporting
  import opened SpxFmt
  import SpxMetric
  import SpxUtils

  const BufferCapacity: nat := 16384
  const DefaultFileName: string := "spx_trace.txt.gz"
  /** The size of print_row's func_name buffer. */
  const FuncNameSize: nat := 256

  /**
   * buffer_entry_t: the kind of call event, the callee, the depth, and the
   * cumulative costs; inclusive and exclusive costs only for a call end,
   * the NULL print_row is given otherwise.
   */
  datatype TraceEntry = TraceEntry(
    start: bool, callee: PhpFunction, depth: nat, cum: Vec, inc: Option<Vec>, exc: Option<Vec>)

  predicate EntrySized(en: TraceEntry)
  {
    Sized(en.cum) && (en.inc.Some? ==> Sized(en.inc.value)) && (en.exc.Some? ==> Sized(en.exc.value))
  }

  predicate AllSized(es: seq<TraceEntry>)
  {
    forall k :: 0 <= k < |es| ==> EntrySized(es[k])
  }

  /** The entry a call event is buffered as. */
  function EntryOf(e: Event): (en: TraceEntry)
    requires WellFormed(e) && e.typ != FinalizeEvent
    ensures EntrySized(en)
  {
    var end := e.typ == CallEndEvent;
    TraceEntry(e.typ == CallStartEvent, e.functions[e.callee.value].func, e.depth, e.cum,
      if end then e.inc else None, if end then e.exc else None)
  }

  // ---------------------------------------------------------------------
  // Cells

  /** Metric i's three cells of a row; a missing cost is shown as 0. */
  function MetricCells(en: TraceEntry, i: nat): seq<Cell>
    requires EntrySized(en) && i < SpxMetric.MetricCount
  {
    var t := MetricType(i);
    [NumberCell(t, en.cum[i]),
     NumberCell(t, if en.inc.Some? then en.inc.value[i] else 0.0),
     NumberCell(t, if en.exc.Some? then en.exc.value[i] else 0.0)]
  }

  /** The cells of the enabled metrics from i on. */
  function MetricsCells(en: TraceEntry, enabled: seq<bool>, i: nat): seq<Cell>
    requires EntrySized(en) && SpxMetric.Metrics(enabled)
    decreases |enabled| - i
  {
    if i >= |enabled| then []
    else (if enabled[i] then MetricCells(en, i) else []) + MetricsCells(en, enabled, i + 1)
  }

  /**
   * The function column: the prefix right-aligned in depth + 1 columns,
   * then the name, cut to what func_name holds.
   */
  function FunctionText(en: TraceEntry): (r: string)
    ensures |r| < FuncNameSize && '\0' !in r
  {
    var t := Spaces(en.depth) + (if en.start then "+" else "-") + QualifiedName(en.callee);
    assert forall k :: 0 <= k < |t| ==> t[k] != '\0' by {
      assert t == Spaces(en.depth) + ((if en.start then "+" else "-") + QualifiedName(en.callee));
    }
    SpxUtils.Truncate(t, FuncNameSize - 1)
  }

  /** print_row's cells: the metrics, the depth counted from 1, the function. */
  function RowCells(en: TraceEntry, enabled: seq<bool>): seq<Cell>
    requires EntrySized(en) && SpxMetric.Metrics(enabled)
  {
    MetricsCells(en, enabled, 0) + [NumberCell(Quantity, (en.depth + 1) as real), TextCell(0, FunctionText(en))]
  }

  function RowText(en: TraceEntry, enabled: seq<bool>, render: Render): string
    requires EntrySized(en) && SpxMetric.Metrics(enabled)
  {
    Line(RowCells(en, enabled), render)
  }

  /** The rows of the entries, in order. */
  function Rows(es: seq<TraceEntry>, enabled: seq<bool>, render: Render): string
    requires AllSized(es) && SpxMetric.Metrics(enabled)
  {
    if es == [] then [] else Rows(es[..|es| - 1], enabled, render) + RowText(es[|es| - 1], enabled, render)
  }

  /** The header's first row: each enabled metric's short name over its three columns. */
  function NameCells(enabled: seq<bool>, i: nat): seq<Cell>
    requires SpxMetric.Metrics(enabled)
    decreases |enabled| - i
  {
    if i >= |enabled| then []
    else (if enabled[i] then [TextCell(3, SpxMetric.MetricsInfo[i].shortName)] else []) + NameCells(enabled, i + 1)
  }

  /** The titles of the enabled metrics' columns from i on. */
  function TitleCells(enabled: seq<bool>, i: nat): seq<Cell>
    requires SpxMetric.Metrics(enabled)
    decreases |enabled| - i
  {
    if i >= |enabled| then []
    else
      var titles := if enabled[i] then [TextCell(1, "Cum."), TextCell(1, "Inc."), TextCell(1, "Exc.")] else [];
      titles + TitleCells(enabled, i + 1)
  }

  /** The header's second row. */
  function ColumnCells(enabled: seq<bool>): seq<Cell>
    requires SpxMetric.Metrics(enabled)
  {
    TitleCells(enabled, 0) + [TextCell(1, "Depth"), TextCell(0, "Function")]
  }

  /** print_header's output: both rows and the separator of the second. */
  function Header(enabled: seq<bool>, render: Render): string
    requires SpxMetric.Metrics(enabled)
  {
    Line(NameCells(enabled, 0), render) + Line(ColumnCells(enabled), render) + SepLine(ColumnCells(enabled))
  }

  // ---------------------------------------------------------------------
  // Layout

  predicate UnitCells(cells: seq<Cell>)
  {
    forall k :: 0 <= k < |cells| ==> cells[k].span == 1 && cells[k].ansi.None?
  }

  lemma {:induction false} MetricsCellsShape(en: TraceEntry, enabled: seq<bool>, i: nat)
    requires EntrySized(en) && SpxMetric.Metrics(enabled)
    ensures UnitCells(MetricsCells(en, enabled, i))
    ensures |MetricsCells(en, enabled, i)| == 3 * |EnabledFrom(enabled, i)|
    decreases |enabled| - i
  {
    if i < |enabled| {
      MetricsCellsShape(en, enabled, i + 1);
    }
  }

  lemma {:induction false} TitleCellsShape(enabled: seq<bool>, i: nat)
    requires SpxMetric.Metrics(enabled)
    ensures UnitCells(TitleCells(enabled, i))
    ensures |TitleCells(enabled, i)| == 3 * |EnabledFrom(enabled, i)|
    decreases |enabled| - i
  {
    if i < |enabled| {
      TitleCellsShape(enabled, i + 1);
    }
  }

  /** Where the function column starts: after 3 columns per metric and the depth's. */
  function FunctionColumn(enabled: seq<bool>): nat
  {
    11 * (3 * |EnabledFrom(enabled, 0)| + 1)
  }

  /** cells, then a colourless span-1 cell, then a closing text cell t: t starts at 11 (|cells| + 1). */
  lemma ClosingText(cells: seq<Cell>, d: Cell, t: string, render: Render)
    requires UnitCells(cells) && d.span == 1 && d.ansi.None? && '\0' !in t
    ensures var l, c := Line(cells + [d, TextCell(0, t)], render), 11 * (|cells| + 1);
      c < |l| && l[c..] == " " + t + "\n"
  {
    var open := cells + [d];
    assert UnitCells(open);
    UnitCellsWidth(open, render);
    assert cells + [d, TextCell(0, t)] == open + [TextCell(0, t)];
    CellsTextAppend(open, [TextCell(0, t)], render);
    CStrOfPlain(t);
    assert CellsText([TextCell(0, t)], render) == " " + t;
    SuffixAt(CellsText(open, render), " " + t, "\n");
  }

  lemma SuffixAt(x: string, y: string, z: string)
    ensures (x + y + z)[|x|..] == y + z
  {
  }

  /** A row: its metric cells, its depth, then the function name, alone from the function column on. */
  lemma RowColumns(en: TraceEntry, enabled: seq<bool>, render: Render)
    requires EntrySized(en) && SpxMetric.Metrics(enabled)
    ensures |RowCells(en, enabled)| == 3 * |EnabledFrom(enabled, 0)| + 2
    ensures var l, c := RowText(en, enabled, render), FunctionColumn(enabled);
      c < |l| && l[c..] == " " + FunctionText(en) + "\n"
  {
    var ms := MetricsCells(en, enabled, 0);
    MetricsCellsShape(en, enabled, 0);
    var depth := NumberCell(Quantity, (en.depth + 1) as real);
    assert RowCells(en, enabled) == ms + [depth, TextCell(0, FunctionText(en))];
    ClosingText(ms, depth, FunctionText(en), render);
  }

  /** The header's second row: the titles, "Depth", and "Function" from the function column on. */
  lemma TitleColumns(enabled: seq<bool>, render: Render)
    requires SpxMetric.Metrics(enabled)
    ensures var l, c := Line(ColumnCells(enabled), render), FunctionColumn(enabled);
      c < |l| && l[c..] == " " + "Function" + "\n"
  {
    var ts := TitleCells(enabled, 0);
    TitleCellsShape(enabled, 0);
    ClosingText(ts, TextCell(1, "Depth"), "Function", render);
    assert ColumnCells(enabled) == ts + [TextCell(1, "Depth"), TextCell(0, "Function")];
  }

  /** Unit cells and the depth cell span one column each, in both rows. */
  lemma {:induction false} SameSpans(en: TraceEntry, enabled: seq<bool>)
    requires EntrySized(en) && SpxMetric.Metrics(enabled)
    ensures |RowCells(en, enabled)| == |ColumnCells(enabled)|
    ensures forall k :: 0 <= k < |ColumnCells(enabled)| ==> RowCells(en, enabled)[k].span == ColumnCells(enabled)[k].span
  {
    var ms, ts := MetricsCells(en, enabled, 0), TitleCells(enabled, 0);
    MetricsCellsShape(en, enabled, 0);
    TitleCellsShape(enabled, 0);
    var r, h := RowCells(en, enabled), ColumnCells(enabled);
    forall k | 0 <= k < |h|
      ensures r[k].span == h[k].span
    {
      if k < |ms| {
        assert r[k] == ms[k] && h[k] == ts[k];
      }
    }
  }

  /**
   * Every row lines up under the header: a row has as many cells as the
   * header's second row, of the same spans, and its function name starts
   * at the column where that row prints "Function".
   */
  lemma ColumnsAligned(en: TraceEntry, enabled: seq<bool>, render: Render)
    requires EntrySized(en) && SpxMetric.Metrics(enabled)
    ensures |RowCells(en, enabled)| == |ColumnCells(enabled)| == 3 * |EnabledFrom(enabled, 0)| + 2
    ensures forall k :: 0 <= k < |ColumnCells(enabled)| ==> RowCells(en, enabled)[k].span == ColumnCells(enabled)[k].span
    ensures var c := FunctionColumn(enabled);
      && c < |RowText(en, enabled, render)| && c < |Line(ColumnCells(enabled), render)|
      && RowText(en, enabled, render)[c..] == " " + FunctionText(en) + "\n"
      && Line(ColumnCells(enabled), render)[c..] == " " + "Function" + "\n"
  {
    SameSpans(en, enabled);
    TitleCellsShape(enabled, 0);
    RowColumns(en, enabled, render);
    TitleColumns(enabled, render);
  }

  lemma AllSizedAppend(a: seq<TraceEntry>, b: seq<TraceEntry>)
    requires AllSized(a) && AllSized(b)
    ensures AllSized(a + b)
  {
    var ab := a + b;
    forall k | 0 <= k < |ab|
      ensures EntrySized(ab[k])
    {
      if k >= |a| {
        assert ab[k] == b[k - |a|];
      }
    }
  }

  /** Buffering does not change the text: the rows of two chunks are the rows of both. */
  lemma {:induction false} RowsAppend(a: seq<TraceEntry>, b: seq<TraceEntry>, enabled: seq<bool>, render: Render)
    requires AllSized(a) && AllSized(b) && SpxMetric.Metrics(enabled)
    ensures AllSized(a + b)
    ensures Rows(a + b, enabled, render) == Rows(a, enabled, render) + Rows(b, enabled, render)
    decreases |b|
  {
    AllSizedAppend(a, b);
    if b == [] {
      assert a + b == a;
    } else {
      var b', x := b[..|b| - 1], b[|b| - 1];
      assert AllSized(b');
      var ab := a + b;
      assert ab[..|ab| - 1] == a + b' && ab[|ab| - 1] == x;
      RowsAppend(a, b', enabled, render);
      AppendAssoc(Rows(a, enabled, render), Rows(b', enabled, render), RowText(x, enabled, render));
    }
  }

  /** One more entry adds its row. */
  lemma RowsSnoc(es: seq<TraceEntry>, i: nat, enabled: seq<bool>, render: Render)
    requires i < |es| && AllSized(es) && SpxMetric.Metrics(enabled)
    ensures AllSized(es[..i]) && AllSized(es[..i + 1])
    ensures Rows(es[..i + 1], enabled, render) == Rows(es[..i], enabled, render) + RowText(es[i], enabled, render)
  {
    assert es[..i + 1][..i] == es[..i];
  }

  // ---------------------------------------------------------------------
  // The rows as written

  /**
   * A trace row has three cells per enabled metric and two more, as many as
   * the header's second row: more than spx_fmt's 16 once five metrics are
   * enabled, so PrintRow fails on the header before any record is written.
   */
  lemma RowOverflow(en: TraceEntry, enabled: seq<bool>)
    requires EntrySized(en) && SpxMetric.Metrics(enabled)
    ensures |ColumnCells(enabled)| <= RowMaxCells <==> |EnabledFrom(enabled, 0)| <= 4
    ensures |RowCells(en, enabled)| <= RowMaxCells <==> |EnabledFrom(enabled, 0)| <= 4
  {
    SameSpans(en, enabled);
    MetricsCellsShape(en, enabled, 0);
  }

  /** wt, ct, it, zm and zr enabled: the header's second row needs 17 cells. */
  lemma FiveMetricsOverflow()
    ensures var enabled := [true, true, true, true, true, false, false, false, false, false];
      SpxMetric.Metrics(enabled) && |ColumnCells(enabled)| == 17 > RowMaxCells
  {
    var enabled := [true, true, true, true, true, false, false, false, false, false];
    TitleCellsShape(enabled, 0);
    assert EnabledFrom(enabled, 5) == [] by {
      assert EnabledFrom(enabled, 10) == [];
      assert EnabledFrom(enabled, 9) == [];
      assert EnabledFrom(enabled, 8) == [];
      assert EnabledFrom(enabled, 7) == [];
      assert EnabledFrom(enabled, 6) == [];
    }
    assert EnabledFrom(enabled, 0) == [0, 1, 2, 3, 4];
  }

  // ---------------------------------------------------------------------
  // The reporter

  /** trace_reporter_t; output is what its output stream received. */
  class TraceReporter {
    const fileName: string
    const compressed: bool
    const safe: bool
    /** printf's rendering of a double. */
    const render: Render
    var first: bool
    const buffer: array<TraceEntry>
    var bufferSize: nat
    var output: string
    /** What was written to stderr. */
    var messages: string

    ghost predicate Valid()
      reads this, buffer
    {
      && buffer.Length == BufferCapacity && bufferSize < BufferCapacity
      && AllSized(buffer[..bufferSize])
    }

    /** The buffered entries. */
    ghost function Buffered(): seq<TraceEntry>
      reads this, buffer
      requires bufferSize <= buffer.Length
    {
      buffer[..bufferSize]
    }

    /** spx_reporter_trace_create, the output stream opened. */
    constructor (name: Option<string>, safe: bool, render: Render)
      ensures Valid() && fresh(buffer)
      ensures fileName == (if name.Some? then name.value else DefaultFileName)
      ensures compressed == SpxUtils.EndsWith(fileName, ".gz")
      ensures this.safe == safe && this.render == render
      ensures first && Buffered() == [] && output == [] && messages == []
    {
      fileName := if name.Some? then name.value else DefaultFileName;
      compressed := SpxUtils.EndsWith(if name.Some? then name.value else DefaultFileName, ".gz");
      this.safe := safe;
      this.render := render;
      first := true;
      buffer := new TraceEntry[BufferCapacity](_ => TraceEntry(false, PhpFunction(0, [], 0, [], [], []), 0, [], None, None));
      bufferSize := 0;
      output := [];
      messages := [];
    }

    /**
     * trace_notify: a call event is buffered; the buffer is printed when it
     * is full, at every event in safe mode, and at the end, which also
     * names the trace file on stderr.
     */
    method Notify(e: Event) returns (cost: Cost)
      requires Valid() && WellFormed(e)
      modifies this`first, this`bufferSize, this`output, this`messages, buffer
      ensures Valid()
      ensures var es := old(Buffered()) + (if e.typ == FinalizeEvent then [] else [EntryOf(e)]);
        && AllSized(es)
        && if e.typ != FinalizeEvent && |es| < BufferCapacity && !safe
        then cost == Light && Buffered() == es && first == old(first)
          && output == old(output) && messages == old(messages)
        else
          && cost == Heavy && Buffered() == [] && !first
          && output == old(output) + (if old(first) then Header(e.enabledMetrics, render) else [])
            + Rows(es, e.enabledMetrics, render)
          && messages == old(messages)
            + (if e.typ == FinalizeEvent then "\nSPX trace file: " + CStr(fileName) + "\n" else [])
    {
      ghost var es := Buffered() + (if e.typ == FinalizeEvent then [] else [EntryOf(e)]);
      if e.typ != FinalizeEvent {
        Store(EntryOf(e));
        if bufferSize < BufferCapacity && !safe {
          return Light;
        }
      }
      assert Buffered() == es;
      Flush(e.enabledMetrics);
      if e.typ == FinalizeEvent {
        messages := messages + ("\nSPX trace file: " + CStr(fileName) + "\n");
      }
      cost := Heavy;
    }

    /** The entry written to the next free slot; the buffer may now be full. */
    method Store(en: TraceEntry)
      requires Valid() && EntrySized(en)
      modifies this`bufferSize, buffer
      ensures bufferSize <= BufferCapacity && bufferSize == old(bufferSize) + 1
      ensures Buffered() == old(Buffered()) + [en] && AllSized(Buffered())
    {
      buffer[bufferSize] := en;
      bufferSize := bufferSize + 1;
      assert Buffered() == old(Buffered()) + [en];
    }

    /** flush_buffer: the header before the first rows, then a row per entry. */
    method Flush(enabled: seq<bool>)
      requires buffer.Length == BufferCapacity && bufferSize <= BufferCapacity
      requires AllSized(Buffered()) && SpxMetric.Metrics(enabled)
      modifies this`first, this`bufferSize, this`output
      ensures Valid() && Buffered() == [] && !first
      ensures output == old(output) + (if old(first) then Header(enabled, render) else [])
        + Rows(old(Buffered()), enabled, render)
    {
      ghost var es := Buffered();
      ghost var head := output + (if first then Header(enabled, render) else []);
      if first {
        first := false;
        output := output + Header(enabled, render);
      }
      assert output == head && Buffered() == es;
      PrintRows(enabled);
      assert output == head + Rows(es, enabled, render);
      bufferSize := 0;
    }

    /** flush_buffer's loop: print_row for every buffered entry. */
    method PrintRows(enabled: seq<bool>)
      requires bufferSize <= buffer.Length
      requires AllSized(Buffered()) && SpxMetric.Metrics(enabled)
      modifies this`output
      ensures output == old(output) + Rows(Buffered(), enabled, render)
    {
      ghost var es := Buffered();
      var i := 0;
      while i < bufferSize
        invariant i <= bufferSize == |es| && es == buffer[..bufferSize]
        invariant AllSized(es[..i]) && output == old(output) + Rows(es[..i], enabled, render)
      {
        RowsSnoc(es, i, enabled, render);
        assert buffer[i] == es[i];
        AppendAssoc(old(output), Rows(es[..i], enabled, render), RowText(es[i], enabled, render));
        output := output + RowText(buffer[i], enabled, render);
        i := i + 1;
      }
      assert es[..i] == es;
    }
  }
}
