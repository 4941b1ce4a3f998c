/**
 * The callgrind reporter (spx_reporter_cg.c): every call end is buffered and
 * printed as a callgrind record, the callee's position and exclusive costs,
 * then, when there is a caller, the caller's position, the call and the
 * inclusive costs; the header names the enabled metrics as callgrind events.
 * Costs are printed with "%d" of the double cast to int.
 */
module SpxReporterCg {
  import opened Wrappers
  import opened CStrings
  import opened Decimal
  import opened MetricValues
  import opened SpxProfilerTypes
  import opened SpxReporting
  import SpxMetric
  import SpxUtils
  import SpxStrBuilder
  import SpxFmt

  const BufferCapacity: nat := 16384

  /** buffer_entry_t: the caller (NULL for the outermost call), the callee, its costs. */
  datatype CgEntry = CgEntry(caller: Option<PhpFunction>, callee: PhpFunction, inc: Vec, exc: Vec)

  predicate EntrySized(en: CgEntry)
  {
    Sized(en.inc) && Sized(en.exc)
  }

  predicate AllSized(es: seq<CgEntry>)
  {
    forall k :: 0 <= k < |es| ==> EntrySized(es[k])
  }

  /** The entry a call end is buffered as. */
  function EntryOf(e: Event): (en: CgEntry)
    requires WellFormed(e) && e.typ == CallEndEvent
    ensures EntrySized(en)
  {
    CgEntry(if e.caller.Some? then Some(e.functions[e.caller.value].func) else None,
      e.functions[e.callee.value].func, e.inc.value, e.exc.value)
  }

  /** Metric indexes, as EnabledFrom lists them. */
  predicate Indexes(ms: seq<nat>)
  {
    forall k :: 0 <= k < |ms| ==> ms[k] < SpxMetric.MetricCount
  }

  // ---------------------------------------------------------------------
  // Header

  function ShortName(i: nat): string
    requires i < SpxMetric.MetricCount
  {
    SpxMetric.MetricsInfo[i].shortName
  }

  /** "event: <short name> : <name>" per metric. */
  function EventLines(ms: seq<nat>): string
    requires Indexes(ms)
  {
    if ms == [] then []
    else
      var i := ms[|ms| - 1];
      EventLines(ms[..|ms| - 1]) + "event: " + ShortName(i) + " : " + SpxMetric.MetricsInfo[i].name + "\n"
  }

  /** "<short name> " per metric: the list of the events line. */
  function EventNames(ms: seq<nat>): string
    requires Indexes(ms)
  {
    if ms == [] then [] else EventNames(ms[..|ms| - 1]) + ShortName(ms[|ms| - 1]) + " "
  }

  /** print_header's output. */
  function Header(enabled: seq<bool>): string
    requires SpxMetric.Metrics(enabled)
  {
    var ms := EnabledFrom(enabled, 0);
    "# callgrind format\n" + EventLines(ms) + "events: " + EventNames(ms) + "\n"
  }

  function ShortNames(ms: seq<nat>): (r: seq<string>)
    requires Indexes(ms)
    ensures |r| == |ms| && forall k :: 0 <= k < |ms| ==> r[k] == ShortName(ms[k])
  {
    if ms == [] then [] else ShortNames(ms[..|ms| - 1]) + [ShortName(ms[|ms| - 1])]
  }

  /** The events list is the short names, each followed by a blank. */
  lemma {:induction false} EventNamesJoined(ms: seq<nat>)
    requires Indexes(ms)
    ensures EventNames(ms) == SpxUtils.Join(ShortNames(ms) + [[]], ' ')
  {
    if ms != [] {
      var init, i := ms[..|ms| - 1], ms[|ms| - 1];
      EventNamesJoined(init);
      var parts := ShortNames(init) + [[]];
      var q := parts[..|parts| - 1] + [parts[|parts| - 1] + ShortName(i)];
      SpxUtils.JoinLast(parts, ' ', ShortName(i));
      assert parts[..|parts| - 1] == ShortNames(init) && [] + ShortName(i) == ShortName(i);
      assert q == ShortNames(ms);
      var full := ShortNames(ms) + [[]];
      assert full[..|full| - 1] == ShortNames(ms) && full[|full| - 1] == [];
    }
  }

  /**
   * Reading the events list back: split at blanks, it gives one short name
   * per enabled metric, in metric order, each resolving to its metric, and
   * the empty word after the last blank.
   */
  lemma EventsRoundTrip(enabled: seq<bool>)
    requires SpxMetric.Metrics(enabled)
    ensures var ms, parts := EnabledFrom(enabled, 0), SpxUtils.Split(EventNames(EnabledFrom(enabled, 0)), ' ');
      && |parts| == |ms| + 1 && parts[|ms|] == []
      && forall k :: 0 <= k < |ms| ==> SpxMetric.ShortNameFrom(parts[k], 0) == Some(ms[k])
  {
    var ms := EnabledFrom(enabled, 0);
    var names := ShortNames(ms) + [[]];
    EventNamesJoined(ms);
    forall k | 0 <= k < |names|
      ensures ' ' !in names[k]
    {
      if k < |ms| {
        SpxMetric.ShortNameLetters(ms[k]);
      }
    }
    SpxUtils.JoinSplit(names, ' ');
    forall k | 0 <= k < |ms|
      ensures SpxMetric.ShortNameFrom(names[k], 0) == Some(ms[k])
    {
      SpxMetric.ShortNameResolves(ms[k]);
    }
  }

  // ---------------------------------------------------------------------
  // Records

  /** The (int) casts of the costs of the metrics ms. */
  function Costs(v: Vec, ms: seq<nat>): (r: seq<int>)
    requires Sized(v) && Indexes(ms)
    ensures |r| == |ms| && forall k :: 0 <= k < |ms| ==> r[k] == SpxStrBuilder.IntCast(v[ms[k]])
  {
    if ms == [] then [] else Costs(v, ms[..|ms| - 1]) + [SpxStrBuilder.IntCast(v[ms[|ms| - 1]])]
  }

  /** " %d" per number. */
  function Fields(ns: seq<int>): string
  {
    if ns == [] then [] else Fields(ns[..|ns| - 1]) + " " + IntToString(ns[|ns| - 1])
  }

  /** A cost line: "%d" of a line number, then the costs. */
  function CostLine(line: int, ns: seq<int>): string
  {
    IntToString(line) + Fields(ns)
  }

  /** "%s%s%s" of the class name, the call type and the function name. */
  function Signature(f: PhpFunction): string
  {
    CStr(f.className) + CStr(f.callType) + CStr(f.funcName)
  }

  /** The callee's block: its position and its exclusive costs. */
  function CalleeBlock(en: CgEntry, ms: seq<nat>): string
    requires EntrySized(en) && Indexes(ms)
  {
    Concat(["fl=", CStr(en.callee.fileName), "\nfn=", Signature(en.callee), "\n",
      CostLine(en.callee.line, Costs(en.exc, ms)), "\n\n"])
  }

  /** The caller's block: its position, the call, and the inclusive costs. */
  function CallerBlock(caller: PhpFunction, en: CgEntry, ms: seq<nat>): string
    requires EntrySized(en) && Indexes(ms)
  {
    Concat(["fl=", CStr(caller.fileName), "\nfn=", Signature(caller), "\n",
      "cfi=", CStr(en.callee.fileName), "\ncfn=", Signature(en.callee), "\n",
      "calls=1 ", IntToString(en.callee.line), "\n",
      CostLine(caller.line, Costs(en.inc, ms)), "\n\n"])
  }

  /** print_call's output. */
  function CallText(en: CgEntry, enabled: seq<bool>): string
    requires EntrySized(en) && SpxMetric.Metrics(enabled)
  {
    var ms := EnabledFrom(enabled, 0);
    CalleeBlock(en, ms) + if en.caller.Some? then CallerBlock(en.caller.value, en, ms) else []
  }

  /** The records of the entries, in order. */
  function Calls(es: seq<CgEntry>, enabled: seq<bool>): string
    requires AllSized(es) && SpxMetric.Metrics(enabled)
  {
    if es == [] then [] else Calls(es[..|es| - 1], enabled) + CallText(es[|es| - 1], enabled)
  }

  function NumberStrings(ns: seq<int>): (r: seq<string>)
    ensures |r| == |ns| && forall k :: 0 <= k < |ns| ==> r[k] == IntToString(ns[k])
  {
    if ns == [] then [] else NumberStrings(ns[..|ns| - 1]) + [IntToString(ns[|ns| - 1])]
  }

  /** " %s" per word. */
  function Blanked(ws: seq<string>): string
  {
    if ws == [] then [] else Blanked(ws[..|ws| - 1]) + " " + ws[|ws| - 1]
  }

  /** A word, then " %s" per word: the words joined with blanks. */
  lemma {:induction false} BlankedJoined(x: string, ws: seq<string>)
    ensures x + Blanked(ws) == SpxUtils.Join([x] + ws, ' ')
  {
    var all := [x] + ws;
    if ws == [] {
      assert all == [x];
    } else {
      var init, w := ws[..|ws| - 1], ws[|ws| - 1];
      BlankedJoined(x, init);
      assert all[..|all| - 1] == [x] + init && all[|all| - 1] == w;
      SpxFmt.AppendAssoc(x, Blanked(init) + " ", w);
      SpxFmt.AppendAssoc(x, Blanked(init), " ");
    }
  }

  lemma {:induction false} FieldsBlanked(ns: seq<int>)
    ensures Fields(ns) == Blanked(NumberStrings(ns))
  {
    if ns != [] {
      FieldsBlanked(ns[..|ns| - 1]);
      var r := NumberStrings(ns);
      assert r[..|r| - 1] == NumberStrings(ns[..|ns| - 1]);
    }
  }

  /** A cost line is its numbers joined with blanks. */
  lemma CostLineJoined(line: int, ns: seq<int>)
    ensures CostLine(line, ns) == SpxUtils.Join(NumberStrings([line] + ns), ' ')
  {
    FieldsBlanked(ns);
    BlankedJoined(IntToString(line), NumberStrings(ns));
    assert NumberStrings([line] + ns) == [IntToString(line)] + NumberStrings(ns);
  }

  lemma IntToStringPlain(n: int)
    ensures ' ' !in IntToString(n)
  {
    var s := IntToString(n);
    if n < 0 {
      assert s == "-" + NatToString(-n);
      assert forall k :: 1 <= k < |s| ==> s[k] == NatToString(-n)[k - 1];
    }
  }

  /** A cost line splits at blanks into its numbers. */
  lemma CostLineSplit(line: int, ns: seq<int>)
    ensures SpxUtils.Split(CostLine(line, ns), ' ') == NumberStrings([line] + ns)
  {
    var all := [line] + ns;
    var strs := NumberStrings(all);
    CostLineJoined(line, ns);
    forall k | 0 <= k < |strs|
      ensures ' ' !in strs[k]
    {
      IntToStringPlain(all[k]);
    }
    SpxUtils.JoinSplit(strs, ' ');
  }

  /** Each word parses as the number at its position. */
  predicate ReadsAs(words: seq<string>, ns: seq<int>)
  {
    |words| == |ns| && forall k :: 0 <= k < |ns| ==> ParseInt(words[k]) == Some(ns[k])
  }

  lemma NumberStringsParse(ns: seq<int>)
    ensures ReadsAs(NumberStrings(ns), ns)
  {
    forall k | 0 <= k < |ns|
      ensures ParseInt(NumberStrings(ns)[k]) == Some(ns[k])
    {
      IntToStringRoundTrip(ns[k]);
    }
  }

  /**
   * Reading a cost line back: split at blanks and parsed as integers, it
   * gives the line number and then each cost, in the order printed.
   */
  lemma CostLineRoundTrip(line: int, ns: seq<int>)
    ensures ReadsAs(SpxUtils.Split(CostLine(line, ns), ' '), [line] + ns)
  {
    CostLineSplit(line, ns);
    NumberStringsParse([line] + ns);
  }

  /** The exclusive costs a record prints are the casts of the enabled metrics' values, in metric order. */
  lemma CostsInMetricOrder(v: Vec, enabled: seq<bool>)
    requires Sized(v) && SpxMetric.Metrics(enabled)
    ensures var ms, r := EnabledFrom(enabled, 0), Costs(v, EnabledFrom(enabled, 0));
      && |r| == |ms| && (forall k :: 0 <= k < |ms| ==> r[k] == SpxStrBuilder.IntCast(v[ms[k]]))
      && (forall k, j :: 0 <= k < j < |ms| ==> ms[k] < ms[j])
      && (forall j :: 0 <= j < |enabled| && enabled[j] ==> j in ms)
  {
    EnabledFromComplete(enabled, 0);
  }

  /** Buffering does not change the text: the records of two chunks are the records of both. */
  lemma {:induction false} CallsAppend(a: seq<CgEntry>, b: seq<CgEntry>, enabled: seq<bool>)
    requires AllSized(a) && AllSized(b) && SpxMetric.Metrics(enabled)
    ensures AllSized(a + b)
    ensures Calls(a + b, enabled) == Calls(a, enabled) + Calls(b, enabled)
    decreases |b|
  {
    AllSizedAppend(a, b);
    if b == [] {
      assert a + b == a;
    } else {
      var b', x := b[..|b| - 1], b[|b| - 1];
      assert AllSized(b');
      var ab := a + b;
      assert ab[..|ab| - 1] == a + b' && ab[|ab| - 1] == x;
      CallsAppend(a, b', enabled);
      SpxFmt.AppendAssoc(Calls(a, enabled), Calls(b', enabled), CallText(x, enabled));
    }
  }

  lemma AllSizedAppend(a: seq<CgEntry>, b: seq<CgEntry>)
    requires AllSized(a) && AllSized(b)
    ensures AllSized(a + b)
  {
    var ab := a + b;
    forall k | 0 <= k < |ab|
      ensures EntrySized(ab[k])
    {
      if k >= |a| {
        assert ab[k] == b[k - |a|];
      }
    }
  }

  lemma CallsSnoc(es: seq<CgEntry>, i: nat, enabled: seq<bool>)
    requires i < |es| && AllSized(es) && SpxMetric.Metrics(enabled)
    ensures AllSized(es[..i]) && AllSized(es[..i + 1])
    ensures Calls(es[..i + 1], enabled) == Calls(es[..i], enabled) + CallText(es[i], enabled)
  {
    assert es[..i + 1][..i] == es[..i];
  }

  // ---------------------------------------------------------------------
  // The reporter

  /** cg_reporter_t; output is what its output stream received. */
  class CgReporter {
    var first: bool
    const buffer: array<CgEntry>
    var bufferSize: nat
    var output: string

    ghost predicate Valid()
      reads this, buffer
    {
      && buffer.Length == BufferCapacity && bufferSize < BufferCapacity
      && AllSized(buffer[..bufferSize])
    }

    /** The buffered entries. */
    ghost function Buffered(): seq<CgEntry>
      reads this, buffer
      requires bufferSize <= buffer.Length
    {
      buffer[..bufferSize]
    }

    /** spx_reporter_cg_create. */
    constructor ()
      ensures Valid() && fresh(buffer)
      ensures first && Buffered() == [] && output == []
    {
      first := true;
      buffer := new CgEntry[BufferCapacity](_ => CgEntry(None, PhpFunction(0, [], 0, [], [], []), [], []));
      bufferSize := 0;
      output := [];
    }

    /**
     * cg_notify: a call start costs nothing; a call end is buffered; the
     * buffer is printed when it is full and at the end.
     */
    method Notify(e: Event) returns (cost: Cost)
      requires Valid() && WellFormed(e)
      modifies this`first, this`bufferSize, this`output, buffer
      ensures Valid()
      ensures e.typ == CallStartEvent ==>
        cost == Light && Buffered() == old(Buffered()) && first == old(first) && output == old(output)
      ensures e.typ != CallStartEvent ==>
        var es := old(Buffered()) + (if e.typ == CallEndEvent then [EntryOf(e)] else []);
        && AllSized(es)
        && if e.typ == CallEndEvent && |es| < BufferCapacity
        then cost == Light && Buffered() == es && first == old(first) && output == old(output)
        else
          && cost == Heavy && Buffered() == [] && !first
          && output == old(output) + (if old(first) then Header(e.enabledMetrics) else [])
            + Calls(es, e.enabledMetrics)
    {
      if e.typ == CallStartEvent {
        return Light;
      }
      ghost var es := Buffered() + (if e.typ == CallEndEvent then [EntryOf(e)] else []);
      if e.typ == CallEndEvent {
        Store(EntryOf(e));
        if bufferSize < BufferCapacity {
          return Light;
        }
      }
      assert Buffered() == es;
      Flush(e.enabledMetrics);
      cost := Heavy;
    }

    /** The entry written to the next free slot; the buffer may now be full. */
    method Store(en: CgEntry)
      requires Valid() && EntrySized(en)
      modifies this`bufferSize, buffer
      ensures bufferSize <= BufferCapacity && bufferSize == old(bufferSize) + 1
      ensures Buffered() == old(Buffered()) + [en] && AllSized(Buffered())
    {
      buffer[bufferSize] := en;
      bufferSize := bufferSize + 1;
      assert Buffered() == old(Buffered()) + [en];
    }

    /** flush_buffer: the header before the first records, then a record per entry. */
    method Flush(enabled: seq<bool>)
      requires buffer.Length == BufferCapacity && bufferSize <= BufferCapacity
      requires AllSized(Buffered()) && SpxMetric.Metrics(enabled)
      modifies this`first, this`bufferSize, this`output
      ensures Valid() && Buffered() == [] && !first
      ensures output == old(output) + (if old(first) then Header(enabled) else []) + Calls(old(Buffered()), enabled)
    {
      ghost var es := Buffered();
      ghost var head := output + (if first then Header(enabled) else []);
      if first {
        first := false;
        output := output + Header(enabled);
      }
      assert output == head && Buffered() == es;
      PrintCalls(enabled);
      assert output == head + Calls(es, enabled);
      bufferSize := 0;
    }

    /** flush_buffer's loop: print_call for every buffered entry. */
    method PrintCalls(enabled: seq<bool>)
      requires bufferSize <= buffer.Length
      requires AllSized(Buffered()) && SpxMetric.Metrics(enabled)
      modifies this`output
      ensures output == old(output) + Calls(Buffered(), enabled)
    {
      ghost var es := Buffered();
      var i := 0;
      while i < bufferSize
        invariant i <= bufferSize == |es| && es == buffer[..bufferSize]
        invariant AllSized(es[..i]) && output == old(output) + Calls(es[..i], enabled)
      {
        CallsSnoc(es, i, enabled);
        assert buffer[i] == es[i];
        SpxFmt.AppendAssoc(old(output), Calls(es[..i], enabled), CallText(es[i], enabled));
        output := output + CallText(buffer[i], enabled);
        i := i + 1;
      }
      assert es[..i] == es;
    }
  }
}
