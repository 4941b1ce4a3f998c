/**
 * What the reporters (src/spx_reporter_*.c, spx_reporter_*.c) share: the
 * events they are notified of, the names they print for a function and the
 * enabled metrics they iterate over in metric order.
 */
module SpxReporting {
  import opened Wrappers
  import opened CStrings
  import opened MetricValues
  import opened SpxProfilerTypes
  import SpxMetric
  import SpxFmt

  /**
   * What the reporters dereference in an event: one flag and one value per
   * metric, a callee for every call event, and inclusive and exclusive
   * costs for every call end, inside the function table.
   */
  predicate WellFormed(e: Event)
  {
    && SpxMetric.Metrics(e.enabledMetrics) && Sized(e.cum) && Sized(e.max)
    && (e.typ != FinalizeEvent ==> e.callee.Some? && e.callee.value < |e.functions|)
    && (e.caller.Some? ==> e.caller.value < |e.functions|)
    && (e.typ == CallEndEvent ==> e.inc.Some? && e.exc.Some? && Sized(e.inc.value) && Sized(e.exc.value))
    && (forall k :: 0 <= k < |e.functions| ==> WellFormedEntry(e.functions[k]))
  }

  /** The number of enabled metrics. */
  function EnabledCount(enabled: seq<bool>): (n: nat)
    ensures n <= |enabled|
  {
    if enabled == [] then 0 else EnabledCount(enabled[..|enabled| - 1]) + (if enabled[|enabled| - 1] then 1 else 0)
  }

  /** The metrics enabled from position i on, in metric order. */
  function EnabledFrom(enabled: seq<bool>, i: nat): (r: seq<nat>)
    ensures forall k :: 0 <= k < |r| ==> i <= r[k] < |enabled| && enabled[r[k]]
    decreases |enabled| - i
  {
    if i >= |enabled| then [] else (if enabled[i] then [i] else []) + EnabledFrom(enabled, i + 1)
  }

  /** Every enabled metric from position i on is listed, in increasing order. */
  lemma {:induction false} EnabledFromComplete(enabled: seq<bool>, i: nat)
    ensures var r := EnabledFrom(enabled, i);
      && (forall j :: i <= j < |enabled| && enabled[j] ==> j in r)
      && (forall a, b :: 0 <= a < b < |r| ==> r[a] < r[b])
  {
    EnabledFromListed(enabled, i);
    EnabledFromIncreasing(enabled, i);
    assert Increasing(EnabledFrom(enabled, i));
  }

  /** Every enabled metric from position i on is in the list. */
  lemma {:induction false} EnabledFromListed(enabled: seq<bool>, i: nat)
    ensures forall j :: i <= j < |enabled| && enabled[j] ==> j in EnabledFrom(enabled, i)
    decreases |enabled| - i
  {
    if i < |enabled| {
      EnabledFromListed(enabled, i + 1);
      var rest := EnabledFrom(enabled, i + 1);
      assert EnabledFrom(enabled, i) == (if enabled[i] then [i] else []) + rest;
    }
  }

  /** The list is in increasing metric order. */
  lemma {:induction false} EnabledFromIncreasing(enabled: seq<bool>, i: nat)
    ensures Increasing(EnabledFrom(enabled, i))
    decreases |enabled| - i
  {
    if i < |enabled| {
      EnabledFromIncreasing(enabled, i + 1);
      var rest := EnabledFrom(enabled, i + 1);
      if enabled[i] {
        assert EnabledFrom(enabled, i) == [i] + rest;
        IncreasingCons(i, rest);
      } else {
        assert EnabledFrom(enabled, i) == rest;
      }
    }
  }

  predicate Increasing(r: seq<nat>)
  {
    forall a, b :: 0 <= a < b < |r| ==> r[a] < r[b]
  }

  /** A number below every element of an increasing list, put before it. */
  lemma IncreasingCons(x: nat, r: seq<nat>)
    requires Increasing(r) && forall k :: 0 <= k < |r| ==> x < r[k]
    ensures Increasing([x] + r)
  {
    var l := [x] + r;
    forall a, b | 0 <= a < b < |l|
      ensures l[a] < l[b]
    {
      assert l[b] == r[b - 1];
      if a > 0 {
        assert l[a] == r[a - 1];
      }
    }
  }

  /** The first i + 1 elements of s: the first i, then s[i]. */
  lemma TakeNext<T>(s: seq<T>, i: nat)
    requires i < |s|
    ensures s[..i + 1] == s[..i] + [s[i]]
  {
  }

  /** All the elements of s. */
  lemma TakeAll<T>(s: seq<T>)
    ensures s[..|s|] == s
  {
  }

  /** Strings printed one after the other. */
  function Concat(ps: seq<string>): string
    decreases |ps|
  {
    if ps == [] then [] else ps[0] + Concat(ps[1..])
  }

  /**
   * A function as the full and trace reporters print it with "%s%s%s":
   * each name up to its first NUL, joined by "::" when the class part is
   * not empty. An anonymous class's name stops at its NUL.
   */
  function QualifiedName(f: PhpFunction): (r: string)
    ensures '\0' !in r
    ensures '\0' !in f.className && '\0' !in f.funcName ==>
      r == f.className + (if f.className == [] then "" else "::") + f.funcName
    ensures CStr(f.className) == [] ==> r == CStr(f.funcName)
  {
    var c := CStr(f.className);
    c + (if c == [] then "" else "::") + CStr(f.funcName)
  }

  /** The print type of a metric's values. */
  function FmtType(t: SpxMetric.ValueType): SpxFmt.ValueType
  {
    match t
    case TimeValue => SpxFmt.Time
    case MemoryValue => SpxFmt.Memory
    case QuantityValue => SpxFmt.Quantity
  }

  /** The print type of metric i. */
  function MetricType(i: nat): SpxFmt.ValueType
    requires i < SpxMetric.MetricCount
  {
    FmtType(SpxMetric.MetricsInfo[i].typ)
  }

  /**
   * A row as the reporters print it: spx_fmt_row_create, one
   * spx_fmt_row_add_tcell or spx_fmt_row_add_ncell per cell, in order, then
   * spx_fmt_row_print. Adding a cell to a full row is fatal, so a row of
   * more than 16 cells is never printed.
   */
  method PrintRow(cells: seq<SpxFmt.Cell>, render: SpxFmt.Render) returns (r: Result<string>)
    requires forall k :: 0 <= k < |cells| ==> cells[k].ansi.None?
    ensures r.Ok? <==> |cells| <= SpxFmt.RowMaxCells
    ensures r.Ok? ==> r.value == SpxFmt.Line(cells, render)
    ensures r.Err? ==> r.error == "ROW_MAX_CELLS exceeded\n"
  {
    var row := new SpxFmt.Row();
    var i := 0;
    while i < |cells|
      invariant 0 <= i <= |cells| && i <= SpxFmt.RowMaxCells
      invariant row.Valid() && row.Cells() == cells[..i]
    {
      var c := cells[i];
      var added;
      if c.content.Text? {
        added := row.AddTextCell(c.span, c.content.text);
      } else {
        added := row.AddNumberCell(c.span, c.content.kind, c.content.value);
      }
      if added.Err? {
        return Err("ROW_MAX_CELLS exceeded\n");
      }
      TakeNext(cells, i);
      i := i + 1;
    }
    TakeAll(cells);
    var out := row.Print(render);
    r := Ok(out);
  }
}
