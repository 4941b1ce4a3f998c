/**
 * src/spx_fmt.c: the human-readable rendering used by the flat profile and
 * the trace file. A value of one of four kinds is scaled to a unit and paired
 * with a printf format; a row of at most 16 cells prints each cell padded and
 * cut to a width fixed by its span, and its separator line spans the same
 * columns. printf's rendering of a double is a parameter of the model.
 */
module SpxFmt {
  import opened Wrappers
  import opened CStrings
  import opened SpxUtils

  datatype ValueType = Time | Memory | Percentage | Quantity

  /** The printf format chosen for a value and the value it is given. */
  datatype Resolved = Resolved(format: string, value: real)

  /** printf applied to one format and one double. */
  type Render = (string, real) -> string

  function Abs(x: real): real { if x < 0.0 then -x else x }

  /** Nanoseconds, shown in s, ms, us or ns; a negative time is not scaled. */
  function ResolveTime(v: real): Resolved
  {
    if v >= 1000000000.0 then Resolved("%7.2fs", v / 1000000000.0)
    else if v >= 1000000.0 then Resolved("%6.1fms", v / 1000000.0)
    else if v >= 1000.0 then Resolved("%6.1fus", v / 1000.0)
    else Resolved("%6.fns", v)
  }

  /** Bytes: the band is chosen by decimal thresholds, the divisor is binary. */
  function ResolveMemory(v: real): Resolved
  {
    var m := Abs(v);
    var r :=
      if m >= 1000000000.0 then Resolved("%6.1fGB", m / 1073741824.0)
      else if m >= 1000000.0 then Resolved("%6.1fMB", m / 1048576.0)
      else if m >= 1000.0 then Resolved("%6.1fKB", m / 1024.0)
      else Resolved("%7.fB", m);
    if v < 0.0 then r.(value := -r.value) else r
  }

  function ResolvePercentage(v: real): Resolved
  {
    Resolved("%7.3f%%", v * 100.0)
  }

  function ResolveQuantity(v: real): Resolved
  {
    var m := Abs(v);
    var r :=
      if m >= 1000000000.0 then Resolved("%7.1fG", m / 1000000000.0)
      else if m >= 1000000.0 then Resolved("%7.1fM", m / 1000000.0)
      else if m >= 1000.0 then Resolved("%7.1fK", m / 1000.0)
      else Resolved("%8.f", m);
    if v < 0.0 then r.(value := -r.value) else r
  }

  function Resolve(t: ValueType, v: real): Resolved
  {
    match t
    case Time => ResolveTime(v)
    case Memory => ResolveMemory(v)
    case Percentage => ResolvePercentage(v)
    case Quantity => ResolveQuantity(v)
  }

  /** spx_fmt_format_value: what snprintf leaves in a buffer of size chars. */
  function FormatValue(size: nat, t: ValueType, v: real, render: Render): (r: string)
    ensures |r| < size || (size == 0 && r == [])
    ensures '\0' !in r
  {
    var f := Resolve(t, v);
    if size == 0 then [] else Truncate(CStr(render(f.format, f.value)), size - 1)
  }

  /** spx_fmt_print_value: the text written, through a 16-char buffer. */
  function PrintValue(t: ValueType, v: real, render: Render): (r: string)
    ensures |r| <= 15
  {
    FormatValue(16, t, v, render)
  }

  // ---------------------------------------------------------------------
  // Value scaling

  /** Below the top band the number shown has at most three integer digits. */
  lemma ScaledBelowThousand(t: ValueType, v: real)
    requires t != Percentage && Abs(v) < 1000000000000.0
    requires t == Time ==> v >= 0.0
    ensures Abs(Resolve(t, v).value) < 1000.0
  {
  }

  /** Once a unit above the base is chosen the number shown is not below
    * one of it, except for memory: its bands start at decimal thresholds but
    * divide by powers of 1024, so 1000 bytes show as 0.98 KB and 10^9 bytes
    * as 0.93 GB. */
  lemma ScaledAtLeastOne(t: ValueType, v: real)
    requires t != Percentage && Abs(v) >= 1000.0
    requires t == Time ==> v >= 0.0
    ensures t != Memory ==> Abs(Resolve(t, v).value) >= 1.0
    ensures t == Memory ==> Abs(Resolve(t, v).value) >= 1000000000.0 / 1073741824.0
  {
  }

  lemma KilobyteBelowOneUnit()
    ensures ResolveMemory(1000.0) == Resolved("%6.1fKB", 1000.0 / 1024.0)
    ensures ResolveMemory(1000.0).value < 1.0
  {
  }

  /** Memory and quantities are scaled by magnitude and keep their sign. */
  lemma SignSymmetric(t: ValueType, v: real)
    requires t == Memory || t == Quantity
    ensures Resolve(t, -v).format == Resolve(t, v).format
    ensures Resolve(t, -v).value == -Resolve(t, v).value
    ensures (v < 0.0) == (Resolve(t, v).value < 0.0)
  {
  }

  /** No sign handling for times: a negative one is printed as nanoseconds. */
  lemma NegativeTimeUnscaled(v: real)
    requires v < 0.0
    ensures Resolve(Time, v) == Resolved("%6.fns", v)
  {
  }

  /** Scaling divides by a power of the unit step and nothing else: the
    * value shown times the divisor of its unit k is the value given. */
  lemma ScaledByUnit(t: ValueType, v: real) returns (k: nat)
    requires t != Percentage
    ensures k <= 3 && Resolve(t, v).value * UnitStep(t, k) == v
  {
    var m := Abs(v);
    k := if (t == Time && v < 0.0) || m < 1000.0 then 0
      else if m >= 1000000000.0 then 3 else if m >= 1000000.0 then 2 else 1;
    if k == 0 {
      Unscaled(t, v);
    } else {
      ScaledBy(t, v, k);
    }
  }

  lemma Unscaled(t: ValueType, v: real)
    requires t != Percentage
    requires (t == Time && v < 0.0) || Abs(v) < 1000.0
    ensures Resolve(t, v).value * UnitStep(t, 0) == v
  {
    assert Resolve(t, v).value == v;
  }

  lemma ScaledBy(t: ValueType, v: real, k: nat)
    requires t != Percentage && 1 <= k <= 3
    requires !(t == Time && v < 0.0)
    requires k == (if Abs(v) >= 1000000000.0 then 3 else if Abs(v) >= 1000000.0 then 2 else if Abs(v) >= 1000.0 then 1 else 0)
    ensures Resolve(t, v).value * UnitStep(t, k) == v
  {
    var d := UnitSteps(t, k);
    var m := Abs(v);
    var r := Resolve(t, v);
    if t == Time {
      assert r.value == v / d;
    } else if v < 0.0 {
      assert r.value == -(m / d);
    } else {
      assert r.value == m / d;
    }
  }

  /** The three divisors above the base unit. */
  lemma UnitSteps(t: ValueType, k: nat) returns (d: real)
    requires 1 <= k <= 3
    ensures d == UnitStep(t, k)
    ensures t == Memory ==> d == [1024.0, 1048576.0, 1073741824.0][k - 1]
    ensures t != Memory ==> d == [1000.0, 1000000.0, 1000000000.0][k - 1]
  {
    assert UnitStep(t, 1) == if t == Memory then 1024.0 else 1000.0;
    assert UnitStep(t, 2) == if t == Memory then 1048576.0 else 1000000.0;
    d := UnitStep(t, k);
  }

  /** The divisor of the k-th unit above the base one. */
  function UnitStep(t: ValueType, k: nat): (r: real)
    ensures r >= 1.0
  {
    if k == 0 then 1.0 else (if t == Memory then 1024.0 else 1000.0) * UnitStep(t, k - 1)
  }

  // ---------------------------------------------------------------------
  // Rows

  const RowMaxCells: nat := 16

  datatype Content = Text(text: string) | Number(kind: ValueType, value: real)

  /** A cell spans span columns; span 0 ends the row with its raw text. */
  datatype Cell = Cell(span: nat, ansi: Option<string>, content: Content)

  /** A colourless number cell of one column. */
  function NumberCell(t: ValueType, v: real): Cell
  {
    Cell(1, None, Number(t, v))
  }

  /** A colourless text cell. */
  function TextCell(span: nat, text: string): Cell
  {
    Cell(span, None, Text(text))
  }

  /** The text of a cell: a number is formatted into a 32-char buffer. */
  function CellText(c: Cell, render: Render): string
  {
    match c.content
    case Text(t) => CStr(t)
    case Number(k, v) => FormatValue(32, k, v, render)
  }

  /** The width of a cell of span s: s columns of 8 and the s - 1 gaps of 3. */
  function CellWidth(span: nat): nat
    requires span >= 1
  {
    span * 8 + (span - 1) * 3
  }

  function Spaces(n: nat): (r: string)
    ensures |r| == n && forall k :: 0 <= k < n ==> r[k] == ' '
  {
    if n == 0 then [] else Spaces(n - 1) + " "
  }

  /** printf's "%-W.Ws": cut to W chars, then padded on the right to W. */
  function Padded(t: string, w: nat): (r: string)
    ensures |r| == w
    ensures |t| <= w ==> r[..|t|] == t
    ensures |t| >= w ==> r == t[..w]
  {
    var u := Truncate(t, w);
    u + Spaces(w - |u|)
  }

  function Escape(): string { [27 as char] }

  /** One bounded cell: its colour, its padded text, its closing bar. */
  function CellBody(c: Cell, render: Render): string
    requires c.span >= 1
  {
    var w := Padded(CellText(c, render), CellWidth(c.span));
    if c.ansi.Some? then Escape() + "[" + CStr(c.ansi.value) + "m" + w + Escape() + "[0m |"
    else w + " |"
  }

  /** One cell behind its blank: a cell of span 0 is its raw text. */
  function CellPrinted(c: Cell, render: Render): string
  {
    " " + if c.span == 0 then CellText(c, render) else CellBody(c, render)
  }

  /** The cells from the first on; a cell of span 0 stops the row. */
  function CellsText(cells: seq<Cell>, render: Render): string
  {
    if cells == [] then []
    else CellPrinted(cells[0], render) + if cells[0].span == 0 then [] else CellsText(cells[1..], render)
  }

  /** spx_fmt_row_print's output. */
  function Line(cells: seq<Cell>, render: Render): string
  {
    CellsText(cells, render) + "\n"
  }

  function Dashes(span: nat): (r: string)
    ensures |r| == 11 * span
  {
    if span == 0 then [] else Dashes(span - 1) + "----------+"
  }

  function SepText(cells: seq<Cell>): string
  {
    if cells == [] then []
    else if cells[0].span == 0 then "----------"
    else Dashes(cells[0].span) + SepText(cells[1..])
  }

  /** spx_fmt_row_print_sep's output. */
  function SepLine(cells: seq<Cell>): string
  {
    SepText(cells) + "\n"
  }

  /** A rendering of doubles that never prints a newline. */
  ghost predicate PlainRender(render: Render)
  {
    forall f, v :: '\n' !in render(f, v)
  }

  /** A colourless cell whose text holds no newline. */
  predicate PlainCell(c: Cell)
  {
    c.ansi.None? && (c.content.Text? ==> '\n' !in c.content.text)
  }

  lemma CellTextPlain(c: Cell, render: Render)
    requires PlainRender(render) && PlainCell(c)
    ensures '\n' !in CellText(c, render)
  {
    match c.content
    case Text(t) =>
      PrefixAbsent(t, CStr(t), '\n');
    case Number(k, v) =>
      var f := Resolve(k, v);
      var u := CStr(render(f.format, f.value));
      PrefixAbsent(render(f.format, f.value), u, '\n');
      PrefixAbsent(u, Truncate(u, 31), '\n');
  }

  lemma CellPlain(c: Cell, render: Render)
    requires PlainRender(render) && PlainCell(c)
    ensures '\n' !in CellPrinted(c, render)
  {
    CellTextPlain(c, render);
    if c.span != 0 {
      var t := CellText(c, render);
      PrefixAbsent(t, Truncate(t, CellWidth(c.span)), '\n');
    }
  }

  /** A row of plain cells prints one line. */
  lemma {:induction false} CellsPlain(cells: seq<Cell>, render: Render)
    requires PlainRender(render) && forall k :: 0 <= k < |cells| ==> PlainCell(cells[k])
    ensures '\n' !in CellsText(cells, render)
    ensures Count(Line(cells, render), '\n') == 1
  {
    if cells != [] {
      CellPlain(cells[0], render);
      CellsPlain(cells[1..], render);
    }
    CountAbsent(CellsText(cells, render), '\n');
    CountAppend(CellsText(cells, render), "\n", '\n');
  }

  lemma {:induction false} DashesPlain(span: nat)
    ensures '\n' !in Dashes(span)
  {
    if span > 0 {
      DashesPlain(span - 1);
    }
  }

  /** A separator prints one line. */
  lemma {:induction false} SepPlain(cells: seq<Cell>)
    ensures '\n' !in SepText(cells)
    ensures Count(SepLine(cells), '\n') == 1
  {
    if cells != [] && cells[0].span != 0 {
      DashesPlain(cells[0].span);
      SepPlain(cells[1..]);
    }
    CountAbsent(SepText(cells), '\n');
    CountAppend(SepText(cells), "\n", '\n');
  }

  /** A cell without colour takes as many chars as its separator. */
  lemma CellAligned(c: Cell, render: Render)
    requires c.span >= 1 && c.ansi.None?
    ensures |CellPrinted(c, render)| == |Dashes(c.span)|
  {
  }

  /** A row of colourless bounded cells is exactly as long as its separator,
    * and each cell ends where its separator part does. */
  lemma {:induction false} RowAligned(cells: seq<Cell>, render: Render)
    requires forall k :: 0 <= k < |cells| ==> cells[k].span >= 1 && cells[k].ansi.None?
    ensures |Line(cells, render)| == |SepLine(cells)|
    ensures |CellsText(cells, render)| == |SepText(cells)|
  {
    if cells != [] {
      CellAligned(cells[0], render);
      RowAligned(cells[1..], render);
    }
  }

  /** Cells after one of span 0 are never printed. */
  lemma {:induction false} StopsAtOpenCell(cells: seq<Cell>, k: nat, render: Render)
    requires k < |cells| && cells[k].span == 0
    ensures CellsText(cells, render) == CellsText(cells[..k + 1], render)
    ensures SepText(cells) == SepText(cells[..k + 1])
  {
    if k > 0 {
      assert cells[1..][..k] == cells[..k + 1][1..];
      StopsAtOpenCell(cells[1..], k - 1, render);
    }
  }

  /** Bounded cells never stop the row: what follows them is printed after them. */
  lemma {:induction false} CellsTextAppend(a: seq<Cell>, b: seq<Cell>, render: Render)
    requires forall k :: 0 <= k < |a| ==> a[k].span >= 1
    ensures CellsText(a + b, render) == CellsText(a, render) + CellsText(b, render)
  {
    if a == [] {
      assert a + b == b;
    } else {
      assert (a + b)[0] == a[0] && (a + b)[1..] == a[1..] + b;
      CellsTextAppend(a[1..], b, render);
      AppendAssoc(CellPrinted(a[0], render), CellsText(a[1..], render), CellsText(b, render));
    }
  }

  /** Colourless cells of span 1 take 11 chars each, whatever they hold. */
  lemma {:induction false} UnitCellsWidth(cells: seq<Cell>, render: Render)
    requires forall k :: 0 <= k < |cells| ==> cells[k].span == 1 && cells[k].ansi.None?
    ensures |CellsText(cells, render)| == 11 * |cells|
  {
    if cells != [] {
      CellAligned(cells[0], render);
      UnitCellsWidth(cells[1..], render);
    }
  }

  /** The inner loop of spx_fmt_row_print_sep: one "----------+" per column. */
  method PrintDashes(span: nat) returns (out: string)
    ensures out == Dashes(span)
  {
    out := [];
    var j := 0;
    while j < span
      invariant 0 <= j <= span
      invariant out == Dashes(j)
    {
      out := out + "----------+";
      j := j + 1;
    }
  }

  lemma AppendAssoc(a: string, b: string, c: string)
    ensures a + (b + c) == (a + b) + c
  {
  }

  /** One turn of spx_fmt_row_print's loop: cell i is printed after text;
    * it stops the row when its span is 0. */
  method PrintCell(cs: seq<Cell>, i: nat, text: string, render: Render) returns (next: string, stop: bool)
    requires i < |cs| && text + CellsText(cs[i..], render) == CellsText(cs, render)
    ensures stop == (cs[i].span == 0)
    ensures stop ==> next == CellsText(cs, render)
    ensures !stop ==> next + CellsText(cs[i + 1..], render) == CellsText(cs, render)
  {
    assert cs[i..][1..] == cs[i + 1..];
    var piece := CellPrinted(cs[i], render);
    var rest := if cs[i].span == 0 then [] else CellsText(cs[i + 1..], render);
    assert CellsText(cs[i..], render) == piece + rest;
    AppendAssoc(text, piece, rest);
    next := text + piece;
    stop := cs[i].span == 0;
  }

  /** One turn of spx_fmt_row_print_sep's loop. */
  method PrintCellSep(cs: seq<Cell>, i: nat, text: string) returns (next: string, stop: bool)
    requires i < |cs| && text + SepText(cs[i..]) == SepText(cs)
    ensures stop == (cs[i].span == 0)
    ensures stop ==> next == SepText(cs)
    ensures !stop ==> next + SepText(cs[i + 1..]) == SepText(cs)
  {
    assert cs[i..][1..] == cs[i + 1..];
    var span := cs[i].span;
    if span == 0 {
      next := text + "----------";
      stop := true;
    } else {
      AppendAssoc(text, Dashes(span), SepText(cs[i + 1..]));
      var dashes := PrintDashes(span);
      next := text + dashes;
      stop := false;
    }
  }

  /** spx_fmt_row_print's loop over the cells, up to the first of span 0. */
  method PrintCells(cs: seq<Cell>, render: Render) returns (text: string)
    ensures text == CellsText(cs, render)
  {
    text := [];
    var i, stop := 0, false;
    while i < |cs| && !stop
      invariant 0 <= i <= |cs|
      invariant stop ==> text == CellsText(cs, render)
      invariant !stop ==> text + CellsText(cs[i..], render) == CellsText(cs, render)
    {
      text, stop := PrintCell(cs, i, text, render);
      i := i + 1;
    }
    if !stop {
      NothingLeft(cs, i, text, render);
    }
  }

  /** Once every cell is printed, the text is the row's. */
  lemma NothingLeft(cs: seq<Cell>, i: nat, text: string, render: Render)
    requires i == |cs| && text + CellsText(cs[i..], render) == CellsText(cs, render)
    ensures text == CellsText(cs, render)
  {
    assert cs[i..] == [];
    assert text + [] == text;
  }

  /** spx_fmt_row_print_sep's loop over the cells, up to the first of span 0. */
  method PrintSeps(cs: seq<Cell>) returns (text: string)
    ensures text == SepText(cs)
  {
    text := [];
    var i, stop := 0, false;
    while i < |cs| && !stop
      invariant 0 <= i <= |cs|
      invariant stop ==> text == SepText(cs)
      invariant !stop ==> text + SepText(cs[i..]) == SepText(cs)
    {
      text, stop := PrintCellSep(cs, i, text);
      i := i + 1;
    }
    if !stop {
      assert cs[i..] == [];
      assert text + [] == text;
    }
  }

  /** spx_fmt_row_t: a fixed array of 16 cells and the number in use. */
  class Row {
    const cells: array<Cell>
    var count: nat

    ghost predicate Valid()
      reads this
    {
      cells.Length == RowMaxCells && count <= RowMaxCells
    }

    function Cells(): (r: seq<Cell>)
      reads this, cells
      requires Valid()
      ensures |r| <= RowMaxCells
    {
      cells[..count]
    }

    constructor ()
      ensures Valid() && Cells() == []
      ensures fresh(cells)
    {
      cells := new Cell[RowMaxCells](_ => Cell(0, None, Text([])));
      count := 0;
    }

    /** spx_fmt_row_add_ncellf; the whole row is fatal (spx_utils_die). */
    method AddNumberCellColoured(span: nat, t: ValueType, v: real, ansi: Option<string>)
      returns (r: Result<()>)
      requires Valid()
      modifies this`count, cells
      ensures Valid()
      ensures old(count) == RowMaxCells <==> r.Err?
      ensures r.Err? ==> r.error == "ROW_MAX_CELLS exceeded\n" && Cells() == old(Cells())
      ensures r.Ok? ==> Cells() == old(Cells()) + [Cell(span, ansi, Number(t, v))]
    {
      if count == RowMaxCells {
        return Err("ROW_MAX_CELLS exceeded\n");
      }
      cells[count] := Cell(span, ansi, Number(t, v));
      count := count + 1;
      r := Ok(());
    }

    /** spx_fmt_row_add_ncell: a number cell without colour. */
    method AddNumberCell(span: nat, t: ValueType, v: real) returns (r: Result<()>)
      requires Valid()
      modifies this`count, cells
      ensures Valid()
      ensures old(count) == RowMaxCells <==> r.Err?
      ensures r.Err? ==> Cells() == old(Cells())
      ensures r.Ok? ==> Cells() == old(Cells()) + [Cell(span, None, Number(t, v))]
    {
      r := AddNumberCellColoured(span, t, v, None);
    }

    /** spx_fmt_row_add_tcell: a text cell, never coloured. */
    method AddTextCell(span: nat, text: string) returns (r: Result<()>)
      requires Valid()
      modifies this`count, cells
      ensures Valid()
      ensures old(count) == RowMaxCells <==> r.Err?
      ensures r.Err? ==> r.error == "ROW_MAX_CELLS exceeded\n" && Cells() == old(Cells())
      ensures r.Ok? ==> Cells() == old(Cells()) + [Cell(span, None, Text(text))]
    {
      if count == RowMaxCells {
        return Err("ROW_MAX_CELLS exceeded\n");
      }
      cells[count] := Cell(span, None, Text(text));
      count := count + 1;
      r := Ok(());
    }

    method Reset()
      requires Valid()
      modifies this`count
      ensures Valid() && Cells() == []
    {
      count := 0;
    }

    /** spx_fmt_row_print. */
    method Print(render: Render) returns (out: string)
      requires Valid()
      ensures out == Line(Cells(), render)
    {
      var text := PrintCells(Cells(), render);
      out := text + "\n";
    }

    /** spx_fmt_row_print_sep. */
    method PrintSep() returns (out: string)
      requires Valid()
      ensures out == SepLine(Cells())
    {
      var text := PrintSeps(Cells());
      out := text + "\n";
    }
  }
}
