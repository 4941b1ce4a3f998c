/**
 * The flat-profile reporter (src/spx_reporter_fp.c, and its older copy
 * spx_reporter_fp.c at the repository root). At the end of the script, and
 * at most every 70 ms while it runs in live mode, it prints the global
 * stats and a table of the functions that rank highest on the focus
 * metric, after moving the cursor back over the previous report.
 *
 * The source keeps the best `limit` entries while scanning the function
 * table by replacing the FIRST kept entry that ranks below the scanned one;
 * that keeps the wrong entries. SelectedAsWritten and SelectTopAsWritten
 * model that loop, MissesSecondBest shows what it loses, and the reporter
 * prints what it keeps; Selected and SelectTop are the corrected loop,
 * which replaces the weakest kept entry and keeps the best ones.
 */
module SpxReporterFp {
  import opened Wrappers
  import opened CStrings
  import opened MetricValues
  import opened SpxProfilerTypes
  import opened SpxReporting
  import opened SpxFmt
  import SpxMetric
  import SpxUtils
  import opened SpxStrBuilder

  /** A live report is redrawn once at least this many ms have passed. */
  const RefreshMs: nat := 70
  /** size_t arithmetic is modulo 2^64. */
  const SizeModulus: nat := 0x1_0000_0000_0000_0000
  /** The size of print_report's func_name buffer. */
  const FuncNameSize: nat := 256
  /** The width of "%-20s". */
  const LabelWidth: nat := 20

  // ---------------------------------------------------------------------
  // Ranking

  /**
   * What entry_cmp_r compares: the focus metric's inclusive then exclusive
   * value when the report focuses on inclusive costs, the other way round
   * otherwise.
   */
  datatype Key = Key(high: real, low: real)

  function KeyOf(en: FuncEntry, focus: nat, inc: bool): (k: Key)
    requires WellFormedEntry(en) && focus < SpxMetric.MetricCount
    ensures k.high == (if inc then en.stats.inc else en.stats.exc)[focus]
    ensures k.low == (if inc then en.stats.exc else en.stats.inc)[focus]
  {
    if inc then Key(en.stats.inc[focus], en.stats.exc[focus])
    else Key(en.stats.exc[focus], en.stats.inc[focus])
  }

  /** get_sort_func of the root copy: any focus it has no case for sorts by wall time. */
  function SortMetric(focus: nat): (m: nat)
    ensures m < SpxMetric.MetricCount
    ensures focus < SpxMetric.MetricCount ==> m == focus
  {
    if focus < SpxMetric.MetricCount then focus else SpxMetric.WallTime
  }

  /**
   * The root copy's comparators read one value: as a key with that value
   * twice, entry_cmp_r's comparison of the low values never decides.
   */
  function RootKeyOf(en: FuncEntry, focus: nat, inc: bool): (k: Key)
    requires WellFormedEntry(en)
  {
    var v := (if inc then en.stats.inc else en.stats.exc)[SortMetric(focus)];
    Key(v, v)
  }

  /** entry_cmp_r: positive when b ranks above a, the difference cut to an int. */
  function Cmp(a: Key, b: Key): int
  {
    if a.high != b.high then IntCast(b.high - a.high) else IntCast(b.low - a.low)
  }

  /** a ranks strictly above b: a larger high value, or the same and a larger low value. */
  predicate Beats(a: Key, b: Key)
  {
    a.high > b.high || (a.high == b.high && a.low > b.low)
  }

  predicate Integral(k: Key)
  {
    k.high == k.high.Floor as real && k.low == k.low.Floor as real
  }

  /** Both differences of a and b within an int: the casts are exact truncations. */
  predicate Fits(a: Key, b: Key)
  {
    -(IntMax as real + 1.0) < b.high - a.high < IntMax as real + 1.0
      && -(IntMax as real + 1.0) < b.low - a.low < IntMax as real + 1.0
  }

  /** Swapping the entries negates a positive comparison, and any comparison of keys that fit. */
  lemma CmpAntisymmetric(a: Key, b: Key)
    ensures Cmp(a, b) > 0 ==> Cmp(b, a) == -Cmp(a, b)
    ensures Fits(a, b) ==> Cmp(a, b) == -Cmp(b, a)
  {
  }

  /**
   * A positive comparison never ranks against the exact order; where the
   * differences fit an int, no comparison does, and on whole values
   * (times, bytes, counts) it is the exact order.
   */
  lemma CmpRanks(a: Key, b: Key)
    ensures Cmp(a, b) > 0 ==> Beats(b, a)
    ensures Fits(a, b) && Cmp(a, b) < 0 ==> Beats(a, b)
    ensures Fits(a, b) && Integral(a) && Integral(b) ==> (Cmp(a, b) > 0 <==> Beats(b, a))
  {
    if Fits(a, b) && Integral(a) && Integral(b) && Beats(b, a) {
      if a.high != b.high {
        assert b.high - a.high == (b.high.Floor - a.high.Floor) as real;
      } else {
        assert b.low - a.low == (b.low.Floor - a.low.Floor) as real;
      }
    }
  }

  /**
   * Past an int, the cast of the difference is INT_MIN: an entry 2^31
   * above another compares as ranking below it.
   */
  lemma WideGapMisranks()
    ensures var a, b := Key(0.0, 0.0), Key(2147483648.0, 0.0);
      Beats(b, a) && Cmp(a, b) < 0 && !Fits(a, b)
  {
  }

  /** Not being beaten is transitive: Beats is a strict weak order. */
  lemma NotBeatsTransitive(a: Key, b: Key, c: Key)
    ensures !Beats(a, b) && !Beats(b, c) ==> !Beats(a, c)
    ensures Beats(a, b) && !Beats(c, b) ==> Beats(a, c)
  {
  }

  /**
   * The root copy's order: where its single value differs it agrees with
   * entry_cmp_r of the same focus; it never looks at the other dimension.
   */
  lemma RootOrderAgrees(a: FuncEntry, b: FuncEntry, focus: nat, inc: bool)
    requires WellFormedEntry(a) && WellFormedEntry(b) && focus < SpxMetric.MetricCount
    ensures var ra, rb := RootKeyOf(a, focus, inc), RootKeyOf(b, focus, inc);
      && ra.high == KeyOf(a, focus, inc).high && rb.high == KeyOf(b, focus, inc).high
      && Cmp(ra, rb) == IntCast(rb.high - ra.high)
      && (ra.high != rb.high ==> Cmp(ra, rb) == Cmp(KeyOf(a, focus, inc), KeyOf(b, focus, inc)))
  {
  }

  // ---------------------------------------------------------------------
  // Keeping the best entries

  /** Every slot holds an index of ks. */
  predicate Slots(ks: seq<Key>, t: seq<nat>)
  {
    forall k :: 0 <= k < |t| ==> t[k] < |ks|
  }

  predicate Distinct(t: seq<nat>)
  {
    forall a, b :: 0 <= a < b < |t| ==> t[a] != t[b]
  }

  /** The first `lim` entries, which both selections start from. */
  function Indexes(n: nat): (r: seq<nat>)
    ensures |r| == n && forall k :: 0 <= k < n ==> r[k] == k
  {
    if n == 0 then [] else Indexes(n - 1) + [n - 1]
  }

  /** print_report's inner loop: the first slot from j on whose entry ranks below entry c. */
  function FirstBelow(ks: seq<Key>, t: seq<nat>, c: nat, j: nat): (r: Option<nat>)
    requires Slots(ks, t) && c < |ks|
    ensures r.Some? ==> j <= r.value < |t| && Cmp(ks[t[r.value]], ks[c]) > 0
    ensures r.Some? ==> forall k :: j <= k < r.value ==> Cmp(ks[t[k]], ks[c]) <= 0
    ensures r.None? ==> forall k :: j <= k < |t| ==> Cmp(ks[t[k]], ks[c]) <= 0
    decreases |t| - j
  {
    if j >= |t| then None
    else if Cmp(ks[t[j]], ks[c]) > 0 then Some(j)
    else FirstBelow(ks, t, c, j + 1)
  }

  function OfferAsWritten(ks: seq<Key>, t: seq<nat>, c: nat): seq<nat>
    requires Slots(ks, t) && c < |ks|
  {
    match FirstBelow(ks, t, c, 0)
    case None => t
    case Some(j) => t[j := c]
  }

  /**
   * The slots after print_report's selection loop (spx_reporter_fp.c) has
   * scanned the entries before i: lim distinct entries, all scanned.
   */
  function SelectedAsWritten(ks: seq<Key>, lim: nat, i: nat): (r: seq<nat>)
    requires lim <= i <= |ks|
    ensures |r| == lim && Distinct(r)
    ensures forall k :: 0 <= k < |r| ==> r[k] < i
    decreases i
  {
    if i == lim then Indexes(lim)
    else
      var t := SelectedAsWritten(ks, lim, i - 1);
      assert Slots(ks, t);
      OfferAsWritten(ks, t, i - 1)
  }

  /**
   * Keys 2, 1, 3 with two slots: the scan replaces the 2 (the first slot
   * below the 3) instead of the 1, so the report leaves out the entry of
   * key 2 while it shows the one of key 1.
   */
  lemma MissesSecondBest()
    ensures var ks := [Key(2.0, 0.0), Key(1.0, 0.0), Key(3.0, 0.0)];
      && SelectedAsWritten(ks, 2, 3) == [2, 1]
      && 0 !in SelectedAsWritten(ks, 2, 3) && Beats(ks[0], ks[1])
  {
    var ks := [Key(2.0, 0.0), Key(1.0, 0.0), Key(3.0, 0.0)];
    assert SelectedAsWritten(ks, 2, 2) == [0, 1];
    assert Cmp(ks[0], ks[2]) == 1;
    assert FirstBelow(ks, [0, 1], 2, 0) == Some(0);
  }

  /** Entry x ranks above none of the entries in t. */
  predicate NoneBelow(ks: seq<Key>, t: seq<nat>, x: nat)
    requires Slots(ks, t) && x < |ks|
  {
    forall k :: 0 <= k < |t| ==> !Beats(ks[x], ks[t[k]])
  }

  /** The first slot whose entry ranks above no other kept entry: the one to give up. */
  function Weakest(ks: seq<Key>, t: seq<nat>): (w: nat)
    requires |t| >= 1 && Slots(ks, t)
    ensures w < |t|
  {
    if |t| == 1 then 0
    else
      var w := Weakest(ks, t[..|t| - 1]);
      var last := |t| - 1;
      if Beats(ks[t[w]], ks[t[last]]) then last else w
  }

  /** The weakest slot's entry ranks above none of the kept entries. */
  lemma {:induction false} WeakestRanksLowest(ks: seq<Key>, t: seq<nat>)
    requires |t| >= 1 && Slots(ks, t)
    ensures NoneBelow(ks, t, t[Weakest(ks, t)])
  {
    if |t| > 1 {
      var last := |t| - 1;
      var p := t[..last];
      WeakestRanksLowest(ks, p);
      var w := Weakest(ks, p);
      assert forall k :: 0 <= k < last ==> p[k] == t[k];
      forall k | 0 <= k < |t|
        ensures !Beats(ks[t[Weakest(ks, t)]], ks[t[k]])
      {
        if k < last {
          assert !Beats(ks[t[w]], ks[p[k]]);
          if Beats(ks[t[w]], ks[t[last]]) {
            NotBeatsTransitive(ks[t[w]], ks[t[last]], ks[t[k]]);
          }
        }
      }
    }
  }

  /** Entry c takes the weakest slot if it ranks above the entry there. */
  function Offer(ks: seq<Key>, t: seq<nat>, c: nat): seq<nat>
    requires Slots(ks, t) && c < |ks|
  {
    if t == [] then t
    else
      var w := Weakest(ks, t);
      if Beats(ks[c], ks[t[w]]) then t[w := c] else t
  }

  /** The slots once the corrected selection has scanned the entries before i. */
  function Selected(ks: seq<Key>, lim: nat, i: nat): (r: seq<nat>)
    requires lim <= i <= |ks|
    ensures |r| == lim
    ensures forall k :: 0 <= k < |r| ==> r[k] < i
    decreases i
  {
    if i == lim then Indexes(lim)
    else
      var t := Selected(ks, lim, i - 1);
      assert Slots(ks, t);
      Offer(ks, t, i - 1)
  }

  /** t keeps distinct entries among the first i, and none of those left out ranks above a kept one. */
  predicate IsTop(ks: seq<Key>, t: seq<nat>, i: nat)
    requires i <= |ks|
  {
    && Distinct(t) && (forall k :: 0 <= k < |t| ==> t[k] < i)
    && forall x :: 0 <= x < i && x !in t ==> NoneBelow(ks, t, x)
  }

  /** The corrected selection keeps the best lim entries. */
  lemma {:induction false} SelectedIsTop(ks: seq<Key>, lim: nat, i: nat)
    requires lim <= i <= |ks|
    ensures IsTop(ks, Selected(ks, lim, i), i)
    decreases i
  {
    if i == lim {
      IndexesTop(ks, lim);
    } else {
      var t := Selected(ks, lim, i - 1);
      SelectedIsTop(ks, lim, i - 1);
      OfferKeepsTop(ks, t, i - 1);
      SelectedStep(ks, lim, i);
    }
  }

  lemma SelectedStep(ks: seq<Key>, lim: nat, i: nat)
    requires lim < i <= |ks|
    ensures Slots(ks, Selected(ks, lim, i - 1))
    ensures Selected(ks, lim, i) == Offer(ks, Selected(ks, lim, i - 1), i - 1)
  {
  }

  lemma IndexesTop(ks: seq<Key>, lim: nat)
    requires lim <= |ks|
    ensures IsTop(ks, Indexes(lim), lim)
  {
    var t := Indexes(lim);
    forall x | 0 <= x < lim
      ensures x in t
    {
      assert t[x] == x;
    }
  }

  /** One offer: the best entries among the first c + 1 remain kept. */
  lemma OfferKeepsTop(ks: seq<Key>, t: seq<nat>, c: nat)
    requires c < |ks| && IsTop(ks, t, c)
    ensures Slots(ks, t) && IsTop(ks, Offer(ks, t, c), c + 1)
  {
    assert c !in t;
    if t != [] {
      var w := Weakest(ks, t);
      WeakestRanksLowest(ks, t);
      if Beats(ks[c], ks[t[w]]) {
        OfferTaken(ks, t, c, w);
      } else {
        assert NoneBelow(ks, t, c) by {
          forall k | 0 <= k < |t|
            ensures !Beats(ks[c], ks[t[k]])
          {
            assert !Beats(ks[t[w]], ks[t[k]]);
            NotBeatsTransitive(ks[c], ks[t[w]], ks[t[k]]);
          }
        }
      }
    }
  }

  lemma OfferTaken(ks: seq<Key>, t: seq<nat>, c: nat, w: nat)
    requires c < |ks| && IsTop(ks, t, c) && t != []
    requires w == Weakest(ks, t) && Beats(ks[c], ks[t[w]])
    ensures IsTop(ks, t[w := c], c + 1)
  {
    TakenDistinct(t, c, w);
    var u := t[w := c];
    assert forall k :: 0 <= k < |u| ==> u[k] < c + 1;
    forall x | 0 <= x < c + 1 && x !in u
      ensures NoneBelow(ks, u, x)
    {
      TakenRanks(ks, t, c, w, x);
    }
  }

  lemma TakenDistinct(t: seq<nat>, c: nat, w: nat)
    requires Distinct(t) && w < |t| && forall k :: 0 <= k < |t| ==> t[k] < c
    ensures Distinct(t[w := c])
  {
    var u := t[w := c];
    forall a, b | 0 <= a < b < |u|
      ensures u[a] != u[b]
    {
      if a != w && b != w {
        assert u[a] == t[a] && u[b] == t[b];
      }
    }
  }

  /** A left-out entry ranks above none of the kept ones after the swap. */
  lemma TakenRanks(ks: seq<Key>, t: seq<nat>, c: nat, w: nat, x: nat)
    requires c < |ks| && IsTop(ks, t, c) && t != []
    requires w == Weakest(ks, t) && Beats(ks[c], ks[t[w]])
    requires x < c + 1 && x !in t[w := c]
    ensures NoneBelow(ks, t[w := c], x)
  {
    var u := t[w := c];
    WeakestRanksLowest(ks, t);
    assert u[w] == c;
    assert x != c;
    if x == t[w] {
      forall k | 0 <= k < |u|
        ensures !Beats(ks[x], ks[u[k]])
      {
        if k != w {
          assert u[k] == t[k];
        }
      }
    } else {
      assert x !in t by {
        forall j | 0 <= j < |t|
          ensures t[j] != x
        {
          if j != w {
            assert u[j] == t[j];
          }
        }
      }
      assert NoneBelow(ks, t, x);
      forall k | 0 <= k < |u|
        ensures !Beats(ks[x], ks[u[k]])
      {
        if k == w {
          NotBeatsTransitive(ks[x], ks[t[w]], ks[c]);
        } else {
          assert u[k] == t[k];
        }
      }
    }
  }

  // ---------------------------------------------------------------------
  // Sorting

  /** Adjacent entries in entry_cmp_r order: none ranks below its successor. */
  predicate Descending(ks: seq<Key>, r: seq<nat>)
    requires Slots(ks, r)
  {
    forall k :: 0 <= k < |r| - 1 ==> Cmp(ks[r[k]], ks[r[k + 1]]) <= 0
  }

  /** An entry in front of a descending run that it does not rank below. */
  lemma ConsDescending(ks: seq<Key>, a: nat, r: seq<nat>)
    requires a < |ks| && Slots(ks, r) && Descending(ks, r)
    requires r != [] ==> Cmp(ks[a], ks[r[0]]) <= 0
    ensures Slots(ks, [a] + r) && Descending(ks, [a] + r)
  {
    var u := [a] + r;
    forall k | 0 <= k < |u| - 1
      ensures Cmp(ks[u[k]], ks[u[k + 1]]) <= 0
    {
      if k > 0 {
        assert u[k] == r[k - 1] && u[k + 1] == r[k];
      }
    }
  }

  /** x placed in front of the first entry of s it does not rank below. */
  function Insert(ks: seq<Key>, x: nat, s: seq<nat>): (r: seq<nat>)
    requires x < |ks| && Slots(ks, s)
    ensures multiset(r) == multiset(s) + multiset{x}
  {
    if s == [] then [x]
    else if Cmp(ks[x], ks[s[0]]) <= 0 then [x] + s
    else
      assert s == [s[0]] + s[1..];
      [s[0]] + Insert(ks, x, s[1..])
  }

  /** Inserting into a descending run keeps it descending. */
  lemma {:induction false} InsertDescending(ks: seq<Key>, x: nat, s: seq<nat>)
    requires x < |ks| && Slots(ks, s) && Descending(ks, s)
    ensures Slots(ks, Insert(ks, x, s)) && Descending(ks, Insert(ks, x, s))
    ensures Insert(ks, x, s)[0] == x || (s != [] && Insert(ks, x, s)[0] == s[0])
  {
    InsertSlots(ks, x, s);
    if s != [] {
      if Cmp(ks[x], ks[s[0]]) <= 0 {
        ConsDescending(ks, x, s);
      } else {
        CmpAntisymmetric(ks[x], ks[s[0]]);
        var t := s[1..];
        assert Slots(ks, t) && Descending(ks, t) by {
          assert forall k :: 0 <= k < |t| ==> t[k] == s[k + 1];
        }
        InsertDescending(ks, x, t);
        InsertSlots(ks, x, t);
        ConsDescending(ks, s[0], Insert(ks, x, t));
      }
    }
  }

  lemma InsertSlots(ks: seq<Key>, x: nat, s: seq<nat>)
    requires x < |ks| && Slots(ks, s)
    ensures Slots(ks, Insert(ks, x, s)) && |Insert(ks, x, s)| == |s| + 1
  {
    var r := Insert(ks, x, s);
    assert |r| == |multiset(r)| == |s| + 1;
    forall k | 0 <= k < |r|
      ensures r[k] < |ks|
    {
      assert r[k] in multiset(r);
    }
  }

  /**
   * qsort of the kept entries with the same comparison: what qsort leaves
   * among equally ranked entries is unspecified, and insertion is one
   * order it may leave.
   */
  function Ordered(ks: seq<Key>, s: seq<nat>): (r: seq<nat>)
    requires Slots(ks, s)
    ensures Slots(ks, r) && Descending(ks, r)
    ensures multiset(r) == multiset(s) && |r| == |s|
  {
    if s == [] then []
    else
      assert s == [s[0]] + s[1..];
      var r := Ordered(ks, s[1..]);
      InsertDescending(ks, s[0], r);
      Insert(ks, s[0], r)
  }

  // ---------------------------------------------------------------------
  // The report

  /** "  %-20s: ": a label padded to 20 chars, never cut. */
  function Label(name: string): (r: string)
    ensures |r| == 4 + (if |name| < LabelWidth then LabelWidth else |name|)
    ensures r[..2 + |name|] == "  " + name && r[|r| - 2..] == ": "
    ensures forall k :: 2 + |name| <= k < |r| - 2 ==> r[k] == ' '
  {
    var pad := if |name| < LabelWidth then Spaces(LabelWidth - |name|) else [];
    var r := "  " + name + pad + ": ";
    assert r[..2 + |name|] == "  " + name;
    r
  }

  /** One line of the global stats. */
  function StatLine(name: string, value: string): string
  {
    Label(name) + value + "\n"
  }

  /** The peak of every enabled metric from i on, one line each. */
  function MaxLines(enabled: seq<bool>, max: Vec, i: nat, render: Render): string
    requires SpxMetric.Metrics(enabled) && Sized(max)
    decreases |enabled| - i
  {
    if i >= |enabled| then []
    else
      var line := if enabled[i] then StatLine(SpxMetric.MetricsInfo[i].name, PrintValue(MetricType(i), max[i], render)) else [];
      line + MaxLines(enabled, max, i + 1, render)
  }

  /** "\n*** SPX Report ***\n\nGlobal stats:\n\n", line by line. */
  const Banner: string := "\n" + "*** SPX Report ***" + "\n\n" + "Global stats:" + "\n\n"
  /** "\nFlat profile:\n\n". */
  const FlatTitle: string := "\n" + "Flat profile:" + "\n\n"

  /** The number of distinct functions, with a "+" once the function table is full. */
  function DistinctLine(n: nat, render: Render): string
  {
    Label("Distinct functions") + PrintValue(Quantity, n as real, render)
      + (if n == FuncTableCapacity then "+" else "") + "\n\n"
  }

  /** Everything print_report writes before the table. */
  function GlobalStats(e: Event, render: Render): string
    requires WellFormed(e)
  {
    Banner + StatLine("Called functions", PrintValue(Quantity, e.called as real, render))
      + DistinctLine(|e.functions|, render) + MaxLines(e.enabledMetrics, e.max, 0, render) + FlatTitle
  }

  /** The table's first row: each enabled metric's name over its two columns. */
  function NameCells(enabled: seq<bool>, i: nat): seq<Cell>
    requires SpxMetric.Metrics(enabled)
    decreases |enabled| - i
  {
    if i >= |enabled| then []
    else (if enabled[i] then [TextCell(2, SpxMetric.MetricsInfo[i].name)] else []) + NameCells(enabled, i + 1)
  }

  /** The titles of the enabled metrics' columns from i on; the sorted one is starred. */
  function TitleCells(enabled: seq<bool>, focus: nat, inc: bool, i: nat): seq<Cell>
    requires SpxMetric.Metrics(enabled)
    decreases |enabled| - i
  {
    if i >= |enabled| then []
    else
      var incTitle := if i == focus && inc then "*Inc." else "Inc.";
      var excTitle := if i == focus && !inc then "*Exc." else "Exc.";
      var titles := if enabled[i] then [TextCell(1, incTitle), TextCell(1, excTitle)] else [];
      titles + TitleCells(enabled, focus, inc, i + 1)
  }

  /** The table's second row. */
  function ColumnCells(enabled: seq<bool>, focus: nat, inc: bool): seq<Cell>
    requires SpxMetric.Metrics(enabled)
  {
    TitleCells(enabled, focus, inc, 0) + [TextCell(1, "Called"), TextCell(0, "Function")]
  }

  /** The table's head: both rows and the separator of the second. */
  function TableHead(enabled: seq<bool>, focus: nat, inc: bool, render: Render): string
    requires SpxMetric.Metrics(enabled)
  {
    var columns := ColumnCells(enabled, focus, inc);
    Line(NameCells(enabled, 0), render) + Line(columns, render) + SepLine(columns)
  }

  /** A value relative to the metric's peak; a peak of 0 is taken to show 0. */
  function Ratio(x: real, peak: real): real
  {
    if peak == 0.0 then 0.0 else x / peak
  }

  /** The enabled metrics' inclusive and exclusive cells of an entry, absolute or relative. */
  function ValueCells(en: FuncEntry, e: Event, rel: bool, i: nat): seq<Cell>
    requires WellFormed(e) && WellFormedEntry(en)
    decreases |e.enabledMetrics| - i
  {
    if i >= |e.enabledMetrics| then []
    else
      var t := if rel then Percentage else MetricType(i);
      var inc := if rel then Ratio(en.stats.inc[i], e.max[i]) else en.stats.inc[i];
      var exc := if rel then Ratio(en.stats.exc[i], e.max[i]) else en.stats.exc[i];
      var cells := if e.enabledMetrics[i] then [NumberCell(t, inc), NumberCell(t, exc)] else [];
      cells + ValueCells(en, e, rel, i + 1)
  }

  /** "%s%s%s" of class_name, call_type and func_name, cut to what func_name holds. */
  function FuncName(f: PhpFunction): (r: string)
    ensures |r| < FuncNameSize
  {
    SpxUtils.Truncate(CStr(f.className) + CStr(f.callType) + CStr(f.funcName), FuncNameSize - 1)
  }

  function RowCells(en: FuncEntry, e: Event, rel: bool): seq<Cell>
    requires WellFormed(e) && WellFormedEntry(en)
  {
    ValueCells(en, e, rel, 0) + [NumberCell(Quantity, en.stats.called as real), TextCell(0, FuncName(en.func))]
  }

  /** The printed row of an entry. */
  function RowText(en: FuncEntry, e: Event, rel: bool, render: Render): string
    requires WellFormed(e) && WellFormedEntry(en)
  {
    Line(RowCells(en, e, rel), render)
  }

  /** The rows of the entries at the given positions of the function table, in that order. */
  function Rows(e: Event, order: seq<nat>, rel: bool, render: Render): string
    requires WellFormed(e) && forall k :: 0 <= k < |order| ==> order[k] < |e.functions|
  {
    if order == [] then []
    else
      var last := order[|order| - 1];
      Rows(e, order[..|order| - 1], rel, render) + RowText(e.functions[last], e, rel, render)
  }

  /** The key of every entry of the function table. */
  function Keys(fs: seq<FuncEntry>, focus: nat, inc: bool, singleKey: bool): (ks: seq<Key>)
    requires forall k :: 0 <= k < |fs| ==> WellFormedEntry(fs[k])
    requires singleKey || focus < SpxMetric.MetricCount
    ensures |ks| == |fs|
    ensures forall k :: 0 <= k < |fs| ==> ks[k] == (if singleKey then RootKeyOf(fs[k], focus, inc) else KeyOf(fs[k], focus, inc))
  {
    if fs == [] then []
    else
      var en := fs[|fs| - 1];
      Keys(fs[..|fs| - 1], focus, inc, singleKey) + [if singleKey then RootKeyOf(en, focus, inc) else KeyOf(en, focus, inc)]
  }

  /**
   * The entries the report shows, in entry_cmp_r order: print_report's
   * selection of limit entries as written, sorted.
   */
  function Shown(ks: seq<Key>, limit: nat): (order: seq<nat>)
    ensures |order| == Min(limit, |ks|) && Slots(ks, order) && Descending(ks, order)
    ensures multiset(order) == multiset(SelectedAsWritten(ks, Min(limit, |ks|), |ks|))
  {
    var lim := Min(limit, |ks|);
    var sel := SelectedAsWritten(ks, lim, |ks|);
    assert Slots(ks, sel);
    Ordered(ks, sel)
  }

  /** Two entries already in entry_cmp_r order are left as they are. */
  lemma OrderedPair(ks: seq<Key>, x: nat, y: nat)
    requires x < |ks| && y < |ks| && Cmp(ks[x], ks[y]) <= 0
    ensures Ordered(ks, [x, y]) == [x, y]
  {
    assert [x, y][1..] == [y];
    assert Ordered(ks, [y]) == [y];
  }

  /** Keys 2, 1, 3 with a limit of 2: the report shows the entries of keys 3 and 1, in that order. */
  lemma ShownMissesSecondBest()
    ensures Shown([Key(2.0, 0.0), Key(1.0, 0.0), Key(3.0, 0.0)], 2) == [2, 1]
  {
    var ks := [Key(2.0, 0.0), Key(1.0, 0.0), Key(3.0, 0.0)];
    MissesSecondBest();
    assert Cmp(ks[2], ks[1]) == -2;
    OrderedPair(ks, 2, 1);
  }

  /** print_report's output: nothing for an empty function table. */
  function Report(e: Event, ks: seq<Key>, limit: nat, focus: nat, inc: bool, rel: bool, render: Render): string
    requires WellFormed(e) && |ks| == |e.functions|
  {
    if e.functions == [] then []
    else
      var table := TableHead(e.enabledMetrics, focus, inc, render) + Rows(e, Shown(ks, limit), rel, render);
      GlobalStats(e, render) + table + "\n"
  }

  /** print_report's line count. */
  function ReportLines(e: Event, limit: nat): nat
  {
    if e.functions == [] then 0
    else 15 + |EnabledFrom(e.enabledMetrics, 0)| + Min(limit, |e.functions|)
  }

  // ---------------------------------------------------------------------
  // Line count

  /** A function name that holds no newline. */
  predicate PlainName(f: PhpFunction)
  {
    '\n' !in f.className && '\n' !in f.callType && '\n' !in f.funcName
  }

  predicate PlainFunctions(e: Event)
  {
    forall k :: 0 <= k < |e.functions| ==> PlainName(e.functions[k].func)
  }

  lemma NewlinesCounted()
    ensures SpxUtils.Count("\n", '\n') == 1 && SpxUtils.Count("\n\n", '\n') == 2
  {
    assert "\n\n"[..1] == "\n";
    assert "\n"[..0] == [];
  }

  lemma FixedTextsCounted()
    ensures SpxUtils.Count(Banner, '\n') == 5 && SpxUtils.Count(FlatTitle, '\n') == 3
  {
    NewlinesCounted();
    var report, stats := "*** SPX Report ***", "Global stats:";
    SpxUtils.CountAbsent(report, '\n');
    SpxUtils.CountAbsent(stats, '\n');
    SpxUtils.CountAppend("\n", report, '\n');
    SpxUtils.CountAppend("\n" + report, "\n\n", '\n');
    SpxUtils.CountAppend("\n" + report + "\n\n", stats, '\n');
    SpxUtils.CountAppend("\n" + report + "\n\n" + stats, "\n\n", '\n');
    var flat := "Flat profile:";
    SpxUtils.CountAbsent(flat, '\n');
    SpxUtils.CountAppend("\n", flat, '\n');
    SpxUtils.CountAppend("\n" + flat, "\n\n", '\n');
  }

  lemma MetricNamesPlain(i: nat)
    requires i < SpxMetric.MetricCount
    ensures '\n' !in SpxMetric.MetricsInfo[i].name
  {
    SpxMetric.NamePrintable(i);
  }

  lemma LabelPlain(name: string, value: string)
    requires '\n' !in name && '\n' !in value
    ensures '\n' !in Label(name) + value
  {
    var pad := if |name| < LabelWidth then Spaces(LabelWidth - |name|) else [];
    assert Label(name) + value == "  " + name + pad + ": " + value;
  }

  lemma ValuePlain(t: ValueType, v: real, render: Render)
    requires PlainRender(render)
    ensures '\n' !in PrintValue(t, v, render)
  {
    CellTextPlain(Cell(1, None, Number(t, v)), render);
    var f := Resolve(t, v);
    var u := CStr(render(f.format, f.value));
    SpxUtils.PrefixAbsent(render(f.format, f.value), u, '\n');
    SpxUtils.PrefixAbsent(u, SpxUtils.Truncate(u, 15), '\n');
  }

  /** A stat line is one line. */
  lemma StatLineCounted(name: string, value: string)
    requires '\n' !in name && '\n' !in value
    ensures SpxUtils.Count(StatLine(name, value), '\n') == 1
  {
    LabelPlain(name, value);
    SpxUtils.CountAbsent(Label(name) + value, '\n');
    SpxUtils.CountAppend(Label(name) + value, "\n", '\n');
  }

  lemma DistinctLineCounted(n: nat, render: Render)
    requires PlainRender(render)
    ensures SpxUtils.Count(DistinctLine(n, render), '\n') == 2
  {
    var v := PrintValue(Quantity, n as real, render);
    ValuePlain(Quantity, n as real, render);
    var plus: string := if n == FuncTableCapacity then "+" else "";
    var w := v + plus;
    assert '\n' !in w;
    LabelPlain("Distinct functions", w);
    assert DistinctLine(n, render) == (Label("Distinct functions") + w) + "\n\n";
    SpxUtils.CountAbsent(Label("Distinct functions") + w, '\n');
    SpxUtils.CountAppend(Label("Distinct functions") + w, "\n\n", '\n');
  }

  lemma {:induction false} MaxLinesCounted(enabled: seq<bool>, max: Vec, i: nat, render: Render)
    requires SpxMetric.Metrics(enabled) && Sized(max) && PlainRender(render)
    ensures SpxUtils.Count(MaxLines(enabled, max, i, render), '\n') == |EnabledFrom(enabled, i)|
    decreases |enabled| - i
  {
    if i < |enabled| {
      MaxLinesCounted(enabled, max, i + 1, render);
      var rest := MaxLines(enabled, max, i + 1, render);
      if enabled[i] {
        var v := PrintValue(MetricType(i), max[i], render);
        MetricNamesPlain(i);
        ValuePlain(MetricType(i), max[i], render);
        StatLineCounted(SpxMetric.MetricsInfo[i].name, v);
        SpxUtils.CountAppend(StatLine(SpxMetric.MetricsInfo[i].name, v), rest, '\n');
      } else {
        assert MaxLines(enabled, max, i, render) == rest;
      }
    }
  }

  /** The global stats: the banner, two lines, a line per enabled metric, the table's title. */
  lemma GlobalStatsCounted(e: Event, render: Render)
    requires WellFormed(e) && PlainRender(render)
    ensures SpxUtils.Count(GlobalStats(e, render), '\n') == 11 + |EnabledFrom(e.enabledMetrics, 0)|
  {
    var called := StatLine("Called functions", PrintValue(Quantity, e.called as real, render));
    var distinct := DistinctLine(|e.functions|, render);
    var maxes := MaxLines(e.enabledMetrics, e.max, 0, render);
    FixedTextsCounted();
    ValuePlain(Quantity, e.called as real, render);
    StatLineCounted("Called functions", PrintValue(Quantity, e.called as real, render));
    DistinctLineCounted(|e.functions|, render);
    MaxLinesCounted(e.enabledMetrics, e.max, 0, render);
    SpxUtils.CountAppend(Banner, called, '\n');
    SpxUtils.CountAppend(Banner + called, distinct, '\n');
    SpxUtils.CountAppend(Banner + called + distinct, maxes, '\n');
    SpxUtils.CountAppend(Banner + called + distinct + maxes, FlatTitle, '\n');
  }

  lemma {:induction false} NameCellsPlain(enabled: seq<bool>, i: nat)
    requires SpxMetric.Metrics(enabled)
    ensures forall k :: 0 <= k < |NameCells(enabled, i)| ==> PlainCell(NameCells(enabled, i)[k])
    decreases |enabled| - i
  {
    if i < |enabled| {
      NameCellsPlain(enabled, i + 1);
      if enabled[i] {
        MetricNamesPlain(i);
      }
    }
  }

  lemma {:induction false} TitleCellsPlain(enabled: seq<bool>, focus: nat, inc: bool, i: nat)
    requires SpxMetric.Metrics(enabled)
    ensures forall k :: 0 <= k < |TitleCells(enabled, focus, inc, i)| ==> PlainCell(TitleCells(enabled, focus, inc, i)[k])
    decreases |enabled| - i
  {
    if i < |enabled| {
      TitleCellsPlain(enabled, focus, inc, i + 1);
    }
  }

  lemma TableHeadCounted(enabled: seq<bool>, focus: nat, inc: bool, render: Render)
    requires SpxMetric.Metrics(enabled) && PlainRender(render)
    ensures SpxUtils.Count(TableHead(enabled, focus, inc, render), '\n') == 3
  {
    var names, columns := NameCells(enabled, 0), ColumnCells(enabled, focus, inc);
    NameCellsPlain(enabled, 0);
    TitleCellsPlain(enabled, focus, inc, 0);
    assert forall k :: 0 <= k < |columns| ==> PlainCell(columns[k]);
    CellsPlain(names, render);
    CellsPlain(columns, render);
    SepPlain(columns);
    SpxUtils.CountAppend(Line(names, render), Line(columns, render), '\n');
    SpxUtils.CountAppend(Line(names, render) + Line(columns, render), SepLine(columns), '\n');
  }

  lemma {:induction false} ValueCellsPlain(en: FuncEntry, e: Event, rel: bool, i: nat)
    requires WellFormed(e) && WellFormedEntry(en)
    ensures forall k :: 0 <= k < |ValueCells(en, e, rel, i)| ==> PlainCell(ValueCells(en, e, rel, i)[k])
    decreases |e.enabledMetrics| - i
  {
    if i < |e.enabledMetrics| {
      ValueCellsPlain(en, e, rel, i + 1);
    }
  }

  /** A row is one line. */
  lemma RowCounted(en: FuncEntry, e: Event, rel: bool, render: Render)
    requires WellFormed(e) && WellFormedEntry(en) && PlainRender(render) && PlainName(en.func)
    ensures SpxUtils.Count(Line(RowCells(en, e, rel), render), '\n') == 1
  {
    var f := en.func;
    SpxUtils.PrefixAbsent(f.className, CStr(f.className), '\n');
    SpxUtils.PrefixAbsent(f.callType, CStr(f.callType), '\n');
    SpxUtils.PrefixAbsent(f.funcName, CStr(f.funcName), '\n');
    var full := CStr(f.className) + CStr(f.callType) + CStr(f.funcName);
    assert '\n' !in full;
    SpxUtils.PrefixAbsent(full, FuncName(f), '\n');
    ValueCellsPlain(en, e, rel, 0);
    var cells := RowCells(en, e, rel);
    assert forall k :: 0 <= k < |cells| ==> PlainCell(cells[k]);
    CellsPlain(cells, render);
  }

  lemma {:induction false} RowsCounted(e: Event, order: seq<nat>, rel: bool, render: Render)
    requires WellFormed(e) && PlainRender(render) && PlainFunctions(e)
    requires forall k :: 0 <= k < |order| ==> order[k] < |e.functions|
    ensures SpxUtils.Count(Rows(e, order, rel, render), '\n') == |order|
  {
    if order != [] {
      var last := order[|order| - 1];
      RowsCounted(e, order[..|order| - 1], rel, render);
      RowCounted(e.functions[last], e, rel, render);
      SpxUtils.CountAppend(Rows(e, order[..|order| - 1], rel, render), Line(RowCells(e.functions[last], e, rel), render), '\n');
    }
  }

  /**
   * The line count print_report returns is the number of lines its report
   * takes, so the next refresh moves the cursor back exactly over it; this
   * holds as long as no function name and no printed number holds a newline.
   */
  lemma ReportLinesCounted(e: Event, ks: seq<Key>, limit: nat, focus: nat, inc: bool, rel: bool, render: Render)
    requires WellFormed(e) && |ks| == |e.functions| && PlainRender(render) && PlainFunctions(e)
    ensures SpxUtils.Count(Report(e, ks, limit, focus, inc, rel, render), '\n') == ReportLines(e, limit)
  {
    if e.functions != [] {
      var order := Shown(ks, limit);
      var head := TableHead(e.enabledMetrics, focus, inc, render);
      var rows := Rows(e, order, rel, render);
      GlobalStatsCounted(e, render);
      TableHeadCounted(e.enabledMetrics, focus, inc, render);
      RowsCounted(e, order, rel, render);
      SpxUtils.CountAppend(head, rows, '\n');
      SpxUtils.CountAppend(GlobalStats(e, render), head + rows, '\n');
      SpxUtils.CountAppend(GlobalStats(e, render) + (head + rows), "\n", '\n');
    }
  }

  // ---------------------------------------------------------------------
  // Layout

  lemma {:induction false} TitleCellsShape(enabled: seq<bool>, focus: nat, inc: bool, i: nat)
    requires SpxMetric.Metrics(enabled)
    ensures var ts := TitleCells(enabled, focus, inc, i);
      |ts| == 2 * |EnabledFrom(enabled, i)| && forall k :: 0 <= k < |ts| ==> ts[k].span == 1
    decreases |enabled| - i
  {
    if i < |enabled| {
      TitleCellsShape(enabled, focus, inc, i + 1);
    }
  }

  lemma {:induction false} ValueCellsShape(en: FuncEntry, e: Event, rel: bool, i: nat)
    requires WellFormed(e) && WellFormedEntry(en)
    ensures var vs := ValueCells(en, e, rel, i);
      |vs| == 2 * |EnabledFrom(e.enabledMetrics, i)| && forall k :: 0 <= k < |vs| ==> vs[k].span == 1
    decreases |e.enabledMetrics| - i
  {
    if i < |e.enabledMetrics| {
      ValueCellsShape(en, e, rel, i + 1);
    }
  }

  /**
   * A row lines up under the table's second row: as many cells, of the
   * same spans, two per enabled metric and two more.
   */
  lemma RowMatchesColumns(en: FuncEntry, e: Event, rel: bool, focus: nat, inc: bool)
    requires WellFormed(e) && WellFormedEntry(en)
    ensures var r, h := RowCells(en, e, rel), ColumnCells(e.enabledMetrics, focus, inc);
      && |r| == |h| == 2 * |EnabledFrom(e.enabledMetrics, 0)| + 2
      && forall k :: 0 <= k < |h| ==> r[k].span == h[k].span
  {
    var vs, ts := ValueCells(en, e, rel, 0), TitleCells(e.enabledMetrics, focus, inc, 0);
    ValueCellsShape(en, e, rel, 0);
    TitleCellsShape(e.enabledMetrics, focus, inc, 0);
    var r, h := RowCells(en, e, rel), ColumnCells(e.enabledMetrics, focus, inc);
    forall k | 0 <= k < |h|
      ensures r[k].span == h[k].span
    {
      if k < |vs| {
        assert r[k] == vs[k] && h[k] == ts[k];
      }
    }
  }

  /**
   * spx_fmt's row holds 16 cells and adding one more is fatal: the table's
   * second row, and every row under it, fits only while at most seven
   * metrics are enabled.
   */
  lemma RowOverflow(en: FuncEntry, e: Event, rel: bool, focus: nat, inc: bool)
    requires WellFormed(e) && WellFormedEntry(en)
    ensures |ColumnCells(e.enabledMetrics, focus, inc)| <= RowMaxCells <==> |EnabledFrom(e.enabledMetrics, 0)| <= 7
    ensures |RowCells(en, e, rel)| <= RowMaxCells <==> |EnabledFrom(e.enabledMetrics, 0)| <= 7
  {
    RowMatchesColumns(en, e, rel, focus, inc);
  }

  /** wt, ct, it, zm, zr, zo, ze and io enabled: the table's second row needs 18 cells. */
  lemma EightMetricsOverflow(enabled: seq<bool>, focus: nat, inc: bool)
    requires SpxMetric.Metrics(enabled) && forall k :: 0 <= k < |enabled| ==> enabled[k] == (k < 8)
    ensures |ColumnCells(enabled, focus, inc)| == 18 > RowMaxCells
  {
    TitleCellsShape(enabled, focus, inc, 0);
    assert |EnabledFrom(enabled, 10)| == 0;
    assert |EnabledFrom(enabled, 9)| == 0;
    assert |EnabledFrom(enabled, 8)| == 0;
    assert |EnabledFrom(enabled, 7)| == 1;
    assert |EnabledFrom(enabled, 6)| == 2;
    assert |EnabledFrom(enabled, 5)| == 3;
    assert |EnabledFrom(enabled, 4)| == 4;
    assert |EnabledFrom(enabled, 3)| == 5;
    assert |EnabledFrom(enabled, 2)| == 6;
    assert |EnabledFrom(enabled, 1)| == 7;
    assert |EnabledFrom(enabled, 0)| == 8;
  }

  // ---------------------------------------------------------------------
  // Erasing the previous report

  /** "\x0D\x1B[2K": back to the start of the line, and clear it. */
  function ClearLine(): string
  {
    [13 as char] + Escape() + "[2K"
  }

  /** "\x1B[1A\x1B[2K": one line up, and clear it. */
  function LineUp(): string
  {
    Escape() + "[1A" + Escape() + "[2K"
  }

  function LinesUp(n: nat): string
  {
    if n == 0 then [] else LinesUp(n - 1) + LineUp()
  }

  /** What fp_notify prints before a report when the last one took n lines. */
  function Erasure(n: nat): string
  {
    if n == 0 then [] else ClearLine() + LinesUp(n)
  }

  /** The erasure moves the cursor up once per line of the last report ("A" ends a cursor-up sequence). */
  lemma {:induction false} ErasureMovesUp(n: nat)
    ensures SpxUtils.Count(Erasure(n), 'A') == n
  {
    if n > 0 {
      ClearLineStays();
      LinesUpCounted(n);
      SpxUtils.CountAppend(ClearLine(), LinesUp(n), 'A');
    }
  }

  lemma ClearLineStays()
    ensures SpxUtils.Count(ClearLine(), 'A') == 0
  {
    SpxUtils.CountAbsent(ClearLine(), 'A');
  }

  lemma {:induction false} LinesUpCounted(n: nat)
    ensures SpxUtils.Count(LinesUp(n), 'A') == n
  {
    if n > 0 {
      LinesUpCounted(n - 1);
      var up := LineUp();
      assert up == Escape() + "[1" + "A" + (Escape() + "[2K");
      SpxUtils.CountAbsent(Escape() + "[1", 'A');
      SpxUtils.CountAbsent(Escape() + "[2K", 'A');
      assert SpxUtils.Count("A", 'A') == 1 by {
        assert "A"[..0] == [];
      }
      SpxUtils.CountAppend(Escape() + "[1", "A", 'A');
      SpxUtils.CountAppend(Escape() + "[1" + "A", Escape() + "[2K", 'A');
      SpxUtils.CountAppend(LinesUp(n - 1), up, 'A');
    }
  }

  // ---------------------------------------------------------------------
  // The selection loops, on the top_entries array

  /** print_report's first loop: slot i holds entry i. */
  method FillSlots(top: array<nat>, lim: nat)
    requires lim <= top.Length
    modifies top
    ensures top[..lim] == Indexes(lim) && top[lim..] == old(top[lim..])
  {
    var i := 0;
    while i < lim
      invariant i <= lim && top[..i] == Indexes(i) && top[lim..] == old(top[lim..])
    {
      top[i] := i;
      assert top[..i + 1] == top[..i] + [i];
      i := i + 1;
    }
  }

  /** The selection loop as spx_reporter_fp.c writes it: each later entry takes the first slot ranked below it. */
  method SelectTopAsWritten(top: array<nat>, ks: seq<Key>, lim: nat)
    requires lim <= |ks| && lim <= top.Length && top[..lim] == Indexes(lim)
    modifies top
    ensures top[..lim] == SelectedAsWritten(ks, lim, |ks|) && top[lim..] == old(top[lim..])
  {
    var i := lim;
    while i < |ks|
      invariant lim <= i <= |ks| && top[..lim] == SelectedAsWritten(ks, lim, i) && top[lim..] == old(top[lim..])
    {
      OfferFirstBelow(top, ks, lim, i);
      i := i + 1;
    }
  }

  /** The inner loop: the first slot whose entry entry_cmp_r ranks below entry c takes it. */
  method OfferFirstBelow(top: array<nat>, ks: seq<Key>, lim: nat, c: nat)
    requires lim <= top.Length && c < |ks| && Slots(ks, top[..lim])
    modifies top
    ensures top[..lim] == OfferAsWritten(ks, old(top[..lim]), c) && top[lim..] == old(top[lim..])
  {
    ghost var t := top[..lim];
    var j := 0;
    while j < lim
      invariant j <= lim && top[..lim] == t
      invariant FirstBelow(ks, t, c, j) == FirstBelow(ks, t, c, 0)
    {
      if Cmp(ks[top[j]], ks[c]) > 0 {
        top[j] := c;
        assert top[..lim] == t[j := c];
        return;
      }
      j := j + 1;
    }
  }

  /** The corrected loop: each later entry takes the weakest slot if it ranks above the entry there. */
  method SelectTop(top: array<nat>, ks: seq<Key>, lim: nat)
    requires lim <= |ks| && lim <= top.Length && top[..lim] == Indexes(lim)
    modifies top
    ensures top[..lim] == Selected(ks, lim, |ks|) && top[lim..] == old(top[lim..])
  {
    var i := lim;
    while i < |ks|
      invariant lim <= i <= |ks| && top[..lim] == Selected(ks, lim, i) && top[lim..] == old(top[lim..])
    {
      SelectStep(top, ks, lim, i);
      i := i + 1;
    }
  }

  /** One pass of the corrected loop: entry i is offered to the slots. */
  method SelectStep(top: array<nat>, ks: seq<Key>, lim: nat, i: nat)
    requires lim <= i < |ks| && lim <= top.Length && top[..lim] == Selected(ks, lim, i)
    modifies top
    ensures top[..lim] == Selected(ks, lim, i + 1) && top[lim..] == old(top[lim..])
  {
    ghost var t := top[..lim];
    SelectedStep(ks, lim, i + 1);
    OfferWeakest(top, ks, lim, i);
  }

  method OfferWeakest(top: array<nat>, ks: seq<Key>, lim: nat, c: nat)
    requires lim <= top.Length && c < |ks| && Slots(ks, top[..lim])
    modifies top
    ensures top[..lim] == Offer(ks, old(top[..lim]), c) && top[lim..] == old(top[lim..])
  {
    if lim > 0 {
      var w := WeakestSlot(top, ks, lim);
      if Beats(ks[c], ks[top[w]]) {
        top[w] := c;
      }
    }
  }

  method WeakestSlot(top: array<nat>, ks: seq<Key>, lim: nat) returns (w: nat)
    requires 1 <= lim <= top.Length && Slots(ks, top[..lim])
    ensures w == Weakest(ks, top[..lim])
  {
    w := 0;
    var j := 1;
    while j < lim
      invariant 1 <= j <= lim && Slots(ks, top[..j]) && w == Weakest(ks, top[..j])
    {
      assert top[..j + 1][..j] == top[..j];
      if Beats(ks[top[w]], ks[top[j]]) {
        w := j;
      }
      j := j + 1;
    }
  }

  // ---------------------------------------------------------------------
  // The reporter

  /**
   * fp_reporter_t. singleKey selects the root copy's comparator; output is
   * what the output stream received.
   */
  class FpReporter {
    const focus: nat
    const inc: bool
    const rel: bool
    const limit: nat
    const live: bool
    const singleKey: bool
    /** printf's rendering of a double. */
    const render: Render
    /** top_entries: limit slots, each the index of a function table entry. */
    const top: array<nat>
    var lastTsMs: nat
    var lastLineCount: nat
    var output: string

    ghost predicate Valid()
      reads this
    {
      top.Length == limit && (singleKey || focus < SpxMetric.MetricCount) && lastTsMs < SizeModulus
    }

    /** spx_reporter_fp_create, top_entries allocated. */
    constructor (focus: nat, inc: bool, rel: bool, limit: nat, live: bool, singleKey: bool, render: Render)
      requires singleKey || focus < SpxMetric.MetricCount
      ensures Valid() && fresh(top)
      ensures this.focus == focus && this.inc == inc && this.rel == rel && this.limit == limit
      ensures this.live == live && this.singleKey == singleKey && this.render == render
      ensures lastTsMs == 0 && lastLineCount == 0 && output == []
    {
      this.focus := focus;
      this.inc := inc;
      this.rel := rel;
      this.limit := limit;
      this.live := live;
      this.singleKey := singleKey;
      this.render := render;
      top := new nat[limit];
      lastTsMs := 0;
      lastLineCount := 0;
      output := [];
    }

    /** The entries' ranking keys under this reporter's comparator. */
    function KeysOf(e: Event): (ks: seq<Key>)
      reads this
      requires Valid() && WellFormed(e)
      ensures |ks| == |e.functions|
    {
      Keys(e.functions, focus, inc, singleKey)
    }

    /**
     * fp_notify, with the clock's reading in ms as a parameter: a call start
     * costs nothing; a call end redraws the report only in live mode and
     * once 70 ms have passed since the last redraw (size_t arithmetic); the
     * end of the script always prints it. A redraw first erases the last
     * report, and the cursor ends up as many lines up as it took.
     */
    method Notify(e: Event, nowMs: nat) returns (cost: Cost)
      requires Valid() && WellFormed(e) && nowMs < SizeModulus
      modifies this`lastTsMs, this`lastLineCount, this`output, top
      ensures Valid()
      ensures if e.typ == CallStartEvent
          || (e.typ == CallEndEvent && (!live || (nowMs - old(lastTsMs)) % SizeModulus < RefreshMs))
        then cost == Light && lastTsMs == old(lastTsMs) && lastLineCount == old(lastLineCount)
          && output == old(output)
        else
          var report := Report(e, KeysOf(e), limit, focus, inc, rel, render);
          && cost == Heavy && lastTsMs == (if e.typ == CallEndEvent then nowMs else old(lastTsMs))
          && output == old(output) + Erasure(old(lastLineCount)) + report
          && lastLineCount == ReportLines(e, limit)
          && SpxUtils.Count(Erasure(old(lastLineCount)), 'A') == old(lastLineCount)
          && (PlainRender(render) && PlainFunctions(e) ==> SpxUtils.Count(report, '\n') == lastLineCount)
    {
      if e.typ == CallStartEvent {
        return Light;
      }
      if e.typ == CallEndEvent {
        if !live {
          return Light;
        }
        if (nowMs - lastTsMs) % SizeModulus < RefreshMs {
          return Light;
        }
        lastTsMs := nowMs;
      }
      Redraw(e);
      cost := Heavy;
    }

    /** The last report erased, the new one printed. */
    method Redraw(e: Event)
      requires Valid() && WellFormed(e)
      modifies this`lastLineCount, this`output, top
      ensures Valid()
      ensures var report := Report(e, KeysOf(e), limit, focus, inc, rel, render);
        && output == old(output) + Erasure(old(lastLineCount)) + report
        && lastLineCount == ReportLines(e, limit)
        && SpxUtils.Count(Erasure(old(lastLineCount)), 'A') == old(lastLineCount)
        && (PlainRender(render) && PlainFunctions(e) ==> SpxUtils.Count(report, '\n') == lastLineCount)
    {
      ErasureMovesUp(lastLineCount);
      if PlainRender(render) && PlainFunctions(e) {
        ReportLinesCounted(e, KeysOf(e), limit, focus, inc, rel, render);
      }
      Erase();
      lastLineCount := PrintReport(e);
    }

    /** fp_notify's erasure of the last report. */
    method Erase()
      modifies this`output
      ensures output == old(output) + Erasure(lastLineCount)
    {
      var text := EraseLines(lastLineCount);
      output := output + text;
    }

    /** print_report: the selection, the sort, the report; the number of lines it took. */
    method PrintReport(e: Event) returns (lines: nat)
      requires Valid() && WellFormed(e)
      modifies this`output, top
      ensures output == old(output) + Report(e, KeysOf(e), limit, focus, inc, rel, render)
      ensures lines == ReportLines(e, limit)
    {
      if |e.functions| == 0 {
        return 0;
      }
      var ks := KeysOf(e);
      var order := SelectShown(ks);
      var stats, head := GlobalStats(e, render), TableHead(e.enabledMetrics, focus, inc, render);
      ghost var start := output;
      output := output + (stats + head);
      PrintRows(e, order);
      output := output + "\n";
      ReportJoined(start, stats, head, Rows(e, order, rel, render));
      lines := 15 + |EnabledFrom(e.enabledMetrics, 0)| + Min(limit, |e.functions|);
    }

    /** print_report's two selection loops, as written, and its qsort, on top_entries. */
    method SelectShown(ks: seq<Key>) returns (order: seq<nat>)
      requires Valid()
      modifies top
      ensures order == Shown(ks, limit)
    {
      var lim := Min(limit, |ks|);
      FillSlots(top, lim);
      SelectTopAsWritten(top, ks, lim);
      assert Slots(ks, top[..lim]);
      order := Ordered(ks, top[..lim]);
    }

    /** print_report's last loop, its rows printed in order. */
    method PrintRows(e: Event, order: seq<nat>)
      requires WellFormed(e) && forall k :: 0 <= k < |order| ==> order[k] < |e.functions|
      modifies this`output
      ensures output == old(output) + Rows(e, order, rel, render)
    {
      var text := RowsText(e, order, rel, render);
      output := output + text;
    }
  }

  /** fp_notify's erasure loop: the line cleared, then one line up and cleared per line of the last report. */
  method EraseLines(n: nat) returns (text: string)
    ensures text == Erasure(n)
  {
    text := [];
    if n > 0 {
      text := ClearLine();
      var i := 0;
      while i < n
        invariant i <= n && text == ClearLine() + LinesUp(i)
      {
        text := text + LineUp();
        i := i + 1;
      }
    }
  }

  /** print_report's last loop: one row per kept entry, in order. */
  method RowsText(e: Event, order: seq<nat>, rel: bool, render: Render) returns (text: string)
    requires WellFormed(e) && forall k :: 0 <= k < |order| ==> order[k] < |e.functions|
    ensures text == Rows(e, order, rel, render)
  {
    text := [];
    var i := 0;
    while i < |order|
      invariant i <= |order| && text == Rows(e, order[..i], rel, render)
    {
      var row := RowText(e.functions[order[i]], e, rel, render);
      RowsSnoc(e, order, i, rel, render);
      text := text + row;
      i := i + 1;
    }
    assert order[..i] == order;
  }

  /** The report's pieces, printed one after the other. */
  lemma ReportJoined(start: string, stats: string, head: string, rows: string)
    ensures start + (stats + head) + rows + "\n" == start + (stats + (head + rows) + "\n")
  {
  }

  /** One more kept entry prints its row. */
  lemma RowsSnoc(e: Event, order: seq<nat>, i: nat, rel: bool, render: Render)
    requires WellFormed(e) && i < |order| && forall k :: 0 <= k < |order| ==> order[k] < |e.functions|
    ensures Rows(e, order[..i + 1], rel, render) == Rows(e, order[..i], rel, render) + RowText(e.functions[order[i]], e, rel, render)
  {
    assert order[..i + 1][..i] == order[..i];
  }
}
