/**
 * The Google Trace Event reporter (src/spx_reporter_gte.c): call events are
 * buffered and printed as the objects of one JSON array, a "B" object for a
 * call start and an "E" one for a call end, stamped with the wall time.
 */
module SpxReporterGte {
  import opened Decimal
  import opened CStrings
  import opened SpxProfilerTypes
  import opened SpxReporting
  import opened SpxStrBuilder
  import SpxMetric
  import SpxUtils

  const BufferCapacity: nat := 16384
  /** The size of the class_name and func_name buffers of flush_buffer. */
  const NameSize: nat := 512

  /**
   * buffer_entry_t: whether the event is a call start, the callee, and the
   * cumulative wall time, the one value of cum that flush_buffer reads.
   */
  datatype GteEntry = GteEntry(start: bool, callee: PhpFunction, wallTime: real)

  /** The entry a call event is buffered as. */
  function EntryOf(e: Event): GteEntry
    requires WellFormed(e) && e.typ != FinalizeEvent
  {
    GteEntry(e.typ == CallStartEvent, e.functions[e.callee.value].func, e.cum[SpxMetric.WallTime])
  }

  /** The size_t cast of the wall time: the whole part of a non-negative value. */
  function Timestamp(wallTime: real): (ts: nat)
    ensures wallTime >= 0.0 ==> ts as real <= wallTime < ts as real + 1.0
  {
    if wallTime >= 0.0 then Truncated(wallTime) else 0
  }

  /**
   * The loop of gte's json_escape having written written chars: the chars of
   * s up to its first NUL, each backslash doubled, for as long as fewer than
   * stop chars are written.
   */
  function EscapeLoop(s: string, written: nat, stop: nat): string
    decreases |s|
  {
    if s == [] || s[0] == '\0' || written >= stop then []
    else
      var e := SpxUtils.EscapeChar(s[0], false);
      e + EscapeLoop(s[1..], written + |e|, stop)
  }

  /** What json_escape writes for a name into a buffer of NameSize, before its NUL. */
  function Escaped(name: string): string
  {
    EscapeLoop(name, 0, NameSize - 2)
  }

  /** The loop stops at the first NUL: it only sees the C string. */
  lemma {:induction false} EscapeLoopCStr(s: string, written: nat, stop: nat)
    ensures EscapeLoop(s, written, stop) == EscapeLoop(CStr(s), written, stop)
    decreases |s|
  {
    if s != [] && s[0] != '\0' {
      var t := CStr(s);
      assert t == [s[0]] + CStr(s[1..]);
      assert t[0] == s[0] && t[1..] == CStr(s[1..]);
      EscapeLoopCStr(s[1..], written + |SpxUtils.EscapeChar(s[0], false)|, stop);
    }
  }

  /** One char of the loop: its escape is written, and the written prefix grows by it. */
  lemma EscapeLoopStep(t: string, j: nat, stop: nat)
    requires j < |t| && '\0' !in t && |SpxUtils.Escaped(t[..j], false)| < stop
    ensures var e := SpxUtils.EscapeChar(t[j], false);
      && SpxUtils.Escaped(t[..j + 1], false) == SpxUtils.Escaped(t[..j], false) + e
      && EscapeLoop(t[j..], |SpxUtils.Escaped(t[..j], false)|, stop)
        == e + EscapeLoop(t[j + 1..], |SpxUtils.Escaped(t[..j + 1], false)|, stop)
  {
    assert t[j..][0] == t[j] && t[j..][1..] == t[j + 1..];
    assert t[j] != '\0';
    assert t[..j + 1][..j] == t[..j] && t[..j + 1][j] == t[j];
  }

  /** From char j of t on, the loop writes what the escape of the consumed prefix adds to that of t[..j]. */
  lemma {:induction false} EscapeLoopConsumed(t: string, j: nat, stop: nat)
    requires j <= |t| && '\0' !in t
    ensures var c := SpxUtils.ConsumedFrom(t, j, stop, false);
      SpxUtils.Escaped(t[..j], false) + EscapeLoop(t[j..], |SpxUtils.Escaped(t[..j], false)|, stop)
        == SpxUtils.Escaped(t[..c], false)
    decreases |t| - j
  {
    var w := SpxUtils.Escaped(t[..j], false);
    var c := SpxUtils.ConsumedFrom(t, j, stop, false);
    if j == |t| || |w| >= stop {
      assert c == j;
      assert EscapeLoop(t[j..], |w|, stop) == [];
      assert w + [] == w;
    } else {
      assert c == SpxUtils.ConsumedFrom(t, j + 1, stop, false);
      var e := SpxUtils.EscapeChar(t[j], false);
      var w1 := SpxUtils.Escaped(t[..j + 1], false);
      var rest := EscapeLoop(t[j + 1..], |w1|, stop);
      EscapeLoopStep(t, j, stop);
      EscapeLoopConsumed(t, j + 1, stop);
      AppendAssoc(w, e, rest);
    }
  }

  /**
   * gte's json_escape writes what spx_utils_json_escape writes under the
   * rule that leaves '"' alone; so unescaping gives back the prefix of the
   * name it consumed.
   */
  lemma EscapedAgrees(name: string)
    ensures Escaped(name) == SpxUtils.EscapedPrefix(name, NameSize, false)
  {
    var t := CStr(name);
    EscapeLoopCStr(name, 0, NameSize - 2);
    EscapeLoopConsumed(t, 0, NameSize - 2);
    assert t[..0] == [] && t[0..] == t;
  }

  /** One object of the array, as flush_buffer's printf writes it. */
  function Object(en: GteEntry): string
  {
    Concat(["{\"name\": \"", Escaped(en.callee.className), en.callee.callType, Escaped(en.callee.funcName),
      "\", \"cat\": \"PHP\", \"ph\": \"", if en.start then "B" else "E",
      "\", \"pid\": 0, \"tid\": 0, \"ts\": ", NatToString(Timestamp(en.wallTime)), "}"])
  }

  /** What precedes an object: "[\n" for the first one, ",\n" for the others. */
  function Lead(first: bool): string
  {
    if first then "[\n" else ",\n"
  }

  /** The objects of the entries es. */
  function Objects(es: seq<GteEntry>): (r: seq<string>)
    ensures |r| == |es| && forall k :: 0 <= k < |es| ==> r[k] == Object(es[k])
  {
    seq(|es|, k requires 0 <= k < |es| => Object(es[k]))
  }

  /** The objects objs, each after its lead, the first of them opening the array when first holds. */
  function Listed(objs: seq<string>, first: bool): string
    decreases |objs|
  {
    if objs == [] then [] else Lead(first) + objs[0] + Listed(objs[1..], false)
  }

  /** What flush_buffer prints for the entries es. */
  function Records(es: seq<GteEntry>, first: bool): string
  {
    Listed(Objects(es), first)
  }

  /** One more object: it follows the others, opening the array when it is the first one. */
  lemma {:induction false} ListedSnoc(objs: seq<string>, x: string, first: bool)
    ensures Listed(objs + [x], first) == Listed(objs, first) + (Lead(first && objs == []) + x)
    decreases |objs|
  {
    if objs == [] {
      assert [x][1..] == [];
    } else {
      assert (objs + [x])[1..] == objs[1..] + [x];
      ListedSnoc(objs[1..], x, false);
      AppendAssoc(Lead(first) + objs[0], Listed(objs[1..], false), Lead(false) + x);
    }
  }

  /**
   * Flushing in chunks prints what one flush of all the objects prints: the
   * array opens once, at the very first object.
   */
  lemma {:induction false} ListedAppend(a: seq<string>, b: seq<string>, first: bool)
    ensures Listed(a + b, first) == Listed(a, first) + Listed(b, first && a == [])
    decreases |b|
  {
    if b == [] {
      assert a + b == a;
    } else {
      var c := b[..|b| - 1];
      var x := b[|b| - 1];
      var f := first && a == [];
      assert b == c + [x];
      assert a + b == (a + c) + [x];
      assert (first && a + c == []) == (f && c == []);
      var l := Lead(f && c == []) + x;
      ListedAppend(a, c, first);
      ListedSnoc(a + c, x, first);
      assert Listed(a + b, first) == Listed(a, first) + Listed(c, f) + l;
      ListedSnoc(c, x, f);
      assert Listed(b, f) == Listed(c, f) + l;
      AppendAssoc(Listed(a, first), Listed(c, f), l);
    }
  }

  /** The objects of entries a + b are those of a followed by those of b. */
  lemma ObjectsAppend(a: seq<GteEntry>, b: seq<GteEntry>)
    ensures Objects(a + b) == Objects(a) + Objects(b)
  {
  }

  /** What one flush prints per chunk of entries adds up to what a flush of all of them prints. */
  lemma RecordsAppend(a: seq<GteEntry>, b: seq<GteEntry>, first: bool)
    ensures Records(a + b, first) == Records(a, first) + Records(b, first && a == [])
  {
    ObjectsAppend(a, b);
    ListedAppend(Objects(a), Objects(b), first);
  }

  /** The array opens with the first object and every later object is put after a comma. */
  lemma RecordsLead(es: seq<GteEntry>, first: bool)
    requires es != []
    ensures |Records(es, first)| >= 2 && Records(es, first)[..2] == Lead(first)
  {
    var objs := Objects(es);
    assert Records(es, first) == Lead(first) + (objs[0] + Listed(objs[1..], false));
  }

  /** A profile without a single call event closes an array it never opened. */
  lemma NoCallsPrintsBracketOnly()
    ensures Records([], true) + "]" == "]"
  {
  }

  /** spx_profiler_reporter_t extended by gte_reporter_t. */
  class GteReporter {
    var first: bool
    const buffer: array<GteEntry>
    var bufferSize: nat
    /** Everything printed to the output stream. */
    var output: string
    /** The entries printed so far, and whether the closing bracket was. */
    ghost var flushed: seq<GteEntry>
    ghost var closed: bool

    ghost predicate Valid()
      reads this
    {
      && buffer.Length == BufferCapacity && bufferSize < BufferCapacity
      && first == (flushed == [])
      && (closed || output == Records(flushed, true))
    }

    /** The buffered entries. */
    ghost function Buffered(): seq<GteEntry>
      reads this, buffer
      requires bufferSize <= buffer.Length
    {
      buffer[..bufferSize]
    }

    /** spx_reporter_gte_create, with an allocation that succeeds. */
    constructor ()
      ensures Valid() && fresh(buffer)
      ensures first && Buffered() == [] && output == []
      ensures flushed == [] && !closed
    {
      first := true;
      buffer := new GteEntry[BufferCapacity](_ => GteEntry(false, PhpFunction(0, [], 0, [], [], []), 0.0));
      bufferSize := 0;
      output := [];
      flushed := [];
      closed := false;
    }

    /**
     * gte_notify: a call event is buffered, and LIGHT is returned while the
     * buffer is below capacity; otherwise the buffer is flushed, FINALIZE
     * then closes the array, and HEAVY is returned.
     */
    method Notify(e: Event) returns (cost: Cost)
      requires Valid() && WellFormed(e)
      modifies this, buffer
      ensures Valid()
      ensures var es := old(Buffered()) + (if e.typ == FinalizeEvent then [] else [EntryOf(e)]);
        if e.typ != FinalizeEvent && |es| < BufferCapacity
        then cost == Light && Buffered() == es && output == old(output)
          && first == old(first) && flushed == old(flushed)
        else
          && cost == Heavy && Buffered() == [] && flushed == old(flushed) + es
          && output == old(output) + Records(es, old(first)) + (if e.typ == FinalizeEvent then "]" else [])
      ensures closed == (old(closed) || e.typ == FinalizeEvent)
      ensures !old(closed) && closed ==> output == Records(flushed, true) + "]"
    {
      if e.typ != FinalizeEvent {
        buffer[bufferSize] := EntryOf(e);
        bufferSize := bufferSize + 1;
        assert Buffered() == old(Buffered()) + [EntryOf(e)];
        if bufferSize < BufferCapacity {
          return Light;
        }
      } else {
        assert old(Buffered()) + [] == old(Buffered());
      }
      Flush();
      if e.typ == FinalizeEvent {
        output := output + "]";
        closed := true;
      } else {
        assert output + [] == output;
      }
      cost := Heavy;
    }

    /** flush_buffer: one object per buffered entry, and the buffer emptied. */
    method Flush()
      requires buffer.Length == BufferCapacity && bufferSize <= BufferCapacity
      requires first == (flushed == []) && (closed || output == Records(flushed, true))
      modifies this`output, this`first, this`bufferSize, this`flushed
      ensures bufferSize == 0 && flushed == old(flushed) + old(Buffered())
      ensures first == (flushed == [])
      ensures output == old(output) + Records(old(Buffered()), old(first))
      ensures closed || output == Records(flushed, true)
    {
      ghost var es := Buffered();
      ghost var o := output;
      ghost var f := first;
      Print();
      assert output == o + Records(es, f);
      RecordsAppend(flushed, es, true);
      ghost var all := Records(flushed + es, true);
      assert !closed ==> output == all;
      flushed := flushed + es;
      bufferSize := 0;
    }

    /** The loop of flush_buffer: the object of every buffered entry, the first one opening the array. */
    method Print()
      requires bufferSize <= buffer.Length
      modifies this`output, this`first
      ensures first == (old(first) && bufferSize == 0)
      ensures output == old(output) + Records(Buffered(), old(first))
    {
      ghost var es := Buffered();
      ghost var objs := Objects(es);
      var i := 0;
      while i < bufferSize
        invariant i <= bufferSize == |es| == |objs| && es == buffer[..bufferSize]
        invariant first == (old(first) && i == 0)
        invariant output == old(output) + Listed(objs[..i], old(first))
      {
        ListedSnoc(objs[..i], objs[i], old(first));
        TakeNext(objs, i);
        AppendAssoc(old(output), Listed(objs[..i], old(first)), Lead(first) + objs[i]);
        assert buffer[i] == es[i];
        PrintObject(buffer[i]);
        if first {
          first := false;
        }
        i := i + 1;
      }
      TakeAll(objs);
    }

    /** The printf of flush_buffer for one entry. */
    method PrintObject(en: GteEntry)
      modifies this`output
      ensures output == old(output) + (Lead(first) + Object(en))
    {
      output := output + (Lead(first) + Object(en));
    }
  }
}
