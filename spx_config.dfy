/**
 * The settings of src/spx_config.c: defaults, then each configuration source
 * in turn (environment, HTTP headers, query string), then the flat-profile
 * fix-up. A source answers a parameter name with a string or with nothing
 * (NULL); the answers are inputs here.
 */
module SpxConfig {
  import opened Wrappers
  import opened CStrings
  import opened Decimal
  import opened SpxMetric
  import opened SpxUtils

  datatype Output = FlatProfile | Callgrind | GoogleTraceEvent | Trace

  /** The source tags read from the argument list; NoSource stands for any other value, which ends the list. */
  datatype Source = Env | HttpHeader | HttpQueryString | NoSource

  /** The settings as one value. */
  datatype Settings = Settings(
    enabled: bool, key: Option<string>,
    builtins: bool, maxDepth: nat, metrics: seq<bool>,
    output: Output, outputFile: Option<string>,
    fpFocus: nat, fpInc: bool, fpRel: bool, fpLimit: nat, fpLive: bool,
    traceSafe: bool)

  /** What one source answered for each parameter; None is NULL. */
  datatype SourceData = SourceData(
    enabled: Option<string>, key: Option<string>,
    builtins: Option<string>, depth: Option<string>, metrics: Option<string>,
    output: Option<string>, outputFile: Option<string>,
    fpFocus: Option<string>, fpInc: Option<string>, fpRel: Option<string>,
    fpLimit: Option<string>, fpLive: Option<string>,
    traceSafe: Option<string>)

  const NoData := SourceData(None, None, None, None, None, None, None, None, None, None, None, None, None)

  /**
   * The C conversion of atoi's int result to size_t, 64 bits wide: a
   * negative v becomes v + 2^64. (An int is far inside the range where
   * that is the whole story; the last branch is never reached from one.)
   */
  function SizeT(v: int): nat
  {
    if v >= 0 then v
    else if v >= -0x1_0000_0000_0000_0000 then v + 0x1_0000_0000_0000_0000
    else 0
  }

  predicate IsSpace(c: char)
  {
    c == ' ' || c == '\t' || c == '\n' || c == 11 as char || c == 12 as char || c == '\r'
  }

  function SkipSpaces(s: string): (r: string)
    ensures |r| <= |s| && r == s[|s| - |r|..]
    ensures r != [] ==> !IsSpace(r[0])
  {
    if s != [] && IsSpace(s[0]) then SkipSpaces(s[1..]) else s
  }

  /** The value of the digits s starts with, read after the digits already worth acc. */
  function PrefixValue(s: string, acc: nat): nat
  {
    if s == [] || !IsDigit(s[0]) then acc else PrefixValue(s[1..], acc * 10 + (s[0] as int - '0' as int))
  }

  /** atoi: white space, an optional sign, the digits after it; 0 when there are none. Overflow is not modelled. */
  function Atoi(s: string): int
  {
    var t := SkipSpaces(CStr(s));
    if t != [] && (t[0] == '-' || t[0] == '+') then
      var v: int := PrefixValue(t[1..], 0);
      if t[0] == '-' then -v else v
    else PrefixValue(t, 0)
  }

  /** A size setting: atoi's result stored in a size_t. */
  function Size(s: string): nat
  {
    SizeT(Atoi(s))
  }

  /** A boolean setting: true iff the value's first char is '1'. */
  predicate Flag(s: string)
  {
    |s| > 0 && s[0] == '1'
  }

  function OutputOf(s: string, current: Output): Output
  {
    var t := CStr(s);
    if t == "fp" then FlatProfile
    else if t == "cg" then Callgrind
    else if t == "gte" then GoogleTraceEvent
    else if t == "trace" then Trace
    else current
  }

  /** The SPX_METRICS tokens: comma-separated, each cut to 31 chars by the 32-char token buffer. */
  function MetricTokens(s: string): seq<string>
  {
    Tokens(Split(CStr(s), ','), 31)
  }

  /** All metrics off, then on for each token that is a metric's short name. */
  function Marked(tokens: seq<string>): (m: seq<bool>)
    ensures |m| == MetricCount
  {
    if tokens == [] then seq(MetricCount, _ => false)
    else
      var m := Marked(tokens[..|tokens| - 1]);
      match ShortNameFrom(tokens[|tokens| - 1], 0)
      case None => m
      case Some(i) => m[i := true]
  }

  /** init_config. */
  function Defaults(): Settings
  {
    Settings(
      false, None,
      false, 0, seq(MetricCount, i => i == WallTime || i == ZeMemory),
      FlatProfile, None,
      WallTime, false, false, 10, false,
      false)
  }

  /**
   * source_data_to_config: each field a source answered for replaces the
   * setting, in the source's order of fields.
   */
  function Applied(c: Settings, d: SourceData): (r: Settings)
    ensures |c.metrics| == MetricCount ==> |r.metrics| == MetricCount
    ensures c.fpFocus < MetricCount ==> r.fpFocus < MetricCount
  {
    LivePart(FlatProfilePart(OutputPart(MetricsPart(DepthPart(SwitchesPart(c, d), d), d), d), d), d)
  }

  /** SPX_ENABLED, SPX_KEY and SPX_BUILTINS. */
  function SwitchesPart(c: Settings, d: SourceData): (r: Settings)
    ensures r.metrics == c.metrics && r.fpFocus == c.fpFocus
  {
    c.(enabled := if d.enabled.Some? then Flag(d.enabled.value) else c.enabled,
       key := if d.key.Some? then d.key else c.key,
       builtins := if d.builtins.Some? then Flag(d.builtins.value) else c.builtins)
  }

  /** SPX_DEPTH. */
  function DepthPart(c: Settings, d: SourceData): (r: Settings)
    ensures r.metrics == c.metrics && r.fpFocus == c.fpFocus
  {
    if d.depth.Some? then c.(maxDepth := Size(d.depth.value)) else c
  }

  /** SPX_METRICS: the whole set is replaced. */
  function MetricsPart(c: Settings, d: SourceData): (r: Settings)
    ensures |c.metrics| == MetricCount ==> |r.metrics| == MetricCount
    ensures r.fpFocus == c.fpFocus
  {
    if d.metrics.Some? then c.(metrics := Marked(MetricTokens(d.metrics.value))) else c
  }

  /** The focus metric an SPX_FP_FOCUS answer names, if any. */
  function FocusOf(d: SourceData): Option<nat>
  {
    if d.fpFocus.Some? then ShortNameFrom(CStr(d.fpFocus.value), 0) else None
  }

  /** SPX_OUTPUT, SPX_OUTPUT_FILE and SPX_FP_FOCUS; unknown names change nothing. */
  function OutputPart(c: Settings, d: SourceData): (r: Settings)
    ensures r.metrics == c.metrics
    ensures c.fpFocus < MetricCount ==> r.fpFocus < MetricCount
  {
    var focus := FocusOf(d);
    c.(output := if d.output.Some? then OutputOf(d.output.value, c.output) else c.output,
       outputFile := if d.outputFile.Some? then d.outputFile else c.outputFile,
       fpFocus := if focus.Some? then focus.value else c.fpFocus)
  }

  /** SPX_FP_INC, SPX_FP_REL and SPX_FP_LIMIT. */
  function FlatProfilePart(c: Settings, d: SourceData): (r: Settings)
    ensures r.metrics == c.metrics && r.fpFocus == c.fpFocus
  {
    c.(fpInc := if d.fpInc.Some? then Flag(d.fpInc.value) else c.fpInc,
       fpRel := if d.fpRel.Some? then Flag(d.fpRel.value) else c.fpRel,
       fpLimit := if d.fpLimit.Some? then Size(d.fpLimit.value) else c.fpLimit)
  }

  /** SPX_FP_LIVE and SPX_TRACE_SAFE. */
  function LivePart(c: Settings, d: SourceData): (r: Settings)
    ensures r.metrics == c.metrics && r.fpFocus == c.fpFocus
  {
    c.(fpLive := if d.fpLive.Some? then Flag(d.fpLive.value) else c.fpLive,
       traceSafe := if d.traceSafe.Some? then Flag(d.traceSafe.value) else c.traceSafe)
  }

  /** fix_config: flat-profile output always collects its focus metric. */
  function Fixed(c: Settings): Settings
    requires c.fpFocus < |c.metrics|
  {
    if c.output == FlatProfile then c.(metrics := c.metrics[c.fpFocus := true]) else c
  }

  function Lookup(m: map<string, string>, k: string): Option<string>
  {
    if k in m then Some(m[k]) else None
  }

  /** The header handler's key: "HTTP_" and the parameter, within a 128-char buffer. */
  function HeaderKey(p: string): string
  {
    "HTTP_" + Truncate(CStr(p), 122)
  }

  /** The source handlers: getenv, $_SERVER["HTTP_" + p] and $_GET[p]. */
  function Answer(src: Source, env: map<string, string>, server: map<string, string>, get: map<string, string>, p: string): Option<string>
  {
    match src
    case Env => Lookup(env, p)
    case HttpHeader => Lookup(server, HeaderKey(p))
    case HttpQueryString => Lookup(get, p)
    case NoSource => None
  }

  /** source_data_get: the thirteen parameters asked of one source. */
  function SourceDataGet(src: Source, env: map<string, string>, server: map<string, string>, get: map<string, string>): SourceData
  {
    SourceData(
      Answer(src, env, server, get, "SPX_ENABLED"), Answer(src, env, server, get, "SPX_KEY"),
      Answer(src, env, server, get, "SPX_BUILTINS"), Answer(src, env, server, get, "SPX_DEPTH"),
      Answer(src, env, server, get, "SPX_METRICS"),
      Answer(src, env, server, get, "SPX_OUTPUT"), Answer(src, env, server, get, "SPX_OUTPUT_FILE"),
      Answer(src, env, server, get, "SPX_FP_FOCUS"), Answer(src, env, server, get, "SPX_FP_INC"),
      Answer(src, env, server, get, "SPX_FP_REL"), Answer(src, env, server, get, "SPX_FP_LIMIT"),
      Answer(src, env, server, get, "SPX_FP_LIVE"),
      Answer(src, env, server, get, "SPX_TRACE_SAFE"))
  }

  /** How many sources the argument list holds before its first unrecognised tag. */
  function Recognised(sources: seq<Source>): (r: nat)
    ensures r <= |sources|
    ensures forall k :: 0 <= k < r ==> sources[k] != NoSource
    ensures r < |sources| ==> sources[r] == NoSource
  {
    if sources == [] || sources[0] == NoSource then 0 else 1 + Recognised(sources[1..])
  }

  /** Each source's answers applied in turn. */
  function ApplyAll(c: Settings, sources: seq<Source>, env: map<string, string>, server: map<string, string>, get: map<string, string>): (r: Settings)
    ensures c.fpFocus < MetricCount ==> r.fpFocus < MetricCount
    ensures |c.metrics| == MetricCount ==> |r.metrics| == MetricCount
  {
    if sources == [] then c
    else
      var p := ApplyAll(c, sources[..|sources| - 1], env, server, get);
      Applied(p, SourceDataGet(sources[|sources| - 1], env, server, get))
  }

  /** spx_config_read. */
  function ReadSpec(sources: seq<Source>, env: map<string, string>, server: map<string, string>, get: map<string, string>): Settings
  {
    Fixed(ApplyAll(Defaults(), sources[..Recognised(sources)], env, server, get))
  }

  class Config {
    var enabled: bool
    var key: Option<string>
    var builtins: bool
    var maxDepth: nat
    const enabledMetrics: array<bool>
    var output: Output
    var outputFile: Option<string>
    var fpFocus: nat
    var fpInc: bool
    var fpRel: bool
    var fpLimit: nat
    var fpLive: bool
    var traceSafe: bool

    ghost predicate Valid()
      reads this
    {
      enabledMetrics.Length == MetricCount && fpFocus < MetricCount
    }

    function State(): Settings
      reads this, enabledMetrics
    {
      Settings(enabled, key, builtins, maxDepth, enabledMetrics[..], output, outputFile,
               fpFocus, fpInc, fpRel, fpLimit, fpLive, traceSafe)
    }

    /** The struct's storage, set to the defaults. */
    constructor ()
      ensures Valid() && fresh(enabledMetrics)
      ensures State() == Defaults()
    {
      enabledMetrics := new bool[MetricCount](i => i == WallTime || i == ZeMemory);
      enabled, key, builtins, maxDepth := false, None, false, 0;
      output, outputFile := FlatProfile, None;
      fpFocus, fpInc, fpRel, fpLimit, fpLive := WallTime, false, false, 10, false;
      traceSafe := false;
      new;
      assert enabledMetrics[..] == Defaults().metrics;
    }

    /** init_config: every metric off, then wall time and ZE memory on. */
    method Init()
      requires Valid()
      modifies this, enabledMetrics
      ensures Valid() && State() == Defaults()
    {
      ClearMetrics();
      enabledMetrics[WallTime] := true;
      enabledMetrics[ZeMemory] := true;
      enabled, key, builtins, maxDepth := false, None, false, 0;
      output, outputFile := FlatProfile, None;
      fpFocus, fpInc, fpRel, fpLimit, fpLive := WallTime, false, false, 10, false;
      traceSafe := false;
      assert enabledMetrics[..] == Defaults().metrics;
    }

    method ClearMetrics()
      requires Valid()
      modifies enabledMetrics
      ensures forall i :: 0 <= i < MetricCount ==> !enabledMetrics[i]
    {
      var i := 0;
      while i < MetricCount
        invariant 0 <= i <= MetricCount
        invariant forall j :: 0 <= j < i ==> !enabledMetrics[j]
      {
        enabledMetrics[i] := false;
        i := i + 1;
      }
    }

    /** The SPX_METRICS branch: every metric off, then on for each recognised token, in token order. */
    method SetMetrics(str: string)
      requires Valid()
      modifies enabledMetrics
      ensures enabledMetrics[..] == Marked(MetricTokens(str))
    {
      ClearMetrics();
      var tokens := Tokenize(str, ',', 32);
      assert enabledMetrics[..] == Marked(tokens[..0]);
      var j := 0;
      while j < |tokens|
        invariant 0 <= j <= |tokens|
        invariant enabledMetrics[..] == Marked(tokens[..j])
      {
        var m := GetByShortName(tokens[j]);
        assert tokens[..j + 1][..j] == tokens[..j];
        if m.Some? {
          enabledMetrics[m.value] := true;
        }
        j := j + 1;
      }
      assert tokens[..j] == tokens;
    }

    /** source_data_to_config, in the source's field order. */
    method Apply(d: SourceData)
      requires Valid()
      modifies this, enabledMetrics
      ensures Valid() && State() == Applied(old(State()), d)
    {
      ApplySwitches(d);
      ApplyDepth(d);
      if d.metrics.Some? {
        SetMetrics(d.metrics.value);
      }
      ApplyOutput(d);
      ApplyFlatProfile(d);
      ApplyLive(d);
    }

    method ApplySwitches(d: SourceData)
      requires Valid()
      modifies this`enabled, this`key, this`builtins
      ensures Valid() && State() == SwitchesPart(old(State()), d)
    {
      if d.enabled.Some? {
        enabled := Flag(d.enabled.value);
      }
      if d.key.Some? {
        key := d.key;
      }
      if d.builtins.Some? {
        builtins := Flag(d.builtins.value);
      }
    }

    method ApplyDepth(d: SourceData)
      requires Valid()
      modifies this`maxDepth
      ensures Valid() && State() == DepthPart(old(State()), d)
    {
      if d.depth.Some? {
        maxDepth := Size(d.depth.value);
      }
    }

    method ApplyOutput(d: SourceData)
      requires Valid()
      modifies this`output, this`outputFile, this`fpFocus
      ensures Valid() && State() == OutputPart(old(State()), d)
    {
      if d.output.Some? {
        output := OutputOf(d.output.value, output);
      }
      if d.outputFile.Some? {
        outputFile := d.outputFile;
      }
      if d.fpFocus.Some? {
        var focus := GetByShortName(CStr(d.fpFocus.value));
        if focus.Some? {
          fpFocus := focus.value;
        }
      }
    }

    method ApplyFlatProfile(d: SourceData)
      requires Valid()
      modifies this`fpInc, this`fpRel, this`fpLimit
      ensures Valid() && State() == FlatProfilePart(old(State()), d)
    {
      if d.fpInc.Some? {
        fpInc := Flag(d.fpInc.value);
      }
      if d.fpRel.Some? {
        fpRel := Flag(d.fpRel.value);
      }
      if d.fpLimit.Some? {
        fpLimit := Size(d.fpLimit.value);
      }
    }

    method ApplyLive(d: SourceData)
      requires Valid()
      modifies this`fpLive, this`traceSafe
      ensures Valid() && State() == LivePart(old(State()), d)
    {
      if d.fpLive.Some? {
        fpLive := Flag(d.fpLive.value);
      }
      if d.traceSafe.Some? {
        traceSafe := Flag(d.traceSafe.value);
      }
    }

    /** fix_config. */
    method Fix()
      requires Valid()
      modifies enabledMetrics
      ensures Valid() && State() == Fixed(old(State()))
    {
      if output == FlatProfile {
        enabledMetrics[fpFocus] := true;
      }
    }

    /**
     * spx_config_read: the defaults, then the sources in argument order up
     * to the first unrecognised tag, then the fix-up.
     */
    method Read(sources: seq<Source>, env: map<string, string>, server: map<string, string>, get: map<string, string>)
      requires Valid()
      modifies this, enabledMetrics
      ensures Valid() && State() == ReadSpec(sources, env, server, get)
    {
      Init();
      var i := 0;
      while i < |sources| && sources[i] != NoSource
        invariant Valid() && i <= Recognised(sources)
        invariant State() == ApplyAll(Defaults(), sources[..i], env, server, get)
      {
        assert sources[..i + 1][..i] == sources[..i];
        Apply(SourceDataGet(sources[i], env, server, get));
        i := i + 1;
      }
      assert i == Recognised(sources);
      Fix();
    }
  }

  // ---------------------------------------------------------------------
  // Properties

  /** Token k names metric i. */
  ghost predicate Names(tokens: seq<string>, k: int, i: nat)
  {
    0 <= k < |tokens| && ShortNameFrom(tokens[k], 0) == Some(i)
  }

  /** After SPX_METRICS, exactly the metrics some token names are on, whatever was on before. */
  lemma {:induction false} MarkedNames(tokens: seq<string>, i: nat)
    requires i < MetricCount
    ensures Marked(tokens)[i] <==> exists k :: Names(tokens, k, i)
  {
    if tokens != [] {
      var n := |tokens| - 1;
      var init := tokens[..n];
      MarkedNames(init, i);
      var last := ShortNameFrom(tokens[n], 0) == Some(i);
      assert Marked(tokens)[i] == (Marked(init)[i] || last);
      if last {
        assert Names(tokens, n, i);
      } else if Marked(init)[i] {
        var k :| Names(init, k, i);
        assert tokens[k] == init[k];
        assert Names(tokens, k, i);
      } else {
        forall k | 0 <= k < |tokens|
          ensures !Names(tokens, k, i)
        {
          if k < n {
            assert !Names(init, k, i);
            assert tokens[k] == init[k];
          }
        }
      }
    }
  }

  /** A source that answers nothing leaves the settings as they are. */
  lemma ApplyNothing(c: Settings)
    ensures Applied(c, NoData) == c
  {
  }

  /** Boolean values: "1…" is true; "", "0" and any other first char are false. */
  lemma FlagExamples()
    ensures Flag("1") && Flag("1abc")
    ensures !Flag("") && !Flag("0") && !Flag("true") && !Flag("yes")
  {
  }

  /** A rendered non-negative int read back by atoi gives the int. */
  lemma AtoiOfRendered(n: nat)
    requires n < 0x8000_0000
    ensures SizeT(Atoi(IntToString(n))) == n
  {
    var s := NatToString(n);
    NatToStringValue(n);
    PlainDigits(s);
    CStrOfPlain(s);
    PrefixValueOfDigits(s);
  }

  lemma PlainDigits(s: string)
    requires AllDigits(s)
    ensures '\0' !in s
    ensures s != [] ==> !IsSpace(s[0]) && s[0] != '-' && s[0] != '+'
  {
    forall k | 0 <= k < |s|
      ensures s[k] != '\0'
    {
      assert IsDigit(s[k]);
    }
  }

  /** Reading a digit string gives its value. */
  lemma {:induction false} PrefixValueOfDigits(s: string)
    requires AllDigits(s)
    ensures PrefixValue(s, 0) == DigitsValue(s)
  {
    if s != [] {
      var init := s[..|s| - 1];
      assert AllDigits(init) by {
        forall k | 0 <= k < |init|
          ensures IsDigit(init[k])
        {
          assert init[k] == s[k];
        }
      }
      PrefixValueOfDigits(init);
      PrefixValueAppend(init, s[|s| - 1], 0);
      assert init + [s[|s| - 1]] == s;
    }
  }

  /** One more digit at the end: ten times the value, plus the digit. */
  lemma {:induction false} PrefixValueAppend(s: string, c: char, acc: nat)
    requires AllDigits(s) && IsDigit(c)
    ensures PrefixValue(s + [c], acc) == PrefixValue(s, acc) * 10 + (c as int - '0' as int)
  {
    if s == [] {
      assert [c][1..] == [];
    } else {
      assert (s + [c])[1..] == s[1..] + [c];
      assert AllDigits(s[1..]) by {
        forall k | 0 <= k < |s[1..]|
          ensures IsDigit(s[1..][k])
        {
          assert s[1..][k] == s[k + 1];
        }
      }
      PrefixValueAppend(s[1..], c, acc * 10 + (s[0] as int - '0' as int));
    }
  }

  /** A negative depth wraps around to a huge size_t. */
  lemma NegativeDepthWraps()
    ensures SizeT(Atoi("-1")) == 0xFFFF_FFFF_FFFF_FFFF
  {
    assert CStr("-1") == "-1" by {
      assert CStr("-1"[1..]) == "1" by {
        assert "-1"[1..] == "1";
        assert CStr("1"[1..]) == [];
      }
    }
    assert "-1"[1..] == "1";
    assert PrefixValue("1", 0) == 1 by {
      assert "1"[1..] == [];
    }
  }

  /** Output names: the four recognised values select their output; anything else keeps the current one. */
  lemma OutputChoice(s: string, current: Output)
    ensures CStr(s) == "fp" ==> OutputOf(s, current) == FlatProfile
    ensures CStr(s) == "cg" ==> OutputOf(s, current) == Callgrind
    ensures CStr(s) == "gte" ==> OutputOf(s, current) == GoogleTraceEvent
    ensures CStr(s) == "trace" ==> OutputOf(s, current) == Trace
    ensures CStr(s) !in {"fp", "cg", "gte", "trace"} ==> OutputOf(s, current) == current
  {
  }

  /** An unknown focus name keeps the focus metric as it was. */
  lemma UnknownFocusKept(c: Settings, d: SourceData)
    requires d.fpFocus.Some?
    requires forall j :: 0 <= j < MetricCount ==> MetricsInfo[j].shortName != CStr(d.fpFocus.value)
    ensures Applied(c, d).fpFocus == c.fpFocus
  {
    ShortNameFromFirst(CStr(d.fpFocus.value), 0);
  }

  /** Flat-profile output collects its focus metric after read, whatever the sources said. */
  lemma ReadCollectsFocus(sources: seq<Source>, env: map<string, string>, server: map<string, string>, get: map<string, string>)
    ensures var r := ReadSpec(sources, env, server, get);
      r.fpFocus < |r.metrics| && (r.output == FlatProfile ==> r.metrics[r.fpFocus])
  {
  }

  /** Nothing after an unrecognised tag is read. */
  lemma ReadStopsAtUnknown(a: seq<Source>, b: seq<Source>, env: map<string, string>, server: map<string, string>, get: map<string, string>)
    requires forall k :: 0 <= k < |a| ==> a[k] != NoSource
    ensures ReadSpec(a + [NoSource] + b, env, server, get) == ReadSpec(a, env, server, get)
  {
    RecognisedPrefix(a, b);
    assert (a + [NoSource] + b)[..|a|] == a;
    assert a[..|a|] == a;
  }

  lemma {:induction false} RecognisedPrefix(a: seq<Source>, b: seq<Source>)
    requires forall k :: 0 <= k < |a| ==> a[k] != NoSource
    ensures Recognised(a + [NoSource] + b) == |a| && Recognised(a) == |a|
  {
    if a != [] {
      assert (a + [NoSource] + b)[1..] == a[1..] + [NoSource] + b;
      RecognisedPrefix(a[1..], b);
    }
  }

  /** Two sources are applied one after the other. */
  lemma ApplyTwo(c: Settings, a: Source, b: Source, env: map<string, string>, server: map<string, string>, get: map<string, string>)
    ensures ApplyAll(c, [a, b], env, server, get)
         == Applied(Applied(c, SourceDataGet(a, env, server, get)), SourceDataGet(b, env, server, get))
  {
    assert [a, b][..1] == [a];
    assert [a][..0] == [];
    assert ApplyAll(c, [a], env, server, get) == Applied(c, SourceDataGet(a, env, server, get));
  }

  /** Reading one recognised source: the defaults, its answers, then the fix-up. */
  lemma ReadOne(a: Source, env: map<string, string>, server: map<string, string>, get: map<string, string>)
    requires a != NoSource
    ensures ReadSpec([a, NoSource], env, server, get) == Fixed(Applied(Defaults(), SourceDataGet(a, env, server, get)))
  {
    assert Recognised([a, NoSource]) == 1 by {
      assert [a, NoSource][1..] == [NoSource];
      assert Recognised([NoSource]) == 0;
    }
    assert [a, NoSource][..1] == [a];
    assert [a][..0] == [];
    assert ApplyAll(Defaults(), [a], env, server, get) == Applied(Defaults(), SourceDataGet(a, env, server, get));
  }

  /** Reading two recognised sources: the defaults, the first source's answers, the second's, then the fix-up. */
  lemma ReadTwo(a: Source, b: Source, env: map<string, string>, server: map<string, string>, get: map<string, string>)
    requires a != NoSource && b != NoSource
    ensures ReadSpec([a, b, NoSource], env, server, get)
         == Fixed(Applied(Applied(Defaults(), SourceDataGet(a, env, server, get)), SourceDataGet(b, env, server, get)))
  {
    assert Recognised([a, b, NoSource]) == 2 by {
      assert [a, b, NoSource][1..] == [b, NoSource];
      assert [b, NoSource][1..] == [NoSource];
      assert Recognised([NoSource]) == 0;
      assert Recognised([b, NoSource]) == 1;
    }
    assert [a, b, NoSource][..2] == [a, b];
    ApplyTwo(Defaults(), a, b, env, server, get);
  }

  /** What a source answers for SPX_ENABLED. */
  lemma EnabledAnswer(src: Source, env: map<string, string>, server: map<string, string>, get: map<string, string>)
    ensures SourceDataGet(src, env, server, get).enabled == Answer(src, env, server, get, "SPX_ENABLED")
  {
  }

  /** A later source's SPX_ENABLED overrides an earlier one's; an earlier answer shows through only when the later has none. */
  lemma LaterSourceWins(c: Settings, d1: SourceData, d2: SourceData)
    ensures var r := Applied(Applied(c, d1), d2);
      && (d2.enabled.Some? ==> r.enabled == Flag(d2.enabled.value))
      && (d2.enabled.None? && d1.enabled.Some? ==> r.enabled == Flag(d1.enabled.value))
      && (d2.metrics.Some? ==> r.metrics == Marked(MetricTokens(d2.metrics.value)))
  {
    AppliedEnabled(c, d1);
    AppliedEnabled(Applied(c, d1), d2);
    if d2.metrics.Some? {
      AppliedMetrics(Applied(c, d1), d2);
    }
  }

  /** Only SPX_ENABLED decides enabled. */
  lemma AppliedEnabled(c: Settings, d: SourceData)
    ensures Applied(c, d).enabled == if d.enabled.Some? then Flag(d.enabled.value) else c.enabled
  {
    var s := SwitchesPart(c, d);
    var m := MetricsPart(DepthPart(s, d), d);
    assert DepthPart(s, d).enabled == s.enabled;
    assert m.enabled == s.enabled;
    assert FlatProfilePart(OutputPart(m, d), d).enabled == m.enabled;
  }

  /** An SPX_METRICS answer decides the metrics. */
  lemma AppliedMetrics(c: Settings, d: SourceData)
    requires d.metrics.Some?
    ensures Applied(c, d).metrics == Marked(MetricTokens(d.metrics.value))
  {
    var m := MetricsPart(DepthPart(SwitchesPart(c, d), d), d);
    assert m.metrics == Marked(MetricTokens(d.metrics.value));
    assert FlatProfilePart(OutputPart(m, d), d).metrics == m.metrics;
  }
}
