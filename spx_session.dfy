/**
 * The request side of src/php_spx.c: who may profile over HTTP
 * (check_access), where the report goes (generate_output_file_name and the
 * compression test of init), and finish, which does its work once and, for
 * an HTTP request, sends the report back under headers chosen by output.
 * The clock, rand(), isatty, the file read back and the success of the
 * stream, reporter and profiler constructors are inputs.
 */
module SpxSession {
  import opened Wrappers
  import opened CStrings
  import opened Decimal
  import opened SpxUtils
  import opened SpxConfig

  // ---------------------------------------------------------------------
  // check_access

  /** The spx.http_* settings of php.ini; None is a NULL string. */
  datatype IniSettings = IniSettings(
    httpEnabled: bool, httpKey: Option<string>,
    ipVar: Option<string>, ipWhitelist: Option<string>)

  /** The php.ini defaults: HTTP off, empty key, REMOTE_ADDR, empty whitelist. */
  const IniDefaults := IniSettings(false, Some(""), Some("REMOTE_ADDR"), Some(""))

  /** A string that is neither NULL nor empty. */
  predicate Given(s: Option<string>)
  {
    s.Some? && CStr(s.value) != []
  }

  /** The whitelist's tokens, as the 32-char token buffer holds them. */
  function WhitelistTokens(w: string): seq<string>
  {
    Tokens(Split(CStr(w), ','), 31)
  }

  /** The client ip: $_SERVER[spx.http_ip_var]. */
  function ClientIp(ini: IniSettings, server: map<string, string>): Option<string>
  {
    if ini.ipVar.Some? then Lookup(server, CStr(ini.ipVar.value)) else None
  }

  /** The checks a non-CLI request must pass before the whitelist is consulted. */
  predicate Admissible(ini: IniSettings, key: Option<string>, server: map<string, string>)
  {
    && ini.httpEnabled
    && Given(ini.httpKey) && Given(key) && CStr(ini.httpKey.value) == CStr(key.value)
    && Given(ini.ipVar) && Given(ClientIp(ini, server))
    && Given(ini.ipWhitelist)
  }

  /** Access: the CLI always; otherwise an admissible request from a whitelisted ip. */
  predicate Granted(cli: bool, ini: IniSettings, key: Option<string>, server: map<string, string>)
  {
    cli || (Admissible(ini, key, server) && CStr(ClientIp(ini, server).value) in WhitelistTokens(ini.ipWhitelist.value))
  }

  /** check_access: the chain of refusals, then the whitelist scan. */
  method CheckAccess(cli: bool, ini: IniSettings, key: Option<string>, server: map<string, string>) returns (granted: bool)
    ensures granted == Granted(cli, ini, key, server)
  {
    if cli {
      return true;
    }
    if !ini.httpEnabled {
      return false;
    }
    if ini.httpKey.None? || CStr(ini.httpKey.value) == [] {
      return false;
    }
    if key.None? || CStr(key.value) == [] {
      return false;
    }
    if CStr(ini.httpKey.value) != CStr(key.value) {
      return false;
    }
    if ini.ipVar.None? || CStr(ini.ipVar.value) == [] {
      return false;
    }
    var ip := Lookup(server, CStr(ini.ipVar.value));
    if ip.None? || CStr(ip.value) == [] {
      return false;
    }
    if ini.ipWhitelist.None? || CStr(ini.ipWhitelist.value) == [] {
      return false;
    }
    granted := ScanWhitelist(CStr(ip.value), ini.ipWhitelist.value);
  }

  /** The tokenizer's block: stop at the first token equal to the ip. */
  method ScanWhitelist(ip: string, whitelist: string) returns (found: bool)
    ensures found <==> ip in WhitelistTokens(whitelist)
  {
    var tokens := Tokenize(whitelist, ',', 32);
    var i := 0;
    while i < |tokens|
      invariant 0 <= i <= |tokens|
      invariant ip !in tokens[..i]
    {
      if ip == tokens[i] {
        return true;
      }
      assert tokens[..i + 1] == tokens[..i] + [tokens[i]];
      i := i + 1;
    }
    assert tokens[..i] == tokens;
    return false;
  }

  /** Outside the CLI, a failed check denies whatever the whitelist holds. */
  lemma DeniedUnlessAdmissible(ini: IniSettings, key: Option<string>, server: map<string, string>)
    requires !Admissible(ini, key, server)
    ensures !Granted(false, ini, key, server)
  {
  }

  /** An admissible request is granted when its ip is one of the whitelist's entries and fits the token buffer. */
  lemma {:induction false} ListedIpGranted(ini: IniSettings, key: Option<string>, server: map<string, string>, entries: seq<string>, k: nat)
    requires Admissible(ini, key, server)
    requires |entries| >= 1 && k < |entries|
    requires forall j :: 0 <= j < |entries| ==> ',' !in entries[j] && '\0' !in entries[j]
    requires ini.ipWhitelist == Some(Join(entries, ','))
    requires entries[k] == CStr(ClientIp(ini, server).value) && |entries[k]| <= 31
    ensures Granted(false, ini, key, server)
  {
    JoinPlain(entries, ',');
    CStrOfPlain(Join(entries, ','));
    SplitOfJoin(entries, ',');
    TokensAt(entries, 31);
    assert WhitelistTokens(ini.ipWhitelist.value)[k] == entries[k];
  }

  /**
   * An ip longer than 31 chars is never granted: each whitelist entry is cut
   * to 31 chars before the comparison.
   */
  lemma LongIpDenied(ini: IniSettings, key: Option<string>, server: map<string, string>)
    requires Given(ClientIp(ini, server)) && |CStr(ClientIp(ini, server).value)| > 31
    ensures !Granted(false, ini, key, server)
  {
    if Admissible(ini, key, server) {
      var parts := Split(CStr(ini.ipWhitelist.value), ',');
      TokensAt(parts, 31);
      forall k | 0 <= k < |parts|
        ensures WhitelistTokens(ini.ipWhitelist.value)[k] != CStr(ClientIp(ini, server).value)
      {
        assert |WhitelistTokens(ini.ipWhitelist.value)[k]| <= 31;
      }
    }
  }

  /** No segment of a join of delimiter-free parts is lost or merged: splitting gives the parts back. */
  lemma {:induction false} SplitOfJoin(parts: seq<string>, d: char)
    requires |parts| >= 1
    requires forall j :: 0 <= j < |parts| ==> d !in parts[j]
    ensures Split(Join(parts, d), d) == parts
  {
    if |parts| == 1 {
      SplitPlain(parts[0], d);
    } else {
      var init := parts[..|parts| - 1];
      SplitOfJoin(init, d);
      SplitAfterDelim(Join(init, d), parts[|parts| - 1], d);
    }
  }

  /** A string without the delimiter is one segment. */
  lemma {:induction false} SplitPlain(s: string, d: char)
    requires d !in s
    ensures Split(s, d) == [s]
  {
    if s != [] {
      var init := s[..|s| - 1];
      assert d !in init && s[|s| - 1] != d;
      SplitPlain(init, d);
      assert init + [s[|s| - 1]] == s;
    }
  }

  /** After the last delimiter, the rest of the string is the last segment. */
  lemma {:induction false} SplitAfterDelim(a: string, b: string, d: char)
    requires d !in b
    ensures Split(a + [d] + b, d) == Split(a, d) + [b]
  {
    if b == [] {
      assert a + [d] + b == a + [d];
      assert (a + [d])[..|a|] == a;
    } else {
      var b' := b[..|b| - 1];
      var s := a + [d] + b;
      assert s[..|s| - 1] == a + [d] + b';
      SplitAfterDelim(a, b', d);
      assert b' + [b[|b| - 1]] == b;
    }
  }

  /** A join of NUL-free parts is NUL-free. */
  lemma {:induction false} JoinPlain(parts: seq<string>, d: char)
    requires |parts| >= 1 && d != '\0'
    requires forall j :: 0 <= j < |parts| ==> '\0' !in parts[j]
    ensures '\0' !in Join(parts, d)
  {
    if |parts| > 1 {
      JoinPlain(parts[..|parts| - 1], d);
    }
  }

  // ---------------------------------------------------------------------
  // generate_output_file_name and the compression test

  function NamePrefix(o: Output): string
  {
    match o
    case FlatProfile => "spx.flat_profile"
    case Callgrind => "callgrind.out"
    case GoogleTraceEvent => "spx.google_trace_event"
    case Trace => "spx.trace"
  }

  function NameExtension(o: Output): string
  {
    match o
    case FlatProfile => "txt"
    case Callgrind => "dat"
    case GoogleTraceEvent => "json"
    case Trace => "txt"
  }

  /** Every output but the flat profile is written gzip-compressed. */
  predicate CompressedOutput(o: Output)
  {
    o != FlatProfile
  }

  /** The name's end: the extension, then ".gz" for a compressed output. */
  function NameTail(o: Output): string
  {
    "." + NameExtension(o) + (if CompressedOutput(o) then ".gz" else "")
  }

  /**
   * The "/tmp/%s.%s.%d.%s%s" name, written with snprintf into the 512-char
   * output-file buffer. date is strftime's rendering of the clock, rnd the
   * value of rand().
   */
  function OutputFileName(o: Output, date: string, rnd: nat): (name: string)
    ensures |name| <= 511
  {
    Truncate("/tmp/" + NamePrefix(o) + "." + CStr(date) + "." + NatToString(rnd) + NameTail(o), 511)
  }

  /** init's test: the name is longer than 3 chars and ends in ".gz". */
  predicate CompressedName(name: string)
  {
    var s := CStr(name);
    |s| > 3 && s[|s| - 3..] == ".gz"
  }

  /** The test is ends_with over ".gz", except that ".gz" itself is not compressed. */
  lemma CompressedNameEndsWith(name: string)
    ensures CompressedName(name) <==> |CStr(name)| > 3 && EndsWith(name, ".gz")
    ensures !CompressedName(".gz") && CompressedName("a.gz")
  {
    CStrOfPlain(".gz");
    CStrOfPlain("a.gz");
  }

  /** The fixed parts of a name: short, NUL-free, and a tail that ends in ".gz" exactly for compressed outputs. */
  lemma NameParts(o: Output)
    ensures |NamePrefix(o)| <= 22 && '\0' !in NamePrefix(o)
    ensures 4 <= |NameTail(o)| <= 8 && '\0' !in NameTail(o)
    ensures var t := NameTail(o); t[|t| - 3..] == ".gz" <==> CompressedOutput(o)
  {
    var t := NameTail(o);
    if CompressedOutput(o) {
      assert t == "." + NameExtension(o) + ".gz";
    } else {
      assert t == ".txt";
      assert t[|t| - 3..][0] == 't';
    }
  }

  /**
   * A generated name is detected as compressed exactly for the outputs that
   * ask for compression. strftime's 64-char buffer holds at most 63 chars
   * and rand() is below 2^31, so the name is never cut.
   */
  lemma GeneratedNameCompressed(o: Output, date: string, rnd: nat)
    requires |CStr(date)| <= 63 && rnd < 0x8000_0000
    ensures CompressedName(OutputFileName(o, date, rnd)) <==> CompressedOutput(o)
  {
    var head := GeneratedNameHead(o, date, rnd);
    NameParts(o);
    CompressedTail(head, NameTail(o));
  }

  /** Below 2^31, the name's head is short and NUL-free, so the whole name fits the buffer. */
  lemma GeneratedNameHead(o: Output, date: string, rnd: nat) returns (head: string)
    requires |CStr(date)| <= 63 && rnd < 0x8000_0000
    ensures '\0' !in head && |head| <= 102
    ensures OutputFileName(o, date, rnd) == head + NameTail(o)
  {
    assert Pow10(10) == 10_000_000_000;
    NatToStringLength(rnd, 10);
    var n := NatToString(rnd);
    DigitsPlain(n);
    NameParts(o);
    head := "/tmp/" + NamePrefix(o) + "." + CStr(date) + "." + n;
  }

  lemma DigitsPlain(s: string)
    requires AllDigits(s)
    ensures '\0' !in s
  {
    forall k | 0 <= k < |s|
      ensures s[k] != '\0'
    {
      assert IsDigit(s[k]);
    }
  }

  /** For a NUL-free name with a tail of at least 4 chars, the test looks at the tail alone. */
  lemma CompressedTail(head: string, tail: string)
    requires '\0' !in head && '\0' !in tail && |tail| >= 4
    ensures CompressedName(head + tail) <==> tail[|tail| - 3..] == ".gz"
  {
    var full := head + tail;
    assert '\0' !in full;
    CStrOfPlain(full);
    assert full[|full| - 3..] == tail[|tail| - 3..];
  }

  // ---------------------------------------------------------------------
  // The download's name in the Content-Disposition header

  /** The position of the last c in s. */
  function LastIndexOf(s: string, c: char): (r: Option<nat>)
    ensures r.Some? ==> r.value < |s| && s[r.value] == c && c !in s[r.value + 1..]
    ensures r.None? ==> c !in s
  {
    if s == [] then None
    else if s[|s| - 1] == c then Some(|s| - 1)
    else
      var r := LastIndexOf(s[..|s| - 1], c);
      assert s == s[..|s| - 1] + [s[|s| - 1]];
      r
  }

  /**
   * finish's name as written: the basename after strrchr(name, '/') up to
   * strrchr(basename, '.'). None where either strrchr finds nothing, where
   * the source goes on with a NULL address.
   */
  function DispositionNameAsWritten(name: string): Option<string>
  {
    var s := CStr(name);
    match LastIndexOf(s, '/')
    case None => None
    case Some(slash) =>
      var base := s[slash + 1..];
      match LastIndexOf(base, '.')
      case None => None
      case Some(dot) => Some(base[..dot])
  }

  /** The basename: whatever follows the last '/', or the whole name. */
  function Basename(name: string): (b: string)
    ensures '/' !in b
  {
    var s := CStr(name);
    match LastIndexOf(s, '/')
    case None => s
    case Some(slash) => s[slash + 1..]
  }

  /** The download's name: the basename without its last extension, or the whole basename when it has none. */
  function DispositionName(name: string): (r: string)
    ensures '/' !in r && r <= Basename(name)
  {
    var base := Basename(name);
    match LastIndexOf(base, '.')
    case None => base
    case Some(dot) => base[..dot]
  }

  /** Where the source's name is defined, the corrected one agrees with it. */
  lemma DispositionNameAgrees(name: string)
    requires DispositionNameAsWritten(name).Some?
    ensures DispositionNameAsWritten(name).value == DispositionName(name)
  {
  }

  /** The corrected name drops exactly the last extension: what follows it is a '.' and a dot-free, slash-free tail. */
  lemma DispositionNameStem(name: string)
    ensures var b, r := Basename(name), DispositionName(name);
      (r == b && '.' !in b) || (|r| < |b| && b[|r|] == '.' && '.' !in b[|r| + 1..])
  {
    var b := Basename(name);
    match LastIndexOf(b, '.')
    case None =>
      assert DispositionName(name) == b;
    case Some(dot) =>
      assert DispositionName(name) == b[..dot];
  }

  /**
   * A name without '/' (an SPX_OUTPUT_FILE without a directory) leaves the
   * source's name undefined; the corrected one is taken from the whole name.
   */
  lemma SlashlessNameUndefined(name: string)
    requires '/' !in CStr(name)
    ensures DispositionNameAsWritten(name).None?
    ensures Basename(name) == CStr(name)
  {
  }

  // ---------------------------------------------------------------------
  // init and finish

  /** Where the report is written: standard output (redirected when live) or a file. */
  datatype Sink = NoSink | Stdout(live: bool) | File(name: string, compressed: bool)

  /** What init decides once the settings are read. */
  datatype Launch = Launch(profiling: bool, outputFile: string, sink: Sink)

  /**
   * init after the settings: nothing unless enabled and granted; then the
   * configured file or a generated name, and standard output for a CLI
   * flat profile without SPX_OUTPUT_FILE. started says whether the stream,
   * the reporter and the profiler were all created.
   */
  function Launched(cli: bool, ini: IniSettings, c: Settings, server: map<string, string>,
                    date: string, rnd: nat, tty: bool, started: bool): Launch
  {
    if !c.enabled || !Granted(cli, ini, c.key, server) then Launch(false, "", NoSink)
    else
      var given := if c.outputFile.Some? then CStr(c.outputFile.value) else "";
      var name := if given == [] then OutputFileName(c.output, date, rnd) else given;
      var sink :=
        if cli && c.output == FlatProfile && c.outputFile.None? then Stdout(c.fpLive && tty)
        else File(name, CompressedName(name));
      Launch(started, name, sink)
  }

  /** The sources init reads: the environment for the CLI, else headers then query string. */
  function InitSources(cli: bool): seq<Source>
  {
    if cli then [Env, NoSource] else [HttpHeader, HttpQueryString, NoSource]
  }

  /** The context struct as one value. */
  datatype ContextState = ContextState(
    cliSapi: bool, finishCalled: nat, profiling: bool,
    outputFile: string, sink: Sink, settings: Settings,
    stderr: string, response: string)

  function ContentType(o: Output): string
  {
    match o
    case FlatProfile => "Content-Type: text/plain"
    case Trace => "Content-Type: text/plain"
    case Callgrind => "Content-Type: application/octet-stream"
    case GoogleTraceEvent => "Content-Type: application/json"
  }

  /** The status line and headers finish sends, in order. */
  function ResponseHeaders(o: Output, name: string): seq<string>
  {
    ["HTTP/1.1 200 OK", ContentType(o)]
    + if o != FlatProfile
      then ["Content-Encoding: gzip", "Content-Disposition: attachment; filename=\"" + DispositionName(name) + "\""]
      else []
  }

  /** Each line followed by CR LF. */
  function HeaderBlock(lines: seq<string>): string
  {
    if lines == [] then "" else HeaderBlock(lines[..|lines| - 1]) + lines[|lines| - 1] + "\r\n"
  }

  /** What finish sends an HTTP client: the header block, a blank line, then the report file's content. */
  function Response(o: Output, name: string, content: string): string
  {
    HeaderBlock(ResponseHeaders(o, name)) + "\r\n" + content
  }

  /**
   * The headers by output: text/plain for the flat profile and the trace,
   * octet-stream for callgrind, JSON for the trace events; all but the flat
   * profile are sent gzip-encoded, as a download named after the file.
   */
  lemma HeadersByOutput(o: Output, name: string)
    ensures var h := ResponseHeaders(o, name);
      && h[0] == "HTTP/1.1 200 OK"
      && (h[1] == "Content-Type: text/plain" <==> o in {FlatProfile, Trace})
      && ("Content-Encoding: gzip" in h <==> o != FlatProfile)
      && (o != FlatProfile ==> |h| == 4 && h[3] == "Content-Disposition: attachment; filename=\"" + DispositionName(name) + "\"")
      && (o == FlatProfile ==> |h| == 2)
  {
    var h := ResponseHeaders(o, name);
    assert |"Content-Encoding: gzip"| == 22;
    assert |h[0]| == 15 && |h[1]| >= 24;
    if o != FlatProfile {
      assert |h[3]| >= 43;
    }
  }

  /** The CLI's closing line on stderr, for a generated non-flat-profile file. */
  function Notice(s: ContextState): string
  {
    if s.cliSapi && s.settings.outputFile.None? && s.settings.output != FlatProfile
    then "\nSPX output file: " + s.outputFile + "\n"
    else ""
  }

  /** finish: the counter always moves; only the first call with a profiler does the work. */
  function Finished(s: ContextState, content: string): (r: ContextState)
    ensures r.finishCalled == s.finishCalled + 1
  {
    var s' := s.(finishCalled := s.finishCalled + 1);
    if s.finishCalled != 0 || !s.profiling then s'
    else
      s'.(profiling := false,
          stderr := s.stderr + Notice(s),
          response := if s.cliSapi then s.response else s.response + Response(s.settings.output, s.outputFile, content))
  }

  /** A second finish changes nothing but the counter, whatever the first did. */
  lemma FinishRunsOnce(s: ContextState, first: string, second: string)
    ensures var r := Finished(Finished(s, first), second);
      r == Finished(s, first).(finishCalled := s.finishCalled + 2)
  {
  }

  /** The CLI gets nothing back; an HTTP client gets one response, on the first finish with a profiler. */
  lemma FinishResponds(s: ContextState, content: string)
    ensures s.cliSapi ==> Finished(s, content).response == s.response
    ensures !s.cliSapi && s.finishCalled == 0 && s.profiling ==>
      Finished(s, content).response == s.response + Response(s.settings.output, s.outputFile, content)
    ensures s.finishCalled != 0 || !s.profiling ==> Finished(s, content).response == s.response
    ensures !Finished(s, content).profiling || s.finishCalled != 0
  {
  }

  class Context {
    var cliSapi: bool
    var finishCalled: nat
    var profiling: bool
    var outputFile: string
    var sink: Sink
    var stderr: string
    var response: string
    const config: Config

    ghost predicate Valid()
      reads this, config
    {
      config.Valid()
    }

    function State(): ContextState
      reads this, config, config.enabledMetrics
    {
      ContextState(cliSapi, finishCalled, profiling, outputFile, sink, config.State(), stderr, response)
    }

    constructor ()
      ensures Valid() && fresh(config) && fresh(config.enabledMetrics)
      ensures finishCalled == 0 && !profiling && stderr == [] && response == []
    {
      config := new Config();
      cliSapi, finishCalled, profiling := false, 0, false;
      outputFile, sink, stderr, response := "", NoSink, "", "";
    }

    /**
     * init, from the settings on: read them into one configuration, reset
     * once, then decide whether to profile and where the report goes.
     */
    method Init(cli: bool, ini: IniSettings, env: map<string, string>, server: map<string, string>,
                get: map<string, string>, date: string, rnd: nat, tty: bool, started: bool)
      requires Valid()
      modifies this, config, config.enabledMetrics
      ensures Valid()
      ensures config.State() == ReadSpec(InitSources(cli), env, server, get)
      ensures cliSapi == cli && finishCalled == 0
      ensures Launch(profiling, outputFile, sink) == Launched(cli, ini, config.State(), server, date, rnd, tty, started)
      ensures stderr == old(stderr) && response == old(response)
    {
      cliSapi, finishCalled := cli, 0;
      config.Read(InitSources(cli), env, server, get);
      Start(cli, ini, server, date, rnd, tty, started);
    }

    /** init after the settings are read. */
    method Start(cli: bool, ini: IniSettings, server: map<string, string>, date: string, rnd: nat, tty: bool, started: bool)
      requires Valid()
      modifies this`profiling, this`outputFile, this`sink
      ensures Valid()
      ensures Launch(profiling, outputFile, sink) == Launched(cli, ini, config.State(), server, date, rnd, tty, started)
    {
      profiling, outputFile, sink := false, "", NoSink;
      if !config.enabled {
        return;
      }
      var granted := CheckAccess(cli, ini, config.key, server);
      if !granted {
        return;
      }
      if config.outputFile.Some? {
        outputFile := CStr(config.outputFile.value);
      }
      if outputFile == [] {
        outputFile := OutputFileName(config.output, date, rnd);
      }
      if cli && config.output == FlatProfile && config.outputFile.None? {
        sink := Stdout(config.fpLive && tty);
      } else {
        sink := File(outputFile, CompressedName(outputFile));
      }
      profiling := started;
    }

    /** finish; content is what read_file_content reads back from the report file. */
    method Finish(content: string)
      requires Valid()
      modifies this
      ensures Valid() && State() == Finished(old(State()), content)
    {
      finishCalled := finishCalled + 1;
      if finishCalled != 1 {
        return;
      }
      if !profiling {
        return;
      }
      profiling := false;
      if cliSapi && config.outputFile.None? && config.output != FlatProfile {
        stderr := stderr + "\nSPX output file: " + outputFile + "\n";
      }
      if cliSapi {
        return;
      }
      response := response + Response(config.output, outputFile, content);
    }
  }

  // ---------------------------------------------------------------------
  // How init reads the HTTP settings

  /**
   * init's two reads for an HTTP request, done by the spx_config_read of
   * src/spx_config.c, which starts again from the defaults on each call.
   * That file comes from another version than php_spx.c, whose
   * spx_config_init and one-source read (src/spx_config.h) Init follows;
   * the list each read walks is taken to end after its one source.
   */
  method ReadHttpAsWritten(config: Config, env: map<string, string>, server: map<string, string>, get: map<string, string>)
    requires config.Valid()
    modifies config, config.enabledMetrics
    ensures config.Valid() && config.State() == ReadSpec([HttpQueryString, NoSource], env, server, get)
  {
    config.Read([HttpHeader, NoSource], env, server, get);
    config.Read([HttpQueryString, NoSource], env, server, get);
  }

  /**
   * With the two reads, a request that switches profiling on by header
   * alone is not profiled; read together, the header switches it on.
   */
  lemma HeaderEnableLost(env: map<string, string>, server: map<string, string>, get: map<string, string>)
    requires "SPX_ENABLED" !in get && HeaderKey("SPX_ENABLED") in server && Flag(server[HeaderKey("SPX_ENABLED")])
    ensures !ReadSpec([HttpQueryString, NoSource], env, server, get).enabled
    ensures ReadSpec(InitSources(false), env, server, get).enabled
  {
    QueryStringOverridesHeader(env, server, get);
    ReadOne(HttpQueryString, env, server, get);
    EnabledAnswer(HttpQueryString, env, server, get);
  }

  /** Read together, a header setting holds unless the query string answers for the same parameter, which then wins. */
  lemma QueryStringOverridesHeader(env: map<string, string>, server: map<string, string>, get: map<string, string>)
    ensures var r := ReadSpec(InitSources(false), env, server, get);
      && ("SPX_ENABLED" in get ==> r.enabled == Flag(get["SPX_ENABLED"]))
      && ("SPX_ENABLED" !in get && HeaderKey("SPX_ENABLED") in server ==> r.enabled == Flag(server[HeaderKey("SPX_ENABLED")]))
  {
    var dh := SourceDataGet(HttpHeader, env, server, get);
    var dq := SourceDataGet(HttpQueryString, env, server, get);
    ReadTwo(HttpHeader, HttpQueryString, env, server, get);
    EnabledAnswer(HttpHeader, env, server, get);
    EnabledAnswer(HttpQueryString, env, server, get);
    LaterSourceWins(Defaults(), dh, dq);
  }
}
