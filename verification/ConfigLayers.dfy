/** Layered configuration: defaults, then a file, then the environment, then the command line,
    each overwriting fields of one configuration record. */
module ConfigLayers {

  import opened Wrappers
  import opened Decimal
  import opened ConfigFile

  const DEFAULT_CONFIG_FILE := "/etc/config-demo.conf"
  const USER_CONFIG_FILE := ".config/config-demo.conf"

  /** The outside world: environment variables, files that exist (None when fopen fails), and
      what atoi returns for numbers that do not fit an int. */
  datatype World = World(env: map<string, string>, files: map<string, Option<string>>, undefined: string -> int)

  /** A parsed command-line option, as getopt_long delivers it. `--config FILE` comes with its
      argument; the short `-c` is declared without one and comes with none. */
  datatype Opt = OptAddress(arg: string) | OptPort(arg: string) | OptLevel(arg: string) | OptDebug
    | OptConfig(file: Option<string>) | OptHelp | OptUnknown

  // ---------------------------------------------------------------------------------------
  // What a source says
  // ---------------------------------------------------------------------------------------

  datatype Setting = Address(a: string) | Port(p: nat) | LogLevel(l: int) | Debug(d: bool)

  function ToPort(s: string, w: World): nat {
    Atoi(s, w.undefined) % 0x1_0000
  }

  function Lower(c: char): char {
    if 'A' <= c <= 'Z' then c - 'A' + 'a' else c
  }

  predicate EqualsIgnoringCase(s: string, t: string) {
    |s| == |t| && forall i :: 0 <= i < |s| ==> Lower(s[i]) == Lower(t[i])
  }

  predicate IsTrue(s: string) {
    s == "1" || EqualsIgnoringCase(s, "true")
  }

  function PairSetting(pair: Pair, w: World): seq<Setting> {
    if pair.0 == "address" then [Address(pair.1)]
    else if pair.0 == "port" then [Port(ToPort(pair.1, w))]
    else if pair.0 == "log_level" then [LogLevel(Atoi(pair.1, w.undefined))]
    else if pair.0 == "debug" then [Debug(IsTrue(pair.1))]
    else []
  }

  function PairSettings(pairs: seq<Pair>, w: World): seq<Setting> {
    if pairs == [] then [] else PairSetting(pairs[0], w) + PairSettings(pairs[1..], w)
  }

  /** What one line as fgets delivers it sets. */
  function LineSettings(line: string, w: World): seq<Setting> {
    var parsed := ParseLine(UpToNul(line));
    if parsed.Some? then PairSetting(parsed.value, w) else []
  }

  function Var(w: World, name: string): Option<string> {
    if name in w.env then Some(w.env[name]) else None
  }

  function EnvAddress(w: World): seq<Setting> {
    var v := Var(w, "CONFIG_DEMO_ADDRESS");
    if v.Some? then [Address(v.value)] else []
  }

  function EnvPort(w: World): seq<Setting> {
    var v := Var(w, "CONFIG_DEMO_PORT");
    if v.Some? then [Port(ToPort(v.value, w))] else []
  }

  function EnvLevel(w: World): seq<Setting> {
    var v := Var(w, "CONFIG_DEMO_LOG_LEVEL");
    if v.Some? then [LogLevel(Atoi(v.value, w.undefined))] else []
  }

  function EnvDebug(w: World): seq<Setting> {
    var v := Var(w, "CONFIG_DEMO_DEBUG");
    if v.Some? then [Debug(IsTrue(v.value))] else []
  }

  function EnvSettings(w: World): seq<Setting> {
    EnvAddress(w) + EnvPort(w) + EnvLevel(w) + EnvDebug(w)
  }

  function OptSetting(opt: Opt, w: World): seq<Setting> {
    match opt
    case OptAddress(arg) => [Address(arg)]
    case OptPort(arg) => [Port(ToPort(arg, w))]
    case OptLevel(arg) => [LogLevel(Atoi(arg, w.undefined))]
    case OptDebug => [Debug(true)]
    case _ => []
  }

  function OptSettings(opts: seq<Opt>, w: World): seq<Setting> {
    if opts == [] then [] else OptSetting(opts[0], w) + OptSettings(opts[1..], w)
  }

  // ---------------------------------------------------------------------------------------
  // Priority
  // ---------------------------------------------------------------------------------------

  /** The value of the last setting of a source that mentions a field. */
  function LastAddress(ss: seq<Setting>): Option<string> {
    if ss == [] then None
    else if ss[|ss| - 1].Address? then Some(ss[|ss| - 1].a) else LastAddress(ss[..|ss| - 1])
  }

  function LastPort(ss: seq<Setting>): Option<nat> {
    if ss == [] then None
    else if ss[|ss| - 1].Port? then Some(ss[|ss| - 1].p) else LastPort(ss[..|ss| - 1])
  }

  function LastLevel(ss: seq<Setting>): Option<int> {
    if ss == [] then None
    else if ss[|ss| - 1].LogLevel? then Some(ss[|ss| - 1].l) else LastLevel(ss[..|ss| - 1])
  }

  function LastDebug(ss: seq<Setting>): Option<bool> {
    if ss == [] then None
    else if ss[|ss| - 1].Debug? then Some(ss[|ss| - 1].d) else LastDebug(ss[..|ss| - 1])
  }

  /** The highest-priority source that mentions a field decides, whatever the value. */
  function Choose<T>(cli: Option<T>, env: Option<T>, file: Option<T>, default: T): T {
    if cli.Some? then cli.value
    else if env.Some? then env.value
    else if file.Some? then file.value
    else default
  }

  datatype Values = Values(address: Option<string>, port: nat, logLevel: int, debug: bool)

  /** The four fields as the documented priority defines them: CLI, environment, file, default. */
  function Prioritised(cli: seq<Setting>, env: seq<Setting>, file: seq<Setting>): Values {
    Values(Some(Choose(LastAddress(cli), LastAddress(env), LastAddress(file), "localhost")),
           Choose(LastPort(cli), LastPort(env), LastPort(file), 8080),
           Choose(LastLevel(cli), LastLevel(env), LastLevel(file), 3),
           Choose(LastDebug(cli), LastDebug(env), LastDebug(file), false))
  }

  /** One overwrite. */
  function Apply(v: Values, s: Setting): Values {
    match s
    case Address(a) => v.(address := Some(a))
    case Port(p) => v.(port := p)
    case LogLevel(l) => v.(logLevel := l)
    case Debug(d) => v.(debug := d)
  }

  function ApplyAll(v: Values, ss: seq<Setting>): Values
    decreases |ss|
  {
    if ss == [] then v else ApplyAll(Apply(v, ss[0]), ss[1..])
  }

  lemma {:induction false} ApplyAllConcat(v: Values, ss: seq<Setting>, tt: seq<Setting>)
    ensures ApplyAll(v, ss + tt) == ApplyAll(ApplyAll(v, ss), tt)
    decreases |ss|
  {
    if ss == [] {
      assert ss + tt == tt;
    } else {
      assert (ss + tt)[1..] == ss[1..] + tt;
      ApplyAllConcat(Apply(v, ss[0]), ss[1..], tt);
    }
  }

  /** Overwriting in order leaves the last setting of each field. */
  lemma {:induction false} ApplyAllIsLast(v: Values, ss: seq<Setting>)
    ensures ApplyAll(v, ss) == Values(
              if LastAddress(ss).Some? then LastAddress(ss) else v.address,
              if LastPort(ss).Some? then LastPort(ss).value else v.port,
              if LastLevel(ss).Some? then LastLevel(ss).value else v.logLevel,
              if LastDebug(ss).Some? then LastDebug(ss).value else v.debug)
    decreases |ss|
  {
    if ss != [] {
      hide ApplyAll, Apply;
      var front, last := ss[..|ss| - 1], ss[|ss| - 1];
      ApplyAllIsLast(v, front);
      assert ss == front + [last];
      ApplyAllConcat(v, front, [last]);
      ApplyOne(ApplyAll(v, front), last);
    }
  }

  lemma ApplyOne(v: Values, s: Setting)
    ensures ApplyAll(v, [s]) == Values(
              if s.Address? then Some(s.a) else v.address, if s.Port? then s.p else v.port,
              if s.LogLevel? then s.l else v.logLevel, if s.Debug? then s.d else v.debug)
  {
    assert [s][1..] == [] && ApplyAll(v, [s]) == ApplyAll(Apply(v, s), []);
  }

  const DEFAULTS: Values := Values(Some("localhost"), 8080, 3, false)

  /** The order in which config_load runs the sources realises the documented priority. */
  lemma LoadOrderIsPriority(cli: seq<Setting>, env: seq<Setting>, file: seq<Setting>)
    ensures ApplyAll(ApplyAll(ApplyAll(DEFAULTS, file), env), cli) == Prioritised(cli, env, file)
  {
    ApplyAllIsLast(DEFAULTS, file);
    var v := ApplyAll(DEFAULTS, file);
    ApplyAllIsLast(v, env);
    ApplyAllIsLast(ApplyAll(v, env), cli);
  }

  // ---------------------------------------------------------------------------------------
  // Which file is read
  // ---------------------------------------------------------------------------------------

  /** The argument of the last `-c` in argv[..n] that has one. */
  function ConfigArg(argv: seq<string>, n: nat): Option<string>
    requires n <= |argv|
  {
    if n <= 1 then None
    else if argv[n - 1] == "-c" && n < |argv| then Some(argv[n])
    else ConfigArg(argv, n - 1)
  }

  function UserFile(home: string): string {
    var path := home + "/" + USER_CONFIG_FILE;
    if |path| < 512 then path else path[..511]
  }

  function FindConfigFile(configured: Option<string>, w: World): Option<string> {
    if configured.Some? then configured
    else if DEFAULT_CONFIG_FILE in w.files then Some(DEFAULT_CONFIG_FILE)
    else if "HOME" in w.env && UserFile(w.env["HOME"]) in w.files then Some(UserFile(w.env["HOME"]))
    else None
  }

  function FileSettings(path: Option<string>, w: World): seq<Setting> {
    if path.Some? && path.value in w.files && w.files[path.value].Some?
    then PairSettings(Pairs(w.files[path.value].value), w)
    else []
  }

  /** The last config option, if any, and the file name it stores, if any. */
  function LastConfigOpt(opts: seq<Opt>): Option<Option<string>> {
    if opts == [] then None
    else if opts[|opts| - 1].OptConfig? then Some(opts[|opts| - 1].file)
    else LastConfigOpt(opts[..|opts| - 1])
  }

  /** The file the file source looks for: decided by the prescan, before the environment. */
  function FileRead(argv: seq<string>, w: World): Option<string> {
    FindConfigFile(ConfigArg(argv, |argv|), w)
  }

  /** The file name that is reported in the end: the last config option decides, then the
      environment, then the file that was looked for. */
  function ReportedFile(argv: seq<string>, opts: seq<Opt>, w: World): Option<string> {
    var env := Var(w, "CONFIG_DEMO_CONFIG");
    if LastConfigOpt(opts).Some? then LastConfigOpt(opts).value
    else if env.Some? then env
    else FileRead(argv, w)
  }

  predicate ShortFormOnly(opts: seq<Opt>) {
    forall i :: 0 <= i < |opts| && opts[i].OptConfig? ==> opts[i].file.None?
  }

  predicate HasConfigOpt(opts: seq<Opt>) {
    exists i :: 0 <= i < |opts| && opts[i].OptConfig?
  }

  lemma {:induction false} LastShortConfig(opts: seq<Opt>)
    requires ShortFormOnly(opts)
    ensures LastConfigOpt(opts) == if HasConfigOpt(opts) then Some(None) else None
  {
    if opts != [] {
      var front := opts[..|opts| - 1];
      assert forall i :: 0 <= i < |front| ==> front[i] == opts[i];
      LastShortConfig(front);
    }
  }

  /** The file named with a short `-c` is read, but its name is forgotten: the option comes
      without argument and clears the field, wherever it stands. */
  lemma ShortConfigForgotten(argv: seq<string>, opts: seq<Opt>, w: World)
    requires ShortFormOnly(opts) && HasConfigOpt(opts)
    ensures ReportedFile(argv, opts, w) == None
  {
    LastShortConfig(opts);
  }

  // ---------------------------------------------------------------------------------------
  // Is it the documented file?
  // ---------------------------------------------------------------------------------------

  /** The last config option on a command line: `-c FILE`, or `-c` at the very end, or
      `--config FILE` or `--config=FILE`. */
  datatype Mention = NoMention | Short(file: Option<string>) | Long(name: string)

  const LONG_PREFIX := "--config="

  function LastMention(argv: seq<string>, n: nat): Mention
    requires n <= |argv|
  {
    if n <= 1 then NoMention
    else if argv[n - 1] == "-c" then Short(if n < |argv| then Some(argv[n]) else None)
    else if argv[n - 1] == "--config" && n < |argv| then Long(argv[n])
    else if LONG_PREFIX <= argv[n - 1] then Long(argv[n - 1][|LONG_PREFIX|..])
    else LastMention(argv, n - 1)
  }

  /** The last config option that names a file: a bare `-c` at the end does not. */
  function LastNaming(argv: seq<string>): Mention {
    var m := LastMention(argv, |argv|);
    if m == Short(None) then LastMention(argv, |argv| - 1) else m
  }

  /** Where a file is looked for when none is named: the system's first, then the user's,
      with a path cut to 511 characters. */
  lemma FileLookedFor(w: World, configured: string)
    ensures FindConfigFile(Some(configured), w) == Some(configured)
    ensures "/etc/config-demo.conf" in w.files ==> FindConfigFile(None, w) == Some("/etc/config-demo.conf")
    ensures "/etc/config-demo.conf" !in w.files && "HOME" !in w.env ==> FindConfigFile(None, w) == None
    ensures "/etc/config-demo.conf" !in w.files && "HOME" in w.env ==>
              var user := w.env["HOME"] + "/.config/config-demo.conf";
              var cut := if |user| <= 511 then user else user[..511];
              FindConfigFile(None, w) == if cut in w.files then Some(cut) else None
  {
    if "HOME" in w.env {
      assert w.env["HOME"] + "/" + USER_CONFIG_FILE == w.env["HOME"] + "/.config/config-demo.conf";
    }
  }

  /** The documented choice: the file of the last config option that names one, else
      CONFIG_DEMO_CONFIG, else the file that is looked for. */
  function Documented(argv: seq<string>, w: World): Option<string> {
    match LastNaming(argv)
    case Short(file) => file
    case Long(file) => Some(file)
    case NoMention =>
      var env := Var(w, "CONFIG_DEMO_CONFIG");
      if env.Some? then env else FindConfigFile(None, w)
  }

  /** The prescan sees the short form only. */
  lemma {:induction false} PrescanSeesShort(argv: seq<string>, n: nat)
    requires n <= |argv|
    ensures match LastMention(argv, n)
            case NoMention => ConfigArg(argv, n) == None
            case Short(Some(file)) => ConfigArg(argv, n) == Some(file)
            case Short(None) => n == |argv| && ConfigArg(argv, n) == ConfigArg(argv, n - 1)
            case Long(_) => true
  {
    if n > 1 && argv[n - 1] != "-c" {
      PrescanSeesShort(argv, n - 1);
    }
  }

  lemma PrescanSeesNamed(argv: seq<string>)
    ensures match LastNaming(argv)
            case NoMention => ConfigArg(argv, |argv|) == None
            case Short(file) => file.Some? && ConfigArg(argv, |argv|) == file
            case Long(_) => true
  {
    PrescanSeesShort(argv, |argv|);
    if LastMention(argv, |argv|) == Short(None) {
      PrescanSeesShort(argv, |argv| - 1);
    }
  }

  /** Exactly when the file that is read is the documented one: always after `-c FILE`; without a
      config option that names a file if the variable is not set or names the file that is looked
      for anyway; after the long form if an earlier `-c`, or else the file looked for, happens to be
      the same file. */
  lemma FileReadIsDocumented(argv: seq<string>, w: World)
    ensures FileRead(argv, w) == Documented(argv, w) <==>
            match LastNaming(argv)
            case Short(_) => true
            case NoMention =>
              "CONFIG_DEMO_CONFIG" in w.env ==> FindConfigFile(None, w) == Some(w.env["CONFIG_DEMO_CONFIG"])
            case Long(file) =>
              var arg := ConfigArg(argv, |argv|);
              arg == Some(file) || (arg == None && FindConfigFile(None, w) == Some(file))
  {
    PrescanSeesNamed(argv);
  }

  /** What getopt_long delivers for a config option: the short form comes without argument. */
  function Delivered(m: Mention): Option<Option<string>> {
    match m
    case NoMention => None
    case Short(_) => Some(None)
    case Long(file) => Some(Some(file))
  }

  /** Exactly when the name that is reported in the end is the documented one: unless the last
      config option is the short form, which clears the name, so that only no name can be right. */
  lemma ReportedIsDocumented(argv: seq<string>, opts: seq<Opt>, w: World)
    requires LastConfigOpt(opts) == Delivered(LastMention(argv, |argv|))
    ensures ReportedFile(argv, opts, w) == Documented(argv, w) <==>
            (LastMention(argv, |argv|).Short? ==>
               LastNaming(argv) == NoMention && "CONFIG_DEMO_CONFIG" !in w.env && FindConfigFile(None, w) == None)
  {
    PrescanSeesShort(argv, |argv|);
    PrescanSeesNamed(argv);
  }

  const PROGRAM := "config-demo"
  const WITNESS_WORLD: World := World(map["CONFIG_DEMO_CONFIG" := "/e"], map["/e" := Some(""), "/f" := Some("")], _ => 0)

  /** One input for each disagreement: the variable alone and the long form are reported but not
      read, the short form is read but not reported, and a bare `-c` hides the variable. */
  lemma ConfigFileWitness()
    ensures var alone := [PROGRAM];
            FileRead(alone, WITNESS_WORLD) == None && Documented(alone, WITNESS_WORLD) == Some("/e")
            && ReportedFile(alone, [], WITNESS_WORLD) == Some("/e")
    ensures var long := [PROGRAM, "--config", "/f"];
            FileRead(long, WITNESS_WORLD) == None && Documented(long, WITNESS_WORLD) == Some("/f")
            && ReportedFile(long, [OptConfig(Some("/f"))], WITNESS_WORLD) == Some("/f")
    ensures var short := [PROGRAM, "-c", "/f"];
            FileRead(short, WITNESS_WORLD) == Documented(short, WITNESS_WORLD) == Some("/f")
            && ReportedFile(short, [OptConfig(None)], WITNESS_WORLD) == None
    ensures var joined := [PROGRAM, "--config=/f"];
            FileRead(joined, WITNESS_WORLD) == None && Documented(joined, WITNESS_WORLD) == Some("/f")
    ensures var bare := [PROGRAM, "-c"];
            FileRead(bare, WITNESS_WORLD) == None && Documented(bare, WITNESS_WORLD) == Some("/e")
            && ReportedFile(bare, [OptConfig(None)], WITNESS_WORLD) == None
  {
    assert "HOME" !in WITNESS_WORLD.env && DEFAULT_CONFIG_FILE !in WITNESS_WORLD.files;
    var long, short := [PROGRAM, "--config", "/f"], [PROGRAM, "-c", "/f"];
    assert long[2][0] == '/' && long[1] == "--config" && long[1] != "-c";
    assert !(LONG_PREFIX <= long[2]) && !(LONG_PREFIX <= short[2]);
    assert LastMention(long, 3) == LastMention(long, 2) == Long("/f");
    assert LastMention(short, 3) == LastMention(short, 2) == Short(Some("/f"));
    var joined := [PROGRAM, "--config=/f"];
    assert joined[1][1] == '-' && joined[1][8] == '=' && joined[1] != "-c" && joined[1] != "--config";
    assert joined[1][..9] == LONG_PREFIX && joined[1][9..] == "/f";
    assert LastMention(joined, 2) == Long("/f") && ConfigArg(joined, 2) == ConfigArg(joined, 1) == None;
    var bare := [PROGRAM, "-c"];
    assert LastMention(bare, 2) == Short(None) && LastMention(bare, 1) == NoMention;
    assert ConfigArg(bare, 2) == ConfigArg(bare, 1) == None;
    assert ConfigArg(long, 3) == ConfigArg(long, 2) == ConfigArg(long, 1) == None;
    assert ConfigArg(short, 3) == ConfigArg(short, 2) == Some("/f");
  }

  // ---------------------------------------------------------------------------------------
  // The program
  // ---------------------------------------------------------------------------------------

  class Config {
    var address: Option<string>
    var port: nat
    var logLevel: int
    var debug: bool
    var configFile: Option<string>

    function Fields(): Values
      reads this
    {
      Values(address, port, logLevel, debug)
    }

    /** config_init: all bytes zero. */
    method Init()
      modifies this
      ensures Fields() == Values(None, 0, 0, false) && configFile == None
    {
      address, port, logLevel, debug, configFile := None, 0, 0, false, None;
    }

    method ApplyDefaults()
      modifies this
      ensures configFile == old(configFile) && debug == old(debug)
      ensures address == (if old(address).None? then Some("localhost") else old(address))
      ensures port == (if old(port) == 0 then 8080 else old(port))
      ensures logLevel == (if old(logLevel) == 0 then 3 else old(logLevel))
    {
      if address.None? {
        address := Some("localhost");
      }
      if port == 0 {
        port := 8080;
      }
      if logLevel == 0 {
        logLevel := 3;
      }
    }

    /** The prescan for the separate `-c FILE` form. For the bare argument `--config=` the
        program would read past the end of the argument. */
    method ApplyCliArgsForConfigFile(argv: seq<string>)
      requires "--config=" !in argv
      modifies this`configFile
      ensures var arg := ConfigArg(argv, |argv|);
              configFile == if arg.Some? then arg else old(configFile)
    {
      var i := 1;
      while i < |argv|
        invariant i == 1 || i <= |argv|
        invariant var arg := ConfigArg(argv, if i <= |argv| then i else 0);
                  configFile == if arg.Some? then arg else old(configFile)
      {
        if argv[i] == "-c" && i + 1 < |argv| {
          configFile := Some(argv[i + 1]);
        }
        i := i + 1;
      }
    }

    method ApplyPair(pair: Pair, w: World)
      modifies this`address, this`port, this`logLevel, this`debug
      ensures Fields() == ApplyAll(old(Fields()), PairSetting(pair, w))
    {
      var (key, value) := pair;
      if key == "address" {
        address := Some(value);
      } else if key == "port" {
        port := ToPort(value, w);
      } else if key == "log_level" {
        logLevel := Atoi(value, w.undefined);
      } else if key == "debug" {
        debug := IsTrue(value);
      }
      One(old(Fields()), PairSetting(pair, w));
    }

    method ApplyFileConfig(w: World) returns (ret: int)
      modifies this
      ensures configFile == FindConfigFile(old(configFile), w)
      ensures Fields() == ApplyAll(old(Fields()), FileSettings(configFile, w))
      ensures ret == 0 <==> configFile.Some? && configFile.value in w.files && w.files[configFile.value].Some?
    {
      if configFile.None? {
        if DEFAULT_CONFIG_FILE in w.files {
          configFile := Some(DEFAULT_CONFIG_FILE);
        } else if "HOME" in w.env && UserFile(w.env["HOME"]) in w.files {
          configFile := Some(UserFile(w.env["HOME"]));
        } else {
          return -1;
        }
      }
      if configFile.value !in w.files || w.files[configFile.value].None? {
        return -1;
      }
      ReadLines(w.files[configFile.value].value, w);
      return 0;
    }

    /** The loop over the lines of an open file. */
    method ReadLines(content: string, w: World)
      modifies this`address, this`port, this`logLevel, this`debug
      ensures Fields() == ApplyAll(old(Fields()), PairSettings(Pairs(content), w))
    {
      hide PairSettings, Pairs, LineLength, LineSettings, ApplyAll;
      var key, value := new char[MAX_LINE_LENGTH](_ => NUL), new char[MAX_LINE_LENGTH](_ => NUL);
      var rest := content;
      ghost var start := Fields();
      while rest != ""
        invariant ApplyAll(Fields(), PairSettings(Pairs(rest), w)) == ApplyAll(start, PairSettings(Pairs(content), w))
        decreases |rest|
      {
        var n := LineLength(rest, 0);
        LineNotEmpty(rest);
        FirstLineFirst(Fields(), rest, w);
        ReadLine(rest[..n], key, value, w);
        rest := rest[n..];
      }
      NoPairs(Fields(), w);
    }

    /** One turn of the loop: split what fgets delivered and act on the key. */
    method ReadLine(line: string, key: array<char>, value: array<char>, w: World)
      requires |line| < MAX_LINE_LENGTH && key.Length == value.Length == MAX_LINE_LENGTH && key != value
      modifies this`address, this`port, this`logLevel, this`debug, key, value
      ensures Fields() == ApplyAll(old(Fields()), LineSettings(line, w))
    {
      hide ParseLine, PairSetting, UpToNul;
      ghost var text := UpToNul(line);
      UpToNulHasNone(line);
      var found, keyLen, valueLen := SplitLine(UpToNul(line), key, value);
      if found {
        assert key[..keyLen] == ParseLine(text).value.0 && value[..valueLen] == ParseLine(text).value.1;
        ApplyPair((key[..keyLen], value[..valueLen]), w);
      }
    }

    method ApplyEnvConfig(w: World)
      modifies this
      ensures Fields() == ApplyAll(old(Fields()), EnvSettings(w))
      ensures configFile == if Var(w, "CONFIG_DEMO_CONFIG").Some? then Var(w, "CONFIG_DEMO_CONFIG") else old(configFile)
    {
      hide Var, Atoi, ToPort, IsTrue, EnvSettings;
      EnvInOrder(Fields(), w);
      var v := Var(w, "CONFIG_DEMO_ADDRESS");
      One(Fields(), EnvAddress(w));
      if v.Some? {
        address := v;
      }
      v := Var(w, "CONFIG_DEMO_PORT");
      One(Fields(), EnvPort(w));
      if v.Some? {
        port := ToPort(v.value, w);
      }
      v := Var(w, "CONFIG_DEMO_LOG_LEVEL");
      One(Fields(), EnvLevel(w));
      if v.Some? {
        logLevel := Atoi(v.value, w.undefined);
      }
      v := Var(w, "CONFIG_DEMO_DEBUG");
      One(Fields(), EnvDebug(w));
      if v.Some? {
        debug := IsTrue(v.value);
      }
      v := Var(w, "CONFIG_DEMO_CONFIG");
      if v.Some? {
        configFile := v;
      }
    }

    /** Returns whether `--help` ended the program. */
    method ApplyCliArgs(opts: seq<Opt>, w: World) returns (exited: bool)
      modifies this
      ensures exited == (OptHelp in opts)
      ensures !exited ==> Fields() == ApplyAll(old(Fields()), OptSettings(opts, w))
      ensures !exited ==> configFile == if LastConfigOpt(opts).Some? then LastConfigOpt(opts).value else old(configFile)
    {
      ghost var start := Fields();
      for k := 0 to |opts|
        invariant OptHelp !in opts[..k]
        invariant ApplyAll(Fields(), OptSettings(opts[k..], w)) == ApplyAll(start, OptSettings(opts, w))
        invariant configFile == if LastConfigOpt(opts[..k]).Some? then LastConfigOpt(opts[..k]).value else old(configFile)
      {
        assert opts[..k + 1][..k] == opts[..k] && opts[..k + 1][k] == opts[k];
        if opts[k] == OptHelp {
          return true;
        }
        OptsStep(Fields(), opts, k, w);
        ApplyOpt(opts[k], w);
      }
      assert opts[..|opts|] == opts;
      exited := false;
    }

    /** The switch on one option. */
    method ApplyOpt(opt: Opt, w: World)
      requires opt != OptHelp
      modifies this
      ensures Fields() == ApplyAll(old(Fields()), OptSetting(opt, w))
      ensures configFile == if opt.OptConfig? then opt.file else old(configFile)
    {
      match opt
      case OptAddress(arg) => address := Some(arg);
      case OptPort(arg) => port := ToPort(arg, w);
      case OptLevel(arg) => logLevel := Atoi(arg, w.undefined);
      case OptDebug => debug := true;
      case OptConfig(file) => configFile := file;
      case OptUnknown =>
      One(old(Fields()), OptSetting(opt, w));
    }

    /** config_load: fixes the order of the sources. Nothing is assumed of the old contents. */
    method Load(argv: seq<string>, opts: seq<Opt>, w: World) returns (exited: bool)
      requires "--config=" !in argv
      modifies this
      ensures exited == (OptHelp in opts)
      ensures !exited ==>
        Fields() == Prioritised(OptSettings(opts, w), EnvSettings(w), FileSettings(FileRead(argv, w), w))
      ensures !exited ==> configFile == ReportedFile(argv, opts, w)
    {
      Init();
      ApplyDefaults();
      ApplyCliArgsForConfigFile(argv);
      var ret := ApplyFileConfig(w);
      ghost var file := FileSettings(configFile, w);
      ApplyEnvConfig(w);
      exited := ApplyCliArgs(opts, w);
      LoadOrderIsPriority(OptSettings(opts, w), EnvSettings(w), file);
    }
  }

  lemma One(v: Values, ss: seq<Setting>)
    requires |ss| <= 1
    ensures ApplyAll(v, ss) == if ss == [] then v else Apply(v, ss[0])
  {
    if ss != [] {
      assert ss[1..] == [];
    }
  }

  lemma NoPairs(v: Values, w: World)
    ensures ApplyAll(v, PairSettings(Pairs(""), w)) == v
  {
  }

  lemma FirstLineFirst(v: Values, rest: string, w: World)
    requires rest != ""
    ensures var n := LineLength(rest, 0);
            ApplyAll(v, PairSettings(Pairs(rest), w))
            == ApplyAll(ApplyAll(v, LineSettings(rest[..n], w)), PairSettings(Pairs(rest[n..]), w))
  {
    var n := LineLength(rest, 0);
    var parsed, others := ParseLine(UpToNul(rest[..n])), Pairs(rest[n..]);
    if parsed.Some? {
      assert ([parsed.value] + others)[0] == parsed.value && ([parsed.value] + others)[1..] == others;
    }
    ApplyAllConcat(v, LineSettings(rest[..n], w), PairSettings(others, w));
  }

  lemma OptsStep(v: Values, opts: seq<Opt>, k: nat, w: World)
    requires k < |opts|
    ensures ApplyAll(v, OptSettings(opts[k..], w)) == ApplyAll(ApplyAll(v, OptSetting(opts[k], w)), OptSettings(opts[k + 1..], w))
  {
    assert opts[k..][1..] == opts[k + 1..];
    ApplyAllConcat(v, OptSetting(opts[k], w), OptSettings(opts[k + 1..], w));
  }

  lemma EnvInOrder(v: Values, w: World)
    ensures ApplyAll(v, EnvSettings(w))
         == ApplyAll(ApplyAll(ApplyAll(ApplyAll(v, EnvAddress(w)), EnvPort(w)), EnvLevel(w)), EnvDebug(w))
  {
    hide EnvAddress, EnvPort, EnvLevel, EnvDebug;
    ApplyAllConcat(v, EnvAddress(w) + EnvPort(w) + EnvLevel(w), EnvDebug(w));
    ApplyAllConcat(v, EnvAddress(w) + EnvPort(w), EnvLevel(w));
    ApplyAllConcat(v, EnvAddress(w), EnvPort(w));
  }
}
