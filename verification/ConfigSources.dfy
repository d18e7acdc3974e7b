/** What the texts of the sources set: from the lines of a file, the environment variables and the
    options to the four fields that are loaded. */
module ConfigSources {

  import opened Wrappers
  import opened Decimal
  import opened ConfigFile
  import opened ConfigLayers

  // ---------------------------------------------------------------------------------------
  // A decimal port, from its source to the configuration
  // ---------------------------------------------------------------------------------------

  /** Any number that fits an int is stored modulo 2^16. */
  lemma PortRecovered(p: nat, w: World)
    requires p <= 0x7FFF_FFFF
    ensures ToPort(Render(p), w) == p % 65536
  {
    AtoiOfRender(p, w.undefined);
  }

  /** The port that Load leaves. */
  function LoadedPort(argv: seq<string>, opts: seq<Opt>, w: World): nat {
    Prioritised(OptSettings(opts, w), EnvSettings(w), FileSettings(FileRead(argv, w), w)).port
  }

  lemma {:induction false} LastPortConcat(a: seq<Setting>, b: seq<Setting>)
    ensures LastPort(a + b) == if LastPort(b).Some? then LastPort(b) else LastPort(a)
    decreases |b|
  {
    if b == [] {
      assert a + b == a;
    } else {
      assert (a + b)[..|a + b| - 1] == a + b[..|b| - 1];
      LastPortConcat(a, b[..|b| - 1]);
    }
  }

  lemma {:induction false} OptSettingsConcat(a: seq<Opt>, b: seq<Opt>, w: World)
    ensures OptSettings(a + b, w) == OptSettings(a, w) + OptSettings(b, w)
  {
    if a == [] {
      assert a + b == b;
    } else {
      assert (a + b)[1..] == a[1..] + b;
      OptSettingsConcat(a[1..], b, w);
    }
  }

  predicate NoPortOpt(opts: seq<Opt>) {
    forall i :: 0 <= i < |opts| ==> !opts[i].OptPort?
  }

  lemma OnePort(p: nat)
    ensures LastPort([Port(p)]) == Some(p)
  {
  }

  lemma {:induction false} NoPortInOpts(opts: seq<Opt>, w: World)
    requires NoPortOpt(opts)
    ensures LastPort(OptSettings(opts, w)) == None
  {
    if opts != [] {
      hide LastPort;
      NoPortInOpts(opts[1..], w);
      LastPortConcat(OptSetting(opts[0], w), OptSettings(opts[1..], w));
      NoPortInOne(opts[0], w);
    }
  }

  lemma NoPortInOne(opt: Opt, w: World)
    requires !opt.OptPort?
    ensures LastPort(OptSetting(opt, w)) == None
  {
    var ss := OptSetting(opt, w);
    assert |ss| <= 1 && (ss != [] ==> ss[..0] == []);
  }

  /** A port given as an option is the port loaded, unless a later option gives another. */
  lemma PortFromOption(argv: seq<string>, before: seq<Opt>, p: nat, after: seq<Opt>, w: World)
    requires p < 0x1_0000 && NoPortOpt(after)
    ensures LoadedPort(argv, before + [OptPort(Render(p))] + after, w) == p
  {
    hide LastPort, Atoi, Render;
    var opt := [OptPort(Render(p))];
    OptSettingsConcat(before + opt, after, w);
    OptSettingsConcat(before, opt, w);
    assert OptSettings(opt, w) == [Port(p)] by {
      PortRecovered(p, w);
      assert opt[1..] == [];
    }
    NoPortInOpts(after, w);
    OnePort(p);
    LastPortConcat(OptSettings(before, w), OptSettings(opt, w));
    LastPortConcat(OptSettings(before + opt, w), OptSettings(after, w));
  }

  lemma PortInEnv(w: World)
    ensures LastPort(EnvSettings(w)) == if Var(w, "CONFIG_DEMO_PORT").Some? then Some(ToPort(Var(w, "CONFIG_DEMO_PORT").value, w)) else None
  {
    hide ToPort, Atoi;
    var others := EnvLevel(w) + EnvDebug(w);
    assert EnvSettings(w) == EnvAddress(w) + (EnvPort(w) + others);
    assert LastPort(EnvLevel(w)) == LastPort(EnvDebug(w)) == LastPort(EnvAddress(w)) == None;
    LastPortConcat(EnvLevel(w), EnvDebug(w));
    LastPortConcat(EnvPort(w), others);
    LastPortConcat(EnvAddress(w), EnvPort(w) + others);
    if Var(w, "CONFIG_DEMO_PORT").Some? {
      OnePort(ToPort(Var(w, "CONFIG_DEMO_PORT").value, w));
    }
  }

  /** A port given in the environment is the port loaded, unless an option gives one. */
  lemma PortFromEnv(argv: seq<string>, opts: seq<Opt>, p: nat, w: World)
    requires p < 0x1_0000 && NoPortOpt(opts) && Var(w, "CONFIG_DEMO_PORT") == Some(Render(p))
    ensures LoadedPort(argv, opts, w) == p
  {
    hide LastPort, Atoi, Render, ToPort;
    NoPortInOpts(opts, w);
    PortInEnv(w);
    PortRecovered(p, w);
  }

  lemma {:induction false} PairSettingsConcat(a: seq<Pair>, b: seq<Pair>, w: World)
    ensures PairSettings(a + b, w) == PairSettings(a, w) + PairSettings(b, w)
  {
    if a == [] {
      assert a + b == b;
    } else {
      assert (a + b)[1..] == a[1..] + b;
      PairSettingsConcat(a[1..], b, w);
    }
  }

  lemma {:induction false} PairsOfConcat(a: seq<FileLine>, b: seq<FileLine>)
    ensures PairsOf(a + b) == PairsOf(a) + PairsOf(b)
  {
    if a == [] {
      assert a + b == b;
    } else {
      assert (a + b)[1..] == a[1..] + b && (a + b)[0] == a[0];
      PairsOfConcat(a[1..], b);
      PairAssociative(if a[0].Setting? then [a[0].pair] else [], PairsOf(a[1..]), PairsOf(b));
    }
  }

  lemma PairAssociative(a: seq<Pair>, b: seq<Pair>, c: seq<Pair>)
    ensures (a + b) + c == a + (b + c)
  {
  }

  predicate NoPortLine(lines: seq<FileLine>) {
    forall i :: 0 <= i < |lines| && lines[i].Setting? ==> lines[i].pair.0 != "port"
  }

  lemma {:induction false} NoPortInLines(lines: seq<FileLine>, w: World)
    requires NoPortLine(lines)
    ensures LastPort(PairSettings(PairsOf(lines), w)) == None
  {
    if lines != [] {
      hide LastPort, PairSetting;
      NoPortInLines(lines[1..], w);
      if lines[0].Setting? {
        var pair, rest := lines[0].pair, PairsOf(lines[1..]);
        assert ([pair] + rest)[1..] == rest;
        LastPortConcat(PairSetting(pair, w), PairSettings(rest, w));
        NoPortInPair(pair, w);
      } else {
        assert PairsOf(lines) == PairsOf(lines[1..]);
      }
    }
  }

  lemma NoPortInPair(pair: Pair, w: World)
    requires pair.0 != "port"
    ensures LastPort(PairSetting(pair, w)) == None
  {
    hide Atoi;
    var ss := PairSetting(pair, w);
    assert |ss| <= 1 && (ss != [] ==> ss[..0] == []);
  }

  lemma PortLine(pads: (string, string, string, string), p: nat, w: World)
    requires p < 0x1_0000
    ensures PairSettings(PairsOf([Setting(pads, ("port", Render(p)))]), w) == [Port(p)]
  {
    PortRecovered(p, w);
    var pair := ("port", Render(p));
    assert PairsOf([Setting(pads, pair)]) == [pair] by {
      assert [Setting(pads, pair)][1..] == [];
    }
    assert [pair][1..] == [];
  }

  /** A port on a padded line of the file that is read is the port loaded, unless a later line, the
      environment or an option gives one. */
  lemma PortFromFile(argv: seq<string>, opts: seq<Opt>, w: World, path: string, before: seq<FileLine>,
                     pads: (string, string, string, string), p: nat, after: seq<FileLine>)
    requires p < 0x1_0000 && NoPortLine(after)
    requires NoPortOpt(opts) && "CONFIG_DEMO_PORT" !in w.env
    requires var lines := before + [Setting(pads, ("port", Render(p)))] + after;
      && (forall i :: 0 <= i < |lines| ==> IsFileLine(lines[i]))
      && FileRead(argv, w) == Some(path) && path in w.files && w.files[path] == Some(RenderFile(lines))
    ensures LoadedPort(argv, opts, w) == p
  {
    hide LastPort, Atoi, Render, PairsOf, Pairs, RenderFile, IsFileLine, PairSettings, EnvSettings, OptSettings;
    var line := [Setting(pads, ("port", Render(p)))];
    FileRoundTrip(before + line + after);
    PairsOfConcat(before + line, after);
    PairsOfConcat(before, line);
    PairSettingsConcat(PairsOf(before + line), PairsOf(after), w);
    PairSettingsConcat(PairsOf(before), PairsOf(line), w);
    PortLine(pads, p, w);
    OnePort(p);
    NoPortInLines(after, w);
    LastPortConcat(PairSettings(PairsOf(before), w), [Port(p)]);
    LastPortConcat(PairSettings(PairsOf(before + line), w), PairSettings(PairsOf(after), w));
    NoPortInOpts(opts, w);
    PortInEnv(w);
  }

  // ---------------------------------------------------------------------------------------
  // All four fields, from the texts of the sources
  // ---------------------------------------------------------------------------------------

  /** The value of the last line of a file with a key. */
  function LastValue(lines: seq<FileLine>, key: string): Option<string> {
    if lines == [] then None
    else
      var last := lines[|lines| - 1];
      if last.Setting? && last.pair.0 == key then Some(last.pair.1) else LastValue(lines[..|lines| - 1], key)
  }

  function LastOpt(opts: seq<Opt>, wanted: Opt -> bool): Option<Opt> {
    if opts == [] then None
    else if wanted(opts[|opts| - 1]) then Some(opts[|opts| - 1]) else LastOpt(opts[..|opts| - 1], wanted)
  }

  function IsAddressOpt(): Opt -> bool { (o: Opt) => o.OptAddress? }
  function IsPortOpt(): Opt -> bool { (o: Opt) => o.OptPort? }
  function IsLevelOpt(): Opt -> bool { (o: Opt) => o.OptLevel? }
  function IsDebugOpt(): Opt -> bool { (o: Opt) => o.OptDebug? }

  function Convert<S, T>(s: Option<S>, f: S -> T): Option<T> {
    if s.Some? then Some(f(s.value)) else None
  }

  function Port16(w: World): string -> nat { (s: string) => ToPort(s, w) }
  function Number(w: World): string -> int { (s: string) => Atoi(s, w.undefined) }
  function Truth(): string -> bool { (s: string) => IsTrue(s) }

  /** What a list of settings leaves for each field. */
  datatype Latest = Latest(address: Option<string>, port: Option<nat>, logLevel: Option<int>, debug: Option<bool>)

  function LatestOf(ss: seq<Setting>): Latest {
    Latest(LastAddress(ss), LastPort(ss), LastLevel(ss), LastDebug(ss))
  }

  function Over(newer: Latest, older: Latest): Latest {
    Latest(if newer.address.Some? then newer.address else older.address,
           if newer.port.Some? then newer.port else older.port,
           if newer.logLevel.Some? then newer.logLevel else older.logLevel,
           if newer.debug.Some? then newer.debug else older.debug)
  }

  lemma {:induction false} LatestConcat(a: seq<Setting>, b: seq<Setting>)
    ensures LatestOf(a + b) == Over(LatestOf(b), LatestOf(a))
    decreases |b|
  {
    if b == [] {
      assert a + b == a;
    } else {
      assert (a + b)[..|a + b| - 1] == a + b[..|b| - 1];
      LatestConcat(a, b[..|b| - 1]);
    }
  }

  lemma LatestOne(s: Setting)
    ensures LatestOf([s]) == Latest(if s.Address? then Some(s.a) else None, if s.Port? then Some(s.p) else None,
                                    if s.LogLevel? then Some(s.l) else None, if s.Debug? then Some(s.d) else None)
    ensures LatestOf([]) == Latest(None, None, None, None)
  {
    var one := [s];
    var none := one[..|one| - 1];
    assert none == [] && one[|one| - 1] == s;
    assert LastAddress(one) == if s.Address? then Some(s.a) else LastAddress(none);
    assert LastPort(one) == if s.Port? then Some(s.p) else LastPort(none);
    assert LastLevel(one) == if s.LogLevel? then Some(s.l) else LastLevel(none);
    assert LastDebug(one) == if s.Debug? then Some(s.d) else LastDebug(none);
  }

  function FileLatest(lines: seq<FileLine>, w: World): Latest {
    Latest(LastValue(lines, "address"), Convert(LastValue(lines, "port"), Port16(w)),
           Convert(LastValue(lines, "log_level"), Number(w)), Convert(LastValue(lines, "debug"), Truth()))
  }

  lemma LastValueOver(lines: seq<FileLine>, key: string)
    requires lines != []
    ensures var front, last := lines[..|lines| - 1], lines[|lines| - 1];
            LastValue(lines, key) == if LastValue([last], key).Some? then LastValue([last], key) else LastValue(front, key)
  {
    OneValue(lines[|lines| - 1], key);
  }

  /** A file sets each field by the last line with its key. */
  lemma {:induction false} FileFields(lines: seq<FileLine>, w: World)
    ensures LatestOf(PairSettings(PairsOf(lines), w)) == FileLatest(lines, w)
    decreases |lines|
  {
    if lines == [] {
      LatestOne(Debug(true));
    } else {
      hide LatestOf, PairSettings, PairsOf, ToPort, Atoi, IsTrue, LastValue;
      var front, last := lines[..|lines| - 1], lines[|lines| - 1];
      assert lines == front + [last];
      PairsOfConcat(front, [last]);
      PairSettingsConcat(PairsOf(front), PairsOf([last]), w);
      LatestConcat(PairSettings(PairsOf(front), w), PairSettings(PairsOf([last]), w));
      FileFields(front, w);
      LineFields(last, w);
      LastValueOver(lines, "address");
      LastValueOver(lines, "port");
      LastValueOver(lines, "log_level");
      LastValueOver(lines, "debug");
    }
  }

  lemma OneValue(l: FileLine, key: string)
    ensures LastValue([l], key) == if l.Setting? && l.pair.0 == key then Some(l.pair.1) else None
  {
    var one := [l];
    var none := one[..|one| - 1];
    assert none == [] && one[|one| - 1] == l;
    assert LastValue(none, key) == None;
  }

  lemma SettingsOfLine(l: FileLine, w: World)
    ensures PairSettings(PairsOf([l]), w) == if l.Setting? then PairSetting(l.pair, w) else []
  {
    hide PairSetting;
    assert [l][1..] == [];
    if l.Setting? {
      assert PairsOf([l]) == [l.pair] && [l.pair][1..] == [];
      assert PairSettings([l.pair], w) == PairSetting(l.pair, w) + [];
    }
  }

  lemma LineFields(l: FileLine, w: World)
    ensures LatestOf(PairSettings(PairsOf([l]), w)) == FileLatest([l], w)
  {
    hide LatestOf, ToPort, Atoi, IsTrue, LastValue, PairSettings, PairsOf;
    SettingsOfLine(l, w);
    OneValue(l, "address");
    OneValue(l, "port");
    OneValue(l, "log_level");
    OneValue(l, "debug");
    LatestOne(Debug(true));
    if l.Setting? {
      var ss := PairSetting(l.pair, w);
      if ss != [] {
        LatestOne(ss[0]);
        assert ss == [ss[0]];
      }
    }
  }

  function Lookup(w: World, name: string): Option<string> {
    if name in w.env then Some(w.env[name]) else None
  }

  function EnvLatest(w: World): Latest {
    Latest(Lookup(w, "CONFIG_DEMO_ADDRESS"), Convert(Lookup(w, "CONFIG_DEMO_PORT"), Port16(w)),
           Convert(Lookup(w, "CONFIG_DEMO_LOG_LEVEL"), Number(w)), Convert(Lookup(w, "CONFIG_DEMO_DEBUG"), Truth()))
  }

  /** The environment sets each field by its variable. */
  lemma EnvFields(w: World)
    ensures LatestOf(EnvSettings(w)) == EnvLatest(w)
  {
    hide LatestOf, ToPort, Atoi, IsTrue;
    LatestConcat(EnvAddress(w) + EnvPort(w) + EnvLevel(w), EnvDebug(w));
    LatestConcat(EnvAddress(w) + EnvPort(w), EnvLevel(w));
    LatestConcat(EnvAddress(w), EnvPort(w));
    forall s: Setting
      ensures LatestOf([s]) == Latest(if s.Address? then Some(s.a) else None, if s.Port? then Some(s.p) else None,
                                      if s.LogLevel? then Some(s.l) else None, if s.Debug? then Some(s.d) else None)
      ensures LatestOf([]) == Latest(None, None, None, None)
    {
      LatestOne(s);
    }
    LatestOne(Debug(true));
  }

  function OptLatest(opts: seq<Opt>, w: World): Latest {
    Latest(Convert(LastOpt(opts, IsAddressOpt()), (o: Opt) => Arg(o)),
           Convert(LastOpt(opts, IsPortOpt()), (o: Opt) => ToPort(Arg(o), w)),
           Convert(LastOpt(opts, IsLevelOpt()), (o: Opt) => Atoi(Arg(o), w.undefined)),
           Convert(LastOpt(opts, IsDebugOpt()), (o: Opt) => true))
  }

  function Arg(o: Opt): string {
    if o.OptAddress? || o.OptPort? || o.OptLevel? then o.arg else ""
  }

  /** The command line sets each field by the last option for it; -d only switches debug on. */
  lemma {:induction false} OptFields(opts: seq<Opt>, w: World)
    ensures LatestOf(OptSettings(opts, w)) == OptLatest(opts, w)
    decreases |opts|
  {
    if opts == [] {
      LatestOne(Debug(true));
    } else {
      hide LatestOf, OptSettings, ToPort, Atoi, LastOpt;
      var front, last := opts[..|opts| - 1], opts[|opts| - 1];
      assert opts == front + [last];
      OptSettingsConcat(front, [last], w);
      LatestConcat(OptSettings(front, w), OptSettings([last], w));
      OptFields(front, w);
      OneOptFields(last, w);
      LastOptOver(opts, IsAddressOpt());
      LastOptOver(opts, IsPortOpt());
      LastOptOver(opts, IsLevelOpt());
      LastOptOver(opts, IsDebugOpt());
    }
  }

  lemma OneOpt(o: Opt, wanted: Opt -> bool)
    ensures LastOpt([o], wanted) == if wanted(o) then Some(o) else None
  {
    var one := [o];
    var none := one[..|one| - 1];
    assert none == [] && one[|one| - 1] == o;
    assert LastOpt(none, wanted) == None;
  }

  lemma LastOptOver(opts: seq<Opt>, wanted: Opt -> bool)
    requires opts != []
    ensures var front, last := opts[..|opts| - 1], opts[|opts| - 1];
            LastOpt(opts, wanted) == if LastOpt([last], wanted).Some? then LastOpt([last], wanted) else LastOpt(front, wanted)
  {
    OneOpt(opts[|opts| - 1], wanted);
  }

  lemma OneOptFields(o: Opt, w: World)
    ensures LatestOf(OptSettings([o], w)) == OptLatest([o], w)
  {
    hide LatestOf, ToPort, Atoi, LastOpt;
    OneOpt(o, IsAddressOpt());
    OneOpt(o, IsPortOpt());
    OneOpt(o, IsLevelOpt());
    OneOpt(o, IsDebugOpt());
    LatestOne(Debug(true));
    assert [o][1..] == [];
    var ss := OptSetting(o, w);
    assert OptSettings([o], w) == ss + [] == ss;
    if ss != [] {
      LatestOne(ss[0]);
      assert ss == [ss[0]];
    }
  }

  /** What is read from the file source: nothing if no file can be opened. */
  function Content(argv: seq<string>, w: World): string {
    var path := FileRead(argv, w);
    if path.Some? && path.value in w.files && w.files[path.value].Some? then w.files[path.value].value else ""
  }

  /** The four fields that Load leaves, for every command line, environment and file of readable
      lines: each is decided by the option, else the variable, else the last line with the key, else
      the default. */
  lemma LoadedFromSources(argv: seq<string>, opts: seq<Opt>, w: World, lines: seq<FileLine>)
    requires forall i :: 0 <= i < |lines| ==> IsFileLine(lines[i])
    requires Content(argv, w) == RenderFile(lines)
    ensures var cli, env, file := OptLatest(opts, w), EnvLatest(w), FileLatest(lines, w);
            Prioritised(OptSettings(opts, w), EnvSettings(w), FileSettings(FileRead(argv, w), w))
            == Values(Some(Choose(cli.address, env.address, file.address, "localhost")),
                      Choose(cli.port, env.port, file.port, 8080),
                      Choose(cli.logLevel, env.logLevel, file.logLevel, 3),
                      Choose(cli.debug, env.debug, file.debug, false))
  {
    hide OptSettings, EnvSettings, PairSettings, PairsOf, RenderFile, IsFileLine, OptLatest, EnvLatest, FileLatest;
    hide LastAddress, LastPort, LastLevel, LastDebug;
    OptFields(opts, w);
    EnvFields(w);
    FileFields(lines, w);
    FileRoundTrip(lines);
    NothingRead(w);
  }

  lemma NothingRead(w: World)
    ensures PairSettings(Pairs(""), w) == []
  {
  }

  // ---------------------------------------------------------------------------------------
  // Debug
  // ---------------------------------------------------------------------------------------

  /** The texts that switch debug on: 1, and the word true in upper or lower case or any mixture. */
  predicate SpellsTrue(s: string) {
    s == "1" ||
    (|s| == 4 && (s[0] == 't' || s[0] == 'T') && (s[1] == 'r' || s[1] == 'R')
     && (s[2] == 'u' || s[2] == 'U') && (s[3] == 'e' || s[3] == 'E'))
  }

  lemma TrueExactly(s: string)
    ensures IsTrue(s) <==> SpellsTrue(s)
  {
    if |s| == 4 {
      var t := "true";
      assert t[0] == 't' && t[1] == 'r' && t[2] == 'u' && t[3] == 'e';
      assert EqualsIgnoringCase(s, t) <==>
             Lower(s[0]) == 't' && Lower(s[1]) == 'r' && Lower(s[2]) == 'u' && Lower(s[3]) == 'e';
    }
  }

  /** Debug is on after loading exactly if the last debug line of the file spells true, unless the
      environment or an option says something. */
  lemma DebugFromFile(argv: seq<string>, opts: seq<Opt>, w: World, lines: seq<FileLine>, value: string)
    requires forall i :: 0 <= i < |lines| ==> IsFileLine(lines[i])
    requires Content(argv, w) == RenderFile(lines) && LastValue(lines, "debug") == Some(value)
    requires LastOpt(opts, IsDebugOpt()) == None && "CONFIG_DEMO_DEBUG" !in w.env
    ensures Prioritised(OptSettings(opts, w), EnvSettings(w), FileSettings(FileRead(argv, w), w)).debug <==> SpellsTrue(value)
  {
    hide RenderFile, IsFileLine, OptSettings, EnvSettings, LastValue;
    LoadedFromSources(argv, opts, w, lines);
    TrueExactly(value);
  }

  /** The same for the variable, unless an option says something. */
  lemma DebugFromEnv(argv: seq<string>, opts: seq<Opt>, w: World, value: string)
    requires LastOpt(opts, IsDebugOpt()) == None
    requires "CONFIG_DEMO_DEBUG" in w.env && w.env["CONFIG_DEMO_DEBUG"] == value
    ensures Prioritised(OptSettings(opts, w), EnvSettings(w), FileSettings(FileRead(argv, w), w)).debug <==> SpellsTrue(value)
  {
    hide OptSettings, EnvSettings;
    OptFields(opts, w);
    EnvFields(w);
    TrueExactly(value);
  }

  // ---------------------------------------------------------------------------------------
  // The documented example
  // ---------------------------------------------------------------------------------------

  const SPACED: (string, string, string, string) := ("", " ", " ", "")

  const ADDRESS_LINE: Pair := ("address", "127.0.0.1")
  const PORT_LINE: Pair := ("port", "8080")
  const LEVEL_LINE: Pair := ("log_level", "2")
  const DEBUG_LINE: Pair := ("debug", "true")

  const EXAMPLE: seq<FileLine> :=
    [] + [Setting(SPACED, ADDRESS_LINE)] + [Setting(SPACED, PORT_LINE)] + [Setting(SPACED, LEVEL_LINE)] + [Setting(SPACED, DEBUG_LINE)]

  lemma NumbersRead(w: World)
    ensures ToPort("8080", w) == 8080 && Atoi("2", w.undefined) == 2
  {
    hide Render, Value, Atoi, ToPort;
    RenderedPort();
    PortRecovered(8080, w);
    RenderedDigit();
    AtoiOfRender(2, w.undefined);
  }

  lemma RenderedPort()
    ensures Render(8080) == "8080"
  {
    assert Render(8) == "8";
    assert Render(80) == "80";
    assert Render(808) == "808";
  }

  lemma RenderedDigit()
    ensures Render(2) == "2"
  {
  }

  /** One more line, with a key of its own. */
  lemma LineAdded(lines: seq<FileLine>, pair: Pair, key: string)
    ensures LastValue(lines + [Setting(SPACED, pair)], key) == if pair.0 == key then Some(pair.1) else LastValue(lines, key)
  {
    var more := lines + [Setting(SPACED, pair)];
    assert more[..|more| - 1] == lines;
  }

  lemma ExampleValues()
    ensures LastValue(EXAMPLE, "address") == Some("127.0.0.1") && LastValue(EXAMPLE, "port") == Some("8080")
    ensures LastValue(EXAMPLE, "log_level") == Some("2") && LastValue(EXAMPLE, "debug") == Some("true")
  {
    hide LastValue;
    forall key: string
      ensures LastValue(EXAMPLE, key) == if key == "debug" then Some("true") else if key == "log_level" then Some("2")
        else if key == "port" then Some("8080") else if key == "address" then Some("127.0.0.1") else LastValue([], key)
    {
      LineAdded([], ADDRESS_LINE, key);
      LineAdded([] + [Setting(SPACED, ADDRESS_LINE)], PORT_LINE, key);
      LineAdded([] + [Setting(SPACED, ADDRESS_LINE)] + [Setting(SPACED, PORT_LINE)], LEVEL_LINE, key);
      LineAdded([] + [Setting(SPACED, ADDRESS_LINE)] + [Setting(SPACED, PORT_LINE)] + [Setting(SPACED, LEVEL_LINE)], DEBUG_LINE, key);
    }
  }

  lemma SpacedLine(pair: Pair)
    requires Writable(pair) && '\n' !in pair.0 + pair.1 && '\0' !in pair.0 + pair.1 && |pair.0 + pair.1| <= 500
    ensures IsFileLine(Setting(SPACED, pair)) && LineText(Setting(SPACED, pair)) == pair.0 + " = " + pair.1
  {
    var text := pair.0 + " = " + pair.1;
    assert Line(SPACED, pair) == text;
    forall k | 0 <= k < |text|
      ensures text[k] != '\n' && text[k] != '\0'
    {
      assert text[k] in pair.0 + pair.1 || text[k] == ' ' || text[k] == '=';
    }
  }

  lemma ExampleWritable()
    ensures Writable(ADDRESS_LINE) && Writable(PORT_LINE) && Writable(LEVEL_LINE) && Writable(DEBUG_LINE)
  {
  }

  lemma ExampleLines()
    ensures forall i :: 0 <= i < |EXAMPLE| ==> IsFileLine(EXAMPLE[i])
    ensures LineText(EXAMPLE[0]) == "address = 127.0.0.1" && LineText(EXAMPLE[1]) == "port = 8080"
    ensures LineText(EXAMPLE[2]) == "log_level = 2" && LineText(EXAMPLE[3]) == "debug = true"
  {
    hide IsFileLine, LineText;
    ExampleWritable();
    SpacedLine(ADDRESS_LINE);
    SpacedLine(PORT_LINE);
    SpacedLine(LEVEL_LINE);
    SpacedLine(DEBUG_LINE);
  }

  /** The example file of the documentation sets what it shows. */
  lemma ExampleLoads(argv: seq<string>, w: World)
    requires Content(argv, w) == RenderFile(EXAMPLE) && EnvLatest(w) == Latest(None, None, None, None)
    ensures Prioritised(OptSettings([], w), EnvSettings(w), FileSettings(FileRead(argv, w), w))
         == Values(Some("127.0.0.1"), 8080, 2, true)
  {
    hide EXAMPLE, RenderFile, IsFileLine, OptSettings, EnvSettings, FileSettings, FileRead, Content, OptLatest, FileLatest, EnvLatest;
    ExampleLines();
    LoadedFromSources(argv, [], w, EXAMPLE);
    ExampleLatest(w);
  }

  lemma ExampleLatest(w: World)
    ensures FileLatest(EXAMPLE, w) == Latest(Some("127.0.0.1"), Some(8080), Some(2), Some(true))
    ensures OptLatest([], w) == Latest(None, None, None, None)
  {
    hide EXAMPLE, LastValue, ToPort, Atoi, IsTrue;
    ExampleValues();
    NumbersRead(w);
    TrueExactly("true");
  }
}
