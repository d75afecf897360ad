/** The IPC protocol of src/socket.c on the messages themselves: what each one stores, does to the node and
    answers, for every argument. */
module Protocol {
  import opened Text
  import opened Numbers
  import opened Libc
  import opened ConfigFile
  import opened Fields
  import opened ConfigStore
  import opened Daemon

  /** An argument that arrives as it was sent. */
  predicate Argument(word: string) {
    '\0' !in word && '\n' !in word && '\r' !in word && |word| <= 400
  }

  lemma ArgumentArrives(command: string, word: string)
    requires OnTheWire(command) && |command| <= 100 && Argument(word)
    ensures OnTheWire(command + word) && Message(command + word) == command + word
  {
    MessageArrives(command + word);
  }

  // ---------------------------------------------------------------- ADVANCED_SET

  lemma AdvancedDispatch(m: string)
    requires "ADVANCED_SET " <= m && SplitArg(m, 13).Some?
    ensures Parse(m) == AdvancedSet(SplitArg(m, 13).value.0, SplitArg(m, 13).value.1)
  {
    assert m[..13] == "ADVANCED_SET " && m[0] == 'A' && m[9] == 'S';
    hide SplitArg, IntOf;
    assert ParseMore(m) == AdvancedSet(SplitArg(m, 13).value.0, SplitArg(m, 13).value.1) by { hide Parse; }
    hide Parse, ParseMore;
    PastFirst(m);
  }

  /** The first half of the chain knows no other letters. */
  lemma PastFirst(m: string)
    requires m == "" || m[0] !in {'P', 'M', 'D', 'G', 'T', 'S'}
    ensures Parse(m) == ParseMore(m)
  {
    hide ParseMore;
    if m != "" { NotTuning(m); }
    hide TuningPrefix;
  }

  lemma AdvancedParses(name: string, val: string)
    requires ' ' !in name && Argument(name + " " + val)
    ensures Parse(Message("ADVANCED_SET " + (name + " " + val))) == AdvancedSet(name, val)
  {
    var arg := name + " " + val;
    var m := "ADVANCED_SET " + arg;
    AdvancedWord();
    hide Message, Parse, OnTheWire;
    ArgumentArrives("ADVANCED_SET ", arg);
    assert m[..13] == "ADVANCED_SET " && m[13..] == arg;
    SplitAtBlank(m, 13, name, val);
    AdvancedDispatch(m);
  }

  lemma AdvancedWord()
    ensures OnTheWire("ADVANCED_SET ")
  {
  }

  /** The letters of a parameter's name. */
  predicate ParameterName(name: string) {
    |name| <= 60 && forall i :: 0 <= i < |name| ==> 'a' <= name[i] <= 'z' || name[i] in {'.', '_', '4'}
  }

  lemma NamesAreWords(name: string, key: string)
    requires IntegerPair(name, key) || TextPair(name, key)
    ensures ' ' !in name && '\0' !in name && '\n' !in name && '\r' !in name && |name| <= 60
  {
    SchedulerWords();
    KernelWords();
    NetworkWords();
    PolicyWords();
    assert ParameterName(name) by { hide ParameterName; }
  }

  lemma SchedulerWords()
    ensures ParameterName("kernel.sched_bore") && ParameterName("kernel.sched_bit_shift")
    ensures ParameterName("kernel.sched_burst_fork_at_init") && ParameterName("kernel.sched_cfs_bandwidth_slice_us")
  {
  }

  lemma KernelWords()
    ensures ParameterName("kernel.split_lock_mitigate") && ParameterName("kernel.nmi_watchdog")
    ensures ParameterName("vm.max_map_count")
  {
  }

  lemma NetworkWords()
    ensures ParameterName("net.ipv4.tcp_fastopen") && ParameterName("net.ipv4.conf.all.rp_filter")
    ensures ParameterName("net.ipv4.conf.all.accept_source_route")
  {
  }

  lemma PolicyWords()
    ensures ParameterName("net.core.default_qdisc") && ParameterName("target_thp_mode")
  {
  }

  /** ADVANCED_SET of a parameter with an integer sets the one field that belongs to it, in memory at once, and
      in the file if and only if the kernel took the value; GET_CONFIG answers it from then on. */
  lemma AdvancedSetArrives(st: State, name: string, key: string, n: int, env: Env, defaults: Config)
    requires IntegerPair(name, key) && -2147483648 <= n <= 2147483647
    ensures var raw := "ADVANCED_SET " + (name + " " + Decimal(n));
      var t := Handle(st, raw, env, defaults);
      && t.ctl == st.ctl && t.store.cfg == st.store.cfg[key := IntV(n)]
      && Reply(st, raw, env) == Some(if env.sysctl then "OK" else "ERR")
      && Reply(t, "GET_CONFIG " + key, env) == Some(Decimal(n))
      && (!env.sysctl ==> t.store.file == st.store.file)
      && (env.sysctl && Fits(st.store.file, key, Decimal(n), 4095) ==>
            LastValue(SeenByLoad(t.store.file), key) == Some(Decimal(n)))
  {
    var raw := "ADVANCED_SET " + (name + " " + Decimal(n));
    IntegerPairIs(name, key);
    IntegerArgument(name, key, n);
    AtoiOfItoa(n, "");
    hide *;
    assert Decimal(n) + "" == Decimal(n);
    AdvancedParses(name, Decimal(n));
    var t := Handle(st, raw, env, defaults);
    AdvancedEffect(st, name, key, Decimal(n), raw, env, defaults);
    IntegerParsed(n);
    GetConfigAnswers(t, key, env);
    IntegerAnswer(t.store.cfg, key, n);
  }

  lemma IntegerPairIs(name: string, key: string)
    requires IntegerPair(name, key)
    ensures SysctlKey(name) == Some(key) && FieldOf(key) == Some(IntField)
  {
    hide SysctlKey, FieldOf, KernelPair, NetworkPair;
    if KernelPair(name, key) { KernelNames(name, key); } else { NetworkNames(name, key); }
  }

  lemma IntegerArgument(name: string, key: string, n: int)
    requires IntegerPair(name, key) && -2147483648 <= n <= 2147483647
    ensures ' ' !in name && Argument(name + " " + Decimal(n)) && CleanText(Decimal(n)) && -TWO_31 <= n < TWO_31
  {
    NamesAreWords(name, key);
    NumberOnTheWire(n);
    Widths();
    Format.DecimalFits(n);
    hide Decimal, IntegerPair;
  }

  lemma IntegerParsed(n: int)
    requires IntOf(Decimal(n)) == n
    ensures Parsed(IntField, Decimal(n), LOADER_MARGIN) == IntV(n)
  {
  }

  lemma IntegerAnswer(cfg: Config, key: string, n: int)
    requires FieldOf(key).Some? && key in cfg && cfg[key] == IntV(n)
    ensures ConfigGet(cfg, key) == Decimal(n)
  {
    hide FieldOf;
  }

  lemma TextAnswer(cfg: Config, key: string, v: string)
    requires FieldOf(key).Some? && key in cfg && cfg[key] == TextV(v)
    ensures ConfigGet(cfg, key) == v
  {
    hide FieldOf;
  }

  /** What an ADVANCED_SET of a known parameter does, by the stored form of its value. */
  lemma AdvancedEffect(st: State, name: string, key: string, val: string, raw: string, env: Env, defaults: Config)
    requires SysctlKey(name) == Some(key) && FieldOf(key).Some? && CleanText(val)
    requires Parse(Message(raw)) == AdvancedSet(name, val)
    ensures var t := Handle(st, raw, env, defaults);
      && t.ctl == st.ctl && t.store.cfg == st.store.cfg[key := Parsed(FieldOf(key).value, val, LOADER_MARGIN)]
      && Reply(st, raw, env) == Some(if env.sysctl then "OK" else "ERR")
      && (!env.sysctl ==> t.store.file == st.store.file)
      && (env.sysctl && Fits(st.store.file, key, val, 4095) ==>
            LastValue(SeenByLoad(t.store.file), key) == Some(val))
  {
    Handles(st, raw, AdvancedSet(name, val), env, defaults);
    FieldNamesArePlain(key);
    hide Parse, Message, Handle, Updated, FieldOf, SysctlKey, Parsed, Fits, SeenByLoad;
    assert LOAD_LIMIT == 4095;
    if Fits(st.store.file, key, val, LOAD_LIMIT) { FileHolds(st.store.file, key, val); }
    hide LastValue;
  }

  /** After an update of a file that fits, the loader finds the new text. */
  lemma FileHolds(file: string, key: string, val: string)
    requires FieldName(key) && CleanText(val) && Fits(file, key, val, LOAD_LIMIT)
    ensures LastValue(SeenByLoad(Updated(file, key, val)), key) == Some(val)
  {
    PutGetFile(file, key, val);
    hide Updated, Fits, LastValue, Lines, CStr;
  }

  /** The same for the two parameters that hold a text, cut to the loader's copy of it. */
  lemma AdvancedTextArrives(st: State, name: string, key: string, val: string, env: Env, defaults: Config)
    requires TextPair(name, key) && Argument(val) && |val| <= 300
    ensures var raw := "ADVANCED_SET " + (name + " " + val);
      var t := Handle(st, raw, env, defaults);
      var kept := Take(val, if key == "THP_MODE" then 14 else 30);
      && t.ctl == st.ctl && t.store.cfg == st.store.cfg[key := TextV(kept)]
      && Reply(st, raw, env) == Some(if env.sysctl then "OK" else "ERR")
      && Reply(t, "GET_CONFIG " + key, env) == Some(kept)
      && (!env.sysctl ==> t.store.file == st.store.file)
      && (env.sysctl && Fits(st.store.file, key, val, 4095) ==>
            LastValue(SeenByLoad(t.store.file), key) == Some(val))
  {
    var raw := "ADVANCED_SET " + (name + " " + val);
    NamesAreWords(name, key);
    TextNames(name, key);
    assert Argument(name + " " + val) && CleanText(val);
    TextParsed(key, val);
    hide *;
    AdvancedParses(name, val);
    var t := Handle(st, raw, env, defaults);
    AdvancedEffect(st, name, key, val, raw, env, defaults);
    GetConfigAnswers(t, key, env);
    TextAnswer(t.store.cfg, key, Take(val, if key == "THP_MODE" then 14 else 30));
  }

  lemma TextParsed(key: string, val: string)
    ensures Parsed(TextField(if key == "THP_MODE" then 16 else 32), val, LOADER_MARGIN)
      == TextV(Take(val, if key == "THP_MODE" then 14 else 30))
  {
  }

  /** A name that belongs to no parameter changes nothing. */
  lemma UnknownParameter(st: State, name: string, val: string, env: Env, defaults: Config)
    requires ' ' !in name && Argument(name + " " + val)
    requires forall key :: !IntegerPair(name, key) && !TextPair(name, key)
    ensures var raw := "ADVANCED_SET " + (name + " " + val);
      Handle(st, raw, env, defaults) == st && Reply(st, raw, env) == Some("ERR")
  {
    NoOtherNames(name);
    hide IntegerPair, TextPair, SysctlKey, Parse, Message;
    AdvancedParses(name, val);
    Handles(st, "ADVANCED_SET " + (name + " " + val), AdvancedSet(name, val), env, defaults);
    hide Handle;
  }

  // ---------------------------------------------------------------- SET_DAEMON

  lemma DaemonWord()
    ensures OnTheWire("SET_DAEMON ") && OnTheWire("SET_MODE ") && OnTheWire("SET_WRAPPER ") && OnTheWire("SET_CONFIG ")
  {
  }

  predicate ThreeWords(v: string) {
    v == "manual" || v == "auto" || v == "default"
  }

  /** SET_DAEMON takes three words. They are stored in memory and, if it fits, in the file; `default`, and
      `auto` when its script could be started, end an override; `auto` without the script is an error. */
  lemma SetDaemonArrives(st: State, v: string, env: Env, defaults: Config)
    requires ThreeWords(v)
    ensures var raw := "SET_DAEMON " + v;
      var t := Handle(st, raw, env, defaults);
      var resumes := v == "default" || (v == "auto" && env.forks);
      && t.store.cfg == st.store.cfg["DAEMON_STATE" := TextV(v)] && StateWord(t.store) == v
      && (Fits(st.store.file, "DAEMON_STATE", v, 4095) ==>
            LastValue(SeenByLoad(t.store.file), "DAEMON_STATE") == Some(v))
      && t.ctl == st.ctl.(override := if resumes then 0 else st.ctl.override)
      && Reply(st, raw, env) == Some(if v == "auto" && !env.forks then "ERR" else "OK")
  {
    var raw := "SET_DAEMON " + v;
    WordsAreArguments(v);
    DaemonWord();
    hide *;
    ArgumentArrives("SET_DAEMON ", v);
    SetDaemonDispatch(v);
    Handles(st, raw, SetDaemon(v), env, defaults);
    StateStored(st.store, v, env, defaults);
    StateResumes(st.ctl, v, env);
    StateAnswer(st, raw, v, env);
  }

  lemma WordsAreArguments(v: string)
    requires ThreeWords(v)
    ensures Argument(v) && CleanText(v)
  {
  }

  lemma StateStored(s: Store, v: string, env: Env, defaults: Config)
    requires ThreeWords(v)
    ensures var t := Apply(s, StoreEffect(SetDaemon(v), env), defaults);
      && t.cfg == s.cfg["DAEMON_STATE" := TextV(v)] && StateWord(t) == v
      && (Fits(s.file, "DAEMON_STATE", v, 4095) ==> LastValue(SeenByLoad(t.file), "DAEMON_STATE") == Some(v))
  {
    DaemonStateField();
    hide FieldOf, Updated, Fits, SeenByLoad, LastValue;
    FieldNamesArePlain("DAEMON_STATE");
    WordsAreArguments(v);
    assert LOAD_LIMIT == 4095;
    if Fits(s.file, "DAEMON_STATE", v, LOAD_LIMIT) { FileHolds(s.file, "DAEMON_STATE", v); }
  }

  lemma StateResumes(c: Ctl, v: string, env: Env)
    ensures CtlEffect(c, SetDaemon(v), env)
      == c.(override := if v == "default" || (v == "auto" && env.forks) then 0 else c.override)
  {
  }

  lemma StateAnswer(st: State, raw: string, v: string, env: Env)
    requires Parse(Message(raw)) == SetDaemon(v)
    ensures Reply(st, raw, env) == Some(if !ThreeWords(v) || (v == "auto" && !env.forks) then "ERR" else "OK")
  {
    hide Parse, Message;
  }

  /** Any other word is an error and changes nothing. */
  lemma SetDaemonRefuses(st: State, v: string, env: Env, defaults: Config)
    requires Argument(v) && !ThreeWords(v)
    ensures Handle(st, "SET_DAEMON " + v, env, defaults) == st && Reply(st, "SET_DAEMON " + v, env) == Some("ERR")
  {
    DaemonWord();
    hide Parse, Message, OnTheWire, Argument;
    ArgumentArrives("SET_DAEMON ", v);
    SetDaemonDispatch(v);
    Handles(st, "SET_DAEMON " + v, SetDaemon(v), env, defaults);
    hide Handle;
  }

  // ---------------------------------------------------------------- SET_MODE

  /** SET_MODE looks for seven words, in this order: the first three end an override, the others set the mode and
      the override that goes with it, and a text with none of them is an error. */
  lemma SetModeArrives(st: State, w: string, env: Env, defaults: Config)
    requires Argument(w)
    ensures var raw := "SET_MODE " + w;
      var t := Handle(st, raw, env, defaults);
      && t.store == st.store
      && (if Contains(w, "auto") || Contains(w, "default") || Contains(w, "reset") then t.ctl == st.ctl.(override := 0)
          else if Contains(w, "cache") then t.ctl == st.ctl.(override := 1, hw := NodeAfter(st, "cache", env))
          else if Contains(w, "frequency") then t.ctl == st.ctl.(override := 2, hw := NodeAfter(st, "frequency", env))
          else if Contains(w, "dual") then t.ctl == st.ctl.(override := 3, hw := NodeAfter(st, "dual", env))
          else if Contains(w, "swap") then t.ctl == st.ctl.(override := 4, hw := NodeAfter(st, "swap", env))
          else t.ctl == st.ctl)
      && Reply(st, raw, env) == Some(
           if exists d :: d in {"auto", "default", "reset", "cache", "frequency", "dual", "swap"} && Contains(w, d)
           then "OK" else "ERR")
  {
    DaemonWord();
    hide Parse, Message, OnTheWire, Argument, Contains;
    ArgumentArrives("SET_MODE ", w);
    SetModeDispatch(w);
    Handles(st, "SET_MODE " + w, SetMode(w), env, defaults);
    hide Handle;
  }

  /** The node takes a mode that is written to it if its path is known and it accepts the text. */
  function NodeAfter(st: State, mode: string, env: Env): string {
    if env.path && mode in env.accepts then mode else st.ctl.hw
  }

  // ---------------------------------------------------------------- the wrapper, TOGGLE and the rest

  /** SET_WRAPPER with any number but zero takes the lock, asks for cache and remembers it as the override; zero
      gives it back, asks for frequency and leaves no override. */
  lemma SetWrapperArrives(st: State, n: int, env: Env, defaults: Config)
    requires -2147483648 <= n <= 2147483647
    ensures var raw := "SET_WRAPPER " + Decimal(n);
      var t := Handle(st, raw, env, defaults);
      && t.store == st.store && Reply(st, raw, env) == Some("OK")
      && t.ctl == st.ctl.(wrapper := n, override := if n != 0 then 1 else 0,
                          hw := NodeAfter(st, if n != 0 then "cache" else "frequency", env))
  {
    var raw := "SET_WRAPPER " + Decimal(n);
    WrapperArgument(n);
    hide *;
    ArgumentArrives("SET_WRAPPER ", Decimal(n));
    SetWrapperNumber(n);
    Handles(st, raw, SetWrapper(n), env, defaults);
    WrapperEffect(st, raw, n, env, defaults);
  }

  lemma WrapperArgument(n: int)
    requires -2147483648 <= n <= 2147483647
    ensures OnTheWire("SET_WRAPPER ") && Argument(Decimal(n)) && -TWO_31 <= n < TWO_31
  {
    DaemonWord();
    NumberOnTheWire(n);
    Widths();
    Format.DecimalFits(n);
    hide OnTheWire, Decimal;
  }

  lemma WrapperEffect(st: State, raw: string, n: int, env: Env, defaults: Config)
    requires Parse(Message(raw)) == SetWrapper(n)
    ensures Apply(st.store, StoreEffect(SetWrapper(n), env), defaults) == st.store
    ensures Reply(st, raw, env) == Some("OK")
    ensures CtlEffect(st.ctl, SetWrapper(n), env)
      == st.ctl.(wrapper := n, override := if n != 0 then 1 else 0,
                 hw := NodeAfter(st, if n != 0 then "cache" else "frequency", env))
  {
    hide Parse, Message;
  }

  /** TOGGLE asks for frequency if the node reads cache, and for cache in every other case, with the override
      that goes with it. */
  lemma ToggleArrives(st: State, env: Env, defaults: Config)
    ensures var t := Handle(st, "TOGGLE", env, defaults);
      var mode := if env.path && env.readable && st.ctl.hw == "cache" then "frequency" else "cache";
      && t.store == st.store && Reply(st, "TOGGLE", env) == Some("OK")
      && t.ctl == st.ctl.(override := if mode == "cache" then 1 else 2, hw := NodeAfter(st, mode, env))
  {
    assert OnTheWire("TOGGLE");
    hide Parse, Message, OnTheWire;
    MessageArrives("TOGGLE");
    ToggleDispatch("TOGGLE");
    Handles(st, "TOGGLE", Toggle, env, defaults);
    hide Handle;
  }

  /** MODE answers what the node reads, at most 31 bytes of it, `unknown` without a node, and nothing in particular
      if it cannot be read; PING answers. */
  lemma Questions(st: State, env: Env, defaults: Config)
    ensures Handle(st, "MODE", env, defaults) == st && Handle(st, "PING", env, defaults) == st
    ensures Reply(st, "PING", env) == Some("OK")
    ensures !env.path ==> Reply(st, "MODE", env) == Some("unknown")
    ensures env.path && (!env.readable || st.ctl.hw == "") ==> Reply(st, "MODE", env) == None
    ensures env.path && env.readable && 1 <= |st.ctl.hw| <= 31 ==> Reply(st, "MODE", env) == Some(st.ctl.hw)
    ensures env.path && env.readable && |st.ctl.hw| > 31 ==> Reply(st, "MODE", env) == Some(st.ctl.hw[..31])
  {
    QuestionWords();
    hide Parse, Message, OnTheWire;
    MessageArrives("MODE");
    MessageArrives("PING");
    Handles(st, "MODE", AskMode, env, defaults);
    Handles(st, "PING", Ping, env, defaults);
    hide Handle;
  }

  lemma QuestionWords()
    ensures OnTheWire("MODE") && OnTheWire("PING") && Parse("MODE") == AskMode && Parse("PING") == Ping
  {
    var m, p := "MODE", "PING";
    assert m[0] == 'M' && p[0] == 'P' && m[..4] == m && p[..4] == p;
    hide ParseMore, TuningPrefix;
  }

  /** DAEMON_DISABLE stops the loop, CONFIG_SYNC loads the file, and both are answered. */
  lemma DisableAndSync(st: State, env: Env, defaults: Config)
    ensures Handle(st, "DAEMON_DISABLE", env, defaults) == st.(ctl := st.ctl.(keep := false))
    ensures Handle(st, "CONFIG_SYNC", env, defaults)
      == st.(store := Store(st.store.file, Loaded(st.store.cfg, st.store.file, defaults)))
    ensures Reply(st, "DAEMON_DISABLE", env) == Some("OK") == Reply(st, "CONFIG_SYNC", env)
  {
    LoopWords();
    hide Parse, Message, OnTheWire, Loaded;
    MessageArrives("DAEMON_DISABLE");
    MessageArrives("CONFIG_SYNC");
    Handles(st, "DAEMON_DISABLE", Disable, env, defaults);
    Handles(st, "CONFIG_SYNC", ConfigSync, env, defaults);
    hide Handle;
  }

  lemma LoopWords()
    ensures OnTheWire("DAEMON_DISABLE") && OnTheWire("CONFIG_SYNC")
    ensures Parse("DAEMON_DISABLE") == Disable && Parse("CONFIG_SYNC") == ConfigSync
  {
    assert OnTheWire("DAEMON_DISABLE") && OnTheWire("CONFIG_SYNC");
    hide OnTheWire, Parse;
    DisableDispatch("DAEMON_DISABLE");
    SyncDispatch("CONFIG_SYNC");
  }

  /** SET_UNPARK of the second die or of all cores asks the node for `dual`. */
  lemma UnparkAnswers(st: State, raw: string, env: Env, defaults: Config)
    requires raw == "SET_UNPARK all" || raw == "SET_UNPARK ccd1"
    ensures Handle(st, raw, env, defaults) == st.(ctl := st.ctl.(hw := NodeAfter(st, "dual", env)))
    ensures Reply(st, raw, env) == Some(if env.path && "dual" in env.accepts then "OK" else "ERR")
  {
    hide *;
    UnparkArrives(st, raw, env, defaults);
    DualIsTaken(st, env);
    CommandsOnTheWire(raw);
    MessageArrives(raw);
    UnparkDispatch(raw);
    UnparkAnswer(st, raw, env);
  }

  lemma DualIsTaken(st: State, env: Env)
    ensures Written(st.ctl.hw, "dual", env) == NodeAfter(st, "dual", env)
  {
  }

  lemma UnparkAnswer(st: State, raw: string, env: Env)
    requires Parse(Message(raw)) == Unpark
    ensures Reply(st, raw, env) == Some(if env.path && "dual" in env.accepts then "OK" else "ERR")
  {
    hide Parse, Message;
  }

  /** GET_CONFIG of a key the struct does not have answers ERR. */
  lemma UnknownKey(st: State, key: string, env: Env)
    requires Argument(key) && FieldOf(key).None?
    ensures Reply(st, "GET_CONFIG " + key, env) == Some("ERR")
  {
    GetWord();
    hide Parse, Message, OnTheWire, Argument, FieldOf, ConfigGet;
    ArgumentArrives("GET_CONFIG ", key);
    GetConfigDispatch(key);
    UnknownKeyIsError(st.store.cfg, key);
    Answers(st, "GET_CONFIG " + key, key, env);
  }

  lemma GetWord()
    ensures OnTheWire("GET_CONFIG ")
  {
  }

  /** SET_CONFIG without a blank behind the key is an error that changes nothing. */
  lemma SetConfigRefuses(st: State, key: string, env: Env, defaults: Config)
    requires Argument(key) && ' ' !in key
    ensures Handle(st, "SET_CONFIG " + key, env, defaults) == st
    ensures Reply(st, "SET_CONFIG " + key, env) == Some("ERR")
  {
    DaemonWord();
    hide Parse, Message, OnTheWire, Argument;
    ArgumentArrives("SET_CONFIG ", key);
    NoArgument(key);
    Handles(st, "SET_CONFIG " + key, Rejected, env, defaults);
    hide Handle;
  }

  /** Every SET_CONFIG with one is accepted, whatever the key. */
  lemma SetConfigAccepts(st: State, key: string, val: string, env: Env)
    requires Argument(key + " " + val) && ' ' !in key
    ensures Reply(st, "SET_CONFIG " + (key + " " + val), env) == Some("OK")
  {
    DaemonWord();
    hide Parse, Message, OnTheWire, Argument, SplitArg;
    var m := "SET_CONFIG " + (key + " " + val);
    ArgumentArrives("SET_CONFIG ", key + " " + val);
    assert m[11..] == key + " " + val && m[..11] == "SET_CONFIG ";
    SplitAtBlank(m, 11, key, val);
    SetConfigDispatch(m);
  }

  lemma NoArgument(key: string)
    requires ' ' !in key
    ensures Parse("SET_CONFIG " + key) == Rejected
  {
    var m := "SET_CONFIG " + key;
    assert m[..11] == "SET_CONFIG " && m[11..] == key;
    assert m[..4] == m[..11][..4] == "SET_" && m[4] == 'C' && m[5] == 'O';
    assert SplitArg(m, 11).None?;
    hide SplitArg, IntOf;
    assert ParseMore(m) == Rejected by { hide Parse; }
    hide Parse, ParseMore;
    PastTuning(m);
  }

  /** A message that starts with none of the letters of a command is an error and changes nothing. */
  lemma UnknownIsError(st: State, m: string, env: Env, defaults: Config)
    requires OnTheWire(m) && (m == "" || m[0] !in {'P', 'M', 'D', 'G', 'T', 'S', 'C', 'A'})
    ensures Handle(st, m, env, defaults) == st && Reply(st, m, env) == Some("ERR")
  {
    hide Parse, Message, OnTheWire;
    UnknownParses(m);
    MessageArrives(m);
    Handles(st, m, Rejected, env, defaults);
    hide Handle;
  }

  lemma UnknownParses(m: string)
    requires m == "" || m[0] !in {'P', 'M', 'D', 'G', 'T', 'S', 'C', 'A'}
    ensures Parse(m) == Rejected
  {
    assert ParseMore(m) == Rejected by { hide Parse, SplitArg, IntOf; }
    hide Parse, ParseMore;
    PastFirst(m);
  }

  /** The tuning words, by their first bytes. */
  predicate TuningWord(m: string) {
    || "GET_TOPOLOGY" <= m || "SET_AFFINITY_CONFIG " <= m || "SET_CPPC " <= m || "SET_BOOST " <= m
    || "SET_PARK " <= m || ("SET_UNPARK " <= m && m != "SET_UNPARK all" && m != "SET_UNPARK ccd1")
    || "SET_TDP " <= m || "SET_EPP " <= m || "SET_EPP_CCD " <= m || "SET_PSTATE " <= m || "SET_GOVERNOR " <= m
    || "SET_PREFCORE " <= m
  }

  /** Tuning and the remaining questions change nothing that is modelled. */
  lemma OthersChangeNothing(st: State, m: string, env: Env, defaults: Config)
    requires OnTheWire(m)
    requires TuningWord(m) || "DAEMON_INFO" <= m || "GAMES_LIST" <= m || "ADVANCED_GET " <= m || "GET_CONFIG " <= m
    ensures Handle(st, m, env, defaults) == st
  {
    hide Parse, Message, OnTheWire, TuningWord;
    OtherCommands(m);
    MessageArrives(m);
    Handles(st, m, Parse(m), env, defaults);
    hide Handle;
    NothingEffect(st, Parse(m), env, defaults);
    hide Apply, CtlEffect, StoreEffect;
  }

  lemma NothingEffect(st: State, cmd: Command, env: Env, defaults: Config)
    requires cmd.Tuning? || cmd.Query? || cmd.GetConfig?
    ensures Apply(st.store, StoreEffect(cmd, env), defaults) == st.store && CtlEffect(st.ctl, cmd, env) == st.ctl
  {
  }

  lemma OtherCommands(m: string)
    requires TuningWord(m) || "DAEMON_INFO" <= m || "GAMES_LIST" <= m || "ADVANCED_GET " <= m || "GET_CONFIG " <= m
    ensures Parse(m).Tuning? || Parse(m).Query? || Parse(m).GetConfig?
  {
    hide Parse, TuningWord;
    if TuningWord(m) {
      TuningParses(m);
    } else if "GET_CONFIG " <= m {
      var k := m[11..];
      assert m == m[..11] + k && m[..11] == "GET_CONFIG ";
      GetConfigDispatch(k);
    } else if "DAEMON_INFO" <= m {
      InfoParses(m);
    } else if "GAMES_LIST" <= m {
      GamesParses(m);
    } else {
      AskedParses(m);
    }
  }

  lemma InfoParses(m: string)
    requires "DAEMON_INFO" <= m
    ensures Parse(m) == Query
  {
    assert m[..11] == "DAEMON_INFO" && m[0] == 'D';
    hide ParseMore, TuningPrefix;
  }

  lemma GamesParses(m: string)
    requires "GAMES_LIST" <= m
    ensures Parse(m) == Query
  {
    assert m[..10] == "GAMES_LIST" && m[0] == 'G' && m[1] == 'A';
    assert ParseMore(m) == Query by { hide Parse, SplitArg, IntOf, TuningPrefix; }
    GamesWord(m);
    hide ParseMore, TuningPrefix;
  }

  lemma GamesWord(m: string)
    requires |m| >= 2 && m[0] == 'G' && m[1] == 'A'
    ensures !TuningPrefix(m)
  {
  }

  lemma AskedParses(m: string)
    requires "ADVANCED_GET " <= m
    ensures Parse(m) == Query
  {
    assert m[..13] == "ADVANCED_GET " && m[0] == 'A';
    assert ParseMore(m) == Query by { hide Parse, SplitArg, IntOf; }
    hide Parse, ParseMore;
    PastFirst(m);
  }

  lemma TuningParses(m: string)
    requires TuningWord(m)
    ensures Parse(m) == Tuning
  {
    TuningIsPrefix(m);
    TuningLetters(m);
    hide TuningPrefix, ParseMore, TuningWord;
  }

  lemma TuningIsPrefix(m: string)
    requires TuningWord(m)
    ensures TuningPrefix(m) && m != "SET_UNPARK ccd1" && m != "SET_UNPARK all"
  {
    UnparkIsNoTuning();
  }

  lemma UnparkIsNoTuning()
    ensures !TuningWord("SET_UNPARK ccd1") && !TuningWord("SET_UNPARK all")
  {
    var a, b := "SET_UNPARK ccd1", "SET_UNPARK all";
    assert a[0] == 'S' && a[4] == 'U' && b[0] == 'S' && b[4] == 'U';
  }

  lemma TuningLetters(m: string)
    requires TuningPrefix(m)
    ensures |m| >= 5 && (m[0] == 'S' || m[0] == 'G') && (m[0] == 'G' ==> m[4] == 'T') && m[4] != 'M'
  {
  }

  // ---------------------------------------------------------------- start-up and the order of a round

  /** After start-up a node that takes it is in frequency, the eBPF detector runs only if EBPF_ENABLE was loaded as
      a number other than zero and the detector could be started, and a missing or empty state is `default`. */
  lemma StartUpNode(st: State, env: Env, defaults: Config)
    requires !st.ctl.bpf
    ensures var t := StartUp(st, env, defaults);
      var cfg := Loaded(st.store.cfg, st.store.file, defaults);
      && t.ctl.hw == NodeAfter(st, "frequency", env)
      && (t.ctl.bpf <==>
            env.starts && "EBPF_ENABLE" in cfg && cfg["EBPF_ENABLE"].IntV? && cfg["EBPF_ENABLE"] != IntV(0))
      && t.ctl == st.ctl.(hw := t.ctl.hw, bpf := t.ctl.bpf) && t.store.file == st.store.file
      && ("DAEMON_STATE" !in cfg || cfg["DAEMON_STATE"] == TextV("") ==> StateWord(t.store) == "default")
      && ("DAEMON_STATE" in cfg && cfg["DAEMON_STATE"].TextV? && cfg["DAEMON_STATE"].s != "" ==> t.store.cfg == cfg)
  {
    hide Loaded;
  }

  /** A reload comes behind the poll: the poll of its round still goes by what memory held before. */
  lemma ReloadComesLast(st: State, r: Round, defaults: Config)
    requires st.ctl.keep && r.message.None? && r.reload
    ensures var t := Iterate(st, r, defaults);
      && t.ctl == Poll(st.ctl, st.store, r.env, r.game)
      && t.store == Store(st.store.file, Loaded(st.store.cfg, st.store.file, defaults))
  {
    hide Poll, Loaded;
  }

  /** A node that cannot be read is not written, and what a poll remembers of it is the text `unknown` without a
      node and the last one read otherwise. */
  lemma UnreadableNode(c: Ctl, s: Store, env: Env, game: bool)
    requires !(env.path && env.readable && c.hw != "")
    ensures var p := Poll(c, s, env, game);
      && p.hw == c.hw && p.writes == c.writes && p.current == (if env.path then c.current else "unknown")
      && (c.wrapper != 0 || c.override >= 3 || StateWord(s) != "default" ==>
            p.target == if |p.current| <= 31 then p.current else p.current[..31])
  {
    hide StateWord;
  }

  /** A suspended poll remembers 31 bytes of the mode; an automatic one leaves its decision in the target. */
  lemma PollRemembers(c: Ctl, s: Store, env: Env, game: bool)
    requires env.path && env.readable && c.hw != ""
    ensures var p := Poll(c, s, env, game);
      && p.current == (if |c.hw| <= 31 then c.hw else c.hw[..31])
      && p.target == (if c.wrapper == 0 && c.override < 3 && StateWord(s) == "default" then
                        (if c.override == 1 then "cache" else if c.override == 2 then "frequency"
                         else if game then "cache" else "frequency")
                      else p.current)
  {
    hide StateWord;
  }
}
