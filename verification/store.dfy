/** The daemon's configuration as a write-through cache: `config_load`, `config_update` and `config_get`
    of src/daemon/config.c, and the commands of src/socket.c that change file and memory together. */
module ConfigStore {
  import opened Text
  import opened Numbers
  import opened Atof
  import opened ConfigFile
  import opened ConfigWindow
  import opened Fields
  import opened Libc

  /** A value text as a field holds it. Text is cut to the buffer, less `margin` bytes. */
  function Parsed(f: Field, text: string, margin: nat): Value {
    match f
    case IntField => IntV(IntOf(text))
    case DoubleField => RealV(RealOf(text))
    case SwitchField => IntV(if text == "true" || IntOf(text) != 0 then 1 else 0)
    case TextField(size) => TextV(Take(text, if size > margin + 1 then size - margin - 1 else 0))
  }

  const LOADER_MARGIN: nat := 1 // config_load passes sizeof - 1 to printf_sn
  const SOCKET_MARGIN: nat := 0 // SET_CONFIG passes sizeof

  // ---------------------------------------------------------------- config_load

  function LoadLine(cfg: Config, line: string): Config {
    var b := Binding(line);
    if b.Some? && LoaderKnows(b.value.0) then
      cfg[b.value.0 := Parsed(FieldOf(b.value.0).value, b.value.1, LOADER_MARGIN)]
    else cfg
  }

  function LoadLines(cfg: Config, ls: seq<string>): Config {
    if ls == [] then cfg else LoadLine(LoadLines(cfg, ls[..|ls| - 1]), ls[|ls| - 1])
  }

  function SeenByLoad(file: string): seq<string> {
    Lines(CStr(Take(file, LOAD_LIMIT)))
  }

  /** `config_load`: built-in defaults first, then the file, line by line. Fields with neither keep
      what they held. */
  function Loaded(cfg: Config, file: string, defaults: Config): Config {
    LoadLines(cfg + defaults, SeenByLoad(file))
  }

  /** What one field holds after a load. */
  function LoadedField(cfg: Config, file: string, defaults: Config, k: string): Value
    requires LoaderKnows(k) && k in cfg
  {
    FieldFrom(cfg, SeenByLoad(file), defaults, k)
  }

  /** What one field holds once the loader has seen these lines. */
  function FieldFrom(cfg: Config, ls: seq<string>, defaults: Config, k: string): Value
    requires LoaderKnows(k) && k in cfg
  {
    var last := LastValue(ls, k);
    if last.Some? then Parsed(FieldOf(k).value, last.value, LOADER_MARGIN)
    else if k in defaults then defaults[k] else cfg[k]
  }

  lemma {:induction false} LoadLinesIsLastValue(cfg: Config, ls: seq<string>, k: string)
    requires LoaderKnows(k) && k in cfg
    ensures k in LoadLines(cfg, ls)
    ensures LoadLines(cfg, ls)[k] ==
      var last := LastValue(ls, k);
      if last.Some? then Parsed(FieldOf(k).value, last.value, LOADER_MARGIN) else cfg[k]
  {
    hide LoaderKnows, FieldOf, Parsed, Binding;
    if ls != [] {
      LoadLinesIsLastValue(cfg, ls[..|ls| - 1], k);
    }
  }

  /** The line-by-line loader is a last-match reader. */
  lemma LoadIsLastMatch(cfg: Config, file: string, defaults: Config, k: string)
    requires LoaderKnows(k) && k in cfg
    ensures k in Loaded(cfg, file, defaults) && Loaded(cfg, file, defaults)[k] == LoadedField(cfg, file, defaults, k)
  {
    hide LoaderKnows, FieldOf, Parsed, SeenByLoad;
    LoadLinesIsLastValue(cfg + defaults, SeenByLoad(file), k);
  }

  lemma {:induction false} LoadSkipsUnknown(cfg: Config, ls: seq<string>, k: string)
    requires !LoaderKnows(k)
    ensures k in LoadLines(cfg, ls) <==> k in cfg
    ensures k in cfg ==> LoadLines(cfg, ls)[k] == cfg[k]
  {
    hide LoaderKnows, FieldOf, Parsed, Binding;
    if ls != [] {
      LoadSkipsUnknown(cfg, ls[..|ls| - 1], k);
    }
  }

  /** SET_CONFIG AFFINITY_LEVEL is written to the file and to memory, but no load ever reads it: the
      built-in default comes back. */
  lemma AffinityLevelIsForgotten(cfg: Config, file: string, defaults: Config)
    requires "AFFINITY_LEVEL" in defaults
    ensures "AFFINITY_LEVEL" in Loaded(cfg, file, defaults)
    ensures Loaded(cfg, file, defaults)["AFFINITY_LEVEL"] == defaults["AFFINITY_LEVEL"]
  {
    LoadSkipsUnknown(cfg + defaults, SeenByLoad(file), "AFFINITY_LEVEL");
    hide *;
  }

  // ---------------------------------------------------------------- commands

  datatype Store = Store(file: string, cfg: Config)

  datatype StoreCmd =
    | SetKey(key: string, val: string)
    | SetState(val: string)
    | SetSysctl(name: string, val: string, written: bool)
    | Sync
    | Neutral

  /** The names ADVANCED_SET accepts, with the key each is stored under. */
  function SysctlKey(name: string): (k: Option<string>)
    ensures k.Some? ==> AdvancedInt(k.value) || NetworkInt(k.value) || SharedText(k.value)
  {
    if name == "kernel.sched_bore" then Some("SCHED_BORE")
    else if name == "kernel.sched_bit_shift" then Some("SCHED_BIT_SHIFT")
    else if name == "kernel.sched_burst_fork_at_init" then Some("SCHED_BURST_FORK")
    else if name == "kernel.sched_cfs_bandwidth_slice_us" then Some("SCHED_SLICE_US")
    else if name == "vm.max_map_count" then Some("VM_MAX_MAP")
    else if name == "kernel.split_lock_mitigate" then Some("SPLIT_LOCK_DETECT")
    else if name == "kernel.nmi_watchdog" then Some("NMI_WATCHDOG")
    else if name == "net.core.default_qdisc" then Some("NET_QDISC")
    else if name == "net.ipv4.tcp_fastopen" then Some("NET_FASTOPEN")
    else if name == "net.ipv4.conf.all.rp_filter" then Some("NET_RP_FILTER")
    else if name == "net.ipv4.conf.all.accept_source_route" then Some("NET_SOURCE_ROUTE")
    else if name == "target_thp_mode" then Some("THP_MODE")
    else None
  }

  // The pairs of names and keys.

  predicate KernelPair(name: string, key: string) {
    || (name == "kernel.sched_bore" && key == "SCHED_BORE")
    || (name == "kernel.sched_bit_shift" && key == "SCHED_BIT_SHIFT")
    || (name == "kernel.sched_burst_fork_at_init" && key == "SCHED_BURST_FORK")
    || (name == "kernel.sched_cfs_bandwidth_slice_us" && key == "SCHED_SLICE_US")
    || (name == "kernel.split_lock_mitigate" && key == "SPLIT_LOCK_DETECT")
    || (name == "kernel.nmi_watchdog" && key == "NMI_WATCHDOG")
  }

  predicate NetworkPair(name: string, key: string) {
    || (name == "net.ipv4.tcp_fastopen" && key == "NET_FASTOPEN")
    || (name == "net.ipv4.conf.all.rp_filter" && key == "NET_RP_FILTER")
    || (name == "net.ipv4.conf.all.accept_source_route" && key == "NET_SOURCE_ROUTE")
  }

  predicate IntegerPair(name: string, key: string) {
    KernelPair(name, key) || (name == "vm.max_map_count" && key == "VM_MAX_MAP") || NetworkPair(name, key)
  }

  predicate TextPair(name: string, key: string) {
    (name == "net.core.default_qdisc" && key == "NET_QDISC") || (name == "target_thp_mode" && key == "THP_MODE")
  }

  lemma KernelNames(name: string, key: string)
    requires KernelPair(name, key)
    ensures SysctlKey(name) == Some(key) && FieldOf(key) == Some(IntField) && SharedInt(key)
  {
    assert AdvancedInt(key);
    hide GeneralInt, DeveloperInt, AdvancedInt, NetworkInt, IrqInt, OtherInt, SharedDouble, SharedText, OtherText,
      ClangText, CheckText;
  }

  lemma NetworkNames(name: string, key: string)
    requires NetworkPair(name, key) || (name == "vm.max_map_count" && key == "VM_MAX_MAP")
    ensures SysctlKey(name) == Some(key) && FieldOf(key) == Some(IntField) && SharedInt(key)
  {
    assert NetworkInt(key) || AdvancedInt(key);
    hide GeneralInt, DeveloperInt, AdvancedInt, NetworkInt, IrqInt, OtherInt, SharedDouble, SharedText, OtherText,
      ClangText, CheckText;
  }

  lemma TextNames(name: string, key: string)
    requires TextPair(name, key)
    ensures SysctlKey(name) == Some(key)
    ensures FieldOf(key) == Some(TextField(if key == "THP_MODE" then 16 else 32))
  {
    PolicySizes(key);
    hide FieldOf;
  }

  /** There are no other names. */
  lemma NoOtherNames(name: string)
    ensures SysctlKey(name).Some? ==> IntegerPair(name, SysctlKey(name).value) || TextPair(name, SysctlKey(name).value)
  {
  }

  predicate DaemonStateWord(val: string) {
    val == "manual" || val == "auto" || val == "default"
  }

  /** One command on file and memory. ADVANCED_SET stores the value in memory at once, but in the file
      only after the kernel took it. */
  function Apply(s: Store, c: StoreCmd, defaults: Config): Store {
    match c
    case SetKey(k, v) =>
      Store(Updated(s.file, k, v),
            if SocketKnows(k) then s.cfg[k := Parsed(FieldOf(k).value, v, SOCKET_MARGIN)] else s.cfg)
    case SetState(v) =>
      if DaemonStateWord(v) then
        Store(Updated(s.file, "DAEMON_STATE", v), s.cfg["DAEMON_STATE" := TextV(v)])
      else s
    case SetSysctl(name, v, written) =>
      var k := SysctlKey(name);
      if k.None? then s
      else Store(if written then Updated(s.file, k.value, v) else s.file,
                 s.cfg[k.value := Parsed(FieldOf(k.value).value, v, LOADER_MARGIN)])
    case Sync => Store(s.file, Loaded(s.cfg, s.file, defaults))
    case Neutral => s
  }

  // ---------------------------------------------------------------- coherence

  /** The fields kept in step: known to the loader and to some command that writes both sides. */
  predicate Cached(k: string) {
    LoaderKnows(k) && (SocketKnows(k) || k == "DAEMON_STATE")
  }

  lemma SocketKeysAreFields(k: string)
    ensures SocketKnows(k) ==> FieldOf(k).Some?
  {
  }

  /** The cached fields, by name. */
  lemma CachedFields(k: string)
    ensures Cached(k) <==> SharedInt(k) || SharedDouble(k) || SharedText(k) || k == "DAEMON_STATE"
  {
  }

  /** Everything ADVANCED_SET can name is cached. */
  lemma SysctlKeysAreCached(name: string)
    ensures SysctlKey(name).Some? ==> Cached(SysctlKey(name).value)
  {
    hide SysctlKey, FieldOf;
    if SysctlKey(name).Some? {
      CachedFields(SysctlKey(name).value);
    }
  }

  /** Loading again would change no cached field. */
  ghost predicate Coherent(s: Store, defaults: Config) {
    forall k :: Cached(k) ==> InStep(s, defaults, k)
  }

  ghost predicate InStep(s: Store, defaults: Config, k: string)
    requires LoaderKnows(k)
  {
    k in s.cfg && LoadedField(s.cfg, s.file, defaults, k) == s.cfg[k]
  }

  /** Every loader field exists in the struct. */
  ghost predicate Complete(cfg: Config) {
    forall k :: LoaderKnows(k) ==> k in cfg
  }

  /** A fresh load is coherent, and loading twice is loading once. */
  lemma LoadCoherent(s: Store, defaults: Config)
    requires Complete(s.cfg)
    ensures Coherent(Apply(s, Sync, defaults), defaults)
  {
    hide FieldOf, SocketKnows, Parsed, SeenByLoad, LoadLines;
    var t := Apply(s, Sync, defaults);
    forall k | Cached(k) ensures InStep(t, defaults, k) {
      LoadIsLastMatch(s.cfg, s.file, defaults, k);
    }
  }

  predicate OnlyChanges(cfg: Config, cfg': Config, key: string) {
    cfg'.Keys >= cfg.Keys && forall k :: k in cfg && k != key ==> cfg'[k] == cfg[k]
  }

  /** The next load would overwrite the field from the file or from a built-in default. */
  predicate Pinned(s: Store, defaults: Config, k: string) {
    LastValue(SeenByLoad(s.file), k).Some? || k in defaults
  }

  /** Memory may take this value while the file stays as it is: the field had it already, or a load has
      nothing to put in its place, or it is no cached field. */
  predicate MemoryMay(s: Store, defaults: Config, key: string, v: Value) {
    Cached(key) ==> (key in s.cfg && s.cfg[key] == v) || !Pinned(s, defaults, key)
  }

  /** Memory changed behind the file's back. */
  lemma MemoryOnly(s: Store, defaults: Config, key: string, cfg: Config)
    requires Coherent(s, defaults) && OnlyChanges(s.cfg, cfg, key) && key in cfg
    ensures Coherent(Store(s.file, cfg), defaults) <==> MemoryMay(s, defaults, key, cfg[key])
  {
    hide FieldOf, SocketKnows, Parsed, SeenByLoad;
    var t := Store(s.file, cfg);
    forall k | Cached(k) && k != key ensures InStep(t, defaults, k) {
      assert InStep(s, defaults, k);
    }
    if Cached(key) {
      assert InStep(s, defaults, key);
    }
    assert Coherent(t, defaults) <==> (Cached(key) ==> InStep(t, defaults, key));
  }

  // ---------------------------------------------------------------- updates of files of any length

  /** The lines the loader will see after an update. */
  function SeenNext(file: string, key: string, val: string): seq<string> {
    Window(UpdateLines(SeenByUpdate(file), key, val), LOAD_LIMIT)
  }

  lemma SeenAfterUpdate(file: string, key: string, val: string)
    requires file != [] && CleanText(key) && CleanText(val)
    ensures SeenByLoad(Updated(file, key, val)) == SeenNext(file, key, val)
  {
    var text := CStr(Take(file, UPDATE_LIMIT));
    var us := UpdateLines(Lines(text), key, val);
    LinesClean(text, '\0');
    UpdateLinesClean(Lines(text), key, val);
    UnlinesClean(us, '\0');
    hide Lines, Unlines, UpdateLines, CStr;
    WindowIsSeen(us, LOAD_LIMIT);
    var all := Unlines(us);
    assert Take(Take(all, UPDATE_LIMIT), LOAD_LIMIT) == Take(all, LOAD_LIMIT);
  }

  /** What a load puts into a field for the last text it saw, if anything. */
  function Put(last: Option<string>, defaults: Config, k: string): Option<Value>
    requires LoaderKnows(k)
  {
    if last.Some? then Some(Parsed(FieldOf(k).value, last.value, LOADER_MARGIN))
    else if k in defaults then Some(defaults[k])
    else None
  }

  /** The loader's cut in the lines of a file, and where an update moves it. */
  function CutBefore(file: string): Cut {
    CutOf(SeenByUpdate(file), LOAD_LIMIT)
  }

  function CutAfter(file: string, key: string, val: string): Cut {
    CutOf(UpdateLines(SeenByUpdate(file), key, val), LOAD_LIMIT)
  }

  /** Moving the cut does not change what a load puts into the field: what enters or leaves the sight of
      the loader says the same, or nothing decides the field now, or nothing did and memory holds what does
      now. */
  predicate StillReads(s: Store, defaults: Config, k: string, c: Cut)
    requires LoaderKnows(k)
  {
    var ls := SeenByUpdate(s.file);
    var before := Put(LastValue(SeenTo(ls, CutBefore(s.file)), k), defaults, k);
    var after := Put(LastValue(SeenTo(ls, c), k), defaults, k);
    after == before || after.None? || (before.None? && k in s.cfg && s.cfg[k] == after.value)
  }

  /** A load puts this value into the field the key owns, or leaves it alone. */
  predicate OwnReadsAs(s: Store, defaults: Config, key: string, val: string, v: Value)
    requires LoaderKnows(Owner(key))
  {
    var put := Put(OwnReads(SeenByUpdate(s.file), key, val, CutAfter(s.file, key, val)), defaults, Owner(key));
    put.None? || put.value == v
  }

  /** The exact condition for an update of a file that is not empty. All is told from the lines the file has
      now and from the two cuts, which are sums of line lengths. `stored` is what memory takes for the key. */
  ghost predicate UpdateKeeps(s: Store, defaults: Config, key: string, val: string, stored: Option<Value>) {
    && (forall k :: Cached(k) && !Owns(key, k) ==> StillReads(s, defaults, k, CutAfter(s.file, key, val)))
    && (!Comment(key) && Cached(Owner(key)) ==>
          var now := if stored.Some? then stored else if Owner(key) in s.cfg then Some(s.cfg[Owner(key)]) else None;
          now.Some? && OwnReadsAs(s, defaults, key, val, now.value))
  }

  function Taking(cfg: Config, key: string, stored: Option<Value>): Config {
    if stored.Some? then cfg[key := stored.value] else cfg
  }

  /** From a coherent store, an update of a file of any length keeps it coherent if and only if that holds. */
  lemma UpdateExact(s: Store, defaults: Config, key: string, val: string, stored: Option<Value>)
    requires Coherent(s, defaults) && s.file != [] && CleanText(key) && CleanText(val)
    requires stored.Some? ==> PlainKey(key)
    ensures Coherent(Store(Updated(s.file, key, val), Taking(s.cfg, key, stored)), defaults)
      <==> UpdateKeeps(s, defaults, key, val, stored)
  {
    var t := Store(Updated(s.file, key, val), Taking(s.cfg, key, stored));
    if stored.Some? { PlainOwner(key); }
    hide FieldOf, SocketKnows, Updated, Parsed, StillReads, OwnReadsAs, Owns, Owner, InStep, Taking;
    forall k | Cached(k) && !Owns(key, k)
      ensures InStep(t, defaults, k) <==> StillReads(s, defaults, k, CutAfter(s.file, key, val))
    {
      assert InStep(s, defaults, k);
      OtherField(s, defaults, key, val, stored, k);
    }
    if !Comment(key) && Cached(Owner(key)) {
      assert InStep(s, defaults, Owner(key));
      OwnField(s, defaults, key, val, stored);
    }
    OwnerOnly(key);
  }

  lemma OwnerOnly(key: string)
    ensures forall k :: Owns(key, k) <==> !Comment(key) && k == Owner(key)
  {
  }

  lemma OtherField(s: Store, defaults: Config, key: string, val: string, stored: Option<Value>, k: string)
    requires LoaderKnows(k) && InStep(s, defaults, k) && !Owns(key, k)
    requires s.file != [] && CleanText(key) && CleanText(val) && (stored.Some? ==> Owns(key, key))
    ensures InStep(Store(Updated(s.file, key, val), Taking(s.cfg, key, stored)), defaults, k)
      <==> StillReads(s, defaults, k, CutAfter(s.file, key, val))
  {
    hide *;
    var ls, c := SeenByUpdate(s.file), CutAfter(s.file, key, val);
    var t := Store(Updated(s.file, key, val), Taking(s.cfg, key, stored));
    TakingOther(s.cfg, key, stored, k);
    SeenAtCut(s.file, key, val);
    OthersRead(ls, key, val, c, k);
    StepIsPut(s, defaults, k);
    StepIsPut(t, defaults, k);
    StillReadsIs(s, defaults, k, c);
  }

  lemma TakingOther(cfg: Config, key: string, stored: Option<Value>, k: string)
    requires !Owns(key, k) && (stored.Some? ==> Owns(key, key))
    ensures k in Taking(cfg, key, stored) <==> k in cfg
    ensures k in cfg ==> Taking(cfg, key, stored)[k] == cfg[k]
  {
    hide Owner;
  }

  /** Being in step, in terms of what a load puts. */
  lemma StepIsPut(s: Store, defaults: Config, k: string)
    requires LoaderKnows(k)
    ensures InStep(s, defaults, k) <==>
      k in s.cfg && var p := Put(LastValue(SeenByLoad(s.file), k), defaults, k); p.None? || p.value == s.cfg[k]
  {
    hide LoaderKnows, FieldOf, Parsed, SeenByLoad, LastValue;
  }

  lemma StillReadsIs(s: Store, defaults: Config, k: string, c: Cut)
    requires LoaderKnows(k) && k in s.cfg
    requires var p := Put(LastValue(SeenTo(SeenByUpdate(s.file), CutBefore(s.file)), k), defaults, k);
      p.None? || p.value == s.cfg[k]
    ensures StillReads(s, defaults, k, c) <==>
      var p := Put(LastValue(SeenTo(SeenByUpdate(s.file), c), k), defaults, k); p.None? || p.value == s.cfg[k]
  {
    hide LoaderKnows, Put, SeenTo, SeenByUpdate, CutBefore, LastValue;
  }

  /** What the loader sees before and after an update, by the two cuts. */
  lemma SeenAtCut(file: string, key: string, val: string)
    requires file != [] && CleanText(key) && CleanText(val)
    ensures var ls := SeenByUpdate(file);
      && SeenByLoad(file) == SeenTo(ls, CutBefore(file))
      && SeenByLoad(Updated(file, key, val)) == SeenTo(UpdateLines(ls, key, val), CutAfter(file, key, val))
      && CutAfter(file, key, val).lines <= |UpdateLines(ls, key, val)|
  {
    hide SeenTo, CutOf, UpdateLines, Updated, Window, CStr, Lines;
    SeenIsCut(file);
    SeenAfterUpdate(file, key, val);
    WindowIsCut(UpdateLines(SeenByUpdate(file), key, val), LOAD_LIMIT);
  }

  lemma OwnField(s: Store, defaults: Config, key: string, val: string, stored: Option<Value>)
    requires !Comment(key) && LoaderKnows(Owner(key)) && InStep(s, defaults, Owner(key))
    requires s.file != [] && CleanText(key) && CleanText(val) && (stored.Some? ==> Owner(key) == key)
    ensures var o := Owner(key);
      InStep(Store(Updated(s.file, key, val), Taking(s.cfg, key, stored)), defaults, o)
      <==> OwnReadsAs(s, defaults, key, val, if stored.Some? then stored.value else s.cfg[o])
  {
    hide *;
    var ls, o := SeenByUpdate(s.file), Owner(key);
    var t := Store(Updated(s.file, key, val), Taking(s.cfg, key, stored));
    StepIsPut(s, defaults, o);
    TakingOwn(s.cfg, key, stored);
    SeenAtCut(s.file, key, val);
    OwnerRead(ls, key, val, CutAfter(s.file, key, val));
    StepIsPut(t, defaults, o);
    OwnReadsAsIs(s, defaults, key, val, if stored.Some? then stored.value else s.cfg[o]);
  }

  lemma TakingOwn(cfg: Config, key: string, stored: Option<Value>)
    requires (stored.Some? ==> Owner(key) == key) && Owner(key) in cfg
    ensures Owner(key) in Taking(cfg, key, stored)
    ensures Taking(cfg, key, stored)[Owner(key)] == if stored.Some? then stored.value else cfg[Owner(key)]
  {
    hide Owner;
  }

  lemma OwnReadsAsIs(s: Store, defaults: Config, key: string, val: string, v: Value)
    requires LoaderKnows(Owner(key))
    ensures OwnReadsAs(s, defaults, key, val, v) <==>
      var p := Put(OwnReads(SeenByUpdate(s.file), key, val, CutAfter(s.file, key, val)), defaults, Owner(key));
      p.None? || p.value == v
  {
    hide LoaderKnows, Put, OwnReads, SeenByUpdate, CutAfter, Owner;
  }

  // ---------------------------------------------------------------- updates of files that fit

  /** In a file that fits, the loader sees every line before and after. */
  lemma FitsUncut(file: string, key: string, val: string)
    requires Fits(file, key, val, LOAD_LIMIT)
    ensures SeenByUpdate(file) == Lines(file)
    ensures SeenTo(Lines(file), CutBefore(file)) == Lines(file) == SeenTo(Lines(file), CutAfter(file, key, val))
    ensures CutAfter(file, key, val).lines == |UpdateLines(Lines(file), key, val)|
  {
    var ls := Lines(file);
    assert SeenByUpdate(file) == ls;
    hide Lines, CutOf, UpdateLines, SeenTo;
    SeenIsCut(file);
    WholeCut(UpdateLines(ls, key, val), LOAD_LIMIT);
    hide Unlines;
    NothingCut(ls, CutAfter(file, key, val));
  }

  lemma NothingCut(ls: seq<string>, c: Cut)
    requires c.lines >= |ls|
    ensures SeenTo(ls, c) == ls
  {
    assert ls + [] == ls;
  }

  /** Only the last newline may be out of sight. */
  lemma {:induction false} WholeCut(ls: seq<string>, cap: nat)
    requires |Unlines(ls)| <= cap
    ensures CutOf(ls, cap).lines == |ls|
    decreases ls
  {
    if ls != [] { WholeCut(ls[1..], cap - |ls[0]| - 1); }
  }

  /** In a file that fits, only the field the key owns decides, and it reads the new text unless a line
      the key does not rewrite decides it. */
  lemma UpdateFits(s: Store, defaults: Config, key: string, val: string, stored: Option<Value>)
    requires Coherent(s, defaults) && CleanText(key) && CleanText(val) && (stored.Some? ==> PlainKey(key))
    requires Fits(s.file, key, val, LOAD_LIMIT)
    ensures Coherent(Store(Updated(s.file, key, val), Taking(s.cfg, key, stored)), defaults) <==>
      || Comment(key) || !Cached(Owner(key))
      || (Present(Lines(s.file), key) && !Decides(Lines(s.file), key) && stored.None?)
      || Some(Parsed(FieldOf(Owner(key)).value, Lead(key) + val, LOADER_MARGIN))
         == if stored.Some? then stored else if Owner(key) in s.cfg then Some(s.cfg[Owner(key)]) else None
  {
    UpdateExact(s, defaults, key, val, stored);
    FitsUncut(s.file, key, val);
    var o := Owner(key);
    if !Comment(key) && Cached(o) {
      assert InStep(s, defaults, o);
      OwnReadsUncut(s, defaults, key, val, stored);
    }
    hide FieldOf, SocketKnows, Updated, Parsed, OwnReads, Owner, Lead, InStep, Coherent, Fits, Lines, Taking;
  }

  lemma OwnReadsUncut(s: Store, defaults: Config, key: string, val: string, stored: Option<Value>)
    requires !Comment(key) && LoaderKnows(Owner(key)) && InStep(s, defaults, Owner(key))
    requires Fits(s.file, key, val, LOAD_LIMIT) && (stored.Some? ==> PlainKey(key))
    ensures var o := Owner(key);
      var now := if stored.Some? then stored.value else s.cfg[o];
      OwnReadsAs(s, defaults, key, val, now) <==>
        || (Present(Lines(s.file), key) && !Decides(Lines(s.file), key) && stored.None?)
        || Parsed(FieldOf(o).value, Lead(key) + val, LOADER_MARGIN) == now
  {
    var ls, o, c := Lines(s.file), Owner(key), CutAfter(s.file, key, val);
    FitsUncut(s.file, key, val);
    SeenIsCut(s.file);
    StepIsPut(s, defaults, o);
    if stored.Some? {
      PlainOwner(key);
      PresentIsBound(ls, key);
    }
    assert !CutsNewLine(ls, key, c) || c.lines > |ls| by { hide Matches, Entry; }
    hide FieldOf, LoaderKnows, Parsed, Fits, Lines, UpdateLines, Present, LastValue, Owner, Lead, SeenTo, CutOf;
  }

  // ---------------------------------------------------------------- keys that hold an equals sign

  predicate StrayKey(key: string) {
    '=' in key && key[0] != '#'
  }

  /** A key with an equals sign writes a line that the loader reads as a value of the field before it. That
      is harmless if the field is not cached, or the line that decides it is left alone, or it says what
      memory holds already. */
  predicate StrayKeeps(s: Store, key: string, val: string) {
    || !Cached(Owner(key))
    || (Present(Lines(s.file), key) && !Decides(Lines(s.file), key))
    || (Owner(key) in s.cfg && s.cfg[Owner(key)] == Parsed(FieldOf(Owner(key)).value, Lead(key) + val, LOADER_MARGIN))
  }

  lemma StrayMemory(s: Store, defaults: Config, key: string, val: string)
    requires StrayKey(key)
    ensures !SocketKnows(key)
    ensures Apply(s, SetKey(key, val), defaults) == Store(Updated(s.file, key, val), s.cfg)
  {
    hide SocketKnows, Updated, Parsed;
    if FieldOf(key).Some? {
      FieldNamesArePlain(key);
      assert false;
    }
    SocketKeysAreFields(key);
  }

  /** SET_CONFIG with a key that holds an equals sign never changes memory, and keeps the store coherent on
      an empty file, on one that fits if and only if it is harmless, and on a longer one if and only if
      moving the cut is harmless too. */
  lemma StrayEqualsExact(s: Store, defaults: Config, key: string, val: string)
    requires Coherent(s, defaults) && StrayKey(key) && CleanText(key) && CleanText(val)
    ensures Apply(s, SetKey(key, val), defaults).cfg == s.cfg
    ensures Coherent(Apply(s, SetKey(key, val), defaults), defaults) <==>
      || s.file == []
      || (if Fits(s.file, key, val, LOAD_LIMIT) then StrayKeeps(s, key, val)
          else UpdateKeeps(s, defaults, key, val, None))
  {
    StrayMemory(s, defaults, key, val);
    assert Taking(s.cfg, key, None) == s.cfg;
    hide Coherent, FieldOf, Fits, UpdateKeeps, Cached, Present, Decides, Owner, Lead, Parsed, Taking;
    if s.file == [] {
      assert Store(s.file, s.cfg) == s;
    } else {
      hide Updated;
      if Fits(s.file, key, val, LOAD_LIMIT) {
        UpdateFits(s, defaults, key, val, None);
      } else {
        UpdateExact(s, defaults, key, val, None);
      }
    }
    hide Apply;
  }

  /** A harmless looking command that switches the next load: memory keeps 0, the file now says 1. */
  lemma StrayEqualsExample()
    ensures LastValue(UpdateLines(["DEV_ENABLE=0"], "DEV_ENABLE=1", "x"), "DEV_ENABLE") == Some("1=x")
  {
    var key := "DEV_ENABLE=1";
    assert key[10] == '=' && IndexOf(key, '=') == 10;
    assert Owner(key) == "DEV_ENABLE" && Lead(key) + "x" == "1=x";
    assert !Present(["DEV_ENABLE=0"], key) by { assert "DEV_ENABLE=0"[11] == '0'; }
    hide Present;
    UpdateReads(["DEV_ENABLE=0"], key, "x", "DEV_ENABLE");
  }

  // ---------------------------------------------------------------- the commands, exactly

  /** What a caller checks before SET_CONFIG: text must fit the loader's shorter copy, and the daemon
      state is not to be set this way, except to what it is. */
  predicate ValueFits(s: Store, key: string, val: string) {
    match FieldOf(key)
    case Some(TextField(size)) =>
      if SocketKnows(key) then |val| <= size - 2
      else key == "DAEMON_STATE" && key in s.cfg ==> s.cfg[key] == TextV(Take(val, size - 2))
    case _ => true
  }

  /** The condition under which SET_CONFIG keeps memory and file in step. An empty file is not written, so
      memory must not change a field that a load decides; in a file that fits, text must fit too; in a
      longer one the loader's cut moves. */
  ghost predicate SetConfigKeeps(s: Store, key: string, val: string, defaults: Config) {
    if s.file == [] then
      SocketStores(key, val).Some? ==> MemoryMay(s, defaults, key, SocketStores(key, val).value)
    else if Fits(s.file, key, val, LOAD_LIMIT) then
      if StrayKey(key) then StrayKeeps(s, key, val) else ValueFits(s, key, val)
    else UpdateKeeps(s, defaults, key, val, SocketStores(key, val))
  }

  /** What SET_CONFIG stores in memory. */
  function SocketStores(key: string, val: string): Option<Value> {
    if SocketKnows(key) && FieldOf(key).Some? then Some(Parsed(FieldOf(key).value, val, SOCKET_MARGIN)) else None
  }

  lemma SetConfigIs(s: Store, defaults: Config, key: string, val: string)
    ensures Apply(s, SetKey(key, val), defaults)
      == Store(Updated(s.file, key, val), Taking(s.cfg, key, SocketStores(key, val)))
    ensures SocketStores(key, val).Some? ==> PlainKey(key)
  {
    SocketKeysAreFields(key);
    if FieldOf(key).Some? { FieldNamesArePlain(key); }
    hide FieldOf, SocketKnows, Parsed, Updated;
  }

  /** SET_CONFIG keeps memory and file in step if and only if that holds: every key, every file. */
  lemma SetConfigExact(s: Store, defaults: Config, key: string, val: string)
    requires Coherent(s, defaults) && CleanText(key) && CleanText(val)
    ensures Coherent(Apply(s, SetKey(key, val), defaults), defaults) <==> SetConfigKeeps(s, key, val, defaults)
  {
    hide Coherent, FieldOf, SocketKnows, Parsed, Fits, StrayKeeps, ValueFits, UpdateKeeps, MemoryMay, Updated, Apply,
      SocketStores, StrayKey;
    if s.file == [] {
      SetConfigEmpty(s, defaults, key, val);
    } else if !Fits(s.file, key, val, LOAD_LIMIT) {
      SetConfigIs(s, defaults, key, val);
      UpdateExact(s, defaults, key, val, SocketStores(key, val));
    } else if StrayKey(key) {
      StrayEqualsExact(s, defaults, key, val);
    } else {
      SetConfigFits(s, defaults, key, val);
    }
  }

  lemma SetConfigEmpty(s: Store, defaults: Config, key: string, val: string)
    requires Coherent(s, defaults) && s.file == []
    ensures Coherent(Apply(s, SetKey(key, val), defaults), defaults) <==> SetConfigKeeps(s, key, val, defaults)
  {
    SocketKeysAreFields(key);
    var t := Apply(s, SetKey(key, val), defaults);
    assert t.file == s.file && s == Store(s.file, s.cfg);
    hide Coherent, FieldOf, SocketKnows, Parsed, MemoryMay;
    if SocketKnows(key) {
      MemoryOnly(s, defaults, key, t.cfg);
    }
  }

  lemma SetConfigFits(s: Store, defaults: Config, key: string, val: string)
    requires Coherent(s, defaults) && CleanText(key) && CleanText(val)
    requires Fits(s.file, key, val, LOAD_LIMIT) && !StrayKey(key)
    ensures Coherent(Apply(s, SetKey(key, val), defaults), defaults) <==> ValueFits(s, key, val)
  {
    SharedOrState(key);
    SocketKeysAreFields(key);
    hide FieldOf, SocketKnows, LoadedField, Updated, Fits, Lines, Present, LastValue, Apply, Owner, Lead;
    SetConfigIs(s, defaults, key, val);
    UpdateFits(s, defaults, key, val, SocketStores(key, val));
    if Cached(key) {
      FieldNamesArePlain(key);
      assert InStep(s, defaults, key);
      TextCutsAgree(key, val);
    }
    hide Coherent;
    if !Comment(key) {
      NotStray(key);
      PresentIsBound(Lines(s.file), key);
      assert "" + val == val;
    }
  }

  lemma NotStray(key: string)
    requires !StrayKey(key) && !Comment(key)
    ensures PlainKey(key) && Owner(key) == key && Lead(key) == ""
  {
    PlainOwner(key);
  }

  lemma SharedOrState(key: string)
    ensures SocketKnows(key) && FieldOf(key).Some? && FieldOf(key).value.TextField? ==> Cached(key)
    ensures FieldOf(key).Some? && key == "DAEMON_STATE" ==>
      FieldOf(key).value == TextField(32) && Cached(key) && !SocketKnows(key)
  {
  }

  lemma TextCutsAgree(key: string, val: string)
    requires FieldOf(key).Some?
    ensures var f := FieldOf(key).value;
      Parsed(f, val, SOCKET_MARGIN) == Parsed(f, val, LOADER_MARGIN) <==> (f.TextField? ==> |val| <= f.size - 2)
  {
    hide FieldOf;
  }

  lemma DaemonStateField()
    ensures FieldOf("DAEMON_STATE") == Some(TextField(32)) && LoaderKnows("DAEMON_STATE") && Cached("DAEMON_STATE")
  {
  }

  lemma WordsFit(val: string)
    requires DaemonStateWord(val)
    ensures CleanText(val) && Parsed(TextField(32), val, LOADER_MARGIN) == TextV(val)
  {
  }

  /** The loader reads back what a command stored on both sides. */
  ghost predicate BothKeep(s: Store, key: string, val: string, v: Value, defaults: Config) {
    if s.file == [] then MemoryMay(s, defaults, key, v)
    else Fits(s.file, key, val, LOAD_LIMIT) || UpdateKeeps(s, defaults, key, val, Some(v))
  }

  /** A command that stores the loader's own reading of a text in memory, and the text in the file. */
  lemma BothExact(s: Store, defaults: Config, key: string, val: string)
    requires Coherent(s, defaults) && FieldOf(key).Some? && CleanText(val)
    ensures var v := Parsed(FieldOf(key).value, val, LOADER_MARGIN);
      Coherent(Store(Updated(s.file, key, val), s.cfg[key := v]), defaults) <==> BothKeep(s, key, val, v, defaults)
  {
    FieldNamesArePlain(key);
    var v := Parsed(FieldOf(key).value, val, LOADER_MARGIN);
    hide FieldOf, Coherent, Parsed, Fits, UpdateKeeps, MemoryMay, Cached;
    if s.file == [] {
      MemoryOnly(s, defaults, key, s.cfg[key := v]);
    } else {
      hide Updated;
      UpdateExact(s, defaults, key, val, Some(v));
      if Fits(s.file, key, val, LOAD_LIMIT) { BothFit(s, defaults, key, val, v); }
    }
  }

  lemma BothFit(s: Store, defaults: Config, key: string, val: string, v: Value)
    requires Coherent(s, defaults) && FieldOf(key).Some? && FieldName(key) && CleanText(val)
    requires Fits(s.file, key, val, LOAD_LIMIT) && v == Parsed(FieldOf(key).value, val, LOADER_MARGIN)
    ensures Coherent(Store(Updated(s.file, key, val), s.cfg[key := v]), defaults)
  {
    PlainOwner(key);
    assert "" + val == val;
    hide FieldOf, Coherent, Parsed, Fits, Updated, Cached, Owner, Lead;
    UpdateFits(s, defaults, key, val, Some(v));
  }

  /** SET_DAEMON keeps them in step on every file that fits, for its three words do; an empty file is
      not written. */
  lemma SetDaemonExact(s: Store, defaults: Config, val: string)
    requires Coherent(s, defaults)
    ensures Coherent(Apply(s, SetState(val), defaults), defaults)
      <==> (DaemonStateWord(val) ==> BothKeep(s, "DAEMON_STATE", val, TextV(val), defaults))
  {
    if DaemonStateWord(val) {
      DaemonStateField();
      WordsFit(val);
      hide FieldOf, Coherent, Updated, Fits, Parsed, DaemonStateWord, BothKeep;
      BothExact(s, defaults, "DAEMON_STATE", val);
    }
  }

  /** The condition for ADVANCED_SET. */
  ghost predicate AdvancedKeeps(s: Store, name: string, val: string, written: bool, defaults: Config) {
    var k := SysctlKey(name);
    k.Some? && FieldOf(k.value).Some? ==>
      var v := Parsed(FieldOf(k.value).value, val, LOADER_MARGIN);
      if written then BothKeep(s, k.value, val, v, defaults) else MemoryMay(s, defaults, k.value, v)
  }

  /** ADVANCED_SET keeps them in step if and only if the file takes what the kernel took, or the kernel
      refused a value that memory held already or that no load would replace. */
  lemma AdvancedSetExact(s: Store, defaults: Config, name: string, val: string, written: bool)
    requires Coherent(s, defaults) && CleanText(val)
    ensures Coherent(Apply(s, SetSysctl(name, val, written), defaults), defaults)
      <==> AdvancedKeeps(s, name, val, written, defaults)
  {
    hide SysctlKey, FieldOf, SocketKnows, Updated, Fits, Parsed, LoadedField, Coherent, BothKeep, MemoryMay;
    if SysctlKey(name).Some? {
      var k := SysctlKey(name).value;
      SysctlKeysAreCached(name);
      if written {
        BothExact(s, defaults, k, val);
      } else {
        MemoryOnly(s, defaults, k, Apply(s, SetSysctl(name, val, written), defaults).cfg);
      }
    }
  }

  // ---------------------------------------------------------------- where they fail

  lemma OneLineFile(k: string, v: string, v': string)
    requires PlainKey(k) && CleanText(k) && CleanText(v) && CleanText(v')
    requires |k| + |v| + 2 <= LOAD_LIMIT && |k| + |v'| + 2 <= LOAD_LIMIT
    ensures var file := Entry(k, v) + "\n";
      SeenByLoad(file) == [Entry(k, v)] && LastValue(SeenByLoad(file), k) == Some(v) && Fits(file, k, v', LOAD_LIMIT)
  {
    var e, e' := Entry(k, v), Entry(k, v');
    EntryFacts(k, v);
    EntryFacts(k, v');
    EntryMatches(k, v);
    hide Entry, Binding, Matches;
    OneLineUpdate(e, k, v');
    LastOfOne(e, k);
    hide UpdateLines, LastValue;
    LineAlone(e);
    UnlinesOne(e');
    hide Lines, Unlines;
  }

  lemma EntryFacts(k: string, v: string)
    requires CleanText(k) && CleanText(v)
    ensures |Entry(k, v)| == |k| + |v| + 1 && CleanText(Entry(k, v))
  {
  }

  lemma LineAlone(l: string)
    requires CleanText(l)
    ensures Lines(l + "\n") == [l] && '\0' !in l + "\n" && l + "\n" != []
  {
    LinesOfFirst(l, "");
    assert l + "\n" + "" == l + "\n" && [l] + Lines("") == [l] by { NoLines(); }
  }

  lemma NoLines()
    ensures Lines("") == []
  {
  }

  lemma UnlinesOne(l: string)
    ensures Unlines([l]) == l + "\n"
  {
    assert [l][1..] == [];
  }

  lemma LastOfOne(l: string, k: string)
    requires Binds(l, k)
    ensures LastValue([l], k) == Some(Binding(l).value.1)
  {
  }

  lemma OneLineUpdate(l: string, k: string, v: string)
    requires Matches(l, k)
    ensures UpdateLines([l], k, v) == [Entry(k, v)]
  {
    hide Matches, Entry;
    assert Matches([l][0], k);
  }

  lemma ThpField()
    ensures FieldOf("THP_MODE") == Some(TextField(16)) && Cached("THP_MODE") && SocketKnows("THP_MODE")
    ensures FieldName("THP_MODE") && SysctlKey("target_thp_mode") == Some("THP_MODE")
  {
    FieldNamesArePlain("THP_MODE");
  }

  /** A policy name of 15 bytes fits the field but not the loader's copy of it. */
  lemma LongTextExample(cfg: Config, defaults: Config)
    requires Complete(cfg)
    ensures var s := Apply(Store(Entry("THP_MODE", "always") + "\n", cfg), Sync, defaults);
      Coherent(s, defaults) && !Coherent(Apply(s, SetKey("THP_MODE", "a-longer-policy"), defaults), defaults)
  {
    ThpField();
    OneLineFile("THP_MODE", "always", "a-longer-policy");
    hide FieldOf, SocketKnows, Coherent, Complete, Fits, Updated, SeenByLoad, Loaded, Cached;
    var s := Apply(Store(Entry("THP_MODE", "always") + "\n", cfg), Sync, defaults);
    LoadCoherent(Store(Entry("THP_MODE", "always") + "\n", cfg), defaults);
    assert s.file == Entry("THP_MODE", "always") + "\n";
    SetConfigFits(s, defaults, "THP_MODE", "a-longer-policy");
  }

  /** A policy the kernel refuses is in memory all the same, until the next load. */
  lemma RefusedExample(cfg: Config, defaults: Config)
    requires Complete(cfg)
    ensures var s := Apply(Store(Entry("THP_MODE", "always") + "\n", cfg), Sync, defaults);
      Coherent(s, defaults) && !Coherent(Apply(s, SetSysctl("target_thp_mode", "never", false), defaults), defaults)
  {
    ThpField();
    OneLineFile("THP_MODE", "always", "never");
    var start := Store(Entry("THP_MODE", "always") + "\n", cfg);
    var s := Apply(start, Sync, defaults);
    assert Parsed(TextField(16), "always", LOADER_MARGIN) == TextV("always");
    assert Parsed(TextField(16), "never", LOADER_MARGIN) == TextV("never");
    hide FieldOf, SocketKnows, Coherent, Fits, Updated, SeenByLoad, LoadLines, SysctlKey, Cached, Parsed;
    LoadCoherent(start, defaults);
    assert LoaderKnows("THP_MODE") && "THP_MODE" in cfg;
    LoadIsLastMatch(cfg, start.file, defaults, "THP_MODE");
    AdvancedSetExact(s, defaults, "target_thp_mode", "never", false);
  }

  /** In an empty file nothing is written: memory takes the value, and the next load takes it back. */
  lemma EmptyFileExample(cfg: Config, defaults: Config)
    requires Complete(cfg) && "DEV_ENABLE" in defaults && defaults["DEV_ENABLE"] == IntV(0)
    ensures var s := Apply(Store("", cfg), Sync, defaults);
      Coherent(s, defaults) && !Coherent(Apply(s, SetKey("DEV_ENABLE", "1"), defaults), defaults)
  {
    DevEnableField();
    OneIsOne();
    var start, k := Store("", cfg), "DEV_ENABLE";
    var s := Apply(start, Sync, defaults);
    hide FieldOf, SocketKnows, Coherent, Updated, LoadLines, Parsed;
    LoadCoherent(start, defaults);
    LoadIsLastMatch(cfg, "", defaults, k);
    SetConfigEmpty(s, defaults, k, "1");
  }

  /** A file that fills the loader's 4095 bytes to the last: two settings and a comment between them. */
  predicate FullFile(k: string, v: string, comment: string, j: string, w: string) {
    && PlainKey(k) && CleanText(k) && CleanText(v) && PlainKey(j) && CleanText(j) && CleanText(w) && k != j
    && comment != [] && comment[0] == '#' && CleanText(comment)
    && |k| + |v| + 2 + |comment| + 1 + |j| + |w| + 2 == LOAD_LIMIT
  }

  function FullLines(k: string, v: string, comment: string, j: string, w: string): seq<string> {
    [Entry(k, v), comment, Entry(j, w)]
  }

  lemma ThreeLines(a: string, b: string, c: string)
    requires CleanText(a) && CleanText(b) && CleanText(c)
    ensures var file := Unlines([a, b, c]);
      |file| == |a| + |b| + |c| + 3 && '\0' !in file && Lines(file) == [a, b, c]
  {
    var ls := [a, b, c];
    Triple(a, b, c);
    LinesOfUnlines(ls);
    UnlinesClean(ls, '\0');
    hide Lines, Unlines;
    UnlinesCons(a, [b] + [c]);
    UnlinesCons(b, [c]);
    UnlinesOne(c);
  }

  lemma ThreeWindow(a: string, b: string, c: string, n: nat)
    requires 0 < n <= |c|
    ensures Window([a, b, c], |a| + |b| + 2 + n) == [a, b, c[..n]]
  {
    hide Window;
    WindowCut(c, n);
    WindowCons(b, [c], |b| + 1 + n);
    WindowCons(a, [b] + [c], |a| + |b| + 2 + n);
    Triple(a, b, c);
    Triple(a, b, c[..n]);
  }

  lemma WindowCut(l: string, n: nat)
    requires 0 < n <= |l|
    ensures Window([l], n) == [l[..n]]
  {
  }

  lemma WindowCons(l: string, ls: seq<string>, cap: nat)
    requires |l| < cap
    ensures Window([l] + ls, cap) == [l] + Window(ls, cap - |l| - 1)
  {
    assert ([l] + ls)[1..] == ls;
  }

  lemma ThreeUpdate(k: string, v: string, v': string, comment: string, j: string, w: string)
    requires FullFile(k, v, comment, j, w)
    ensures UpdateLines(FullLines(k, v, comment, j, w), k, v') == FullLines(k, v', comment, j, w)
  {
    var ls := FullLines(k, v, comment, j, w);
    EntryMatches(k, v);
    EntryMatches(j, w);
    MatchesIsBinds(comment, k);
    MatchesIsBinds(Entry(j, w), k);
    assert !Matches(ls[1], k) && !Matches(ls[2], k) && Matches(ls[0], k);
    hide Entry, Matches, Binding;
    assert Present(ls, k);
    var r := Rewrite(ls, k, v');
    assert r + [] == r;
  }

  /** What the loader finds for the last setting, whole and cut. */
  lemma ThreeValues(k: string, v: string, comment: string, j: string, w: string, n: nat)
    requires PlainKey(k) && PlainKey(j) && k != j && comment != [] && comment[0] == '#' && n <= |j|
    ensures LastValue([Entry(k, v), comment, Entry(j, w)], j) == Some(w)
    ensures LastValue([Entry(k, v), comment, Entry(j, w)[..n]], j).None?
  {
    var a, c := Entry(k, v), Entry(j, w);
    EntryMatches(k, v);
    EntryMatches(j, w);
    assert !Binds(c[..n], j) by { assert c[..n] == j[..n]; }
    OtherLines(a, comment, k, j);
    hide Entry, Binding, Binds, Matches, LastValue;
    var cut := c[..n];
    LastValueSnoc([a] + [comment], c, j);
    LastValueSnoc([a] + [comment], cut, j);
    LastValueSnoc([a], comment, j);
    LastValueSnoc([], a, j);
    NoValue(j);
    Triple(a, comment, c);
    Triple(a, comment, cut);
    assert [] + [a] == [a];
  }

  lemma NoValue(j: string)
    ensures LastValue([], j).None?
  {
  }

  lemma OtherLines(a: string, comment: string, k: string, j: string)
    requires Binding(a).Some? && Binding(a).value.0 == k != j && comment != [] && comment[0] == '#'
    ensures !Binds(a, j) && !Binds(comment, j)
  {
  }

  /** In such a file a longer value for the first setting pushes the other one out of the loader's sight,
      and the built-in default takes its place. */
  lemma PushedOut(k: string, v: string, v': string, comment: string, j: string, w: string)
    requires FullFile(k, v, comment, j, w) && |w| + 2 <= |v'| - |v| < |j| + |w| + 2 && CleanText(v')
    ensures var file := Unlines(FullLines(k, v, comment, j, w));
      && file != [] && LastValue(SeenByLoad(file), j) == Some(w) && LastValue(SeenNext(file, k, v'), j).None?
  {
    var a, a', c := Entry(k, v), Entry(k, v'), Entry(j, w);
    EntryFacts(k, v);
    EntryFacts(k, v');
    EntryFacts(j, w);
    hide Entry;
    var n := LOAD_LIMIT - |a'| - |comment| - 2;
    hide Lines, Unlines, UpdateLines, Window, LastValue;
    ThreeLines(a, comment, c);
    ThreeUpdate(k, v, v', comment, j, w);
    ThreeWindow(a', comment, c, n);
    ThreeValues(k, v, comment, j, w, n);
    ThreeValues(k, v', comment, j, w, n);
  }

  /** So one setting is lost by storing another. */
  lemma LongFileExample(cfg: Config, defaults: Config, comment: string)
    requires Complete(cfg) && "DEV_ENABLE" in defaults && defaults["DEV_ENABLE"] == IntV(0)
    requires comment != [] && comment[0] == '#' && CleanText(comment) && |comment| == 4070
    ensures var s := Apply(Store(Unlines(FullLines("THP_MODE", "a", comment, "DEV_ENABLE", "1")), cfg), Sync, defaults);
      Coherent(s, defaults) && !Coherent(Apply(s, SetKey("THP_MODE", "always"), defaults), defaults)
  {
    var start := Store(Unlines(FullLines("THP_MODE", "a", comment, "DEV_ENABLE", "1")), cfg);
    DevEnableField();
    ThpField();
    OneIsOne();
    PushedOut("THP_MODE", "a", "always", comment, "DEV_ENABLE", "1");
    hide *;
    LostSetting(start, defaults, "THP_MODE", "always", "DEV_ENABLE", "1");
  }

  lemma NotInStep(s: Store, defaults: Config, k: string)
    requires Cached(k) && !InStep(s, defaults, k)
    ensures !Coherent(s, defaults)
  {
    hide Cached, InStep;
  }

  lemma LostSetting(start: Store, defaults: Config, k: string, v: string, j: string, w: string)
    requires Complete(start.cfg) && Cached(j) && j != k && j in defaults && start.file != []
    requires CleanText(k) && CleanText(v)
    requires LastValue(SeenByLoad(start.file), j) == Some(w) && LastValue(SeenNext(start.file, k, v), j).None?
    requires Parsed(FieldOf(j).value, w, LOADER_MARGIN) != defaults[j]
    ensures var s := Apply(start, Sync, defaults);
      Coherent(s, defaults) && !Coherent(Apply(s, SetKey(k, v), defaults), defaults)
  {
    var s := Apply(start, Sync, defaults);
    var t := Apply(s, SetKey(k, v), defaults);
    hide FieldOf, SocketKnows, Coherent, Updated, SeenByLoad, SeenNext, LoadLines, Parsed;
    LoadCoherent(start, defaults);
    LoadIsLastMatch(start.cfg, start.file, defaults, j);
    assert t.cfg[j] == s.cfg[j] == Parsed(FieldOf(j).value, w, LOADER_MARGIN);
    SeenAfterUpdate(s.file, k, v);
    assert t.file == Updated(s.file, k, v);
    assert FieldFrom(t.cfg, SeenByLoad(t.file), defaults, j) == defaults[j];
    assert !InStep(t, defaults, j);
    NotInStep(t, defaults, j);
  }

  lemma DevEnableField()
    ensures FieldOf("DEV_ENABLE") == Some(IntField) && Cached("DEV_ENABLE") && FieldName("DEV_ENABLE")
    ensures SocketKnows("DEV_ENABLE")
  {
    FieldNamesArePlain("DEV_ENABLE");
  }

  lemma OneIsOne()
    ensures Parsed(IntField, "1", LOADER_MARGIN) == IntV(1) == Parsed(IntField, "1", SOCKET_MARGIN)
  {
    assert Digits(1, 10) == "1";
    assert Decimal(1) + "" == "1";
    AtoiOfItoa(1, "");
    hide IntOf, Decimal;
  }

  // ---------------------------------------------------------------- whole runs

  function Run(s: Store, cs: seq<StoreCmd>, defaults: Config): Store
    decreases cs
  {
    if cs == [] then s else Run(Apply(s, cs[0], defaults), cs[1..], defaults)
  }

  /** What the socket guarantees: texts on one line, without NUL. */
  predicate OneLine(c: StoreCmd) {
    (c.SetKey? ==> CleanText(c.key) && CleanText(c.val)) && (c.SetSysctl? ==> CleanText(c.val))
  }

  /** The conditions of the exact lemmas, command by command. */
  ghost predicate Admissible(s: Store, c: StoreCmd, defaults: Config) {
    match c
    case SetKey(k, v) => SetConfigKeeps(s, k, v, defaults)
    case SetState(v) => DaemonStateWord(v) ==> BothKeep(s, "DAEMON_STATE", v, TextV(v), defaults)
    case SetSysctl(name, v, written) => AdvancedKeeps(s, name, v, written, defaults)
    case Sync => true
    case Neutral => true
  }

  ghost predicate AllAdmissible(s: Store, cs: seq<StoreCmd>, defaults: Config)
    decreases cs
  {
    cs == [] || (Admissible(s, cs[0], defaults) && AllAdmissible(Apply(s, cs[0], defaults), cs[1..], defaults))
  }

  /** Commands only add fields to the struct. */
  lemma {:induction false} LoadLinesGrows(cfg: Config, ls: seq<string>)
    ensures LoadLines(cfg, ls).Keys >= cfg.Keys
  {
    if ls != [] {
      LoadLinesGrows(cfg, ls[..|ls| - 1]);
    }
  }

  lemma ApplyKeepsComplete(s: Store, c: StoreCmd, defaults: Config)
    requires Complete(s.cfg)
    ensures Complete(Apply(s, c, defaults).cfg)
  {
    hide FieldOf, SocketKnows, SysctlKey, Parsed, Updated, SeenByLoad;
    if c.Sync? {
      LoadLinesGrows(s.cfg + defaults, SeenByLoad(s.file));
    }
  }

  /** One command keeps a coherent store coherent if and only if it is admissible. */
  lemma ApplyCoherentIff(s: Store, c: StoreCmd, defaults: Config)
    requires Complete(s.cfg) && Coherent(s, defaults) && OneLine(c)
    ensures Coherent(Apply(s, c, defaults), defaults) <==> Admissible(s, c, defaults)
  {
    hide Coherent, Complete, SetConfigKeeps, BothKeep, AdvancedKeeps, DaemonStateWord;
    match c
    case SetKey(k, v) => hide Apply; SetConfigExact(s, defaults, k, v);
    case SetState(v) => hide Apply; SetDaemonExact(s, defaults, v);
    case SetSysctl(name, v, written) => hide Apply; AdvancedSetExact(s, defaults, name, v, written);
    case Sync => hide Apply; LoadCoherent(s, defaults);
    case Neutral =>
  }

  /** Coherent before the run and after each of its commands. */
  ghost predicate AlwaysCoherent(s: Store, cs: seq<StoreCmd>, defaults: Config) {
    forall n :: 0 <= n <= |cs| ==> Coherent(Run(s, cs[..n], defaults), defaults)
  }

  lemma AlwaysCoherentCons(s: Store, cs: seq<StoreCmd>, defaults: Config)
    requires cs != []
    ensures AlwaysCoherent(s, cs, defaults)
      <==> Coherent(s, defaults) && AlwaysCoherent(Apply(s, cs[0], defaults), cs[1..], defaults)
  {
    hide Apply, Coherent;
    var t := Apply(s, cs[0], defaults);
    assert Run(s, cs[..0], defaults) == s;
    forall n | 0 <= n < |cs| ensures Run(s, cs[..n + 1], defaults) == Run(t, cs[1..][..n], defaults) {
      assert cs[..n + 1][0] == cs[0] && cs[..n + 1][1..] == cs[1..][..n];
    }
    hide Run;
    if Coherent(s, defaults) && AlwaysCoherent(t, cs[1..], defaults) {
      forall n | 0 <= n <= |cs| ensures Coherent(Run(s, cs[..n], defaults), defaults) {
        if n > 0 { assert Run(s, cs[..n - 1 + 1], defaults) == Run(t, cs[1..][..n - 1], defaults); }
      }
    }
    if AlwaysCoherent(s, cs, defaults) {
      assert Coherent(Run(s, cs[..0], defaults), defaults);
      forall n | 0 <= n <= |cs[1..]| ensures Coherent(Run(t, cs[1..][..n], defaults), defaults) {
        assert Run(s, cs[..n + 1], defaults) == Run(t, cs[1..][..n], defaults);
      }
    }
  }

  /** Write-through coherence, exactly: from a coherent store, loading again would change no cached field
      at any point of a run if and only if every command of the run is admissible. */
  lemma {:induction false} RunCoherentIff(s: Store, cs: seq<StoreCmd>, defaults: Config)
    requires Complete(s.cfg) && Coherent(s, defaults) && forall i :: 0 <= i < |cs| ==> OneLine(cs[i])
    ensures AlwaysCoherent(s, cs, defaults) <==> AllAdmissible(s, cs, defaults)
    ensures Complete(Run(s, cs, defaults).cfg)
    decreases cs
  {
    hide Coherent, Complete, Admissible, Apply, OneLine;
    if cs != [] {
      var t := Apply(s, cs[0], defaults);
      ApplyCoherentIff(s, cs[0], defaults);
      ApplyKeepsComplete(s, cs[0], defaults);
      AlwaysCoherentCons(s, cs, defaults);
      hide AlwaysCoherent;
      if Coherent(t, defaults) {
        RunCoherentIff(t, cs[1..], defaults);
      } else {
        NotCoherentNow(t, cs[1..], defaults);
        RunKeepsComplete(t, cs[1..], defaults);
      }
    } else {
      assert cs[..0] == cs;
    }
  }

  lemma NotCoherentNow(s: Store, cs: seq<StoreCmd>, defaults: Config)
    requires !Coherent(s, defaults)
    ensures !AlwaysCoherent(s, cs, defaults)
  {
    hide Coherent;
    assert Run(s, cs[..0], defaults) == s;
  }

  lemma {:induction false} RunKeepsComplete(s: Store, cs: seq<StoreCmd>, defaults: Config)
    requires Complete(s.cfg)
    ensures Complete(Run(s, cs, defaults).cfg)
    decreases cs
  {
    hide Complete, Apply;
    if cs != [] {
      ApplyKeepsComplete(s, cs[0], defaults);
      RunKeepsComplete(Apply(s, cs[0], defaults), cs[1..], defaults);
    }
  }

  /** Coherence in the loader's own terms. */
  lemma CoherentMeansReloadIsNoOp(s: Store, defaults: Config, k: string)
    requires Coherent(s, defaults) && Cached(k)
    ensures k in s.cfg && k in Loaded(s.cfg, s.file, defaults) && Loaded(s.cfg, s.file, defaults)[k] == s.cfg[k]
  {
    assert InStep(s, defaults, k);
    LoadIsLastMatch(s.cfg, s.file, defaults, k);
  }

  // ---------------------------------------------------------------- GET_CONFIG

  /** Conversion of a double to int, rounding toward zero. */
  function Truncate(x: real): int {
    if x >= 0.0 then x.Floor else -((-x).Floor)
  }

  /** `config_get`: the text sent back for a key. The formatter does not know `%.2f`, so the refresh
      interval reads as a bare `f`. */
  function ConfigGet(cfg: Config, k: string): string {
    if FieldOf(k).None? || k !in cfg then "ERR"
    else
      match cfg[k]
      case IntV(n) => Decimal(n)
      case TextV(s) => s
      case RealV(x) => if k == "LOAD_THRESHOLD" then Decimal(Truncate(x)) else "f"
  }

  /** A key the struct does not have. */
  lemma UnknownKeyIsError(cfg: Config, k: string)
    requires FieldOf(k).None?
    ensures ConfigGet(cfg, k) == "ERR"
  {
    hide FieldOf;
  }

  /** A load threshold with decimals is answered without them, cut toward zero. */
  lemma ThresholdIsCut(cfg: Config, blanks: string, minus: bool, whole: string, frac: string, tail: string)
    requires forall i :: 0 <= i < |blanks| ==> blanks[i] == ' ' || blanks[i] == '\t'
    requires whole != [] && DigitRun(whole, 0, |whole|, 10) && DigitRun(frac, 0, |frac|, 10)
    requires tail == [] || (DigitOf(tail[0]) >= 10 && tail[0] != '.')
    ensures var text := blanks + ((if minus then "-" else "") + (whole + ("." + (frac + tail))));
      ConfigGet(cfg["LOAD_THRESHOLD" := Parsed(DoubleField, text, SOCKET_MARGIN)], "LOAD_THRESHOLD")
      == Decimal(if minus then 0 - Numbers.Value(whole, 10) else Numbers.Value(whole, 10))
  {
    hide *;
    AtofReads(blanks, minus, whole, frac, tail);
    FractionIsSmall(frac);
    DoubleFields("LOAD_THRESHOLD");
    WholeOf(Numbers.Value(whole, 10), Fraction(Numbers.Value(frac, 10), Tenths(|frac|)));
    ThresholdAnswer(cfg, blanks + ((if minus then "-" else "") + (whole + ("." + (frac + tail)))));
  }

  lemma ThresholdAnswer(cfg: Config, text: string)
    requires FieldOf("LOAD_THRESHOLD").Some?
    ensures ConfigGet(cfg["LOAD_THRESHOLD" := Parsed(DoubleField, text, SOCKET_MARGIN)], "LOAD_THRESHOLD")
      == Decimal(Truncate(RealOf(text)))
  {
    hide FieldOf, RealOf, Decimal, Truncate;
  }

  lemma WholeOf(n: nat, f: real)
    requires 0.0 <= f < 1.0
    ensures Truncate(n as real + f) == n && Truncate(-(n as real + f)) == 0 - n
  {
    assert (n as real + f).Floor == n;
  }

  /** The switch is on for the word and for any number but zero. */
  lemma SwitchReads(text: string, margin: nat)
    ensures Parsed(SwitchField, "true", margin) == IntV(1)
    ensures text != "true" ==> Parsed(SwitchField, text, margin) == IntV(if IntOf(text) == 0 then 0 else 1)
  {
  }

  /** Commands that may change what memory holds for `k`, loads aside. */
  predicate Touches(c: StoreCmd, k: string) {
    match c
    case SetKey(key, _) => key == k
    case SetState(_) => k == "DAEMON_STATE"
    case SetSysctl(name, _, _) => SysctlKey(name) == Some(k)
    case Sync => false
    case Neutral => false
  }

  /** A load would leave this one field as it is, whatever it does to the others. */
  ghost predicate LoadLeaves(s: Store, defaults: Config, k: string) {
    k in s.cfg && if LoaderKnows(k) then InStep(s, defaults, k) else k in defaults ==> defaults[k] == s.cfg[k]
  }

  lemma ApplyLeaves(s: Store, c: StoreCmd, defaults: Config, k: string)
    requires k in s.cfg && !Touches(c, k) && (c.Sync? ==> LoadLeaves(s, defaults, k))
    ensures k in Apply(s, c, defaults).cfg && Apply(s, c, defaults).cfg[k] == s.cfg[k]
  {
    hide FieldOf, SocketKnows, SysctlKey, Parsed, Updated, LoaderKnows, SeenByLoad;
    if c.Sync? && LoaderKnows(k) {
      LoadIsLastMatch(s.cfg, s.file, defaults, k);
    } else if c.Sync? {
      LoadSkipsUnknown(s.cfg + defaults, SeenByLoad(s.file), k);
    }
    hide LoadLines, LoadedField;
  }

  /** At every load of the run this one field is in step; what the others are does not matter. */
  ghost predicate LoadsLeave(s: Store, cs: seq<StoreCmd>, defaults: Config, k: string)
    decreases cs
  {
    cs == [] ||
    ((cs[0].Sync? ==> LoadLeaves(s, defaults, k)) && LoadsLeave(Apply(s, cs[0], defaults), cs[1..], defaults, k))
  }

  lemma LoadsLeaveCons(s: Store, c: StoreCmd, cs: seq<StoreCmd>, defaults: Config, k: string)
    ensures LoadsLeave(s, [c] + cs, defaults, k)
      <==> (c.Sync? ==> LoadLeaves(s, defaults, k)) && LoadsLeave(Apply(s, c, defaults), cs, defaults, k)
  {
    hide Apply, LoadLeaves;
    assert ([c] + cs)[0] == c && ([c] + cs)[1..] == cs;
  }

  lemma {:induction false} LoadsLeaveSplit(s: Store, a: seq<StoreCmd>, b: seq<StoreCmd>, defaults: Config, k: string)
    ensures LoadsLeave(s, a + b, defaults, k)
      <==> LoadsLeave(s, a, defaults, k) && LoadsLeave(Run(s, a, defaults), b, defaults, k)
    decreases a
  {
    hide Apply, LoadLeaves;
    if a == [] {
      assert a + b == b;
    } else {
      assert (a + b)[1..] == a[1..] + b;
      LoadsLeaveSplit(Apply(s, a[0], defaults), a[1..], b, defaults, k);
    }
  }

  /** Coherent runs are of this kind, for every cached field. */
  lemma {:induction false} CoherentLoads(s: Store, cs: seq<StoreCmd>, defaults: Config, k: string)
    requires AlwaysCoherent(s, cs, defaults) && Cached(k)
    ensures LoadsLeave(s, cs, defaults, k)
    decreases cs
  {
    if cs != [] {
      hide Apply, InStep, FieldOf, SocketKnows;
      AlwaysCoherentCons(s, cs, defaults);
      assert Coherent(s, defaults) && InStep(s, defaults, k);
      assert LoadLeaves(s, defaults, k) by { InStepIsThere(s, defaults, k); }
      hide LoadLeaves, Coherent, AlwaysCoherent;
      CoherentLoads(Apply(s, cs[0], defaults), cs[1..], defaults, k);
    }
  }

  lemma InStepIsThere(s: Store, defaults: Config, k: string)
    requires LoaderKnows(k) && InStep(s, defaults, k)
    ensures k in s.cfg
  {
    hide LoaderKnows, LoadedField;
  }

  /** No command of the run touches `k`. */
  predicate Untouched(cs: seq<StoreCmd>, k: string) {
    forall i :: 0 <= i < |cs| ==> !Touches(cs[i], k)
  }

  /** Memory keeps a field through any run that does not touch it; loads included, as long as the field is in
      step when they come. */
  lemma {:induction false} RunLeaves(s: Store, cs: seq<StoreCmd>, defaults: Config, k: string)
    requires k in s.cfg && Untouched(cs, k) && LoadsLeave(s, cs, defaults, k)
    ensures k in Run(s, cs, defaults).cfg && Run(s, cs, defaults).cfg[k] == s.cfg[k]
    decreases cs
  {
    if cs != [] {
      hide Apply, LoadLeaves, Touches;
      assert !Touches(cs[0], k);
      ApplyLeaves(s, cs[0], defaults, k);
      var t := Apply(s, cs[0], defaults);
      assert forall i :: 0 <= i < |cs[1..]| ==> cs[1..][i] == cs[i + 1];
      RunLeaves(t, cs[1..], defaults, k);
    }
  }

  /** SET_CONFIG of a decimal number, then anything that leaves the key alone, then GET_CONFIG: the
      same text comes back. */
  lemma SetThenGet(s: Store, k: string, n: int, cs: seq<StoreCmd>, defaults: Config)
    requires SocketKnows(k) && FieldOf(k) == Some(IntField) && -TWO_31 <= n < TWO_31
    requires Untouched(cs, k) && LoadsLeave(Apply(s, SetKey(k, Decimal(n)), defaults), cs, defaults, k)
    ensures ConfigGet(Run(Apply(s, SetKey(k, Decimal(n)), defaults), cs, defaults).cfg, k) == Decimal(n)
  {
    hide FieldOf, SocketKnows, LoadsLeave, IntOf, Decimal, Run, Updated;
    var t := Apply(s, SetKey(k, Decimal(n)), defaults);
    AtoiOfItoa(n, "");
    assert Decimal(n) + "" == Decimal(n);
    RunLeaves(t, cs, defaults, k);
  }

  /** The same for text: what fits the field comes back as it was sent. */
  lemma SetTextThenGet(s: Store, k: string, v: string, cs: seq<StoreCmd>, defaults: Config)
    requires SharedText(k) && Untouched(cs, k)
    requires FieldOf(k).Some? && FieldOf(k).value.TextField? && |v| < FieldOf(k).value.size
    requires LoadsLeave(Apply(s, SetKey(k, v), defaults), cs, defaults, k)
    ensures ConfigGet(Run(Apply(s, SetKey(k, v), defaults), cs, defaults).cfg, k) == v
  {
    hide FieldOf, SharedText, LoadsLeave, Run, Updated;
    var t := Apply(s, SetKey(k, v), defaults);
    assert t.cfg[k] == TextV(v);
    RunLeaves(t, cs, defaults, k);
  }

  // ---------------------------------------------------------------- the program

  /** The daemon's global `cfg` and its file. */
  class DaemonConf {
    var file: string
    var cfg: Config

    function State(): Store
      reads this
    {
      Store(file, cfg)
    }

    constructor (content: string, initial: Config)
      ensures State() == Store(content, initial)
    {
      file, cfg := content, initial;
    }

    /** Two bounded appends behind the text `before`. */
    static method AppendTwo(out: array<char>, a: string, b: string)
      requires '\0' in out[..] && '\0' !in a && '\0' !in b
      modifies out
      ensures '\0' in out[..]
      ensures CStr(out[..]) == Take(old(CStr(out[..])) + (a + b), out.Length - 1)
    {
      ghost var before := CStr(out[..]);
      hide CStr, Take;
      BufferText(out[..]);
      TwoPieces(before, a, b, out.Length - 1);
      var _ := Strlcat(out, a, out.Length);
      BufferText(out[..]);
      var _ := Strlcat(out, b, out.Length);
    }

    /** Four bounded appends: key, equals sign, value, newline. */
    static method AppendEntry(out: array<char>, key: string, val: string)
      requires '\0' in out[..] && '\0' !in key && '\0' !in val
      modifies out
      ensures '\0' in out[..]
      ensures CStr(out[..]) == Take(old(CStr(out[..])) + (Entry(key, val) + "\n"), out.Length - 1)
    {
      ghost var before := CStr(out[..]);
      hide CStr, Take, Entry;
      EntryLine(key, val);
      TwoPieces(before, key + "=", val + "\n", out.Length - 1);
      AppendTwo(out, key, "=");
      AppendTwo(out, val, "\n");
    }

    /** The body of the line loop of `config_update`. */
    static method UpdateStep(out: array<char>, l: string, key: string, val: string, ghost done: seq<string>)
      returns (hit: bool)
      requires '\0' in out[..] && '\0' !in key && '\0' !in val && '\0' !in l
      requires CStr(out[..]) == Take(Unlines(Rewrite(done, key, val)), out.Length - 1)
      modifies out
      ensures '\0' in out[..]
      ensures CStr(out[..]) == Take(Unlines(Rewrite(done + [l], key, val)), out.Length - 1)
      ensures Present(done + [l], key) <==> Present(done, key) || hit
    {
      RewriteSnoc(done, l, key, val, out.Length - 1);
      hide CStr, Unlines, Rewrite, Present;
      hit := key + "=" <= l;
      if hit {
        AppendEntry(out, key, val);
      } else {
        AppendTwo(out, l, "\n");
      }
    }

    /** The line loop of `config_update`. */
    static method UpdateLoop(out: array<char>, buf: string, key: string, val: string) returns (found: bool)
      requires '\0' in out[..] && CStr(out[..]) == [] && '\0' !in key && '\0' !in val && '\0' !in buf
      modifies out
      ensures '\0' in out[..]
      ensures CStr(out[..]) == Take(Unlines(Rewrite(Lines(buf), key, val)), out.Length - 1)
      ensures found <==> Present(Lines(buf), key)
    {
      hide CStr, Unlines, Present, Lines, Rewrite;
      var line := buf; // what the line pointer still has ahead of it
      ghost var done := [];
      found := false;
      NothingYet(key, val, buf);
      while line != []
        invariant '\0' in out[..] && '\0' !in line && done + Lines(line) == Lines(buf)
        invariant CStr(out[..]) == Take(Unlines(Rewrite(done, key, val)), out.Length - 1)
        invariant found <==> Present(done, key)
        decreases |line|
      {
        var l, rest := NextLine(line);
        assert done + ([l] + Lines(rest)) == done + [l] + Lines(rest);
        var hit := UpdateStep(out, l, key, val, done);
        found := found || hit;
        done, line := done + [l], rest;
      }
      AllDone(done);
    }

    /** `config_update`: read, rewrite into a bounded buffer, write back. */
    method Update(key: string, val: string)
      requires '\0' !in key && '\0' !in val
      modifies this`file
      ensures file == Updated(old(file), key, val)
    {
      if file == [] { return; }
      var buf := CStr(Take(file, UPDATE_LIMIT));
      var out := new char[UPDATE_LIMIT + 1];
      out[0] := '\0';
      assert out[..][0] == '\0';
      assert CStr(out[..]) == [];
      hide CStr, Unlines, Present, Lines, Rewrite, UpdateLines;
      var found := UpdateLoop(out, buf, key, val);
      UpdateEnd(Lines(buf), key, val, UPDATE_LIMIT);
      if !found {
        AppendEntry(out, key, val);
      }
      file := CStr(out[..]);
    }

    /** The body of the line loop of `config_load`. */
    method LoadOne(l: string)
      modifies this`cfg
      ensures cfg == LoadLine(old(cfg), l)
    {
      hide FieldOf, Parsed, LoaderKnows;
      assert forall k :: LoaderKnows(k) ==> FieldOf(k).Some? by { KnownIsField(); }
      if l != [] && l[0] != '#' {
        var j := IndexOf(l, '=');
        if j < |l| && LoaderKnows(l[..j]) {
          cfg := cfg[l[..j] := Parsed(FieldOf(l[..j]).value, l[j + 1..], LOADER_MARGIN)];
        }
      }
    }

    /** `config_load`: defaults, then every line of the first 4095 bytes. */
    method Load(defaults: Config)
      modifies this`cfg
      ensures cfg == Loaded(old(cfg), file, defaults)
    {
      cfg := cfg + defaults;
      ghost var base := cfg;
      var ln := CStr(Take(file, LOAD_LIMIT));
      ghost var done := [];
      assert done + Lines(ln) == Lines(ln) == SeenByLoad(file);
      assert LoadLines(base, done) == base;
      hide LoadLines, LoadLine, Lines, SeenByLoad, CStr;
      while ln != []
        invariant done + Lines(ln) == SeenByLoad(file)
        invariant cfg == LoadLines(base, done)
        decreases |ln|
      {
        var l, rest := NextLine(ln);
        assert done + ([l] + Lines(rest)) == done + [l] + Lines(rest);
        LoadSnoc(base, done, l);
        LoadOne(l);
        done, ln := done + [l], rest;
      }
      AllDone(done);
    }

    /** SET_CONFIG. */
    method SetConfig(k: string, v: string, ghost defaults: Config)
      requires '\0' !in k && '\0' !in v
      modifies this
      ensures State() == Apply(old(State()), SetKey(k, v), defaults)
    {
      SocketKeysAreFields(k);
      hide FieldOf, SocketKnows, Parsed, Updated;
      Update(k, v);
      if SocketKnows(k) {
        cfg := cfg[k := Parsed(FieldOf(k).value, v, SOCKET_MARGIN)];
      }
    }

    /** SET_DAEMON, the store's part. */
    method SetDaemon(v: string, ghost defaults: Config)
      modifies this
      ensures State() == Apply(old(State()), SetState(v), defaults)
    {
      if v == "manual" || v == "auto" || v == "default" {
        hide FieldOf, Updated;
        DaemonStateField();
        FieldNamesArePlain("DAEMON_STATE");
        WordsFit(v);
        Update("DAEMON_STATE", v);
        cfg := cfg["DAEMON_STATE" := TextV(v)];
      }
    }

    /** ADVANCED_SET: memory first, the file only if the kernel took the value. */
    method AdvancedSet(name: string, v: string, written: bool, ghost defaults: Config)
      requires '\0' !in v
      modifies this
      ensures State() == Apply(old(State()), SetSysctl(name, v, written), defaults)
    {
      hide SysctlKey, FieldOf, SocketKnows, AdvancedInt, NetworkInt, SharedText, Parsed, Updated;
      var k := SysctlKey(name);
      SysctlKeysAreCached(name);
      if k.Some? {
        FieldNamesArePlain(k.value);
        cfg := cfg[k.value := Parsed(FieldOf(k.value).value, v, LOADER_MARGIN)];
        if written { Update(k.value, v); }
      }
    }

    /** The commands of `socket_handle` that concern the store. */
    method Handle(c: StoreCmd, defaults: Config)
      requires c.SetKey? ==> '\0' !in c.key && '\0' !in c.val
      requires c.SetSysctl? ==> '\0' !in c.val
      modifies this
      ensures State() == Apply(old(State()), c, defaults)
    {
      match c
      case SetKey(k, v) => SetConfig(k, v, defaults);
      case SetState(v) => SetDaemon(v, defaults);
      case SetSysctl(name, v, written) => AdvancedSet(name, v, written, defaults);
      case Sync =>
        hide *;
        Load(defaults);
        SyncIs(State(), old(State()), defaults);
      case Neutral =>
    }
  }

  lemma EntryLine(key: string, val: string)
    ensures Entry(key, val) + "\n" == (key + "=") + (val + "\n")
  {
  }

  lemma SyncIs(now: Store, before: Store, defaults: Config)
    requires now == Store(before.file, Loaded(before.cfg, before.file, defaults))
    ensures now == Apply(before, Sync, defaults)
  {
  }

  lemma KnownIsField()
    ensures forall k :: LoaderKnows(k) ==> FieldOf(k).Some?
  {
    hide FieldOf;
  }

  lemma LoadSnoc(cfg: Config, done: seq<string>, l: string)
    ensures LoadLines(cfg, done + [l]) == LoadLine(LoadLines(cfg, done), l)
  {
    hide LoadLine;
    assert (done + [l])[..|done|] == done;
  }

  lemma AllDone(done: seq<string>)
    ensures done + Lines([]) == done
  {
  }

  lemma NothingYet(key: string, val: string, buf: string)
    ensures Unlines(Rewrite([], key, val)) == [] && !Present([], key) && [] + Lines(buf) == Lines(buf)
  {
  }

  /** A key that was found nowhere is appended. */
  lemma UpdateEnd(ls: seq<string>, key: string, val: string, cap: nat)
    ensures Take(Unlines(UpdateLines(ls, key, val)), cap) ==
      var t := Take(Unlines(Rewrite(ls, key, val)), cap);
      if Present(ls, key) then t else Take(t + (Entry(key, val) + "\n"), cap)
  {
    var r, e := Rewrite(ls, key, val), Entry(key, val);
    assert r + [] == r;
    UnlinesAppend(r, [e]);
    UnlinesCons(e, []);
    assert [e] + [] == [e];
    assert e + "\n" + "" == e + "\n";
    TakeAppend(Unlines(r), e + "\n", cap);
  }

  lemma RewriteSnoc(done: seq<string>, l: string, key: string, val: string, cap: nat)
    ensures Rewrite(done + [l], key, val) == Rewrite(done, key, val) + [RewriteLine(l, key, val)]
    ensures Take(Take(Unlines(Rewrite(done, key, val)), cap) + (RewriteLine(l, key, val) + "\n"), cap)
            == Take(Unlines(Rewrite(done + [l], key, val)), cap)
    ensures Present(done + [l], key) <==> Present(done, key) || Matches(l, key)
  {
    var r, x := Rewrite(done, key, val), RewriteLine(l, key, val);
    assert Rewrite(done + [l], key, val) == r + [x];
    UnlinesAppend(r, [x]);
    UnlinesCons(x, []);
    assert [x] + [] == [x];
    assert x + "\n" + "" == x + "\n";
    TakeAppend(Unlines(r), x + "\n", cap);
    if Present(done, key) {
      var i :| 0 <= i < |done| && Matches(done[i], key);
      assert Matches((done + [l])[i], key);
    }
    assert (done + [l])[|done|] == l;
  }
}
