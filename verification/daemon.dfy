/** The daemon: IPC commands of src/socket.c, the poll of src/daemon/polling/polling.c and the main
    loop of src/daemon/daemon.c, with game detection and the hardware node as inputs. */
module Daemon {
  import opened Text
  import opened Numbers
  import opened Libc
  import opened ConfigFile
  import opened Fields
  import opened ConfigStore
  import Format

  // ---------------------------------------------------------------- commands on the wire

  datatype Command =
    | Toggle
    | SetMode(word: string)
    | SetDaemon(state: string)
    | SetConfig(key: string, val: string)
    | SetWrapper(enable: int)
    | Unpark     // SET_UNPARK of the second die or of all cores
    | Disable
    | ConfigSync
    | AdvancedSet(name: string, text: string)
    | GetConfig(asked: string)
    | Ping
    | AskMode
    | Query      // answers only: DAEMON_INFO, GAMES_LIST, ADVANCED_GET
    | Tuning     // CPPC, cgroup, single cores: no effect on the state modelled here
    | Rejected   // answered with ERR

  const MESSAGE_LIMIT: nat := 511

  /** The received bytes as the handler sees them: up to the first NUL, carriage return or newline. */
  function Message(raw: string): string {
    UntilEol(CStr(Take(raw, MESSAGE_LIMIT)))
  }

  predicate TuningPrefix(m: string) {
    || "GET_TOPOLOGY" <= m || "SET_AFFINITY_CONFIG " <= m || "SET_CPPC " <= m || "SET_BOOST " <= m
    || "SET_PARK " <= m || "SET_UNPARK " <= m || "SET_TDP " <= m || "SET_EPP " <= m || "SET_EPP_CCD " <= m
    || "SET_PSTATE " <= m || "SET_GOVERNOR " <= m || "SET_PREFCORE " <= m
  }

  /** A command word's argument split at its first blank. */
  function SplitArg(m: string, skip: nat): Option<(string, string)>
    requires skip <= |m|
  {
    var arg := m[skip..];
    var i := IndexOf(arg, ' ');
    if i == |arg| then None else Some((arg[..i], arg[i + 1..]))
  }

  /** The dispatch chain, prefix by prefix in the order of the source. */
  function Parse(m: string): Command {
    if "PING" <= m then Ping
    else if "MODE" <= m then AskMode
    else if "DAEMON_INFO" <= m then Query
    else if "GET_CONFIG " <= m then GetConfig(m[11..])
    else if "TOGGLE" <= m then Toggle
    else if "SET_MODE " <= m then SetMode(m[9..])
    else if m == "SET_UNPARK ccd1" || m == "SET_UNPARK all" then Unpark
    else if TuningPrefix(m) then Tuning
    else ParseMore(m)
  }

  function ParseMore(m: string): Command {
    if "SET_DAEMON " <= m then SetDaemon(m[11..])
    else if "SET_CONFIG " <= m then
      match SplitArg(m, 11)
      case Some((k, v)) => SetConfig(k, v)
      case None => Rejected
    else if "SET_WRAPPER " <= m then SetWrapper(IntOf(m[12..]))
    else if "DAEMON_DISABLE" <= m then Disable
    else if "CONFIG_SYNC" <= m then ConfigSync
    else if "GAMES_LIST" <= m || "ADVANCED_GET " <= m then Query
    else if "ADVANCED_SET " <= m then
      match SplitArg(m, 13)
      case Some((k, v)) => AdvancedSet(k, v)
      case None => Rejected
    else Rejected
  }

  // ---------------------------------------------------------------- state

  /** `hw` is the mode the sysfs node reports; `writes` counts the modes the polls sent to it; `bpf` tells
      whether the eBPF detector is active. */
  datatype Ctl = Ctl(hw: string, target: string, current: string, override: int, wrapper: int, keep: bool, bpf: bool,
                     writes: nat)

  datatype State = State(store: Store, ctl: Ctl)

  /** The node during one event: whether its path is known, whether it can be read, and which texts it
      takes; and whether a fork, a kernel write or a start of the eBPF detector succeeds. */
  datatype Env = Env(path: bool, readable: bool, accepts: set<string>, forks: bool, sysctl: bool, starts: bool)

  function Written(hw: string, mode: string, env: Env): string {
    if env.path && mode in env.accepts && mode != [] then mode else hw
  }

  predicate CanRead(hw: string, env: Env) {
    env.path && env.readable && hw != []
  }

  const MODE_LIMIT: nat := 31

  /** What `mode()` leaves in the caller's buffer. */
  function ModeRead(hw: string, env: Env, buffer: string): string {
    if CanRead(hw, env) then Take(hw, MODE_LIMIT) else if !env.path then "unknown" else buffer
  }

  function StateWord(s: Store): string {
    if "DAEMON_STATE" in s.cfg && s.cfg["DAEMON_STATE"].TextV? then s.cfg["DAEMON_STATE"].s else ""
  }

  // ---------------------------------------------------------------- the poll

  predicate Automatic(c: Ctl, s: Store) {
    c.override < 3 && StateWord(s) == "default"
  }

  function AutoTarget(override: int, game: bool): string {
    if override == 1 then "cache"
    else if override == 2 then "frequency"
    else if game then "cache" else "frequency"
  }

  /** The shared tail of both branches: write the target if the node reports something else. */
  function Push(c: Ctl, env: Env): Ctl {
    if CanRead(c.hw, env) && c.current != c.target && c.target != [] then
      c.(hw := Written(c.hw, c.target, env), writes := c.writes + 1)
    else c
  }

  /** `polling_run`. The forced branch remembers the mode read before it wrote. */
  function Poll(c: Ctl, s: Store, env: Env, game: bool): Ctl {
    var c1 := c.(current := ModeRead(c.hw, env, c.current));
    if c.wrapper != 0 then
      Push(c1.(target := "cache"), env).(target := Take(c1.current, 31))
    else if Automatic(c, s) then
      Push(c1.(target := AutoTarget(c.override, game)), env)
    else
      Push(c1, env).(target := Take(c1.current, 31))
  }

  // ---------------------------------------------------------------- commands

  function SetModeEffect(c: Ctl, word: string, env: Env): Ctl {
    if Contains(word, "auto") || Contains(word, "default") || Contains(word, "reset") then c.(override := 0)
    else if Contains(word, "cache") then c.(override := 1, hw := Written(c.hw, "cache", env))
    else if Contains(word, "frequency") then c.(override := 2, hw := Written(c.hw, "frequency", env))
    else if Contains(word, "dual") then c.(override := 3, hw := Written(c.hw, "dual", env))
    else if Contains(word, "swap") then c.(override := 4, hw := Written(c.hw, "swap", env))
    else c
  }

  function ToggleEffect(c: Ctl, env: Env): Ctl {
    var mode := if CanRead(c.hw, env) && c.hw == "cache" then "frequency" else "cache";
    c.(override := if mode == "cache" then 1 else 2, hw := Written(c.hw, mode, env))
  }

  function CtlEffect(c: Ctl, cmd: Command, env: Env): Ctl {
    match cmd
    case Toggle => ToggleEffect(c, env)
    case SetMode(word) => SetModeEffect(c, word, env)
    case SetDaemon(v) =>
      if v == "default" || (v == "auto" && env.forks) then c.(override := 0) else c
    case SetWrapper(enable) =>
      if enable != 0 then c.(wrapper := enable, hw := Written(c.hw, "cache", env), override := 1)
      else c.(wrapper := 0, hw := Written(c.hw, "frequency", env), override := 0)
    case SetConfig(k, v) =>
      if k == "EBPF_ENABLE" then c.(bpf := IntOf(v) != 0 && (c.bpf || env.starts)) else c
    case Unpark => c.(hw := Written(c.hw, "dual", env))
    case Disable => c.(keep := false)
    case _ => c
  }

  function StoreEffect(cmd: Command, env: Env): StoreCmd {
    match cmd
    case SetConfig(k, v) => SetKey(k, v)
    case SetDaemon(v) => SetState(v)
    case AdvancedSet(name, v) => SetSysctl(name, v, env.sysctl)
    case ConfigSync => Sync
    case _ => Neutral
  }

  predicate KnownMode(word: string) {
    || Contains(word, "auto") || Contains(word, "default") || Contains(word, "reset") || Contains(word, "cache")
    || Contains(word, "frequency") || Contains(word, "dual") || Contains(word, "swap")
  }

  function OkIf(ok: bool): Option<string> {
    Some(if ok then "OK" else "ERR")
  }

  /** The answer sent back. `None` stands for the answers that are not modelled and for the bytes of an
      uninitialised buffer that MODE sends when a known node cannot be read. */
  function Reply(st: State, raw: string, env: Env): Option<string> {
    match Parse(Message(raw))
    case Ping => Some("OK")
    case AskMode =>
      if env.path && !CanRead(st.ctl.hw, env) then None else Some(ModeRead(st.ctl.hw, env, ""))
    case GetConfig(k) => Some(ConfigGet(st.store.cfg, k))
    case SetMode(word) => OkIf(KnownMode(word))
    case SetDaemon(v) => OkIf(DaemonStateWord(v) && (v == "auto" ==> env.forks))
    case AdvancedSet(name, _) => OkIf(SysctlKey(name).Some? && env.sysctl)
    case Unpark => OkIf(env.path && "dual" in env.accepts)
    case Rejected => Some("ERR")
    case Query => None
    case Tuning => None
    case _ => Some("OK")
  }

  function Handle(st: State, raw: string, env: Env, defaults: Config): State {
    var cmd := Parse(Message(raw));
    State(Apply(st.store, StoreEffect(cmd, env), defaults), CtlEffect(st.ctl, cmd, env))
  }

  // ---------------------------------------------------------------- start-up

  /** An empty state text becomes `default`, in memory only. */
  function Fixed(s: Store): Store {
    if StateWord(s) == "" then s.(cfg := s.cfg["DAEMON_STATE" := TextV("default")]) else s
  }

  function EbpfEnabled(s: Store): bool {
    "EBPF_ENABLE" in s.cfg && s.cfg["EBPF_ENABLE"].IntV? && s.cfg["EBPF_ENABLE"].n != 0
  }

  /** What `daemon` does before its loop: load, start the detector, ask for frequency, mend the state. */
  function StartUp(st: State, env: Env, defaults: Config): State {
    var s := Apply(st.store, Sync, defaults);
    State(Fixed(s), st.ctl.(bpf := if EbpfEnabled(s) then env.starts else st.ctl.bpf,
                            hw := Written(st.ctl.hw, "frequency", env)))
  }

  // ---------------------------------------------------------------- the main loop

  /** One round of the loop: perhaps a message, the node, the detection result, perhaps a reload. */
  datatype Round = Round(message: Option<string>, env: Env, game: bool, reload: bool)

  function Received(st: State, r: Round, defaults: Config): State {
    if r.message.Some? then Handle(st, r.message.value, r.env, defaults) else st
  }

  function Polled(st: State, r: Round): State {
    st.(ctl := Poll(st.ctl, st.store, r.env, r.game))
  }

  /** Message, stop check, poll, reload. */
  function Iterate(st: State, r: Round, defaults: Config): State {
    var m := Received(st, r, defaults);
    if !m.ctl.keep then m
    else
      var p := Polled(m, r);
      if r.reload then p.(store := Apply(p.store, Sync, defaults)) else p
  }

  function Loop(st: State, rs: seq<Round>, defaults: Config): State
    decreases rs
  {
    if rs == [] || !st.ctl.keep then st else Loop(Iterate(st, rs[0], defaults), rs[1..], defaults)
  }

  // ---------------------------------------------------------------- what the controller promises

  /** The mode the daemon is responsible for, if it is responsible for one. */
  function Decision(c: Ctl, s: Store, game: bool): Option<string> {
    if c.wrapper != 0 then Some("cache")
    else if Automatic(c, s) then Some(AutoTarget(c.override, game))
    else None
  }

  /** A poll of a readable node that takes the decision puts the decision in force, and sends it only
      if another mode was in place. */
  lemma PollEnforcesDecision(c: Ctl, s: Store, env: Env, game: bool)
    requires CanRead(c.hw, env)
    requires Decision(c, s, game).Some? && Decision(c, s, game).value in env.accepts
    ensures var d := Decision(c, s, game).value;
      && Poll(c, s, env, game).hw == d
      && Poll(c, s, env, game).writes == c.writes + (if c.hw == d then 0 else 1)
  {
  }

  predicate GoodNode(env: Env) {
    env.path && env.readable && {"cache", "frequency"} <= env.accepts
  }

  lemma {:induction false} LoopSnoc(st: State, rs: seq<Round>, r: Round, defaults: Config)
    ensures var t := Loop(st, rs, defaults);
      Loop(st, rs + [r], defaults) == if t.ctl.keep then Iterate(t, r, defaults) else t
    decreases rs
  {
    hide Iterate;
    if rs == [] {
      assert rs + [r] == [r] && [r][1..] == [];
    } else if st.ctl.keep {
      assert (rs + [r])[1..] == rs[1..] + [r] && (rs + [r])[0] == rs[0];
      LoopSnoc(Iterate(st, rs[0], defaults), rs[1..], r, defaults);
    }
  }

  /** No message releases the wrapper lock. */
  predicate NoRelease(rs: seq<Round>) {
    forall i :: 0 <= i < |rs| && rs[i].message.Some? ==> Parse(Message(rs[i].message.value)) != SetWrapper(0)
  }

  predicate GoodNodes(rs: seq<Round>) {
    forall i :: 0 <= i < |rs| ==> GoodNode(rs[i].env)
  }

  /** A mode that was written or already in place is never empty. */
  lemma EffectKeepsNode(c: Ctl, cmd: Command, env: Env)
    requires c.hw != []
    ensures CtlEffect(c, cmd, env).hw != []
    ensures CtlEffect(c, cmd, env).wrapper == if cmd.SetWrapper? then cmd.enable else c.wrapper
  {
    hide Contains;
  }

  lemma RoundUnderWrapper(st: State, r: Round, defaults: Config)
    requires st.ctl.wrapper != 0 && st.ctl.hw != [] && GoodNode(r.env)
    requires r.message.Some? ==> Parse(Message(r.message.value)) != SetWrapper(0)
    ensures var t := Iterate(st, r, defaults);
      t.ctl.wrapper != 0 && t.ctl.hw != [] && (t.ctl.keep ==> t.ctl.hw == "cache")
  {
    hide Parse, Message, Apply;
    if r.message.Some? {
      EffectKeepsNode(st.ctl, Parse(Message(r.message.value)), r.env);
    }
    var m := Received(st, r, defaults);
    if m.ctl.keep {
      hide CtlEffect;
      PollEnforcesDecision(m.ctl, m.store, r.env, r.game);
    }
  }

  /** Until the wrapper releases its lock, every round of every run ends in `cache`, whatever else is
      asked of the daemon. */
  lemma {:induction false} WrapperHoldsCache(st: State, rs: seq<Round>, defaults: Config)
    requires st.ctl.wrapper != 0 && st.ctl.hw != [] && GoodNodes(rs) && NoRelease(rs)
    ensures Loop(st, rs, defaults).ctl.wrapper != 0
    ensures rs != [] && Loop(st, rs, defaults).ctl.keep ==> Loop(st, rs, defaults).ctl.hw == "cache"
    decreases rs
  {
    if rs != [] && st.ctl.keep {
      assert GoodNode(rs[0].env);
      RoundUnderWrapper(st, rs[0], defaults);
      hide Iterate, Parse, Message, GoodNode;
      var t := Iterate(st, rs[0], defaults);
      assert forall i :: 0 <= i < |rs[1..]| ==> rs[1..][i] == rs[i + 1];
      WrapperHoldsCache(t, rs[1..], defaults);
    }
  }

  // ---------------------------------------------------------------- runs of polls without commands

  datatype Tick = Tick(env: Env, game: bool)

  function Ticks(c: Ctl, s: Store, ts: seq<Tick>): Ctl
    decreases ts
  {
    if ts == [] then c else Ticks(Poll(c, s, ts[0].env, ts[0].game), s, ts[1..])
  }

  /** How often a sequence of wishes differs from what is in place, each wish being granted. */
  function Changes(inPlace: string, wishes: seq<string>): nat
    decreases wishes
  {
    if wishes == [] then 0
    else (if wishes[0] == inPlace then 0 else 1) + Changes(wishes[0], wishes[1..])
  }

  function Wishes(override: int, ts: seq<Tick>): (ws: seq<string>)
    ensures |ws| == |ts|
    ensures forall i :: 0 <= i < |ts| ==> ws[i] == AutoTarget(override, ts[i].game)
  {
    seq(|ts|, i requires 0 <= i < |ts| => AutoTarget(override, ts[i].game))
  }

  /** In the automatic regime the node is written exactly once per change of decision, over a whole run;
      in between the daemon is silent. */
  lemma {:induction false} WritesAreChanges(c: Ctl, s: Store, ts: seq<Tick>)
    requires c.wrapper == 0 && Automatic(c, s) && c.hw != [] && forall i :: 0 <= i < |ts| ==> GoodNode(ts[i].env)
    ensures Ticks(c, s, ts).writes == c.writes + Changes(c.hw, Wishes(c.override, ts))
    ensures ts != [] ==> Ticks(c, s, ts).hw == AutoTarget(c.override, ts[|ts| - 1].game)
    decreases ts
  {
    if ts != [] {
      var t := ts[0];
      assert GoodNode(t.env);
      PollEnforcesDecision(c, s, t.env, t.game);
      var c' := Poll(c, s, t.env, t.game);
      assert c'.wrapper == c.wrapper && c'.override == c.override;
      assert c'.hw == AutoTarget(c.override, t.game) != [];
      hide Poll, AutoTarget, StateWord, GoodNode;
      assert forall i :: 0 <= i < |ts[1..]| ==> ts[1..][i] == ts[i + 1];
      WritesAreChanges(c', s, ts[1..]);
      assert Wishes(c.override, ts)[1..] == Wishes(c.override, ts[1..]);
    }
  }

  /** Neither the wrapper nor the automatic regime is in charge. */
  predicate Suspended(c: Ctl, s: Store) {
    c.wrapper == 0 && !Automatic(c, s)
  }

  predicate TakesBoth(c: Ctl, env: Env) {
    env.path && env.readable && c.hw in env.accepts && c.target in env.accepts
  }

  /** Mode texts fit the 32-byte buffers. */
  predicate FitsBuffers(c: Ctl) {
    c.hw != [] && |c.hw| <= 31 && |c.target| <= 31
  }

  /** A suspended poll swaps mode and target; with an empty target it only learns the mode. */
  lemma SuspendedPoll(c: Ctl, s: Store, env: Env, game: bool)
    requires Suspended(c, s) && FitsBuffers(c) && TakesBoth(c, env)
    ensures var p := Poll(c, s, env, game);
      && Suspended(p, s) && p.target == c.hw && p.hw == (if c.target == [] then c.hw else c.target)
      && FitsBuffers(p)
  {
  }

  /** The suspended regime is an orbit of period two. */
  lemma {:induction false} SuspendedOrbit(c: Ctl, s: Store, ts: seq<Tick>)
    requires Suspended(c, s) && FitsBuffers(c) && c.target != []
    requires forall i :: 0 <= i < |ts| ==> TakesBoth(c, ts[i].env)
    ensures var p := Ticks(c, s, ts);
      if |ts| % 2 == 0 then p.hw == c.hw && p.target == c.target else p.hw == c.target && p.target == c.hw
    decreases ts
  {
    if ts != [] {
      assert TakesBoth(c, ts[0].env);
      SuspendedPoll(c, s, ts[0].env, ts[0].game);
      var p := Poll(c, s, ts[0].env, ts[0].game);
      hide Poll, StateWord;
      forall i | 0 <= i < |ts[1..]| ensures TakesBoth(p, ts[1..][i].env) {
        assert TakesBoth(c, ts[i + 1].env);
      }
      SuspendedOrbit(p, s, ts[1..]);
    }
  }

  function Steady(env: Env, n: nat): (ts: seq<Tick>)
    ensures |ts| == n && forall i :: 0 <= i < n ==> ts[i].env == env
  {
    seq(n, _ => Tick(env, false))
  }

  /** A mode in place when the daemon is suspended stays for good if and only if the target is the same
      or empty. */
  lemma ManualModePersists(c: Ctl, s: Store, env: Env)
    requires Suspended(c, s) && FitsBuffers(c) && TakesBoth(c, env)
    ensures (forall n: nat :: Ticks(c, s, Steady(env, n)).hw == c.hw) <==> c.target == [] || c.target == c.hw
  {
    if c.target != [] {
      forall n: nat ensures Ticks(c, s, Steady(env, n)).hw == if n % 2 == 0 then c.hw else c.target {
        SuspendedOrbit(c, s, Steady(env, n));
      }
      assert Ticks(c, s, Steady(env, 1)).hw == c.target;
    } else {
      forall n: nat ensures Ticks(c, s, Steady(env, n)).hw == c.hw {
        EmptyTargetStays(c, s, env, n);
      }
    }
  }

  lemma EmptyTargetStays(c: Ctl, s: Store, env: Env, n: nat)
    requires Suspended(c, s) && FitsBuffers(c) && TakesBoth(c, env) && c.target == []
    ensures Ticks(c, s, Steady(env, n)).hw == c.hw
  {
    if n > 0 {
      var ts := Steady(env, n);
      SuspendedPoll(c, s, env, ts[0].game);
      var p := Poll(c, s, env, ts[0].game);
      forall i | 0 <= i < |ts[1..]| ensures TakesBoth(p, ts[1..][i].env) {
        assert ts[1..][i] == ts[i + 1];
      }
      SuspendedOrbit(p, s, ts[1..]);
    }
  }

  /** A round without message or reload, on a good node. */
  predicate Quiet(r: Round) {
    r.message.None? && !r.reload && GoodNode(r.env)
  }

  /** The words of `x3d cache` and its siblings. */
  predicate ModeWord(word: string) {
    word == "cache" || word == "frequency" || word == "dual" || word == "swap"
  }

  function OverrideOf(word: string): int {
    if word == "cache" then 1 else if word == "frequency" then 2 else if word == "dual" then 3 else 4
  }

  /** A good node that takes this mode too. */
  predicate Takes(env: Env, word: string) {
    GoodNode(env) && word in env.accepts
  }

  /** A round that brings this message, no reload, on a good node. */
  predicate Brings(r: Round, raw: string) {
    r.message == Some(raw) && !r.reload && GoodNode(r.env)
  }

  function TicksOf(rs: seq<Round>): (ts: seq<Tick>)
    ensures |ts| == |rs| && forall i :: 0 <= i < |rs| ==> ts[i] == Tick(rs[i].env, rs[i].game)
  {
    seq(|rs|, i requires 0 <= i < |rs| => Tick(rs[i].env, rs[i].game))
  }

  /** Quiet rounds are polls. */
  lemma {:induction false} QuietLoop(st: State, rs: seq<Round>, defaults: Config)
    requires st.ctl.keep && forall i :: 0 <= i < |rs| ==> Quiet(rs[i])
    ensures Loop(st, rs, defaults) == st.(ctl := Ticks(st.ctl, st.store, TicksOf(rs)))
    decreases rs
  {
    if rs != [] {
      assert Quiet(rs[0]);
      var t := Iterate(st, rs[0], defaults);
      assert t == Polled(st, rs[0]) && t.ctl.keep by { PollKeeps(st.ctl, st.store, rs[0].env, rs[0].game); hide Poll; }
      hide Poll, Iterate, Quiet;
      assert forall i :: 0 <= i < |rs[1..]| ==> rs[1..][i] == rs[i + 1];
      QuietLoop(t, rs[1..], defaults);
      assert TicksOf(rs)[1..] == TicksOf(rs[1..]);
    }
  }

  /** A poll changes neither lock nor override nor the decision to go on. */
  lemma PollKeeps(c: Ctl, s: Store, env: Env, game: bool)
    ensures var p := Poll(c, s, env, game);
      && p.wrapper == c.wrapper && p.override == c.override && p.keep == c.keep && p.bpf == c.bpf
      && (c.hw != [] ==> p.hw != [])
  {
  }

  lemma LoopTwo(st: State, r: Round, rs: seq<Round>, defaults: Config)
    requires st.ctl.keep
    ensures Loop(st, [r] + rs, defaults) == Loop(Iterate(st, r, defaults), rs, defaults)
  {
    hide Iterate;
    assert ([r] + rs)[0] == r && ([r] + rs)[1..] == rs;
  }

  /** Suspended with these in the node and in the target buffer. */
  predicate Asleep(st: State, hw: string, target: string) {
    && st.ctl.keep && st.ctl.wrapper == 0 && StateWord(st.store) == "manual"
    && st.ctl.hw == hw && st.ctl.target == target
  }

  predicate PlainMode(word: string) {
    word == "cache" || word == "frequency"
  }

  lemma ModesFit(c: Ctl, env: Env)
    requires ModeWord(c.hw) && ModeWord(c.target) && Takes(env, c.hw) && Takes(env, c.target)
    ensures FitsBuffers(c) && TakesBoth(c, env) && c.target != []
  {
  }

  /** SET_DAEMON manual after an automatic poll: the poll of the same round finds nothing to do. */
  lemma FallAsleep(st: State, d: string, r: Round, defaults: Config)
    requires st.ctl.keep && st.ctl.wrapper == 0 && st.ctl.hw == d == st.ctl.target && PlainMode(d)
    requires Brings(r, "SET_DAEMON manual")
    ensures Asleep(Iterate(st, r, defaults), d, d)
  {
    var m := Received(st, r, defaults);
    ManualArrives(st, r.env, defaults);
    assert m.ctl == st.ctl && StateWord(m.store) == "manual" && m.ctl.keep && !r.reload;
    ModesFit(m.ctl, r.env);
    assert Suspended(m.ctl, m.store);
    PollKeeps(m.ctl, m.store, r.env, r.game);
    SuspendedPoll(m.ctl, m.store, r.env, r.game);
    hide Received, Poll, StateWord;
  }

  lemma ManualArrives(st: State, env: Env, defaults: Config)
    ensures var m := Handle(st, "SET_DAEMON manual", env, defaults);
      m.ctl == st.ctl && StateWord(m.store) == "manual"
  {
    var raw := "SET_DAEMON manual";
    assert raw == "SET_DAEMON " + "manual";
    CommandsOnTheWire(raw);
    hide *;
    MessageArrives(raw);
    SetDaemonDispatch("manual");
    Handles(st, raw, SetDaemon("manual"), env, defaults);
    ManualEffect(st, env, defaults);
  }

  lemma ManualEffect(st: State, env: Env, defaults: Config)
    ensures StateWord(Apply(st.store, StoreEffect(SetDaemon("manual"), env), defaults)) == "manual"
    ensures CtlEffect(st.ctl, SetDaemon("manual"), env) == st.ctl
  {
    hide Updated, FieldOf;
  }

  /** What a message does is decided by the command it parses to. */
  lemma Handles(st: State, raw: string, cmd: Command, env: Env, defaults: Config)
    requires Parse(Message(raw)) == cmd
    ensures Handle(st, raw, env, defaults)
            == State(Apply(st.store, StoreEffect(cmd, env), defaults), CtlEffect(st.ctl, cmd, env))
  {
    hide Parse, Message, Apply, CtlEffect;
  }

  /** SET_MODE while asleep: the poll of the same round takes the mode out of the node again. */
  lemma ModeWhileAsleep(st: State, d: string, word: string, r: Round, defaults: Config)
    requires Asleep(st, d, d) && PlainMode(d) && ModeWord(word) && Brings(r, "SET_MODE " + word) && Takes(r.env, word)
    ensures Received(st, r, defaults).ctl.hw == word && Asleep(Iterate(st, r, defaults), d, word)
  {
    var m := Received(st, r, defaults);
    ModeArrives(st, word, r.env, defaults);
    assert m.store == st.store && m.ctl.hw == word && m.ctl.target == d;
    assert m.ctl.keep && m.ctl.wrapper == 0 && !r.reload;
    ModesFit(m.ctl, r.env);
    assert Suspended(m.ctl, m.store);
    PollKeeps(m.ctl, m.store, r.env, r.game);
    SuspendedPoll(m.ctl, m.store, r.env, r.game);
    hide Received, Poll, StateWord;
  }

  lemma ModeArrives(st: State, word: string, env: Env, defaults: Config)
    requires ModeWord(word) && Takes(env, word)
    ensures var m := Handle(st, "SET_MODE " + word, env, defaults);
      m.store == st.store && m.ctl == st.ctl.(hw := word, override := OverrideOf(word))
  {
    ModeOnTheWire(word);
    ModeWordEffect(st.ctl, word, env);
    hide Parse, Message, SetModeEffect, OnTheWire, Takes, ModeWord, OverrideOf;
    MessageArrives("SET_MODE " + word);
    SetModeDispatch(word);
    Handles(st, "SET_MODE " + word, SetMode(word), env, defaults);
    hide Handle;
  }

  lemma ModeOnTheWire(word: string)
    requires ModeWord(word)
    ensures OnTheWire("SET_MODE " + word)
  {
    assert '\0' !in word && '\n' !in word && '\r' !in word && |word| <= 9;
  }

  lemma ModeWordEffect(c: Ctl, word: string, env: Env)
    requires ModeWord(word) && Takes(env, word)
    ensures SetModeEffect(c, word, env) == c.(hw := word, override := OverrideOf(word))
  {
    if word == "dual" || word == "swap" { WordsOfLayouts(word); } else { WordsOfModes(word); }
    hide Contains;
  }

  /** `x3d sleep` announces that manual modes now persist, and `x3d cache` sends these two messages. They
      do not: with decision `d` in place when the daemon is put to sleep, a mode chosen then is gone by
      the end of its own round and back in every second one, unless it is `d` again. */
  lemma SleepKeepsModeIff(st: State, auto: Round, sleep: Round, choose: Round, later: seq<Round>, word: string,
                          defaults: Config)
    requires st.ctl.keep && st.ctl.wrapper == 0 && Automatic(st.ctl, st.store) && st.ctl.hw != []
    requires Quiet(auto) && Brings(sleep, "SET_DAEMON manual") && Brings(choose, "SET_MODE " + word)
    requires ModeWord(word) && Takes(choose.env, word)
    requires forall i :: 0 <= i < |later| ==> Quiet(later[i]) && Takes(later[i].env, word)
    ensures var d := AutoTarget(st.ctl.override, auto.game);
      Loop(st, [auto] + ([sleep] + ([choose] + later)), defaults).ctl.hw
      == if word == d || |later| % 2 == 1 then word else d
  {
    var d := AutoTarget(st.ctl.override, auto.game);
    var s1 := Iterate(st, auto, defaults);
    AutoRound(st, auto, defaults);
    hide Iterate, Automatic, AutoTarget, ModeWord, Takes;
    var s2 := Iterate(s1, sleep, defaults);
    FallAsleep(s1, d, sleep, defaults);
    var s3 := Iterate(s2, choose, defaults);
    ModeWhileAsleep(s2, d, word, choose, defaults);
    LoopTwo(st, auto, [sleep] + ([choose] + later), defaults);
    LoopTwo(s1, sleep, [choose] + later, defaults);
    LoopTwo(s2, choose, later, defaults);
    StaysAsleep(s3, d, word, later, defaults);
  }

  lemma AutoRound(st: State, r: Round, defaults: Config)
    requires st.ctl.keep && st.ctl.wrapper == 0 && Automatic(st.ctl, st.store) && st.ctl.hw != [] && Quiet(r)
    ensures var d, t := AutoTarget(st.ctl.override, r.game), Iterate(st, r, defaults);
      t.ctl.keep && t.ctl.wrapper == 0 && t.ctl.hw == d == t.ctl.target && PlainMode(d)
  {
    AutoPoll(st.ctl, st.store, r.env, r.game);
    PollKeeps(st.ctl, st.store, r.env, r.game);
    hide Poll, Automatic;
  }

  lemma StaysAsleep(st: State, hw: string, target: string, rs: seq<Round>, defaults: Config)
    requires Asleep(st, hw, target) && PlainMode(hw) && ModeWord(target)
    requires forall i :: 0 <= i < |rs| ==> Quiet(rs[i]) && Takes(rs[i].env, target)
    ensures Loop(st, rs, defaults).ctl.hw == if |rs| % 2 == 0 then hw else target
  {
    QuietLoop(st, rs, defaults);
    assert Suspended(st.ctl, st.store) by { hide Loop, Ticks; }
    forall i | 0 <= i < |rs| ensures TakesBoth(st.ctl, TicksOf(rs)[i].env) {
      assert Quiet(rs[i]) && Takes(rs[i].env, target);
      ModesFit(st.ctl, rs[i].env);
    }
    assert FitsBuffers(st.ctl) && st.ctl.target != [];
    hide Loop, Ticks, StateWord, TakesBoth, FitsBuffers, Quiet;
    SuspendedOrbit(st.ctl, st.store, TicksOf(rs));
  }

  /** `dual` and `swap` leave the automatic regime with the last decision still in the target buffer: if
      the node takes the mode at all, the next poll undoes it and the one after brings it back. */
  lemma DualAlternates(c: Ctl, s: Store, env: Env, game: bool, word: string, env': Env)
    requires c.wrapper == 0 && Automatic(c, s) && c.hw != [] && GoodNode(env) && GoodNode(env')
    requires (word == "dual" || word == "swap") && word in env'.accepts
    ensures var manual := SetModeEffect(Poll(c, s, env, game), word, env');
      var p1 := Poll(manual, s, env', game);
      && manual.hw == word && p1.hw == AutoTarget(c.override, game) != word
      && Poll(p1, s, env', game).hw == word
  {
    hide *;
    AutoPoll(c, s, env, game);
    AutoTargetIsMode(c.override, game);
    assert env'.path by { NodeHasPath(env'); }
    LayoutWordEffect(Poll(c, s, env, game), word, env');
    LayoutIsSuspended(SetModeEffect(Poll(c, s, env, game), word, env'), s, env', word);
    Alternates(SetModeEffect(Poll(c, s, env, game), word, env'), s, env', game);
  }

  /** An automatic poll leaves its decision in the target buffer. */
  lemma AutoPoll(c: Ctl, s: Store, env: Env, game: bool)
    requires c.wrapper == 0 && Automatic(c, s) && c.hw != [] && GoodNode(env)
    ensures var p := Poll(c, s, env, game);
      p.target == AutoTarget(c.override, game) && p.wrapper == 0 && p.hw == p.target
  {
    PollEnforcesDecision(c, s, env, game);
  }

  lemma NodeHasPath(env: Env)
    requires GoodNode(env)
    ensures env.path
  {
  }

  lemma AutoTargetIsMode(override: int, game: bool)
    ensures var d := AutoTarget(override, game);
      (d == "cache" || d == "frequency") && d != "dual" && d != "swap"
  {
  }

  lemma LayoutWordEffect(c: Ctl, word: string, env: Env)
    requires (word == "dual" || word == "swap") && env.path && word in env.accepts
    ensures SetModeEffect(c, word, env) == c.(override := if word == "dual" then 3 else 4, hw := word)
  {
    WordsOfLayouts(word);
    hide Contains;
  }

  lemma LayoutIsSuspended(c: Ctl, s: Store, env: Env, word: string)
    requires c.wrapper == 0 && c.override >= 3 && c.hw == word && (word == "dual" || word == "swap")
    requires GoodNode(env) && word in env.accepts && (c.target == "cache" || c.target == "frequency")
    ensures Suspended(c, s) && FitsBuffers(c) && TakesBoth(c, env) && c.target != []
  {
  }

  /** Two suspended polls. */
  lemma Alternates(c: Ctl, s: Store, env: Env, game: bool)
    requires Suspended(c, s) && FitsBuffers(c) && TakesBoth(c, env) && c.target != []
    ensures var p1 := Poll(c, s, env, game);
      p1.hw == c.target && Poll(p1, s, env, game).hw == c.hw
  {
    SuspendedPoll(c, s, env, game);
    var p1 := Poll(c, s, env, game);
    hide Poll, StateWord;
    SuspendedPoll(p1, s, env, game);
  }

  /** A round that brings a message starting with this word. */
  predicate BringsWord(r: Round, word: string) {
    r.message.Some? && word <= Message(r.message.value) && !r.reload && GoodNode(r.env)
  }

  function Opposite(mode: string): string {
    if mode == "cache" then "frequency" else "cache"
  }

  /** A round with TOGGLE, in state `default`, ends in the other mode: its poll leaves the choice alone. */
  lemma ToggleRound(st: State, r: Round, defaults: Config)
    requires st.ctl.keep && st.ctl.wrapper == 0 && StateWord(st.store) == "default" && PlainMode(st.ctl.hw)
    requires BringsWord(r, "TOGGLE")
    ensures var t := Iterate(st, r, defaults);
      && t.ctl.hw == Opposite(st.ctl.hw) && t.ctl.keep && t.ctl.wrapper == 0 && t.store == st.store
  {
    var m := Received(st, r, defaults);
    ToggleDispatch(Message(r.message.value));
    assert m == st.(ctl := ToggleEffect(st.ctl, r.env)) by { hide Parse, Message, ToggleEffect; }
    assert Decision(m.ctl, m.store, r.game) == Some(Opposite(st.ctl.hw)) by { hide StateWord; }
    hide StateWord, Parse, Message, Decision;
    PollEnforcesDecision(m.ctl, m.store, r.env, r.game);
    PollKeeps(m.ctl, m.store, r.env, r.game);
    hide Poll, Received;
  }

  /** TOGGLE twice restores the mode, through the polls in between. */
  lemma ToggleTwice(st: State, r1: Round, r2: Round, defaults: Config)
    requires st.ctl.keep && st.ctl.wrapper == 0 && StateWord(st.store) == "default" && PlainMode(st.ctl.hw)
    requires BringsWord(r1, "TOGGLE") && BringsWord(r2, "TOGGLE")
    ensures Loop(st, [r1], defaults).ctl.hw == Opposite(st.ctl.hw)
    ensures Loop(st, [r1, r2], defaults).ctl.hw == st.ctl.hw
  {
    hide StateWord, Iterate, BringsWord;
    var s1 := Iterate(st, r1, defaults);
    ToggleRound(st, r1, defaults);
    ToggleRound(s1, r2, defaults);
    LoopTwo(st, r1, [], defaults);
    LoopTwo(st, r1, [r2], defaults);
    LoopTwo(s1, r2, [], defaults);
    assert [r1] + [] == [r1] && [r2] + [] == [r2] && [r1] + [r2] == [r1, r2];
  }

  /** SET_UNPARK of the second die writes `dual` behind the controller's back; in the automatic regime the
      poll of the same round takes it out again. */
  lemma UnparkIsUndone(st: State, r: Round, defaults: Config)
    requires st.ctl.keep && st.ctl.wrapper == 0 && Automatic(st.ctl, st.store) && st.ctl.hw != []
    requires Brings(r, "SET_UNPARK all") || Brings(r, "SET_UNPARK ccd1")
    ensures "dual" in r.env.accepts ==> Received(st, r, defaults).ctl.hw == "dual"
    ensures Iterate(st, r, defaults).ctl.hw == AutoTarget(st.ctl.override, r.game) != "dual"
  {
    var m := Received(st, r, defaults);
    UnparkArrives(st, r.message.value, r.env, defaults);
    assert m.store == st.store && m.ctl == st.ctl.(hw := m.ctl.hw) && m.ctl.hw != [];
    AutoPoll(m.ctl, m.store, r.env, r.game);
    AutoTargetIsMode(st.ctl.override, r.game);
    hide Poll, Received, Handle, StateWord, AutoTarget;
  }

  lemma UnparkArrives(st: State, raw: string, env: Env, defaults: Config)
    requires raw == "SET_UNPARK all" || raw == "SET_UNPARK ccd1"
    ensures Handle(st, raw, env, defaults) == st.(ctl := st.ctl.(hw := Written(st.ctl.hw, "dual", env)))
  {
    hide Parse, Message, OnTheWire;
    CommandsOnTheWire(raw);
    UnparkDispatch(raw);
    MessageArrives(raw);
    Handles(st, raw, Unpark, env, defaults);
    hide Handle;
  }

  lemma UnparkDispatch(m: string)
    requires m == "SET_UNPARK all" || m == "SET_UNPARK ccd1"
    ensures Parse(m) == Unpark
  {
    hide TuningPrefix, IntOf, SplitArg;
    assert m[0] == 'S' && m[4] == 'U';
  }

  lemma CommandsOnTheWire(m: string)
    requires m in {"SET_UNPARK all", "SET_UNPARK ccd1", "CONFIG_SYNC", "SET_DAEMON manual"}
    ensures OnTheWire(m)
  {
  }

  /** A word that holds `auto`, `default` or `reset` ends an override, whatever else it holds: the mode stays
      until the next poll, which follows detection again. */
  lemma AutoResumes(c: Ctl, s: Store, word: string, env: Env, game: bool)
    requires c.wrapper == 0 && StateWord(s) == "default"
    requires Contains(word, "auto") || Contains(word, "default") || Contains(word, "reset")
    ensures var a := SetModeEffect(c, word, env);
      a.hw == c.hw && Decision(a, s, game) == Some(if game then "cache" else "frequency")
  {
    hide StateWord, Contains;
  }

  lemma WordsOfLayouts(word: string)
    requires word == "dual" || word == "swap"
    ensures !Contains(word, "auto") && !Contains(word, "default") && !Contains(word, "reset")
    ensures !Contains(word, "cache") && !Contains(word, "frequency")
    ensures Contains(word, word) && (word == "swap" ==> !Contains(word, "dual"))
  {
    MissingLetter(word, "auto", 3);
    MissingLetter(word, "default", 1);
    MissingLetter(word, "reset", 1);
    MissingLetter(word, "cache", 0);
    MissingLetter(word, "frequency", 0);
    if word == "swap" { MissingLetter(word, "dual", 0); }
    assert OccursAt(word, word, 0);
  }

  lemma {:induction false} NoChanges(mode: string, wishes: seq<string>)
    requires forall i :: 0 <= i < |wishes| ==> wishes[i] == mode
    ensures Changes(mode, wishes) == 0
  {
    if wishes != [] {
      NoChanges(mode, wishes[1..]);
    }
  }

  /** In state `default` a chosen mode holds through any number of polls, games or not, and the node is
      not written again. */
  lemma ChosenModeHolds(c: Ctl, s: Store, word: string, env: Env, ts: seq<Tick>)
    requires c.wrapper == 0 && StateWord(s) == "default" && (word == "cache" || word == "frequency")
    requires c.hw != [] && GoodNode(env) && forall i :: 0 <= i < |ts| ==> GoodNode(ts[i].env)
    ensures var chosen := SetModeEffect(c, word, env);
      Ticks(chosen, s, ts).hw == word && Ticks(chosen, s, ts).writes == c.writes
  {
    WordsOfModes(word);
    var chosen := SetModeEffect(c, word, env);
    assert chosen.hw == word && chosen.wrapper == 0 && chosen.writes == c.writes by { hide Contains; }
    assert chosen.override == (if word == "cache" then 1 else 2) by { hide Contains; }
    hide SetModeEffect, StateWord;
    WritesAreChanges(chosen, s, ts);
    NoChanges(word, Wishes(chosen.override, ts));
  }

  /** Releasing the wrapper lock hands the node back to detection: frequency at once, and from then on
      whatever the games say. */
  lemma WrapperReleased(c: Ctl, s: Store, env: Env, game: bool)
    requires GoodNode(env) && StateWord(s) == "default"
    ensures var free := CtlEffect(c, SetWrapper(0), env);
      && free.hw == "frequency" && Decision(free, s, game) == Some(if game then "cache" else "frequency")
  {
    hide StateWord;
  }

  lemma WordsOfModes(word: string)
    requires word == "cache" || word == "frequency"
    ensures !Contains(word, "auto") && !Contains(word, "default") && !Contains(word, "reset")
    ensures Contains(word, word) && (word == "frequency" ==> !Contains(word, "cache"))
  {
    MissingLetter(word, "auto", 3);
    MissingLetter(word, "default", 0);
    MissingLetter(word, "reset", 2);
    if word == "frequency" { MissingLetter(word, "cache", 1); }
    assert OccursAt(word, word, 0);
  }

  /** After DAEMON_DISABLE the loop neither polls nor writes: the round ends at the stop check and no
      later round runs. */
  lemma DisableStops(st: State, r: Round, rs: seq<Round>, defaults: Config)
    requires st.ctl.keep && r.message.Some? && "DAEMON_DISABLE" <= Message(r.message.value)
    ensures Loop(st, [r] + rs, defaults) == st.(ctl := st.ctl.(keep := false))
  {
    hide Parse, Message;
    DisableDispatch(Message(r.message.value));
    LoopTwo(st, r, rs, defaults);
  }

  /** CONFIG_SYNC makes any store coherent, however it came about. */
  lemma SyncHeals(st: State, raw: string, env: Env, defaults: Config)
    requires Complete(st.store.cfg) && "CONFIG_SYNC" <= Message(raw)
    ensures Coherent(Handle(st, raw, env, defaults).store, defaults) && Handle(st, raw, env, defaults).ctl == st.ctl
  {
    hide Parse, Message, Coherent, Complete, Apply;
    SyncDispatch(Message(raw));
    Handles(st, raw, ConfigSync, env, defaults);
    SyncEffect(st.ctl, env);
    hide *;
    LoadCoherent(st.store, defaults);
  }

  // ---------------------------------------------------------------- the store under the main loop

  /** What a run of the loop does to the store, command by command. */
  function Trace(st: State, rs: seq<Round>, defaults: Config): seq<StoreCmd>
    decreases rs
  {
    if rs == [] || !st.ctl.keep then []
    else RoundTrace(st, rs[0], defaults) + Trace(Iterate(st, rs[0], defaults), rs[1..], defaults)
  }

  function RoundTrace(st: State, r: Round, defaults: Config): seq<StoreCmd> {
    (if r.message.Some? then [StoreEffect(Parse(Message(r.message.value)), r.env)] else [])
    + (if Received(st, r, defaults).ctl.keep && r.reload then [Sync] else [])
  }

  lemma {:induction false} RunAppend(s: Store, a: seq<StoreCmd>, b: seq<StoreCmd>, defaults: Config)
    ensures Run(s, a + b, defaults) == Run(Run(s, a, defaults), b, defaults)
    decreases a
  {
    hide Apply;
    if a == [] {
      assert a + b == b;
    } else {
      assert (a + b)[1..] == a[1..] + b;
      RunAppend(Apply(s, a[0], defaults), a[1..], b, defaults);
    }
  }

  lemma RunOne(s: Store, c: StoreCmd, defaults: Config)
    ensures Run(s, [c], defaults) == Apply(s, c, defaults)
  {
    hide Apply;
    assert [c][1..] == [];
  }

  lemma RoundStore(st: State, r: Round, defaults: Config)
    ensures Iterate(st, r, defaults).store == Run(st.store, RoundTrace(st, r, defaults), defaults)
  {
    hide Apply, Parse, Message, CtlEffect, StoreEffect, Poll;
    var a := if r.message.Some? then [StoreEffect(Parse(Message(r.message.value)), r.env)] else [];
    var b := if Received(st, r, defaults).ctl.keep && r.reload then [Sync] else [];
    if a != [] { RunOne(st.store, a[0], defaults); }
    RunOne(Received(st, r, defaults).store, Sync, defaults);
    RunAppend(st.store, a, b, defaults);
  }

  lemma {:induction false} LoopStore(st: State, rs: seq<Round>, defaults: Config)
    ensures Loop(st, rs, defaults).store == Run(st.store, Trace(st, rs, defaults), defaults)
    decreases rs
  {
    hide RoundTrace, Iterate, Apply;
    if rs != [] && st.ctl.keep {
      RoundStore(st, rs[0], defaults);
      var t := Iterate(st, rs[0], defaults);
      LoopStore(t, rs[1..], defaults);
      RunAppend(st.store, RoundTrace(st, rs[0], defaults), Trace(t, rs[1..], defaults), defaults);
    }
  }

  lemma {:induction false} TraceIsOneLine(st: State, rs: seq<Round>, defaults: Config)
    ensures forall i :: 0 <= i < |Trace(st, rs, defaults)| ==> OneLine(Trace(st, rs, defaults)[i])
    decreases rs
  {
    if rs != [] && st.ctl.keep {
      hide Iterate, Parse, Message, OneLine;
      RoundIsOneLine(st, rs[0], defaults);
      TraceIsOneLine(Iterate(st, rs[0], defaults), rs[1..], defaults);
    }
  }

  lemma RoundIsOneLine(st: State, r: Round, defaults: Config)
    ensures forall i :: 0 <= i < |RoundTrace(st, r, defaults)| ==> OneLine(RoundTrace(st, r, defaults)[i])
  {
    hide Parse, Message, Received, CleanText;
    if r.message.Some? { MessagesAreClean(r.message.value); }
  }

  /** The built-in state is `default`. */
  predicate BuiltIn(defaults: Config) {
    "DAEMON_STATE" in defaults && defaults["DAEMON_STATE"] == TextV("default")
  }

  /** The file sets the state to an empty text. */
  predicate EmptyState(file: string) {
    LastValue(SeenByLoad(file), "DAEMON_STATE") == Some("")
  }

  /** Start-up leaves a coherent store if and only if the file does not set an empty state. */
  lemma StartUpCoherentIff(st: State, env: Env, defaults: Config)
    requires Complete(st.store.cfg) && BuiltIn(defaults)
    ensures Coherent(StartUp(st, env, defaults).store, defaults) <==> !EmptyState(st.store.file)
    ensures StateWord(StartUp(st, env, defaults).store) != ""
  {
    var s, k := Apply(st.store, Sync, defaults), "DAEMON_STATE";
    LoadCoherent(st.store, defaults);
    StateFieldLoaded(st.store.cfg);
    LoadedState(st.store, defaults);
    DaemonStateField();
    assert s.file == st.store.file;
    hide FieldOf, SocketKnows, Coherent, Complete, Loaded, SeenByLoad, LastValue, Apply;
    if StateWord(s) == "" {
      MemoryOnly(s, defaults, k, Fixed(s).cfg);
    }
  }

  lemma StateFieldLoaded(cfg: Config)
    requires Complete(cfg)
    ensures "DAEMON_STATE" in cfg
  {
    DaemonStateField();
    hide LoaderKnows;
  }

  /** The state word a load leaves. */
  lemma LoadedState(s: Store, defaults: Config)
    requires "DAEMON_STATE" in s.cfg && BuiltIn(defaults)
    ensures "DAEMON_STATE" in Apply(s, Sync, defaults).cfg
    ensures StateWord(Apply(s, Sync, defaults)) == var last := LastValue(SeenByLoad(s.file), "DAEMON_STATE");
      if last.Some? then Take(last.value, 30) else "default"
  {
    DaemonStateField();
    hide FieldOf, LoadLines, SeenByLoad, LastValue;
    LoadIsLastMatch(s.cfg, s.file, defaults, "DAEMON_STATE");
  }

  /** Write-through coherence over the daemon's life, exactly: from the start-up load through any rounds of
      messages, polls and reloads, loading again would never change a cached field if and only if the file
      set no empty state to begin with and every command that came in was admissible. */
  lemma DaemonKeepsCoherence(st: State, env: Env, rs: seq<Round>, defaults: Config)
    requires Complete(st.store.cfg) && BuiltIn(defaults)
    ensures var started := StartUp(st, env, defaults);
      var commands := Trace(started, rs, defaults);
      && (AlwaysCoherent(started.store, commands, defaults)
          <==> !EmptyState(st.store.file) && AllAdmissible(started.store, commands, defaults))
      && (AlwaysCoherent(started.store, commands, defaults) ==> Coherent(Loop(started, rs, defaults).store, defaults))
  {
    var started := StartUp(st, env, defaults);
    StartUpCoherentIff(st, env, defaults);
    StartUpComplete(st, env, defaults);
    hide StartUp, Coherent, Complete, AllAdmissible, Trace, Run, Loop, EmptyState, AlwaysCoherent;
    var commands := Trace(started, rs, defaults);
    LoopStore(started, rs, defaults);
    TraceIsOneLine(started, rs, defaults);
    if Coherent(started.store, defaults) {
      RunCoherentIff(started.store, commands, defaults);
      if AlwaysCoherent(started.store, commands, defaults) { CoherentAtEnd(started.store, commands, defaults); }
    } else {
      NotCoherentNow(started.store, commands, defaults);
    }
  }

  lemma CoherentAtEnd(s: Store, cs: seq<StoreCmd>, defaults: Config)
    requires AlwaysCoherent(s, cs, defaults)
    ensures Coherent(Run(s, cs, defaults), defaults)
  {
    hide Coherent, Run;
    assert cs[..|cs|] == cs;
  }

  lemma StartUpComplete(st: State, env: Env, defaults: Config)
    requires Complete(st.store.cfg)
    ensures Complete(StartUp(st, env, defaults).store.cfg)
  {
    ApplyKeepsComplete(st.store, Sync, defaults);
    hide Apply, LoaderKnows, StateWord;
  }

  /** The file that shows it. Start-up takes the state for `default` and the next CONFIG_SYNC for empty, which
      suspends the controller. */
  lemma EmptyStateExample(st: State, env: Env, defaults: Config)
    requires Complete(st.store.cfg) && BuiltIn(defaults) && st.store.file == Entry("DAEMON_STATE", "") + "\n"
    ensures var started := StartUp(st, env, defaults);
      && StateWord(started.store) == "default" && !Coherent(started.store, defaults)
      && StateWord(Handle(started, "CONFIG_SYNC", env, defaults).store) == ""
      && (st.ctl.wrapper == 0 ==> Suspended(started.ctl, Handle(started, "CONFIG_SYNC", env, defaults).store))
  {
    EmptyStateFile();
    var started := StartUp(st, env, defaults);
    StartUpCoherentIff(st, env, defaults);
    StateFieldLoaded(st.store.cfg);
    LoadedState(st.store, defaults);
    assert started.store.file == st.store.file && "DAEMON_STATE" in started.store.cfg
      && StateWord(started.store) == "default" by { hide Loaded, SeenByLoad, LastValue; }
    assert started.ctl.wrapper == st.ctl.wrapper;
    hide *;
    LoadedState(started.store, defaults);
    SyncMessage(started, env, defaults);
    NothingTaken();
    var after := Handle(started, "CONFIG_SYNC", env, defaults);
    if st.ctl.wrapper == 0 { EmptyIsSuspended(started.ctl, after.store); }
  }

  lemma EmptyIsSuspended(c: Ctl, s: Store)
    requires c.wrapper == 0 && StateWord(s) == ""
    ensures Suspended(c, s)
  {
    hide StateWord;
  }

  lemma NothingTaken()
    ensures Take("", 30) == ""
  {
  }

  lemma EmptyStateFile()
    ensures EmptyState(Entry("DAEMON_STATE", "") + "\n")
    ensures LastValue(SeenByLoad(Entry("DAEMON_STATE", "") + "\n"), "DAEMON_STATE") == Some("")
  {
    DaemonStateField();
    FieldNamesArePlain("DAEMON_STATE");
    hide FieldOf, SeenByLoad, LastValue, Fits, Entry;
    OneLineFile("DAEMON_STATE", "", "");
  }

  lemma SyncMessage(st: State, env: Env, defaults: Config)
    ensures Handle(st, "CONFIG_SYNC", env, defaults) == st.(store := Apply(st.store, Sync, defaults))
  {
    var raw := "CONFIG_SYNC";
    CommandsOnTheWire(raw);
    hide Parse, Message, Apply, OnTheWire;
    MessageArrives(raw);
    SyncDispatch(raw);
    Handles(st, raw, ConfigSync, env, defaults);
    SyncEffect(st.ctl, env);
    hide *;
  }

  lemma SyncEffect(c: Ctl, env: Env)
    ensures StoreEffect(ConfigSync, env) == Sync && CtlEffect(c, ConfigSync, env) == c
  {
  }

  // ---------------------------------------------------------------- the mode as a function of the history

  function CommandOf(r: Round): Option<Command> {
    if r.message.Some? then Some(Parse(Message(r.message.value))) else None
  }

  /** The wrapper lock: what the last SET_WRAPPER said. */
  function LastWrapper(start: int, rs: seq<Round>): int {
    if rs == [] then start
    else
      match CommandOf(rs[|rs| - 1])
      case Some(SetWrapper(enable)) => enable
      case _ => LastWrapper(start, rs[..|rs| - 1])
  }

  /** The state: what the last well-formed SET_DAEMON said. */
  function LastState(start: string, rs: seq<Round>): string {
    if rs == [] then start
    else
      match CommandOf(rs[|rs| - 1])
      case Some(SetDaemon(v)) => if DaemonStateWord(v) then v else LastState(start, rs[..|rs| - 1])
      case _ => LastState(start, rs[..|rs| - 1])
  }

  /** The override a command asks for, if it asks for one; TOGGLE looks at the mode in place. */
  function Asked(cmd: Command, hw: string, env: Env): Option<int> {
    match cmd
    case SetMode(w) =>
      if Contains(w, "auto") || Contains(w, "default") || Contains(w, "reset") then Some(0)
      else if Contains(w, "cache") then Some(1)
      else if Contains(w, "frequency") then Some(2)
      else if Contains(w, "dual") then Some(3)
      else if Contains(w, "swap") then Some(4) else None
    case Toggle => Some(if CanRead(hw, env) && hw == "cache" then 2 else 1)
    case SetWrapper(enable) => Some(if enable != 0 then 1 else 0)
    case SetDaemon(v) => if v == "default" || (v == "auto" && env.forks) then Some(0) else None
    case _ => None
  }

  /** The override: what the last command that asked for one asked for. */
  function LastOverride(st: State, rs: seq<Round>, defaults: Config): int {
    if rs == [] then st.ctl.override
    else
      var n := |rs| - 1;
      var cmd := CommandOf(rs[n]);
      var asked := if cmd.Some? then Asked(cmd.value, Loop(st, rs[..n], defaults).ctl.hw, rs[n].env) else None;
      if asked.Some? then asked.value else LastOverride(st, rs[..n], defaults)
  }

  lemma OverrideIsAsked(c: Ctl, cmd: Command, env: Env)
    ensures CtlEffect(c, cmd, env).override == var a := Asked(cmd, c.hw, env); if a.Some? then a.value else c.override
    ensures CtlEffect(c, cmd, env).wrapper == if cmd.SetWrapper? then cmd.enable else c.wrapper
  {
    hide Contains;
  }

  /** The state word moves with SET_DAEMON alone; a load leaves it, as long as it is in step. */
  lemma StateAfter(s: Store, c: StoreCmd, defaults: Config)
    requires "DAEMON_STATE" in s.cfg && (c.Sync? ==> LoadLeaves(s, defaults, "DAEMON_STATE"))
    ensures "DAEMON_STATE" in Apply(s, c, defaults).cfg
    ensures StateWord(Apply(s, c, defaults)) == if c.SetState? && DaemonStateWord(c.val) then c.val else StateWord(s)
  {
    DaemonStateField();
    hide FieldOf, SysctlKey, Parsed, Updated, Loaded, LoadLeaves, DaemonStateWord;
    if c.Sync? {
      ApplyLeaves(s, c, defaults, "DAEMON_STATE");
    }
    NotStored("DAEMON_STATE");
    hide AdvancedInt, NetworkInt, SharedText, SharedInt, SharedDouble;
  }

  lemma NotStored(k: string)
    requires k == "DAEMON_STATE"
    ensures !SocketKnows(k) && !AdvancedInt(k) && !NetworkInt(k) && !SharedText(k)
  {
  }

  /** One round, seen from its message. */
  lemma RoundHistory(st: State, r: Round, defaults: Config)
    requires Iterate(st, r, defaults).ctl.keep && "DAEMON_STATE" in st.store.cfg
    requires LoadsLeave(st.store, RoundTrace(st, r, defaults), defaults, "DAEMON_STATE")
    ensures var t, cmd := Iterate(st, r, defaults), CommandOf(r);
      var asked := if cmd.Some? then Asked(cmd.value, st.ctl.hw, r.env) else None;
      && "DAEMON_STATE" in t.store.cfg
      && t.ctl.wrapper == (if cmd.Some? && cmd.value.SetWrapper? then cmd.value.enable else st.ctl.wrapper)
      && t.ctl.override == (if asked.Some? then asked.value else st.ctl.override)
      && StateWord(t.store)
         == (if cmd.Some? && cmd.value.SetDaemon? && DaemonStateWord(cmd.value.state) then cmd.value.state
             else StateWord(st.store))
      && StateWord(Received(st, r, defaults).store) == StateWord(t.store)
  {
    hide Parse, Message, Apply, CtlEffect, Poll, StateWord, Asked, LoadsLeave, LoadLeaves, DaemonStateWord;
    var m := Received(st, r, defaults);
    RoundLoads(st, r, defaults, "DAEMON_STATE");
    if r.message.Some? {
      OverrideIsAsked(st.ctl, Parse(Message(r.message.value)), r.env);
      StateAfter(st.store, StoreEffect(Parse(Message(r.message.value)), r.env), defaults);
    }
    PollKeeps(m.ctl, m.store, r.env, r.game);
    if r.reload { StateAfter(m.store, Sync, defaults); }
  }

  /** Both points of a round at which a load may happen. */
  lemma RoundLoads(st: State, r: Round, defaults: Config, k: string)
    requires LoadsLeave(st.store, RoundTrace(st, r, defaults), defaults, k)
    ensures r.message.Some? && StoreEffect(Parse(Message(r.message.value)), r.env).Sync? ==>
      LoadLeaves(st.store, defaults, k)
    ensures Received(st, r, defaults).ctl.keep && r.reload ==> LoadLeaves(Received(st, r, defaults).store, defaults, k)
  {
    hide Parse, Message, Apply, CtlEffect, StoreEffect, LoadLeaves, LoadsLeave;
    var b := if Received(st, r, defaults).ctl.keep && r.reload then [Sync] else [];
    if r.message.Some? {
      LoadsLeaveCons(st.store, StoreEffect(Parse(Message(r.message.value)), r.env), b, defaults, k);
    } else {
      assert [] + b == b;
    }
    if b != [] {
      LoadsLeaveCons(Received(st, r, defaults).store, Sync, [], defaults, k);
      assert [Sync] + [] == b;
    }
  }

  lemma TraceSnoc(st: State, rs: seq<Round>, r: Round, defaults: Config)
    requires Loop(st, rs, defaults).ctl.keep
    ensures Trace(st, rs + [r], defaults) == Trace(st, rs, defaults) + RoundTrace(Loop(st, rs, defaults), r, defaults)
    decreases rs
  {
    hide Iterate, RoundTrace;
    if rs == [] {
      assert rs + [r] == [r] && [r][1..] == [];
    } else {
      assert (rs + [r])[1..] == rs[1..] + [r] && (rs + [r])[0] == rs[0];
      TraceSnoc(Iterate(st, rs[0], defaults), rs[1..], r, defaults);
    }
  }

  /** A daemon that is still running has run every round. */
  lemma RanBefore(st: State, rs: seq<Round>, r: Round, defaults: Config, k: string)
    requires Loop(st, rs + [r], defaults).ctl.keep && LoadsLeave(st.store, Trace(st, rs + [r], defaults), defaults, k)
    ensures var t := Loop(st, rs, defaults);
      && t.ctl.keep && Loop(st, rs + [r], defaults) == Iterate(t, r, defaults)
      && LoadsLeave(st.store, Trace(st, rs, defaults), defaults, k)
      && LoadsLeave(t.store, RoundTrace(t, r, defaults), defaults, k)
  {
    hide *;
    var t := Loop(st, rs, defaults);
    LoopSnoc(st, rs, r, defaults);
    assert t.ctl.keep;
    TraceSnoc(st, rs, r, defaults);
    LoopStore(st, rs, defaults);
    LoadsLeaveSplit(st.store, Trace(st, rs, defaults), RoundTrace(t, r, defaults), defaults, k);
  }

  /** Lock, override and state word are what the last messages about them said, reloads notwithstanding, as
      long as the state is in step when they come. */
  lemma {:induction false} HistoryDecides(st: State, rs: seq<Round>, defaults: Config)
    requires Loop(st, rs, defaults).ctl.keep && "DAEMON_STATE" in st.store.cfg
    requires LoadsLeave(st.store, Trace(st, rs, defaults), defaults, "DAEMON_STATE")
    ensures var t := Loop(st, rs, defaults);
      && "DAEMON_STATE" in t.store.cfg
      && t.ctl.wrapper == LastWrapper(st.ctl.wrapper, rs) && t.ctl.override == LastOverride(st, rs, defaults)
      && StateWord(t.store) == LastState(StateWord(st.store), rs)
    decreases |rs|
  {
    hide *;
    if rs == [] {
      NoHistory(st, defaults);
    } else {
      var n := |rs| - 1;
      SplitLast(rs);
      RanBefore(st, rs[..n], rs[n], defaults, "DAEMON_STATE");
      HistoryDecides(st, rs[..n], defaults);
      RoundHistory(Loop(st, rs[..n], defaults), rs[n], defaults);
      LastSteps(st, rs, defaults);
    }
  }

  lemma NoHistory(st: State, defaults: Config)
    ensures Loop(st, [], defaults) == st && LastWrapper(st.ctl.wrapper, []) == st.ctl.wrapper
    ensures LastOverride(st, [], defaults) == st.ctl.override
    ensures LastState(StateWord(st.store), []) == StateWord(st.store)
  {
    hide StateWord;
  }

  lemma LastSteps(st: State, rs: seq<Round>, defaults: Config)
    requires rs != []
    ensures var n, cmd := |rs| - 1, CommandOf(rs[|rs| - 1]);
      && LastWrapper(st.ctl.wrapper, rs)
         == (if cmd.Some? && cmd.value.SetWrapper? then cmd.value.enable else LastWrapper(st.ctl.wrapper, rs[..n]))
      && LastState(StateWord(st.store), rs)
         == (if cmd.Some? && cmd.value.SetDaemon? && DaemonStateWord(cmd.value.state) then cmd.value.state
             else LastState(StateWord(st.store), rs[..n]))
      && LastOverride(st, rs, defaults)
         == (if cmd.Some? && Asked(cmd.value, Loop(st, rs[..n], defaults).ctl.hw, rs[n].env).Some?
             then Asked(cmd.value, Loop(st, rs[..n], defaults).ctl.hw, rs[n].env).value
             else LastOverride(st, rs[..n], defaults))
  {
    hide CommandOf, Asked, Loop, StateWord, DaemonStateWord;
  }

  /** The decision as a function of the messages, and for TOGGLE of the mode it found. */
  function HistoryDecision(st: State, rs: seq<Round>, game: bool, defaults: Config): Option<string> {
    if LastWrapper(st.ctl.wrapper, rs) != 0 then Some("cache")
    else if LastState(StateWord(st.store), rs) == "default" && LastOverride(st, rs, defaults) < 3 then
      Some(AutoTarget(LastOverride(st, rs, defaults), game))
    else None
  }

  /** The mode in place after any run of messages, polls and reloads is the one the history of messages
      decides, whenever it decides one: `cache` under the wrapper lock; in state `default` the mode of the last
      override, or `cache` if and only if the last poll detected a game. */
  lemma ModeIsDecidedByHistory(st: State, rs: seq<Round>, r: Round, defaults: Config)
    requires Loop(st, rs + [r], defaults).ctl.keep && "DAEMON_STATE" in st.store.cfg
    requires st.ctl.hw != [] && GoodNode(r.env)
    requires LoadsLeave(st.store, Trace(st, rs + [r], defaults), defaults, "DAEMON_STATE")
    ensures var d := HistoryDecision(st, rs + [r], r.game, defaults);
      d.Some? ==> Loop(st, rs + [r], defaults).ctl.hw == d.value
  {
    hide LoadsLeave, Loop, Trace, RoundTrace, StateWord, Asked, CommandOf, DaemonStateWord, LastOverride, LastWrapper,
      LastState;
    var t := Loop(st, rs, defaults);
    RanBefore(st, rs, r, defaults, "DAEMON_STATE");
    HistoryDecides(st, rs, defaults);
    HistoryDecides(st, rs + [r], defaults);
    LoopNode(st, rs, defaults);
    RoundHistory(t, r, defaults);
    FinalRound(t, r, defaults);
  }

  /** The mode a round leaves, in terms of the state it leaves. */
  lemma FinalRound(t: State, r: Round, defaults: Config)
    requires t.ctl.hw != [] && GoodNode(r.env) && Iterate(t, r, defaults).ctl.keep
    requires StateWord(Received(t, r, defaults).store) == StateWord(Iterate(t, r, defaults).store)
    ensures var e := Iterate(t, r, defaults);
      var d := Decision(e.ctl, e.store, r.game);
      d.Some? ==> e.ctl.hw == d.value
  {
    hide Parse, Message, Apply, CtlEffect, StateWord;
    var m := Received(t, r, defaults);
    if r.message.Some? { EffectKeepsNode(t.ctl, Parse(Message(r.message.value)), r.env); }
    PollKeeps(m.ctl, m.store, r.env, r.game);
    var d := Decision(m.ctl, m.store, r.game);
    if d.Some? {
      assert d.value == "cache" || d.value == "frequency";
      hide Received;
      PollEnforcesDecision(m.ctl, m.store, r.env, r.game);
      hide Poll;
    }
  }

  /** The node never reads empty. */
  lemma {:induction false} LoopNode(st: State, rs: seq<Round>, defaults: Config)
    requires st.ctl.hw != []
    ensures Loop(st, rs, defaults).ctl.hw != []
    decreases rs
  {
    if rs != [] && st.ctl.keep {
      RoundNode(st, rs[0], defaults);
      hide Iterate;
      LoopNode(Iterate(st, rs[0], defaults), rs[1..], defaults);
    }
  }

  lemma RoundNode(st: State, r: Round, defaults: Config)
    requires st.ctl.hw != []
    ensures Iterate(st, r, defaults).ctl.hw != []
  {
    hide Parse, Message, Apply, CtlEffect, Poll;
    var m := Received(st, r, defaults);
    if r.message.Some? { EffectKeepsNode(st.ctl, Parse(Message(r.message.value)), r.env); }
    PollKeeps(m.ctl, m.store, r.env, r.game);
  }

  // ---------------------------------------------------------------- the eBPF detector

  /** The detector runs only while the setting is on. */
  predicate DetectorAllowed(st: State) {
    "EBPF_ENABLE" in st.store.cfg && (st.ctl.bpf ==> EbpfEnabled(st.store))
  }

  lemma CommandKeepsDetector(st: State, cmd: Command, env: Env, defaults: Config)
    requires DetectorAllowed(st)
    requires StoreEffect(cmd, env).Sync? ==> LoadLeaves(st.store, defaults, "EBPF_ENABLE")
    ensures DetectorAllowed(State(Apply(st.store, StoreEffect(cmd, env), defaults), CtlEffect(st.ctl, cmd, env)))
  {
    EbpfField();
    var k, c := "EBPF_ENABLE", StoreEffect(cmd, env);
    BpfAfter(st.ctl, cmd, env);
    hide FieldOf, SysctlKey, Updated, Loaded, LoadLeaves, CtlEffect, DaemonStateWord;
    if !Touches(c, k) {
      ApplyLeaves(st.store, c, defaults, k);
      hide Apply;
    }
  }

  lemma BpfAfter(c: Ctl, cmd: Command, env: Env)
    ensures CtlEffect(c, cmd, env).bpf ==
      if cmd.SetConfig? && cmd.key == "EBPF_ENABLE" then IntOf(cmd.val) != 0 && (c.bpf || env.starts) else c.bpf
  {
    hide Contains, IntOf;
  }

  lemma EbpfField()
    ensures FieldOf("EBPF_ENABLE") == Some(IntField) && Cached("EBPF_ENABLE") && SocketKnows("EBPF_ENABLE")
    ensures forall name :: SysctlKey(name) != Some("EBPF_ENABLE")
  {
    hide SysctlKey;
  }

  lemma RoundKeepsDetector(st: State, r: Round, defaults: Config)
    requires DetectorAllowed(st) && LoadsLeave(st.store, RoundTrace(st, r, defaults), defaults, "EBPF_ENABLE")
    ensures DetectorAllowed(Iterate(st, r, defaults))
  {
    hide Parse, Message, Apply, CtlEffect, Poll, LoadsLeave, LoadLeaves, EbpfEnabled;
    RoundLoads(st, r, defaults, "EBPF_ENABLE");
    var m := Received(st, r, defaults);
    if r.message.Some? { CommandKeepsDetector(st, Parse(Message(r.message.value)), r.env, defaults); }
    assert DetectorAllowed(m);
    PollKeeps(m.ctl, m.store, r.env, r.game);
    if r.reload && m.ctl.keep { ReloadKeepsDetector(Polled(m, r), defaults); }
  }

  lemma ReloadKeepsDetector(st: State, defaults: Config)
    requires DetectorAllowed(st) && LoadLeaves(st.store, defaults, "EBPF_ENABLE")
    ensures DetectorAllowed(st.(store := Apply(st.store, Sync, defaults)))
  {
    hide FieldOf, LoadLeaves;
    ApplyLeaves(st.store, Sync, defaults, "EBPF_ENABLE");
    hide Apply;
  }

  /** The eBPF detector is active only while EBPF_ENABLE is set, through any run in which that field is in
      step when a load comes. */
  lemma {:induction false} DetectorFollowsSetting(st: State, rs: seq<Round>, defaults: Config)
    requires DetectorAllowed(st) && LoadsLeave(st.store, Trace(st, rs, defaults), defaults, "EBPF_ENABLE")
    ensures DetectorAllowed(Loop(st, rs, defaults))
    decreases rs
  {
    if rs != [] && st.ctl.keep {
      hide LoadsLeave, Iterate, RoundTrace, DetectorAllowed;
      var t := Iterate(st, rs[0], defaults);
      RoundStore(st, rs[0], defaults);
      LoadsLeaveSplit(st.store, RoundTrace(st, rs[0], defaults), Trace(t, rs[1..], defaults), defaults, "EBPF_ENABLE");
      RoundKeepsDetector(st, rs[0], defaults);
      DetectorFollowsSetting(t, rs[1..], defaults);
    }
  }

  // ---------------------------------------------------------------- messages

  lemma {:induction false} UntilEolIsClean(s: string)
    ensures UntilEol(s) <= s && '\r' !in UntilEol(s) && '\n' !in UntilEol(s)
  {
    if s != [] && s[0] != '\r' && s[0] != '\n' {
      UntilEolIsClean(s[1..]);
    }
  }

  lemma SplitArgClean(m: string, skip: nat)
    requires skip <= |m| && CleanText(m)
    ensures var r := SplitArg(m, skip);
      r.Some? ==> CleanText(r.value.0) && CleanText(r.value.1) && ' ' !in r.value.0
  {
  }

  lemma MessageIsClean(raw: string)
    ensures CleanText(Message(raw))
  {
    var s := CStr(Take(raw, MESSAGE_LIMIT));
    UntilEolIsClean(s);
    hide UntilEol, CStr;
    assert forall k :: 0 <= k < |UntilEol(s)| ==> UntilEol(s)[k] == s[k];
  }

  /** Whatever arrives on the socket, a key has no blank, and neither key nor value holds a newline or a
      NUL: every accepted SET_CONFIG is about one line of the file. */
  lemma MessagesAreClean(raw: string)
    ensures var cmd := Parse(Message(raw));
      && (cmd.SetConfig? ==> CleanText(cmd.key) && CleanText(cmd.val) && ' ' !in cmd.key)
      && (cmd.AdvancedSet? ==> CleanText(cmd.text))
  {
    MessageIsClean(raw);
    hide Message, TuningPrefix, IntOf, SplitArg, CleanText;
    var m := Message(raw);
    if 11 <= |m| { SplitArgClean(m, 11); }
    if 13 <= |m| { SplitArgClean(m, 13); }
  }

  /** The command the GUI sends for a setting, in its 256-byte buffer. */
  function SetConfigMessage(key: string, val: string): string {
    Take("SET_CONFIG " + key + " " + val, 255)
  }

  /** It is what `printf_sn` makes of the format. */
  lemma SetConfigIsPrinted(symbols: Format.Symbols, key: string, val: string)
    ensures var args := [Format.StrArg(key), Format.StrArg(val)];
      && Format.WellFormed(symbols, "SET_CONFIG %s %s", args)
      && Take(Format.Render(symbols, "SET_CONFIG %s %s", args), 255) == SetConfigMessage(key, val)
  {
    hide *;
    var k, v := Format.StrArg(key), Format.StrArg(val);
    LastField(symbols, val);
    var f := " %s";
    var g := "%s" + f;
    Format.RenderString(symbols, key, f, [v]);
    assert [k] + [v] == [k, v];
    Format.RenderLiteral(symbols, "SET_CONFIG ", g, [k, v]);
    assert "SET_CONFIG " + g == "SET_CONFIG %s %s";
    assert "SET_CONFIG " + (key + (" " + val)) == "SET_CONFIG " + key + " " + val;
    MessageText(key, val);
  }

  lemma MessageText(key: string, val: string)
    ensures SetConfigMessage(key, val) == Take("SET_CONFIG " + key + " " + val, 255)
  {
  }

  lemma LastField(symbols: Format.Symbols, val: string)
    ensures var v := [Format.StrArg(val)];
      Format.WellFormed(symbols, " %s", v) && Format.Render(symbols, " %s", v) == " " + val
  {
    var v := [Format.StrArg(val)];
    Format.NothingToRender(symbols);
    hide *;
    Format.RenderString(symbols, val, "", []);
    var f := "%s" + "";
    assert v + [] == v && val + "" == val;
    Format.RenderLiteral(symbols, " ", f, v);
    assert " " + f == " %s";
  }

  /** The text GET_CONFIG sends for a number is what `printf_sn` leaves in its 128-byte buffer. */
  lemma NumberIsPrinted(symbols: Format.Symbols, n: int)
    requires -TWO_31 <= n < TWO_31
    ensures Format.WellFormed(symbols, "%d", [Format.IntArg(n)])
    ensures Take(Format.Render(symbols, "%d", [Format.IntArg(n)]), 127) == Decimal(n)
  {
    Format.NothingToRender(symbols);
    Format.DecimalFits(n);
    hide *;
    Format.RenderInt(symbols, n, "", []);
    assert "%d" + "" == "%d" && [Format.IntArg(n)] + [] == [Format.IntArg(n)];
    assert Decimal(n) + "" == Decimal(n);
  }

  /** GET_CONFIG REFRESH_INTERVAL: what its `%.2f` makes of any number is the answer `f`. */
  lemma RefreshIsPrinted(symbols: Format.Symbols, cfg: Config, args: seq<Format.Arg>)
    requires "REFRESH_INTERVAL" in cfg && cfg["REFRESH_INTERVAL"].RealV?
    ensures Format.WellFormed(symbols, "%.2f", args)
    ensures ConfigGet(cfg, "REFRESH_INTERVAL") == Take(Format.Render(symbols, "%.2f", args), 127)
  {
    assert FieldOf("REFRESH_INTERVAL").Some? by { hide GeneralInt, AdvancedInt, NetworkInt, IrqInt, DeveloperInt; }
    hide *;
    Format.RenderTwoDecimals(symbols, args);
    RefreshAnswer(cfg);
    TakeAll("f", 127);
  }

  lemma RefreshAnswer(cfg: Config)
    requires "REFRESH_INTERVAL" in cfg && cfg["REFRESH_INTERVAL"].RealV? && FieldOf("REFRESH_INTERVAL").Some?
    ensures ConfigGet(cfg, "REFRESH_INTERVAL") == "f"
  {
    hide FieldOf;
  }

  lemma GetConfigDispatch(k: string)
    ensures Parse("GET_CONFIG " + k) == GetConfig(k)
  {
    hide TuningPrefix, ParseMore;
    var m := "GET_CONFIG " + k;
    assert m[0] == 'G' && m[..11] == "GET_CONFIG " && m[11..] == k;
  }

  /** GET_CONFIG of a field answers what memory holds for it. */
  lemma GetConfigAnswers(st: State, k: string, env: Env)
    requires FieldOf(k).Some?
    ensures Reply(st, "GET_CONFIG " + k, env) == Some(ConfigGet(st.store.cfg, k))
  {
    hide Parse, Message, FieldOf, ConfigGet, OnTheWire, Capitals, FieldName;
    FieldNamesArePlain(k);
    FieldOnTheWire(k);
    MessageArrives("GET_CONFIG " + k);
    GetConfigDispatch(k);
    Answers(st, "GET_CONFIG " + k, k, env);
  }

  lemma Answers(st: State, raw: string, k: string, env: Env)
    requires Parse(Message(raw)) == GetConfig(k)
    ensures Reply(st, raw, env) == Some(ConfigGet(st.store.cfg, k))
  {
    hide Parse, Message, ConfigGet;
  }

  lemma FieldOnTheWire(k: string)
    requires Capitals(k)
    ensures OnTheWire("GET_CONFIG " + k)
    ensures CleanText(k) && '\r' !in k && ' ' !in k && |k| <= 32
  {
  }

  /** The setting sent with SET_CONFIG comes back with GET_CONFIG, over any rounds of the loop in between that do
      not set it anew, and with loads that find it in step: for every integer field and every int. */
  lemma SettingComesBack(st: State, first: Round, rs: seq<Round>, k: string, n: int, env: Env, defaults: Config)
    requires SocketKnows(k) && FieldOf(k) == Some(IntField) && -TWO_31 <= n < TWO_31
    requires st.ctl.keep && first.message == Some(SetConfigMessage(k, Decimal(n)))
    requires var cs := Trace(st, [first] + rs, defaults);
      && cs != [] && Untouched(cs[1..], k)
      && LoadsLeave(Apply(st.store, SetKey(k, Decimal(n)), defaults), cs[1..], defaults, k)
    ensures Reply(Loop(st, [first] + rs, defaults), "GET_CONFIG " + k, env) == Some(Decimal(n))
  {
    assert -TWO_63 < n < TWO_63;
    hide *;
    FieldNamesArePlain(k);
    FieldOnTheWire(k);
    ShortSetting(k, n);
    NumberOnTheWire(n);
    SetConfigRoundTrip(k, Decimal(n));
    SettingKept(st, first, rs, k, n, defaults);
    GetConfigAnswers(Loop(st, [first] + rs, defaults), k, env);
  }

  /** What memory answers after the loop. */
  lemma SettingKept(st: State, first: Round, rs: seq<Round>, k: string, n: int, defaults: Config)
    requires SocketKnows(k) && FieldOf(k) == Some(IntField) && -TWO_31 <= n < TWO_31 && CleanText(Decimal(n))
    requires st.ctl.keep && first.message.Some? && Parse(Message(first.message.value)) == SetConfig(k, Decimal(n))
    requires var cs := Trace(st, [first] + rs, defaults);
      && cs != [] && Untouched(cs[1..], k)
      && LoadsLeave(Apply(st.store, SetKey(k, Decimal(n)), defaults), cs[1..], defaults, k)
    ensures ConfigGet(Loop(st, [first] + rs, defaults).store.cfg, k) == Decimal(n)
  {
    assert StoreEffect(SetConfig(k, Decimal(n)), first.env) == SetKey(k, Decimal(n)) by { hide Decimal; }
    hide *;
    var cs := Trace(st, [first] + rs, defaults);
    FirstOfTrace(st, first, rs, SetConfig(k, Decimal(n)), defaults);
    LoopStore(st, [first] + rs, defaults);
    RunFirst(st.store, cs, defaults);
    SetThenGet(st.store, k, n, cs[1..], defaults);
  }

  lemma ShortSetting(k: string, n: int)
    requires Capitals(k) && -TWO_63 < n < TWO_63
    ensures |k| + |Decimal(n)| <= 243
  {
    Format.DecimalFits(n);
    hide Decimal;
  }

  lemma NumberOnTheWire(n: int)
    ensures CleanText(Decimal(n)) && '\r' !in Decimal(n)
  {
    var m: nat := if n < 0 then -n else n;
    var ds := Digits(m, 10);
    assert DigitRun(ds, 0, |ds|, 10);
    assert forall i :: 0 <= i < |ds| ==> DigitOf(ds[i]) < 10;
    hide Digits;
  }

  lemma FirstOfTrace(st: State, first: Round, rs: seq<Round>, cmd: Command, defaults: Config)
    requires st.ctl.keep && first.message.Some? && Parse(Message(first.message.value)) == cmd
    ensures var cs := Trace(st, [first] + rs, defaults);
      cs != [] && cs[0] == StoreEffect(cmd, first.env)
  {
    hide Parse, Message, Iterate, StoreEffect, Received;
    assert ([first] + rs)[0] == first;
  }

  lemma RunFirst(s: Store, cs: seq<StoreCmd>, defaults: Config)
    requires cs != []
    ensures Run(s, cs, defaults) == Run(Apply(s, cs[0], defaults), cs[1..], defaults)
  {
    hide Apply;
  }

  // The format of DAEMON_INFO.
  const STATE_NAME: string := "STATE="
  const OVERRIDE_NAME: string := "|OVERRIDE="
  const BPF_NAME: string := "|BPF_ACTIVE="
  const REFRESH_NAME: string := "|REFRESH_INTERVAL="
  const MASK_NAME: string := "|MASK="
  const CAPS_NAME: string := "|CAPS="

  function InfoFormat(): string {
    STATE_NAME + ("%s" + (OVERRIDE_NAME + ("%d" + (BPF_NAME + ("%d" + InfoTailFormat())))))
  }

  function InfoTailFormat(): string {
    REFRESH_NAME + ("%.1f" + (MASK_NAME + ("%s" + (CAPS_NAME + "%llx"))))
  }

  /** A text without directives or symbols. */
  predicate Name(s: string) {
    '%' !in s && '$' !in s
  }

  lemma InfoNames()
    ensures Name(STATE_NAME) && Name(OVERRIDE_NAME) && Name(BPF_NAME)
    ensures Name(REFRESH_NAME) && Name(MASK_NAME) && Name(CAPS_NAME)
  {
  }

  lemma NamedString(symbols: Format.Symbols, name: string, s: string, fmt: string, args: seq<Format.Arg>)
    requires Name(name) && Format.WellFormed(symbols, fmt, args)
    ensures var f, a := name + ("%s" + fmt), [Format.StrArg(s)] + args;
      Format.WellFormed(symbols, f, a) && Format.Render(symbols, f, a) == name + (s + Format.Render(symbols, fmt, args))
  {
    hide Format.WellFormed, Format.Render;
    Format.RenderString(symbols, s, fmt, args);
    Format.RenderLiteral(symbols, name, "%s" + fmt, [Format.StrArg(s)] + args);
  }

  lemma NamedInt(symbols: Format.Symbols, name: string, n: int, fmt: string, args: seq<Format.Arg>)
    requires Name(name) && Format.WellFormed(symbols, fmt, args) && -TWO_31 <= n < TWO_31
    ensures var f, a := name + ("%d" + fmt), [Format.IntArg(n)] + args;
      && Format.WellFormed(symbols, f, a)
      && Format.Render(symbols, f, a) == name + (Decimal(n) + Format.Render(symbols, fmt, args))
  {
    hide Format.WellFormed, Format.Render, Decimal;
    Format.RenderInt(symbols, n, fmt, args);
    Format.RenderLiteral(symbols, name, "%d" + fmt, [Format.IntArg(n)] + args);
  }

  /** The end of the answer: the capability mask is lost on the formatter. */
  function InfoTail(whole: int, tenth: nat, mask: string): string
    requires tenth <= 10
  {
    REFRESH_NAME + (Format.Tenths(whole, tenth) + (MASK_NAME + (mask + (CAPS_NAME + "llx"))))
  }

  lemma TailIsPrinted(symbols: Format.Symbols, whole: int, tenth: nat, mask: string, caps: Format.Arg)
    requires -TWO_63 <= whole < TWO_63 && tenth <= 10
    ensures var f, a := InfoTailFormat(), [Format.DoubleArg(whole, tenth)] + ([Format.StrArg(mask)] + [caps]);
      Format.WellFormed(symbols, f, a) && Format.Render(symbols, f, a) == InfoTail(whole, tenth, mask)
  {
    hide Format.Tenths, Format.Render, Format.WellFormed, Name, STATE_NAME, OVERRIDE_NAME, BPF_NAME, REFRESH_NAME,
      MASK_NAME, CAPS_NAME;
    InfoNames();
    var a5 := [Format.StrArg(mask)] + [caps];
    var f5 := MASK_NAME + ("%s" + (CAPS_NAME + "%llx"));
    Format.RenderLongLong(symbols, [caps]);
    LiteralThen(symbols, CAPS_NAME, "%llx", [caps]);
    NamedString(symbols, MASK_NAME, mask, CAPS_NAME + "%llx", [caps]);
    Format.RenderOneDecimal(symbols, whole, tenth, f5, a5);
    LiteralThen(symbols, REFRESH_NAME, "%.1f" + f5, [Format.DoubleArg(whole, tenth)] + a5);
  }

  lemma LiteralThen(symbols: Format.Symbols, name: string, fmt: string, args: seq<Format.Arg>)
    requires Name(name) && Format.WellFormed(symbols, fmt, args)
    ensures Format.WellFormed(symbols, name + fmt, args)
    ensures Format.Render(symbols, name + fmt, args) == name + Format.Render(symbols, fmt, args)
  {
    hide Format.WellFormed, Format.Render;
    Format.RenderLiteral(symbols, name, fmt, args);
  }

  /** What DAEMON_INFO sends, field by field. */
  lemma InfoIsPrinted(symbols: Format.Symbols, state: string, override: int, bpf: int, whole: int, tenth: nat,
                      mask: string, caps: Format.Arg)
    requires -TWO_31 <= override < TWO_31 && -TWO_31 <= bpf < TWO_31 && -TWO_63 <= whole < TWO_63 && tenth <= 10
    ensures var tail := [Format.DoubleArg(whole, tenth)] + ([Format.StrArg(mask)] + [caps]);
      var args := [Format.StrArg(state)] + ([Format.IntArg(override)] + ([Format.IntArg(bpf)] + tail));
      && Format.WellFormed(symbols, InfoFormat(), args)
      && Format.Render(symbols, InfoFormat(), args)
         == STATE_NAME + (state + (OVERRIDE_NAME + (Decimal(override) + (BPF_NAME + (Decimal(bpf)
            + InfoTail(whole, tenth, mask))))))
  {
    hide Format.Tenths, Format.Render, Format.WellFormed, Name, STATE_NAME, OVERRIDE_NAME, BPF_NAME, Decimal, InfoTail,
      InfoTailFormat;
    InfoNames();
    TailIsPrinted(symbols, whole, tenth, mask, caps);
    var a4 := [Format.DoubleArg(whole, tenth)] + ([Format.StrArg(mask)] + [caps]);
    var a3 := [Format.IntArg(bpf)] + a4;
    var f3 := BPF_NAME + ("%d" + InfoTailFormat());
    NamedInt(symbols, BPF_NAME, bpf, InfoTailFormat(), a4);
    NamedInt(symbols, OVERRIDE_NAME, override, f3, a3);
    NamedString(symbols, STATE_NAME, state, OVERRIDE_NAME + ("%d" + f3), [Format.IntArg(override)] + a3);
  }

  /** Printed by the GUI and parsed by the daemon, a setting arrives as it was sent. */
  lemma SetConfigRoundTrip(key: string, val: string)
    requires CleanText(key) && CleanText(val) && '\r' !in key && '\r' !in val && ' ' !in key
    requires |key| + |val| <= 243
    ensures Parse(Message(SetConfigMessage(key, val))) == SetConfig(key, val)
  {
    var m := "SET_CONFIG " + key + " " + val;
    assert OnTheWire(m);
    MessageArrives(m);
    MessageText(key, val);
    hide *;
    assert Take(m, 255) == m by { TakeAll(m, 255); }
    SplitAtBlank(m, 11, key, val);
    SetConfigDispatch(m);
  }

  lemma TakeAll(m: string, limit: nat)
    requires |m| <= limit
    ensures Take(m, limit) == m
  {
  }

  /** A text that arrives as it was sent. */
  predicate OnTheWire(m: string) {
    '\0' !in m && '\n' !in m && '\r' !in m && |m| <= 511
  }

  /** Of a longer one the first 511 bytes arrive. */
  lemma MessageIsCut(raw: string)
    ensures Message(raw) == Message(Take(raw, 511)) && |Message(raw)| <= 511
  {
    var s := Take(raw, MESSAGE_LIMIT);
    assert Take(s, MESSAGE_LIMIT) == s;
    UntilEolIsClean(CStr(s));
    hide UntilEol, CStr;
  }

  lemma MessageArrives(m: string)
    requires OnTheWire(m)
    ensures Message(m) == m
  {
    UntilEolClean(m);
    hide UntilEol;
  }

  /** It changes the one setting and nothing else, but for the detector that EBPF_ENABLE starts and stops. */
  lemma SetConfigArrives(st: State, key: string, val: string, env: Env, defaults: Config)
    requires CleanText(key) && CleanText(val) && '\r' !in key && '\r' !in val && ' ' !in key
    requires |key| + |val| <= 243
    ensures Handle(st, SetConfigMessage(key, val), env, defaults)
            == State(Apply(st.store, SetKey(key, val), defaults),
                     st.ctl.(bpf := if key == "EBPF_ENABLE" then IntOf(val) != 0 && (st.ctl.bpf || env.starts)
                                    else st.ctl.bpf))
  {
    hide Parse, Message, Apply, SetConfigMessage, IntOf;
    SetConfigRoundTrip(key, val);
    Handles(st, SetConfigMessage(key, val), SetConfig(key, val), env, defaults);
    hide Handle;
  }

  lemma SplitAtBlank(m: string, skip: nat, key: string, val: string)
    requires skip <= |m| && m[skip..] == key + " " + val && ' ' !in key
    ensures SplitArg(m, skip) == Some((key, val))
  {
    var arg := m[skip..];
    assert arg[|key|] == ' ' && forall i :: 0 <= i < |key| ==> arg[i] == key[i];
    assert IndexOf(arg, ' ') == |key|;
    assert arg[..|key|] == key && arg[|key| + 1..] == val;
  }

  /** A SET command whose fifth letter is none of those the first half of the chain knows. */
  lemma PastTuning(m: string)
    requires |m| >= 6 && m[..4] == "SET_" && (m[4] in {'D', 'W'} || (m[4] == 'C' && m[5] == 'O'))
    ensures Parse(m) == ParseMore(m)
  {
    assert m[0] == m[..4][0] && m[2] == m[..4][2];
    NoTuningLetter(m);
    hide ParseMore, TuningPrefix;
  }

  lemma NoTuningLetter(m: string)
    requires |m| >= 6 && m[0] == 'S' && (m[4] in {'D', 'W'} || (m[4] == 'C' && m[5] == 'O'))
    ensures !TuningPrefix(m)
  {
  }

  lemma SetConfigDispatch(m: string)
    requires "SET_CONFIG " <= m && SplitArg(m, 11).Some?
    ensures Parse(m) == SetConfig(SplitArg(m, 11).value.0, SplitArg(m, 11).value.1)
  {
    hide SplitArg, IntOf;
    assert m[..11] == "SET_CONFIG ";
    assert m[..4] == m[..11][..4] == "SET_" && m[4] == 'C' && m[5] == 'O';
    assert ParseMore(m) == SetConfig(SplitArg(m, 11).value.0, SplitArg(m, 11).value.1) by { hide Parse; }
    hide Parse, ParseMore;
    PastTuning(m);
  }

  /** The other command words reach their handlers: no earlier prefix of the chain catches them. */
  lemma SetModeDispatch(word: string)
    ensures Parse("SET_MODE " + word) == SetMode(word)
  {
    hide TuningPrefix, IntOf, SplitArg;
    var m := "SET_MODE " + word;
    assert m[0] == 'S' && m[..9] == "SET_MODE " && m[9..] == word;
  }

  lemma SetDaemonDispatch(state: string)
    ensures Parse("SET_DAEMON " + state) == SetDaemon(state)
  {
    hide IntOf, SplitArg;
    var m := "SET_DAEMON " + state;
    assert m[..11] == "SET_DAEMON " && m[11..] == state;
    assert m[..4] == m[..11][..4] == "SET_" && m[4] == 'D';
    assert ParseMore(m) == SetDaemon(state) by { hide Parse; }
    hide Parse, ParseMore;
    PastTuning(m);
  }

  lemma SetWrapperDispatch(m: string)
    requires "SET_WRAPPER " <= m
    ensures Parse(m) == SetWrapper(IntOf(m[12..]))
  {
    hide IntOf, SplitArg;
    assert m[..12] == "SET_WRAPPER ";
    assert m[..4] == m[..12][..4] == "SET_" && m[4] == 'W';
    assert ParseMore(m) == SetWrapper(IntOf(m[12..])) by { hide Parse; }
    hide Parse, ParseMore;
    PastTuning(m);
  }

  lemma SetWrapperNumber(n: int)
    requires -TWO_31 <= n < TWO_31
    ensures Parse("SET_WRAPPER " + Decimal(n)) == SetWrapper(n)
  {
    AtoiOfItoa(n, "");
    hide *;
    var m := "SET_WRAPPER " + Decimal(n);
    assert m[12..] == Decimal(n) == Decimal(n) + "";
    SetWrapperDispatch(m);
  }

  lemma ToggleDispatch(m: string)
    requires "TOGGLE" <= m
    ensures Parse(m) == Toggle
  {
    hide IntOf, SplitArg, TuningPrefix;
    assert m[..6] == "TOGGLE" && m[0] == 'T';
  }

  /** Every tuning command starts with SET or GET. */
  lemma NotTuning(m: string)
    requires m != [] && m[0] != 'S' && m[0] != 'G'
    ensures !TuningPrefix(m)
  {
  }

  lemma DisableDispatch(m: string)
    requires "DAEMON_DISABLE" <= m
    ensures Parse(m) == Disable
  {
    hide IntOf, SplitArg, TuningPrefix;
    assert m[..14] == "DAEMON_DISABLE";
    assert m[0] == 'D' && m[7] == 'D';
    NotTuning(m);
  }

  lemma SyncDispatch(m: string)
    requires "CONFIG_SYNC" <= m
    ensures Parse(m) == ConfigSync
  {
    hide IntOf, SplitArg, TuningPrefix;
    assert m[..11] == "CONFIG_SYNC" && m[0] == 'C';
    NotTuning(m);
  }

  // ---------------------------------------------------------------- the program

  /** The daemon process: its globals, the buffers of `daemon()` and the node it drives. */
  class Process {
    const conf: DaemonConf
    var hw: string
    var target: string
    var current: string
    var override: int
    var wrapper: int
    var keep: bool
    var bpf: bool
    ghost var writes: nat

    ghost function View(): State
      reads this, conf
    {
      State(conf.State(), Ctl(hw, target, current, override, wrapper, keep, bpf, writes))
    }

    constructor (conf: DaemonConf, hw: string, target: string, current: string)
      ensures this.conf == conf
      ensures View() == State(conf.State(), Ctl(hw, target, current, 0, 0, true, false, 0))
    {
      this.conf := conf;
      this.hw, this.target, this.current := hw, target, current;
      override, wrapper, keep, bpf, writes := 0, 0, true, false, 0;
    }

    /** `cli_set_mode`. */
    method WriteMode(mode: string, env: Env)
      modifies this`hw
      ensures hw == Written(old(hw), mode, env)
    {
      if env.path && mode in env.accepts && mode != [] { hw := mode; }
    }

    /** The guarded write both branches of the poll end in. */
    method PushTarget(ok: bool, env: Env)
      modifies this`hw, this`writes
      ensures if ok && current != target && target != []
              then hw == Written(old(hw), target, env) && writes == old(writes) + 1
              else hw == old(hw) && writes == old(writes)
    {
      if ok && current != target && target != [] {
        WriteMode(target, env);
        writes := writes + 1;
      }
    }

    method PollingRun(env: Env, game: bool)
      modifies this
      ensures View() == old(View()).(ctl := Poll(old(View()).ctl, old(View()).store, env, game))
    {
      hide StateWord;
      var ok := env.path && env.readable && hw != [];
      if ok { current := Take(hw, MODE_LIMIT); } else if !env.path { current := "unknown"; }
      if wrapper == 0 && override < 3 && StateWord(conf.State()) == "default" {
        if override == 1 { target := "cache"; }
        else if override == 2 { target := "frequency"; }
        else { target := if game then "cache" else "frequency"; }
        PushTarget(ok, env);
      } else {
        if wrapper != 0 { target := "cache"; }
        PushTarget(ok, env);
        target := Take(current, 31);
      }
    }

    method SetModeCommand(word: string, env: Env)
      modifies this`hw, this`override
      ensures View().ctl == SetModeEffect(old(View()).ctl, word, env)
    {
      hide Contains;
      var auto := Strstr(word, "auto");
      var default_ := Strstr(word, "default");
      var reset := Strstr(word, "reset");
      if auto.Some? || default_.Some? || reset.Some? { override := 0; return; }
      var cache := Strstr(word, "cache");
      if cache.Some? { override := 1; WriteMode("cache", env); return; }
      var freq := Strstr(word, "frequency");
      if freq.Some? { override := 2; WriteMode("frequency", env); return; }
      var dual := Strstr(word, "dual");
      if dual.Some? { override := 3; WriteMode("dual", env); return; }
      var swap := Strstr(word, "swap");
      if swap.Some? { override := 4; WriteMode("swap", env); }
    }

    /** The part of `socket_handle` that acts on the controller. */
    method ControlCommand(cmd: Command, env: Env)
      modifies this`hw, this`override, this`wrapper, this`keep, this`bpf
      ensures View().ctl == CtlEffect(old(View()).ctl, cmd, env)
    {
      hide SetModeEffect, IntOf;
      match cmd
      case Toggle =>
        var mode := if env.path && env.readable && hw != [] && hw == "cache" then "frequency" else "cache";
        override := if mode == "cache" then 1 else 2;
        WriteMode(mode, env);
      case SetMode(word) => SetModeCommand(word, env);
      case SetDaemon(v) =>
        if v == "default" || (v == "auto" && env.forks) { override := 0; }
      case SetWrapper(enable) =>
        wrapper := enable;
        if enable != 0 {
          WriteMode("cache", env);
          override := 1;
        } else {
          WriteMode("frequency", env);
          override := 0;
        }
      case SetConfig(k, v) =>
        if k == "EBPF_ENABLE" {
          var enable := Atoi(v);
          if enable != 0 && !bpf { bpf := env.starts; } else if enable == 0 && bpf { bpf := false; }
        }
      case Unpark => WriteMode("dual", env);
      case Disable => keep := false;
      case _ =>
    }

    /** The answer, in terms of the state the message finds. */
    method Answer(cmd: Command, ghost raw: string, env: Env) returns (reply: Option<string>)
      requires cmd == Parse(Message(raw))
      ensures reply == Reply(View(), raw, env)
    {
      hide Parse, Message, ConfigGet, Contains, SysctlKey;
      match cmd
      case Ping => reply := Some("OK");
      case AskMode =>
        if !env.path { reply := Some("unknown"); }
        else if env.readable && hw != [] { reply := Some(Take(hw, MODE_LIMIT)); }
        else { reply := None; }
      case GetConfig(k) => reply := Some(ConfigGet(conf.cfg, k));
      case SetMode(word) =>
        var known := Recognises(word);
        reply := if known then Some("OK") else Some("ERR");
      case SetDaemon(v) =>
        var ok := (v == "manual" || v == "auto" || v == "default") && (v != "auto" || env.forks);
        reply := if ok then Some("OK") else Some("ERR");
      case AdvancedSet(name, _) => reply := if SysctlKey(name).Some? && env.sysctl then Some("OK") else Some("ERR");
      case Unpark => reply := if env.path && "dual" in env.accepts then Some("OK") else Some("ERR");
      case Rejected => reply := Some("ERR");
      case Query => reply := None;
      case Tuning => reply := None;
      case _ => reply := Some("OK");
    }

    static method Recognises(word: string) returns (known: bool)
      ensures known == KnownMode(word)
    {
      hide Contains;
      var words := ["auto", "default", "reset", "cache", "frequency", "dual", "swap"];
      var i := 0;
      while i < |words|
        invariant 0 <= i <= |words| && forall j :: 0 <= j < i ==> !Contains(word, words[j])
      {
        var hit := Strstr(word, words[i]);
        if hit.Some? { return true; }
        i := i + 1;
      }
      assert !Contains(word, words[0]) && !Contains(word, words[1]) && !Contains(word, words[2])
        && !Contains(word, words[3]) && !Contains(word, words[4]) && !Contains(word, words[5])
        && !Contains(word, words[6]);
      return false;
    }

    method SocketHandle(raw: string, env: Env, defaults: Config) returns (reply: Option<string>)
      modifies this, conf
      ensures View() == Handle(old(View()), raw, env, defaults)
      ensures reply == Reply(old(View()), raw, env)
    {
      hide Parse, Message, Apply, CtlEffect, Reply;
      var cmd := Parse(Message(raw));
      MessagesAreClean(raw);
      reply := Answer(cmd, raw, env);
      conf.Handle(StoreEffect(cmd, env), defaults);
      ControlCommand(cmd, env);
    }

    /** `daemon()` up to its loop. */
    method Start(env: Env, defaults: Config)
      modifies this, conf
      ensures View() == StartUp(old(View()), env, defaults)
    {
      hide Apply;
      conf.Handle(Sync, defaults);
      if EbpfEnabled(conf.State()) { bpf := env.starts; }
      WriteMode("frequency", env);
      if StateWord(conf.State()) == "" { conf.cfg := conf.cfg["DAEMON_STATE" := TextV("default")]; }
      if StateWord(conf.State()) == "default" { WriteMode("frequency", env); }
    }

    /** The loop of `daemon()`. */
    method MainLoop(rounds: seq<Round>, defaults: Config)
      modifies this, conf
      ensures View() == Loop(old(View()), rounds, defaults)
    {
      hide Handle, Poll, Apply;
      var rs := rounds;
      while keep && rs != []
        invariant Loop(old(View()), rounds, defaults) == Loop(View(), rs, defaults)
        decreases |rs|
      {
        var r := rs[0];
        rs := rs[1..];
        if r.message.Some? { var _ := SocketHandle(r.message.value, r.env, defaults); }
        if !keep { break; }
        PollingRun(r.env, r.game);
        if r.reload { conf.Handle(Sync, defaults); }
      }
    }
  }
}
