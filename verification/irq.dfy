/** IRQ pinning of src/irq.c within one process: discovery, saved masks, bind, teardown and the
    irqbalance marker. */
module Irq {
  import opened Text
  import opened Numbers
  import opened Libc

  const MAX_VECTORS: nat := 64
  const INTERRUPTS_LIMIT: nat := 8191
  const MASK_READ: nat := 63
  const GPU: nat := 0
  const NVME: nat := 1
  const USB: nat := 2
  const NIC: nat := 3
  const DEVICES: nat := 5

  /** The part of the configuration that decides what is bound; `target` is the resolved core. */
  datatype Settings = Settings(enable: bool, pinning: int, devices: seq<bool>, target: int, coalesce: bool)

  /** What the process works on: `/proc/irq/N/smp_affinity_list` without its newline, the saved masks
      under the state directory, irqbalance and its marker file. The kernel refuses writes to the
      `frozen` interrupts. */
  datatype Machine = Machine(affinity: map<int, string>, saved: map<int, string>, balancer: bool, marker: bool,
                             frozen: set<int>)

  /** The network side: the coalescing delay of every interface in microseconds, the interface names last
      discovered, and whether the udev rule file exists. */
  datatype Net = Net(rates: map<string, int>, nics: seq<string>, rules: bool)

  /** The process: machine, network, the five vector lists and the settings last loaded. */
  datatype State = State(machine: Machine, lists: seq<seq<int>>, settings: Settings, net: Net)

  predicate Valid(st: State) {
    |st.lists| == DEVICES && |st.settings.devices| == DEVICES
  }

  // ---------------------------------------------------------------- discovery

  /** The vectors of the lines that mention a driver, in order, at most 64. */
  function FoundIn(ls: seq<string>, token: string): (irqs: seq<int>)
    ensures |irqs| <= 64
  {
    if ls == [] then []
    else
      var n := |ls| - 1;
      var irqs := FoundIn(ls[..n], token);
      if |irqs| < MAX_VECTORS && Contains(ls[n], token) && IntOf(ls[n]) > 0 then irqs + [IntOf(ls[n])] else irqs
  }

  function Found(text: string, token: string): seq<int> {
    FoundIn(Lines(CStr(Take(text, INTERRUPTS_LIMIT))), token)
  }

  function FoundEither(text: string, first: string, second: string): seq<int> {
    if Found(text, first) != [] then Found(text, first) else Found(text, second)
  }

  /** The vectors that signal by message; the others are left alone. */
  function Verified(irqs: seq<int>, msi: set<int>): seq<int> {
    if irqs == [] then []
    else Verified(irqs[..|irqs| - 1], msi) + (if irqs[|irqs| - 1] in msi then [irqs[|irqs| - 1]] else [])
  }

  /** The list a device class gets in a bind. */
  function DeviceList(d: nat, text: string, msi: set<int>): seq<int>
    requires d < DEVICES
  {
    if d == GPU then Verified(FoundEither(text, "amdgpu", "nouveau"), msi)
    else if d == NVME then Found(text, "nvme")
    else if d == USB then Found(text, "xhci_hcd")
    else if d == NIC then FoundEither(text, "eth", "enp")
    else FoundEither(text, "snd_hda", "snd-hda")
  }

  predicate DriverLine(ls: seq<string>, token: string, irq: int) {
    exists i :: 0 <= i < |ls| && Contains(ls[i], token) && IntOf(ls[i]) == irq
  }

  /** A list that is not full holds exactly the positive numbers that start a line of the driver. */
  lemma {:induction false} FoundIff(ls: seq<string>, token: string, irq: int)
    ensures irq in FoundIn(ls, token) ==> irq > 0 && DriverLine(ls, token, irq)
    ensures |FoundIn(ls, token)| < 64 && irq > 0 && DriverLine(ls, token, irq) ==> irq in FoundIn(ls, token)
  {
    hide Contains, IntOf;
    if ls != [] {
      var n := |ls| - 1;
      FoundIff(ls[..n], token, irq);
      assert DriverLine(ls, token, irq)
        <==> DriverLine(ls[..n], token, irq) || (Contains(ls[n], token) && IntOf(ls[n]) == irq) by {
        if DriverLine(ls[..n], token, irq) {
          var i :| 0 <= i < n && Contains(ls[..n][i], token) && IntOf(ls[..n][i]) == irq;
          assert ls[..n][i] == ls[i];
        }
        assert forall i :: 0 <= i < n ==> ls[..n][i] == ls[i];
      }
    }
  }

  // ---------------------------------------------------------------- network interfaces

  const MAX_NICS: nat := 8
  const NAME_LIMIT: nat := 31

  const NIC_TOKENS: seq<string> := ["eth", "enp", "eno", "wlan"]

  /** The first of the tokens that occurs in the line, where it occurs first. */
  function TokenAt(l: string, tokens: seq<string>): (r: Option<nat>)
    ensures r.Some? ==> r.value <= |l|
  {
    if tokens == [] then None
    else if Find(l, tokens[0], 0).Some? then Find(l, tokens[0], 0)
    else TokenAt(l, tokens[1..])
  }

  /** The end of a name: a blank, a hyphen, or 31 bytes. */
  function NameEnd(l: string, i: nat, stop: nat): (j: nat)
    requires i <= |l|
    ensures i <= j <= |l| && (j > i ==> j <= stop)
    decreases |l| - i
  {
    if i == |l| || l[i] == ' ' || l[i] == '-' || i >= stop then i else NameEnd(l, i + 1, stop)
  }

  function NameOf(l: string, at: nat): string
    requires at <= |l|
  {
    l[at..NameEnd(l, at, at + NAME_LIMIT)]
  }

  /** One name a line that mentions an interface, at most eight. */
  function NicNames(ls: seq<string>): (names: seq<string>)
    ensures |names| <= 8 && forall i :: 0 <= i < |names| ==> |names[i]| <= 31
  {
    if ls == [] then []
    else
      var n := |ls| - 1;
      var names := NicNames(ls[..n]);
      var at := TokenAt(ls[n], NIC_TOKENS);
      if |names| < MAX_NICS && at.Some? then names + [NameOf(ls[n], at.value)] else names
  }

  function NicsIn(text: string): seq<string> {
    NicNames(Lines(CStr(Take(text, INTERRUPTS_LIMIT))))
  }

  /** `ethtool` on one interface, which must exist. */
  function SetRate(rates: map<string, int>, name: string, usecs: int): map<string, int> {
    if name in rates then rates[name := usecs] else rates
  }

  /** `apply_coalescing`. */
  function SetRates(rates: map<string, int>, names: seq<string>, usecs: int): map<string, int> {
    if names == [] then rates
    else SetRate(SetRates(rates, names[..|names| - 1], usecs), names[|names| - 1], usecs)
  }

  const FAST: int := 0   // while bound
  const SLOW: int := 50  // after a teardown, whatever was set before

  // ---------------------------------------------------------------- one interrupt

  predicate Writable(m: Machine, irq: int) {
    irq in m.affinity && irq !in m.frozen
  }

  function WriteMask(m: Machine, irq: int, mask: string): Machine {
    if Writable(m, irq) && mask != [] then m.(affinity := m.affinity[irq := mask]) else m
  }

  /** `save_original_mask`: whatever was saved before is overwritten. */
  function Save(m: Machine, irq: int): Machine {
    if irq in m.affinity then m.(saved := m.saved[irq := Take(m.affinity[irq], MASK_READ)]) else m
  }

  /** `apply_affinity`. */
  function Bind1(m: Machine, irq: int, core: int): Machine {
    WriteMask(Save(m, irq), irq, Decimal(core))
  }

  /** `restore_affinity`: an empty saved file counts as missing. */
  function Restore1(m: Machine, irq: int): Machine {
    if irq in m.saved && m.saved[irq] != [] then
      var w := WriteMask(m, irq, m.saved[irq]);
      w.(saved := w.saved - {irq})
    else m
  }

  function BindAll(m: Machine, irqs: seq<int>, core: int): Machine {
    if irqs == [] then m else Bind1(BindAll(m, irqs[..|irqs| - 1], core), irqs[|irqs| - 1], core)
  }

  function RestoreAll(m: Machine, irqs: seq<int>): Machine {
    if irqs == [] then m else Restore1(RestoreAll(m, irqs[..|irqs| - 1]), irqs[|irqs| - 1])
  }

  // ---------------------------------------------------------------- the interface

  function StopBalancer(m: Machine): Machine {
    if m.balancer then m.(balancer := false, marker := true) else m
  }

  function RestoreBalancer(m: Machine): Machine {
    if m.marker then m.(balancer := true, marker := false) else m
  }

  predicate Active(s: Settings) {
    s.enable && s.pinning != 3
  }

  const NO_LISTS: seq<seq<int>> := [[], [], [], [], []]

  /** `irq_init` with readable settings. A negative target core ends it early, lists and irqbalance
      untouched. */
  function Init(st: State, s: Settings): State {
    if Active(s) && s.target >= 0 then State(StopBalancer(st.machine), NO_LISTS, s, st.net)
    else st.(settings := s)
  }

  function Flatten(lists: seq<seq<int>>): seq<int> {
    if lists == [] then [] else Flatten(lists[..|lists| - 1]) + lists[|lists| - 1]
  }

  predicate Rebinds(st: State, d: nat)
    requires Valid(st) && d < DEVICES
  {
    Active(st.settings) && st.settings.devices[d]
  }

  /** The vectors a bind pins, device class after device class. */
  function Bound(st: State, text: string, msi: set<int>, n: nat): seq<int>
    requires Valid(st) && n <= DEVICES
  {
    if n == 0 then []
    else Bound(st, text, msi, n - 1) + (if Rebinds(st, n - 1) then DeviceList(n - 1, text, msi) else [])
  }

  function NewLists(st: State, text: string, msi: set<int>): (ls: seq<seq<int>>)
    requires Valid(st)
    ensures |ls| == DEVICES
  {
    seq(DEVICES, d requires 0 <= d < DEVICES => if Rebinds(st, d) then DeviceList(d, text, msi) else st.lists[d])
  }

  /** A bind looks for interfaces only behind network vectors, and only for coalescing. */
  predicate Coalesces(st: State, text: string, msi: set<int>)
    requires Valid(st)
  {
    Rebinds(st, NIC) && DeviceList(NIC, text, msi) != [] && st.settings.coalesce
  }

  function BindNet(st: State, text: string, msi: set<int>): Net
    requires Valid(st)
  {
    if Coalesces(st, text, msi) then st.net.(rates := SetRates(st.net.rates, NicsIn(text), FAST), nics := NicsIn(text))
    else st.net
  }

  /** `irq_bind_gpu` followed by `irq_bind_peripherals`. */
  function BindState(st: State, text: string, msi: set<int>): State
    requires Valid(st)
  {
    State(BindAll(st.machine, Bound(st, text, msi, DEVICES), st.settings.target), NewLists(st, text, msi), st.settings,
          BindNet(st, text, msi))
  }

  /** `irq_gen_udev`, the rule file being writable. */
  function WriteRules(st: State): State {
    if Active(st.settings) then st.(net := st.net.(rules := true)) else st
  }

  function TeardownNet(st: State): Net {
    Net(if st.settings.coalesce then SetRates(st.net.rates, st.net.nics, SLOW) else st.net.rates, st.net.nics, false)
  }

  /** `irq_teardown`. */
  function Teardown(st: State): State {
    st.(machine := RestoreBalancer(RestoreAll(st.machine, Flatten(st.lists))), net := TeardownNet(st))
  }

  // ---------------------------------------------------------------- what binding and restoring do

  /** How often a vector occurs in a list. */
  function Times(irqs: seq<int>, i: int): nat {
    if irqs == [] then 0 else Times(irqs[..|irqs| - 1], i) + (if irqs[|irqs| - 1] == i then 1 else 0)
  }

  lemma {:induction false} TimesIsMembership(irqs: seq<int>, i: int)
    ensures Times(irqs, i) > 0 <==> i in irqs
  {
    if irqs != [] {
      TimesIsMembership(irqs[..|irqs| - 1], i);
    }
  }

  lemma {:induction false} TimesAppend(a: seq<int>, b: seq<int>, i: int)
    ensures Times(a + b, i) == Times(a, i) + Times(b, i)
  {
    if b == [] {
      assert a + b == a;
    } else {
      TimesAppend(a, b[..|b| - 1], i);
      assert (a + b)[..|a + b| - 1] == a + b[..|b| - 1];
    }
  }

  /** Nothing but masks and saved files moves. */
  predicate SameFrame(a: Machine, b: Machine) {
    a.affinity.Keys == b.affinity.Keys && a.frozen == b.frozen && a.balancer == b.balancer && a.marker == b.marker
  }

  predicate SavedAlike(a: Machine, b: Machine, i: int) {
    (i in a.saved <==> i in b.saved) && (i in a.saved ==> a.saved[i] == b.saved[i])
  }

  lemma Bind1Effect(m: Machine, irq: int, core: int, i: int)
    ensures var b := Bind1(m, irq, core);
      && SameFrame(b, m)
      && (i in m.affinity ==> b.affinity[i] == if irq == i && i !in m.frozen then Decimal(core) else m.affinity[i])
      && (irq != i || i !in m.affinity ==> SavedAlike(b, m, i))
      && (irq == i && i in m.affinity ==> i in b.saved && b.saved[i] == Take(m.affinity[i], 63))
  {
    NumeralNotEmpty(core);
    hide Decimal;
  }

  /** Binding, interrupt by interrupt: the core is written, and what was there is saved; a second
      occurrence saves the core instead. */
  lemma {:induction false} BindEffect(m: Machine, irqs: seq<int>, core: int, i: int)
    ensures var b := BindAll(m, irqs, core);
      var kept := if Times(irqs, i) == 1 || i in m.frozen then m.affinity else map[i := Decimal(core)];
      && SameFrame(b, m)
      && (i in m.affinity ==>
            b.affinity[i] == if Times(irqs, i) > 0 && i !in m.frozen then Decimal(core) else m.affinity[i])
      && (Times(irqs, i) == 0 || i !in m.affinity ==> SavedAlike(b, m, i))
      && (Times(irqs, i) > 0 && i in m.affinity ==> i in b.saved && b.saved[i] == Take(kept[i], 63))
  {
    if irqs != [] {
      var n := |irqs| - 1;
      BindEffect(m, irqs[..n], core, i);
      Bind1Effect(BindAll(m, irqs[..n], core), irqs[n], core, i);
      hide Decimal, Bind1;
    }
  }

  lemma NumeralNotEmpty(core: int)
    ensures Decimal(core) != []
  {
  }

  /** Restoring, interrupt by interrupt. */
  lemma {:induction false} RestoreEffect(m: Machine, irqs: seq<int>, i: int)
    ensures var r := RestoreAll(m, irqs);
      var due := Times(irqs, i) > 0 && i in m.saved && m.saved[i] != [];
      && SameFrame(r, m)
      && (i in m.affinity ==> r.affinity[i] == if due && i !in m.frozen then m.saved[i] else m.affinity[i])
      && (due ==> i !in r.saved) && (!due ==> SavedAlike(r, m, i))
  {
    if irqs != [] {
      RestoreEffect(m, irqs[..|irqs| - 1], i);
    }
  }

  lemma {:induction false} FlattenHas(lists: seq<seq<int>>, d: nat, i: int)
    requires d < |lists| && i in lists[d]
    ensures i in Flatten(lists)
  {
    if d < |lists| - 1 {
      FlattenHas(lists[..|lists| - 1], d, i);
    }
  }

  /** Whatever a bind pinned is in the lists that a teardown walks. */
  lemma {:induction false} BoundIsListed(st: State, text: string, msi: set<int>, n: nat, i: int)
    requires Valid(st) && n <= DEVICES && i in Bound(st, text, msi, n)
    ensures i in Flatten(NewLists(st, text, msi))
  {
    hide DeviceList;
    if i in Bound(st, text, msi, n - 1) {
      BoundIsListed(st, text, msi, n - 1, i);
    } else {
      FlattenHas(NewLists(st, text, msi), n - 1, i);
    }
  }

  // ---------------------------------------------------------------- cycles

  /** One init, bind, teardown with the settings, `/proc/interrupts` and MSI vectors of that time. */
  datatype Cycle = Cycle(settings: Settings, text: string, msi: set<int>)

  /** `cli_irq_bind`: initialise, bind everything, write the rules. */
  function BoundState(st: State, c: Cycle): (e: State)
    requires Valid(st) && |c.settings.devices| == DEVICES
    ensures Valid(e)
  {
    WriteRules(BindState(Init(st, c.settings), c.text, c.msi))
  }

  function RunCycle(st: State, c: Cycle): (e: State)
    requires Valid(st) && |c.settings.devices| == DEVICES
    ensures Valid(e)
  {
    Teardown(BoundState(st, c))
  }

  /** The vectors pinned in a cycle, with repetitions. */
  function Pinned(st: State, c: Cycle): seq<int>
    requires Valid(st) && |c.settings.devices| == DEVICES
  {
    Bound(Init(st, c.settings), c.text, c.msi, DEVICES)
  }

  /** No files left over from an earlier bind. */
  predicate Idle(m: Machine) {
    m.saved == map[] && !m.marker
  }

  /** The mask an interrupt ends up with after one cycle. */
  function MaskAfterCycle(st: State, c: Cycle, i: int): string
    requires Valid(st) && |c.settings.devices| == DEVICES && i in st.machine.affinity
  {
    var was, core := st.machine.affinity[i], Decimal(c.settings.target);
    var times := Times(Pinned(st, c), i);
    if times == 0 || i in st.machine.frozen then was
    else if times == 1 && was != [] then Take(was, MASK_READ)
    else Take(core, MASK_READ)
  }

  lemma CoreIsShort(core: int)
    requires -TWO_31 <= core < TWO_31
    ensures Take(Decimal(core), MASK_READ) == Decimal(core)
  {
    DigitsFit(if core < 0 then -core else core, 10);
    hide Digits;
  }

  /** One whole cycle from an idle machine, exactly: every mask, and irqbalance. */
  lemma CycleEffect(st: State, c: Cycle, i: int)
    requires Valid(st) && |c.settings.devices| == DEVICES && Idle(st.machine)
    requires -TWO_31 <= c.settings.target < TWO_31
    ensures var e := RunCycle(st, c);
      && Valid(e) && e.machine.affinity.Keys == st.machine.affinity.Keys && e.machine.frozen == st.machine.frozen
      && e.machine.balancer == st.machine.balancer && !e.machine.marker
      && (i in st.machine.affinity ==> e.machine.affinity[i] == MaskAfterCycle(st, c, i))
      && (i in e.machine.saved ==> i in st.machine.affinity && st.machine.affinity[i] == [])
  {
    hide DeviceList, Decimal, Flatten;
    var s1 := Init(st, c.settings);
    var pinned := Pinned(st, c);
    var s2 := BindState(s1, c.text, c.msi);
    CoreIsShort(c.settings.target);
    NumeralNotEmpty(c.settings.target);
    BindEffect(s1.machine, pinned, c.settings.target, i);
    RestoreEffect(s2.machine, Flatten(s2.lists), i);
    TimesIsMembership(pinned, i);
    TimesIsMembership(Flatten(s2.lists), i);
    if i in pinned {
      BoundIsListed(s1, c.text, c.msi, DEVICES, i);
    }
  }

  /** A cycle gives an interrupt its mask back if and only if it was not pinned, or the kernel refused,
      or it was pinned once and its mask fits the 63 bytes that are saved, or it was on the core anyway. */
  lemma CycleRestoresIff(st: State, c: Cycle, i: int)
    requires Valid(st) && |c.settings.devices| == DEVICES && Idle(st.machine) && i in st.machine.affinity
    requires -TWO_31 <= c.settings.target < TWO_31
    ensures i in RunCycle(st, c).machine.affinity
    ensures var was := st.machine.affinity[i];
      var times := Times(Pinned(st, c), i);
      RunCycle(st, c).machine.affinity[i] == was <==>
        || times == 0 || i in st.machine.frozen
        || (times == 1 && 1 <= |was| <= 63)
        || was == Decimal(c.settings.target)
  {
    CycleEffect(st, c, i);
    CoreIsShort(c.settings.target);
    NumeralNotEmpty(c.settings.target);
    hide RunCycle, Decimal, Pinned;
  }

  predicate Readable(m: Machine) {
    forall i :: i in m.affinity ==> 1 <= |m.affinity[i]| <= 63
  }

  ghost predicate Distinct(irqs: seq<int>) {
    forall i :: Times(irqs, i) <= 1
  }

  /** A cycle with pairwise distinct vectors restores the whole machine. */
  lemma CycleRestores(st: State, c: Cycle)
    requires Valid(st) && |c.settings.devices| == DEVICES && Idle(st.machine) && Readable(st.machine)
    requires -TWO_31 <= c.settings.target < TWO_31 && Distinct(Pinned(st, c))
    ensures Valid(RunCycle(st, c)) && RunCycle(st, c).machine == st.machine
  {
    hide RunCycle, Pinned, Decimal;
    var e := RunCycle(st, c);
    forall i: int ensures
      && Valid(e) && e.machine.affinity.Keys == st.machine.affinity.Keys && e.machine.frozen == st.machine.frozen
      && e.machine.balancer == st.machine.balancer && !e.machine.marker
      && i !in e.machine.saved && (i in st.machine.affinity ==> e.machine.affinity[i] == st.machine.affinity[i])
    {
      CycleEffect(st, c, i);
      if i in st.machine.affinity {
        assert Times(Pinned(st, c), i) <= 1;
        CycleRestoresIff(st, c, i);
      }
    }
    CycleEffect(st, c, 0);
    assert e.machine.affinity == st.machine.affinity;
    assert e.machine.saved == map[];
  }

  predicate Proper(c: Cycle) {
    |c.settings.devices| == DEVICES && -TWO_31 <= c.settings.target < TWO_31
  }

  function RunCycles(st: State, cs: seq<Cycle>): (e: State)
    requires Valid(st) && forall k :: 0 <= k < |cs| ==> Proper(cs[k])
    ensures Valid(e)
    decreases cs
  {
    if cs == [] then st else
      assert Proper(cs[0]);
      RunCycles(RunCycle(st, cs[0]), cs[1..])
  }

  /** A run of cycles is the run without the last and then the last. */
  lemma {:induction false} RunCyclesSnoc(st: State, cs: seq<Cycle>, c: Cycle)
    requires Valid(st) && Proper(c) && forall k :: 0 <= k < |cs| ==> Proper(cs[k])
    ensures RunCycles(st, cs + [c]) == RunCycle(RunCycles(st, cs), c)
    decreases cs
  {
    hide RunCycle;
    var all := cs + [c];
    assert forall k :: 0 <= k < |all| ==> Proper(all[k]);
    if cs != [] {
      assert all[1..] == cs[1..] + [c] && all[0] == cs[0];
      RunCyclesSnoc(RunCycle(st, cs[0]), cs[1..], c);
    } else {
      assert all == [c] && all[1..] == [];
    }
  }

  /** In every cycle of the run the vectors found are pairwise distinct. */
  ghost predicate AllDistinct(st: State, cs: seq<Cycle>)
    requires Valid(st) && forall k :: 0 <= k < |cs| ==> Proper(cs[k])
    decreases cs
  {
    cs == [] ||
    (assert Proper(cs[0]);
     Distinct(Pinned(st, cs[0])) && AllDistinct(RunCycle(st, cs[0]), cs[1..]))
  }

  /** Any number of cycles, each with its own settings and its own distinct vectors, leaves every mask,
      every saved file and irqbalance as they were before the first one. */
  lemma {:induction false} CyclesRestore(st: State, cs: seq<Cycle>)
    requires Valid(st) && Idle(st.machine) && Readable(st.machine)
    requires (forall k :: 0 <= k < |cs| ==> Proper(cs[k])) && AllDistinct(st, cs)
    ensures RunCycles(st, cs).machine == st.machine
    decreases cs
  {
    if cs != [] {
      assert Proper(cs[0]);
      hide Distinct, RunCycle, Pinned, Readable, Idle;
      CycleRestores(st, cs[0]);
      CyclesRestore(RunCycle(st, cs[0]), cs[1..]);
    }
  }

  lemma {:induction false} RateAfter(rates: map<string, int>, names: seq<string>, usecs: int, name: string)
    ensures var r := SetRates(rates, names, usecs);
      && (name in r <==> name in rates)
      && (name in rates ==> r[name] == if name in names then usecs else rates[name])
  {
    if names != [] {
      var n := |names| - 1;
      RateAfter(rates, names[..n], usecs, name);
      assert names == names[..n] + [names[n]];
    }
  }

  /** The interfaces a teardown resets: those of this bind, or of the last one that looked. */
  function NicsAfter(st: State, c: Cycle): seq<string>
    requires Valid(st) && |c.settings.devices| == DEVICES
  {
    BindNet(Init(st, c.settings), c.text, c.msi).nics
  }

  /** Coalescing is not restored but set to 50 microseconds: a cycle gives an interface its delay back if and
      only if it was not among the interfaces reset, or coalescing is off, or the delay was 50. */
  lemma CycleRateIff(st: State, c: Cycle, name: string)
    requires Valid(st) && |c.settings.devices| == DEVICES && name in st.net.rates
    ensures name in RunCycle(st, c).net.rates
    ensures RunCycle(st, c).net.rates[name] == st.net.rates[name] <==>
      !c.settings.coalesce || name !in NicsAfter(st, c) || st.net.rates[name] == 50
  {
    var s1 := Init(st, c.settings);
    var s2 := BindState(s1, c.text, c.msi);
    hide DeviceList, NicsIn, BindAll, RestoreAll, Flatten, Bound;
    RateAfter(s1.net.rates, NicsIn(c.text), FAST, name);
    RateAfter(s2.net.rates, s2.net.nics, SLOW, name);
    hide SetRates;
  }

  lemma {:induction false} RulesAreGone(st: State, cs: seq<Cycle>)
    requires Valid(st) && cs != [] && forall k :: 0 <= k < |cs| ==> Proper(cs[k])
    ensures Valid(RunCycles(st, cs)) && !RunCycles(st, cs).net.rules
    decreases cs
  {
    assert Proper(cs[0]);
    if |cs| > 1 {
      hide RunCycle;
      RulesAreGone(RunCycle(st, cs[0]), cs[1..]);
    } else {
      hide BoundState;
      assert cs[1..] == [];
    }
  }

  /** Behind any number of cycles the udev rule file exists exactly while a bind with active settings lasts. */
  lemma RulesFollowBinding(st: State, cs: seq<Cycle>, c: Cycle)
    requires Valid(st) && cs != [] && (forall k :: 0 <= k < |cs| ==> Proper(cs[k])) && Proper(c)
    ensures var t := RunCycles(st, cs);
      && Valid(t) && !t.net.rules && (BoundState(t, c).net.rules <==> Active(c.settings)) && !RunCycle(t, c).net.rules
  {
    RulesAreGone(st, cs);
    hide BindAll, RestoreAll, Flatten, Bound, NewLists, RunCycles, NicsIn, SetRates;
  }

  /** A second teardown changes nothing. */
  lemma SecondTeardownIsNoOp(st: State)
    ensures Teardown(Teardown(st)) == Teardown(st)
  {
    var t := Teardown(st);
    var irqs := Flatten(st.lists);
    hide Flatten, RestoreAll;
    var r := RestoreAll(st.machine, irqs);
    forall i: int ensures
      && (i in RestoreAll(t.machine, irqs).affinity <==> i in r.affinity)
      && (i in r.affinity ==> RestoreAll(t.machine, irqs).affinity[i] == r.affinity[i])
      && (i in RestoreAll(t.machine, irqs).saved <==> i in r.saved)
      && (i in r.saved ==> RestoreAll(t.machine, irqs).saved[i] == r.saved[i])
    {
      RestoreEffect(st.machine, irqs, i);
      RestoreEffect(t.machine, irqs, i);
    }
    RestoreEffect(t.machine, irqs, 0);
    SameNet(st);
    assert RestoreAll(t.machine, irqs).affinity == t.machine.affinity;
    assert RestoreAll(t.machine, irqs).saved == t.machine.saved;
  }

  lemma SameNet(st: State)
    ensures TeardownNet(Teardown(st)) == TeardownNet(st)
  {
    hide RestoreAll, Flatten;
    var r := SetRates(st.net.rates, st.net.nics, SLOW);
    forall name ensures name in SetRates(r, st.net.nics, SLOW) <==> name in r
      ensures name in r ==> SetRates(r, st.net.nics, SLOW)[name] == r[name]
    {
      RateAfter(st.net.rates, st.net.nics, SLOW, name);
      RateAfter(r, st.net.nics, SLOW, name);
    }
    assert SetRates(r, st.net.nics, SLOW) == r;
  }

  /** Binding twice without a teardown loses the original: the second save records the core. */
  lemma RebindForgets(m: Machine, irqs: seq<int>, core: int, i: int)
    requires Times(irqs, i) > 0 && Writable(m, i) && -TWO_31 <= core < TWO_31
    ensures var r := RestoreAll(BindAll(m, irqs + irqs, core), irqs);
      i in r.affinity && r.affinity[i] == Decimal(core)
  {
    BindEffect(m, irqs + irqs, core, i);
    RestoreEffect(BindAll(m, irqs + irqs, core), irqs, i);
    CoreIsShort(core);
    NumeralNotEmpty(core);
    TimesAppend(irqs, irqs, i);
    hide Decimal;
  }

  // ---------------------------------------------------------------- what a bind pins, in the words of the text

  /** Some line starts with the number and names the driver. */
  predicate Names(text: string, driver: string, irq: int) {
    irq > 0 && DriverLine(Lines(CStr(Take(text, 8191))), driver, irq)
  }

  /** No line of the driver starts with a vector. */
  ghost predicate NoVector(text: string, driver: string) {
    forall irq :: !Names(text, driver, irq)
  }

  predicate HasRoom(text: string, driver: string) {
    |Found(text, driver)| < 64
  }

  lemma FoundNames(text: string, driver: string)
    requires HasRoom(text, driver)
    ensures forall irq :: irq in Found(text, driver) <==> Names(text, driver, irq)
    ensures Found(text, driver) == [] <==> NoVector(text, driver)
  {
    var ls := Lines(CStr(Take(text, 8191)));
    assert Found(text, driver) == FoundIn(ls, driver);
    hide DriverLine, FoundIn, Lines, CStr, Found;
    forall irq ensures irq in Found(text, driver) <==> Names(text, driver, irq) {
      FoundIff(ls, driver, irq);
    }
    hide Found, Names;
    if Found(text, driver) != [] { assert Names(text, driver, Found(text, driver)[0]); }
  }

  lemma {:induction false} VerifiedHas(irqs: seq<int>, msi: set<int>, irq: int)
    ensures irq in Verified(irqs, msi) <==> irq in irqs && irq in msi
  {
    if irqs != [] { VerifiedHas(irqs[..|irqs| - 1], msi, irq); }
  }

  /** The filter keeps the order. */
  lemma {:induction false} VerifiedAppend(a: seq<int>, b: seq<int>, msi: set<int>)
    ensures Verified(a + b, msi) == Verified(a, msi) + Verified(b, msi)
  {
    if b == [] {
      assert a + b == a;
    } else {
      var n := |b| - 1;
      assert (a + b)[..|a + b| - 1] == a + b[..n] && (a + b)[|a + b| - 1] == b[n];
      VerifiedAppend(a, b[..n], msi);
    }
  }

  /** A driver, or its fallback when the first yields no vector. */
  ghost predicate NamesEither(text: string, first: string, second: string, irq: int) {
    Names(text, first, irq) || (NoVector(text, first) && Names(text, second, irq))
  }

  lemma EitherNames(text: string, first: string, second: string, irq: int)
    requires HasRoom(text, first) && HasRoom(text, second)
    ensures irq in FoundEither(text, first, second) <==> NamesEither(text, first, second, irq)
  {
    FoundNames(text, first);
    FoundNames(text, second);
    hide Found, Names, HasRoom;
  }

  /** No list is full. */
  predicate AllHaveRoom(text: string) {
    && HasRoom(text, "amdgpu") && HasRoom(text, "nouveau") && HasRoom(text, "nvme") && HasRoom(text, "xhci_hcd")
    && HasRoom(text, "eth") && HasRoom(text, "enp") && HasRoom(text, "snd_hda") && HasRoom(text, "snd-hda")
  }

  /** The settings of a device class, by the order of the classes: graphics, storage, USB, network, audio. */
  ghost predicate ClassNames(d: nat, text: string, msi: set<int>, irq: int) {
    || (d == 0 && irq in msi && NamesEither(text, "amdgpu", "nouveau", irq))
    || (d == 1 && Names(text, "nvme", irq))
    || (d == 2 && Names(text, "xhci_hcd", irq))
    || (d == 3 && NamesEither(text, "eth", "enp", irq))
    || (d == 4 && NamesEither(text, "snd_hda", "snd-hda", irq))
  }

  lemma DeviceListIs(d: nat, text: string, msi: set<int>, irq: int)
    requires d < 5 && AllHaveRoom(text)
    ensures irq in DeviceList(d, text, msi) <==> ClassNames(d, text, msi, irq)
  {
    hide Found, FoundEither, Names, HasRoom, NamesEither;
    if d == 0 {
      VerifiedHas(FoundEither(text, "amdgpu", "nouveau"), msi, irq);
      EitherNames(text, "amdgpu", "nouveau", irq);
    } else if d == 1 {
      FoundNames(text, "nvme");
    } else if d == 2 {
      FoundNames(text, "xhci_hcd");
    } else if d == 3 {
      EitherNames(text, "eth", "enp", irq);
    } else {
      EitherNames(text, "snd_hda", "snd-hda", irq);
    }
    hide Verified;
  }

  lemma {:induction false} BoundHas(st: State, text: string, msi: set<int>, n: nat, irq: int)
    requires Valid(st) && n <= 5
    ensures irq in Bound(st, text, msi, n)
      <==> exists d: nat :: d < n && Rebinds(st, d) && irq in DeviceList(d, text, msi)
  {
    hide DeviceList, Rebinds;
    if n > 0 {
      BoundHas(st, text, msi, n - 1, irq);
    }
  }

  /** With active settings and lists that have room, a writable interrupt that was not on the core ends on it if
      and only if some enabled device class names it. */
  lemma BindPinsIff(st: State, c: Cycle, irq: int)
    requires Valid(st) && |c.settings.devices| == 5 && AllHaveRoom(c.text)
    requires c.settings.enable && c.settings.pinning != 3
    requires Writable(st.machine, irq) && st.machine.affinity[irq] != Decimal(c.settings.target)
    ensures irq in BoundState(st, c).machine.affinity
    ensures BoundState(st, c).machine.affinity[irq] == Decimal(c.settings.target)
      <==> exists d: nat :: d < 5 && c.settings.devices[d] && ClassNames(d, c.text, c.msi, irq)
  {
    var s1 := Init(st, c.settings);
    var pinned := Bound(s1, c.text, c.msi, 5);
    BindEffect(s1.machine, pinned, c.settings.target, irq);
    TimesIsMembership(pinned, irq);
    BoundHas(s1, c.text, c.msi, 5, irq);
    forall d: nat | d < 5
      ensures irq in DeviceList(d, c.text, c.msi) <==> ClassNames(d, c.text, c.msi, irq)
      ensures Rebinds(s1, d) <==> c.settings.devices[d]
    {
      DeviceListIs(d, c.text, c.msi, irq);
    }
    assert BoundState(st, c).machine == BindAll(s1.machine, pinned, c.settings.target) by {
      hide BindAll, Bound, NewLists, BindNet;
    }
    hide Bound, DeviceList, ClassNames, Rebinds, Decimal, BindAll, BoundState;
  }

  /** The list a class is left with, which the teardown goes by: what the text names if the class is bound, and
      otherwise nothing, or its old vectors when the initialisation ended early. */
  lemma ListsAfterBind(st: State, c: Cycle, d: nat, irq: int)
    requires Valid(st) && |c.settings.devices| == 5 && AllHaveRoom(c.text) && d < 5
    ensures var ls := BoundState(st, c).lists;
      var active := c.settings.enable && c.settings.pinning != 3;
      && |ls| == 5
      && (active && c.settings.devices[d] ==> (irq in ls[d] <==> ClassNames(d, c.text, c.msi, irq)))
      && (!(active && c.settings.devices[d]) ==> ls[d] == if active && c.settings.target >= 0 then [] else st.lists[d])
  {
    DeviceListIs(d, c.text, c.msi, irq);
    hide DeviceList, ClassNames, BindAll, Bound, BindNet, AllHaveRoom;
  }

  /** With the settings off, or pinning at 3, a bind does nothing to the machine. */
  lemma InactiveBindsNothing(st: State, c: Cycle)
    requires Valid(st) && |c.settings.devices| == 5 && (!c.settings.enable || c.settings.pinning == 3)
    ensures BoundState(st, c).machine == st.machine && BoundState(st, c).net == st.net
  {
    var s1 := Init(st, c.settings);
    NothingIsBound(s1, c.text, c.msi, 5);
    NothingBound(st.machine, c.settings.target);
    hide Bound, NewLists, BindAll;
  }

  lemma {:induction false} NothingIsBound(st: State, text: string, msi: set<int>, n: nat)
    requires Valid(st) && n <= 5 && !Active(st.settings)
    ensures Bound(st, text, msi, n) == []
  {
    if n > 0 { NothingIsBound(st, text, msi, n - 1); }
  }

  /** While a bind with active settings and a core lasts, irqbalance is stopped, and the marker remembers that it
      ran. */
  lemma BalancerStops(st: State, c: Cycle)
    requires Valid(st) && |c.settings.devices| == 5
    requires c.settings.enable && c.settings.pinning != 3 && c.settings.target >= 0
    ensures var m := BoundState(st, c).machine;
      !m.balancer && (m.marker <==> st.machine.marker || st.machine.balancer)
  {
    var s1 := Init(st, c.settings);
    BindEffect(s1.machine, Bound(s1, c.text, c.msi, DEVICES), c.settings.target, 0);
    hide BindAll, Bound, NewLists, BindNet, Decimal;
  }

  /** While a bind that coalesces lasts, every discovered interface that exists has no delay. */
  lemma BoundRate(st: State, c: Cycle, name: string)
    requires Valid(st) && |c.settings.devices| == 5 && name in st.net.rates
    requires c.settings.enable && c.settings.pinning != 3 && c.settings.devices[3] && c.settings.coalesce
    requires DeviceList(3, c.text, c.msi) != []
    ensures name in BoundState(st, c).net.rates
    ensures BoundState(st, c).net.rates[name] == if name in NicsIn(c.text) then 0 else st.net.rates[name]
  {
    RateAfter(st.net.rates, NicsIn(c.text), FAST, name);
    hide NicsIn, DeviceList, SetRates, BindAll, Bound, NewLists;
  }

  /** The name an interface line gives: from the first of the four tokens that occurs, in that order, to the next
      blank or hyphen, at most 31 bytes. */
  lemma NicOf(l: string, a: string, token: string, more: string, tail: string)
    requires l == a + token + more + tail && Find(l, token, 0) == Some(|a|)
    requires token in {"eth", "enp", "eno", "wlan"}
    requires token != "eth" ==> !Contains(l, "eth")
    requires token == "eno" || token == "wlan" ==> !Contains(l, "enp")
    requires token == "wlan" ==> !Contains(l, "eno")
    requires ' ' !in more && '-' !in more && |token + more| <= 31
    requires |token + more| == 31 || tail == "" || tail[0] == ' ' || tail[0] == '-'
    ensures NicNames([l]) == [token + more]
  {
    hide Find, Contains, TokenAt, NameOf, NicNames;
    TokenFound(l, token, |a|);
    var name := token + more;
    AppendAssoc(a, token, more);
    TokenIsClean(token);
    NameIs(a, name, tail);
    OneName(l, |a|);
  }

  lemma TokenIsClean(token: string)
    requires token in {"eth", "enp", "eno", "wlan"}
    ensures ' ' !in token && '-' !in token
  {
  }

  /** The names come in the order of the lines, and eight are enough. */
  lemma NicsInOrder(ls: seq<string>, l: string)
    ensures NicNames(ls + [l]) == if |NicNames(ls)| < 8 then NicNames(ls) + NicNames([l]) else NicNames(ls)
  {
    assert (ls + [l])[..|ls|] == ls && [l][..0] == [];
    hide TokenAt, NameOf;
    assert NicNames([]) == [];
  }

  /** They are looked for in the lines of at most 8191 bytes, up to a NUL. */
  lemma NicsOfText(text: string, more: string)
    ensures NicsIn(text) == NicsIn(Take(text, 8191)) == NicsIn(text + "\0" + more)
    ensures '\0' !in text && |text| <= 8191 ==> NicsIn(text) == NicNames(Lines(text))
  {
    hide NicNames, Lines;
    assert Take(Take(text, 8191), 8191) == Take(text, 8191);
    CutAtNul(text, more, 8191);
    hide CStr;
  }

  lemma CutAtNul(text: string, more: string, n: nat)
    ensures CStr(Take(text + "\0" + more, n)) == CStr(Take(text, n))
  {
    var t := text + "\0" + more;
    if |text| >= n {
      assert Take(t, n) == Take(text, n);
    } else {
      var u := Take(t, n);
      assert u[..|text|] == text && u[|text|] == '\0';
      var i := IndexOf(text, '\0');
      assert forall k :: 0 <= k < |text| ==> u[k] == text[k];
      assert IndexOf(u, '\0') == i;
      assert u[..i] == text[..i];
    }
  }

  lemma OneName(l: string, at: nat)
    requires TokenAt(l, NIC_TOKENS) == Some(at)
    ensures NicNames([l]) == [NameOf(l, at)]
  {
    hide TokenAt, NameOf;
    assert [l][..0] == [] && NicNames([]) == [];
  }

  lemma TokenFound(l: string, token: string, at: nat)
    requires Find(l, token, 0) == Some(at) && token in {"eth", "enp", "eno", "wlan"}
    requires token != "eth" ==> !Contains(l, "eth")
    requires token == "eno" || token == "wlan" ==> !Contains(l, "enp")
    requires token == "wlan" ==> !Contains(l, "eno")
    ensures TokenAt(l, NIC_TOKENS) == Some(at)
  {
    hide Find, Contains;
    NotFound(l, "eth");
    NotFound(l, "enp");
    NotFound(l, "eno");
    var ts := ["eth", "enp", "eno", "wlan"];
    assert NIC_TOKENS == ts;
    assert ts[1..][0] == "enp" && ts[1..][1..][0] == "eno" && ts[1..][1..][1..][0] == "wlan";
    assert TokenAt(l, ts) == if token == "eth" then Some(at) else TokenAt(l, ts[1..]);
    assert token != "eth" ==> TokenAt(l, ts[1..]) == if token == "enp" then Some(at) else TokenAt(l, ts[1..][1..]);
    assert token == "eno" ==> TokenAt(l, ts[1..][1..]) == Some(at);
    assert token == "wlan" ==> TokenAt(l, ts[1..][1..]) == TokenAt(l, ts[1..][1..][1..]) == Some(at);
  }

  lemma NotFound(l: string, token: string)
    ensures !Contains(l, token) ==> Find(l, token, 0).None?
  {
  }

  lemma NameIs(a: string, name: string, tail: string)
    requires ' ' !in name && '-' !in name && |name| <= 31
    requires |name| == 31 || tail == "" || tail[0] == ' ' || tail[0] == '-'
    ensures NameOf(a + name + tail, |a|) == name
  {
    var l := a + name + tail;
    assert l[|a|..|a + name|] == name;
    forall k | |a| <= k < |a + name| ensures l[k] != ' ' && l[k] != '-' {
      assert l[k] == name[k - |a|];
    }
    assert tail != "" ==> l[|a + name|] == tail[0];
    NameRuns(l, |a|, |a + name|, |a| + NAME_LIMIT);
  }

  lemma {:induction false} NameRuns(l: string, i: nat, j: nat, stop: nat)
    requires i <= j <= |l| && j <= stop && forall k :: i <= k < j ==> l[k] != ' ' && l[k] != '-'
    requires j == |l| || l[j] == ' ' || l[j] == '-' || j >= stop
    ensures NameEnd(l, i, stop) == j
    decreases j - i
  {
    if i < j { NameRuns(l, i + 1, j, stop); }
  }

  // ---------------------------------------------------------------- the program

  /** The process with its static lists and the files it changes. */
  class Controller {
    const frozen: set<int>
    var affinity: map<int, string>
    var saved: map<int, string>
    var balancer: bool
    var marker: bool
    var lists: seq<seq<int>>
    var settings: Settings
    var rates: map<string, int>
    var nics: seq<string>
    var rules: bool

    function Files(): Machine
      reads this
    {
      Machine(affinity, saved, balancer, marker, frozen)
    }

    function View(): State
      reads this
    {
      State(Files(), lists, settings, Network())
    }

    function Network(): Net
      reads this
    {
      Net(rates, nics, rules)
    }

    constructor (m: Machine, s: Settings, n: Net)
      ensures View() == State(m, NO_LISTS, s, n)
    {
      rates, nics, rules := n.rates, n.nics, n.rules;
      frozen := m.frozen;
      affinity, saved, balancer, marker := m.affinity, m.saved, m.balancer, m.marker;
      lists, settings := NO_LISTS, s;
    }

    /** `discover_irqs`. */
    static method Discover(text: string, token: string) returns (irqs: seq<int>)
      ensures irqs == FoundIn(Lines(CStr(Take(text, 8191))), token) == Found(text, token)
    {
      irqs := [];
      assert INTERRUPTS_LIMIT == 8191;
      var line := CStr(Take(text, INTERRUPTS_LIMIT));
      ghost var all := Lines(line);
      ghost var done := [];
      assert done + Lines(line) == all;
      while line != [] && |irqs| < MAX_VECTORS
        invariant done + Lines(line) == all && irqs == FoundIn(done, token)
        decreases |line|
      {
        hide *;
        var l, rest := NextLine(line);
        AppendAssoc(done, [l], Lines(rest));
        irqs := ExamineLine(l, token, irqs, done);
        done, line := done + [l], rest;
      }
      if line == [] {
        assert done + Lines([]) == done;
      } else {
        FullListStays(done, Lines(line), token);
      }
    }

    static method ExamineLine(l: string, token: string, irqs: seq<int>, ghost done: seq<string>)
      returns (irqs': seq<int>)
      requires irqs == FoundIn(done, token) && |irqs| < MAX_VECTORS
      ensures irqs' == FoundIn(done + [l], token)
    {
      hide Contains, IntOf;
      assert (done + [l])[..|done|] == done;
      irqs' := irqs;
      var hit := Strstr(l, token);
      if hit.Some? {
        var irq := Atoi(l);
        if irq > 0 { irqs' := irqs + [irq]; }
      }
    }

    /** `discover_nic_names`. */
    static method DiscoverNames(text: string) returns (names: seq<string>)
      ensures names == NicNames(Lines(CStr(Take(text, 8191)))) == NicsIn(text)
    {
      names := [];
      assert NicsIn(text) == NicNames(Lines(CStr(Take(text, 8191)))) && INTERRUPTS_LIMIT == 8191;
      var line := CStr(Take(text, INTERRUPTS_LIMIT));
      ghost var all := Lines(line);
      ghost var done := [];
      assert done + Lines(line) == all;
      while line != [] && |names| < MAX_NICS
        invariant done + Lines(line) == all && names == NicNames(done)
        decreases |line|
      {
        hide *;
        var l, rest := NextLine(line);
        AppendAssoc(done, [l], Lines(rest));
        names := ExamineName(l, names, done);
        done, line := done + [l], rest;
      }
      if line == [] {
        assert done + Lines([]) == done;
      } else {
        FullNamesStay(done, Lines(line));
      }
    }

    static method ExamineName(l: string, names: seq<string>, ghost done: seq<string>) returns (names': seq<string>)
      requires names == NicNames(done) && |names| < MAX_NICS
      ensures names' == NicNames(done + [l])
    {
      assert (done + [l])[..|done|] == done;
      names' := names;
      var at := FindNic(l);
      if at.Some? {
        var name := CopyName(l, at.value);
        names' := names + [name];
      }
    }

    /** The inner loop over the tokens. */
    static method FindNic(l: string) returns (r: Option<nat>)
      ensures r == TokenAt(l, NIC_TOKENS)
    {
      var tokens := NIC_TOKENS;
      var t := 0;
      assert tokens[0..] == tokens;
      while t < |tokens|
        invariant 0 <= t <= |tokens| && TokenAt(l, tokens[t..]) == TokenAt(l, NIC_TOKENS)
      {
        hide OccursAt, Contains;
        var hit := Strstr(l, tokens[t]);
        FindIs(l, tokens[t], hit);
        assert tokens[t..][0] == tokens[t] && tokens[t..][1..] == tokens[t + 1..];
        if hit.Some? { return hit; }
        t := t + 1;
      }
      return None;
    }

    /** Byte by byte up to a blank or hyphen. */
    static method CopyName(l: string, at: nat) returns (name: string)
      requires at <= |l|
      ensures name == NameOf(l, at)
    {
      var j := at;
      name := [];
      while j < |l| && l[j] != ' ' && l[j] != '-' && j < at + NAME_LIMIT
        invariant at <= j <= |l| && name == l[at..j]
        invariant NameEnd(l, j, at + NAME_LIMIT) == NameEnd(l, at, at + NAME_LIMIT)
      {
        name := name + [l[j]];
        j := j + 1;
      }
    }

    /** `apply_coalescing`. */
    method Coalesce(usecs: int)
      modifies this`rates
      ensures rates == SetRates(old(rates), nics, usecs)
    {
      var i := 0;
      while i < |nics|
        invariant 0 <= i <= |nics| && rates == SetRates(old(rates), nics[..i], usecs)
      {
        assert nics[..i + 1][..i] == nics[..i];
        if nics[i] in rates { rates := rates[nics[i] := usecs]; }
        i := i + 1;
      }
      assert nics[..|nics|] == nics;
    }

    /** `cli_irq_bind`. */
    method Bind(s: Settings, text: string, msi: set<int>)
      requires Valid(View()) && |s.devices| == DEVICES
      modifies this
      ensures View() == BoundState(old(View()), Cycle(s, text, msi))
    {
      ghost var start := View();
      hide BindState, WriteRules;
      Initialise(s);
      assert Valid(View());
      BindDevices(text, msi);
      GenerateRules();
    }

    /** `irq_gen_udev`. */
    method GenerateRules()
      modifies this`rules
      ensures View() == WriteRules(old(View()))
    {
      if settings.enable && settings.pinning != 3 { rules := true; }
    }

    static method DiscoverEither(text: string, first: string, second: string) returns (irqs: seq<int>)
      ensures irqs == FoundEither(text, first, second)
    {
      hide Found;
      irqs := Discover(text, first);
      if irqs == [] { irqs := Discover(text, second); }
    }

    /** `apply_affinity`, saving first. */
    method ApplyAffinity(irq: int, core: int)
      modifies this`affinity, this`saved
      ensures Files() == Bind1(old(Files()), irq, core)
    {
      hide Decimal;
      if irq in affinity { saved := saved[irq := Take(affinity[irq], MASK_READ)]; }
      NumeralNotEmpty(core);
      if irq in affinity && irq !in frozen { affinity := affinity[irq := Decimal(core)]; }
    }

    /** `apply_list`. */
    method ApplyList(irqs: seq<int>, core: int)
      modifies this`affinity, this`saved
      ensures Files() == BindAll(old(Files()), irqs, core)
    {
      hide Bind1;
      var i := 0;
      while i < |irqs|
        invariant 0 <= i <= |irqs| && Files() == BindAll(old(Files()), irqs[..i], core)
      {
        assert irqs[..i + 1][..i] == irqs[..i];
        ApplyAffinity(irqs[i], core);
        i := i + 1;
      }
      assert irqs[..|irqs|] == irqs;
    }

    /** `irq_init`. */
    method Initialise(s: Settings)
      modifies this
      ensures View() == Init(old(View()), s)
    {
      settings := s;
      if !s.enable || s.pinning == 3 || s.target < 0 { return; }
      if balancer {
        marker := true;
        balancer := false;
      }
      lists := NO_LISTS;
    }

    /** The drivers of each device class, with their fallbacks. */
    static method DiscoverFor(d: nat, text: string, msi: set<int>) returns (irqs: seq<int>)
      requires d < DEVICES
      ensures irqs == DeviceList(d, text, msi)
    {
      hide Found, FoundEither, Verified;
      if d == GPU {
        irqs := DiscoverEither(text, "amdgpu", "nouveau");
        irqs := KeepVerified(irqs, msi);
      } else if d == NVME {
        irqs := Discover(text, "nvme");
      } else if d == USB {
        irqs := Discover(text, "xhci_hcd");
      } else if d == NIC {
        irqs := DiscoverEither(text, "eth", "enp");
      } else {
        irqs := DiscoverEither(text, "snd_hda", "snd-hda");
      }
    }

    /** One device class of a bind: discover, keep the list, pin its vectors. */
    method BindDevice(d: nat, text: string, msi: set<int>, ghost start: State)
      requires d < DEVICES && Valid(start) && |lists| == DEVICES && settings == start.settings
      requires Files() == BindAll(start.machine, Bound(start, text, msi, d), settings.target)
      requires d <= NIC ==> Network() == start.net
      modifies this`affinity, this`saved, this`lists, this`rates, this`nics
      ensures Files() == BindAll(start.machine, Bound(start, text, msi, d + 1), settings.target)
      ensures lists == old(lists)[d := if Rebinds(start, d) then DeviceList(d, text, msi) else old(lists)[d]]
      ensures Network() == if d == NIC then BindNet(start, text, msi) else old(Network())
    {
      BindStep(start, text, msi, d, settings.target);
      hide DeviceList, BindAll, BindNet, Bound;
      if settings.enable && settings.pinning != 3 && settings.devices[d] {
        Rebind(d, text, msi, start);
      }
    }

    /** The part of it behind the tests. */
    method Rebind(d: nat, text: string, msi: set<int>, ghost start: State)
      requires d < DEVICES && Valid(start) && |lists| == DEVICES && settings == start.settings && Rebinds(start, d)
      requires d <= NIC ==> Network() == start.net
      modifies this`affinity, this`saved, this`lists, this`rates, this`nics
      ensures Files() == BindAll(old(Files()), DeviceList(d, text, msi), settings.target)
      ensures lists == old(lists)[d := DeviceList(d, text, msi)]
      ensures Network() == if d == NIC then BindNet(start, text, msi) else old(Network())
    {
      hide DeviceList, BindAll, BindNet, Rebinds;
      var irqs := DiscoverFor(d, text, msi);
      lists := lists[d := irqs];
      ApplyList(irqs, settings.target);
      if d == NIC { BindNetwork(text, irqs, msi, start); }
    }

    /** Coalescing, behind the network vectors. */
    method BindNetwork(text: string, irqs: seq<int>, ghost msi: set<int>, ghost start: State)
      requires Valid(start) && Rebinds(start, NIC) && irqs == DeviceList(NIC, text, msi)
      requires settings == start.settings && Network() == start.net
      modifies this`rates, this`nics
      ensures Network() == BindNet(start, text, msi)
    {
      hide DeviceList, NicsIn, SetRates;
      if irqs != [] && settings.coalesce {
        nics := DiscoverNames(text);
        Coalesce(FAST);
      }
    }

    static method KeepVerified(irqs: seq<int>, msi: set<int>) returns (ok: seq<int>)
      ensures ok == Verified(irqs, msi)
    {
      ok := [];
      var i := 0;
      while i < |irqs|
        invariant 0 <= i <= |irqs| && ok == Verified(irqs[..i], msi)
      {
        assert irqs[..i + 1][..i] == irqs[..i];
        if irqs[i] in msi { ok := ok + [irqs[i]]; }
        i := i + 1;
      }
      assert irqs[..|irqs|] == irqs;
    }

    /** `irq_bind_gpu`, then `irq_bind_peripherals`. */
    method BindDevices(text: string, msi: set<int>)
      requires |lists| == DEVICES && |settings.devices| == DEVICES
      modifies this`affinity, this`saved, this`lists, this`rates, this`nics
      ensures View() == BindState(old(View()), text, msi)
    {
      ghost var start := View();
      hide DeviceList, BindAll, Found, FoundEither, BindNet;
      NothingBound(start.machine, settings.target);
      var d := 0;
      while d < DEVICES
        invariant 0 <= d <= DEVICES && |lists| == DEVICES && settings == start.settings
        invariant Files() == BindAll(start.machine, Bound(start, text, msi, d), settings.target)
        invariant forall k :: 0 <= k < d ==> lists[k] == NewLists(start, text, msi)[k]
        invariant forall k :: d <= k < DEVICES ==> lists[k] == start.lists[k]
        invariant Network() == if d <= NIC then start.net else BindNet(start, text, msi)
      {
        BindDevice(d, text, msi, start);
        d := d + 1;
      }
      assert lists == NewLists(start, text, msi);
    }

    /** `restore_affinity`. */
    method RestoreAffinity(irq: int)
      modifies this`affinity, this`saved
      ensures Files() == Restore1(old(Files()), irq)
    {
      if irq in saved && saved[irq] != [] {
        var mask := saved[irq];
        if irq in affinity && irq !in frozen { affinity := affinity[irq := mask]; }
        saved := saved - {irq};
      }
    }

    /** `irq_teardown`: the nested restore loops, then irqbalance. */
    method TearDown()
      modifies this
      ensures View() == Teardown(old(View()))
    {
      hide Restore1;
      ghost var start := Files();
      var all := lists;
      var l := 0;
      while l < |all|
        invariant 0 <= l <= |all| && lists == all && settings == old(settings) && Network() == old(Network())
        invariant Files() == RestoreAll(start, Flatten(all[..l]))
      {
        var list := all[l];
        var i := 0;
        assert Flatten(all[..l]) + list[..0] == Flatten(all[..l]);
        while i < |list|
          invariant 0 <= i <= |list| && lists == all && settings == old(settings) && Network() == old(Network())
          invariant Files() == RestoreAll(start, Flatten(all[..l]) + list[..i])
        {
          RestoreSnoc(start, Flatten(all[..l]), list, i);
          RestoreAffinity(list[i]);
          i := i + 1;
        }
        assert list[..|list|] == list && all[..l + 1][..l] == all[..l];
        l := l + 1;
      }
      assert all[..|all|] == all;
      if settings.coalesce && |nics| > 0 { Coalesce(SLOW); }
      rules := false;
      if marker {
        balancer := true;
        marker := false;
      }
    }
  }

  lemma FindIs(h: string, n: string, r: Option<nat>)
    requires r.Some? ==> OccursAt(h, n, r.value) && forall k :: 0 <= k < r.value ==> !OccursAt(h, n, k)
    requires r.Some? <==> Contains(h, n)
    ensures r == Find(h, n, 0)
  {
    if r.Some? {
      assert r.value <= |h|;
      assert Find(h, n, 0).Some?;
    }
  }

  /** Eight names do not grow. */
  lemma {:induction false} FullNamesStay(done: seq<string>, more: seq<string>)
    requires |NicNames(done)| == MAX_NICS
    ensures NicNames(done + more) == NicNames(done)
  {
    if more == [] {
      assert done + more == done;
    } else {
      hide TokenAt, NameOf;
      FullNamesStay(done, more[..|more| - 1]);
      assert (done + more)[..|done + more| - 1] == done + more[..|more| - 1];
    }
  }

  lemma NothingBound(m: Machine, core: int)
    ensures BindAll(m, [], core) == m
  {
  }

  lemma {:induction false} BindAppend(m: Machine, a: seq<int>, b: seq<int>, core: int)
    ensures BindAll(m, a + b, core) == BindAll(BindAll(m, a, core), b, core)
  {
    hide Bind1;
    if b == [] {
      assert a + b == a;
    } else {
      BindAppend(m, a, b[..|b| - 1], core);
      assert (a + b)[..|a + b| - 1] == a + b[..|b| - 1];
    }
  }

  /** What one device class adds to a bind. */
  lemma BindStep(st: State, text: string, msi: set<int>, d: nat, core: int)
    requires Valid(st) && d < DEVICES
    ensures var m := BindAll(st.machine, Bound(st, text, msi, d), core);
      BindAll(st.machine, Bound(st, text, msi, d + 1), core)
      == if Rebinds(st, d) then BindAll(m, DeviceList(d, text, msi), core) else m
    ensures !Rebinds(st, NIC) ==> BindNet(st, text, msi) == st.net
  {
    hide DeviceList, BindAll;
    BindAppend(st.machine, Bound(st, text, msi, d), DeviceList(d, text, msi), core);
    assert Bound(st, text, msi, d) + [] == Bound(st, text, msi, d);
  }

  lemma RestoreSnoc(m: Machine, a: seq<int>, b: seq<int>, i: nat)
    requires i < |b|
    ensures RestoreAll(m, a + b[..i + 1]) == Restore1(RestoreAll(m, a + b[..i]), b[i])
  {
    hide Restore1;
    var s := a + b[..i + 1];
    assert |s| == |a| + i + 1;
    assert s[..|s| - 1] == a + b[..i] && s[|s| - 1] == b[i];
  }

  /** A list of 64 vectors does not grow. */
  lemma {:induction false} FullListStays(done: seq<string>, more: seq<string>, token: string)
    requires |FoundIn(done, token)| == MAX_VECTORS
    ensures FoundIn(done + more, token) == FoundIn(done, token)
  {
    if more == [] {
      assert done + more == done;
    } else {
      hide Contains, IntOf;
      FullListStays(done, more[..|more| - 1], token);
      assert (done + more)[..|done + more| - 1] == done + more[..|more| - 1];
    }
  }
}
