/** The struct DaemonConfig of scripts/framework/config.sh: its fields, and which of the handlers of
    src/daemon/config.c and src/socket.c know them. */
module Fields {
  import opened Text
  import opened ConfigFile

  /** The C type of a field; `SwitchField` is the integer that also accepts the word `true`. */
  datatype Field = IntField | DoubleField | SwitchField | TextField(size: nat)

  datatype Value = IntV(n: int) | RealV(x: real) | TextV(s: string)

  /** The struct, each field under the name of its key. */
  type Config = map<string, Value>

  // Integer fields that both the loader and SET_CONFIG know, by section of the struct.

  predicate GeneralInt(k: string) {
    k in {"POLLING_INTERVAL", "DEV_ENABLE", "DETECTION_LEVEL", "EBPF_ENABLE", "DEBUG_ENABLE"}
  }

  predicate DeveloperInt(k: string) {
    k in {"ADVANCED_CONFIG_ENABLE", "FORCE_UNSUPPORTED_DISPLAY"}
  }

  predicate AdvancedInt(k: string) {
    k in {"SCHED_BORE", "SCHED_BIT_SHIFT", "SCHED_BURST_FORK", "SCHED_SLICE_US", "VM_MAX_MAP",
          "SPLIT_LOCK_DETECT", "NMI_WATCHDOG"}
  }

  predicate NetworkInt(k: string) {
    k in {"NET_FASTOPEN", "NET_RP_FILTER", "NET_SOURCE_ROUTE"}
  }

  predicate IrqInt(k: string) {
    k in {"IRQ_ENABLE", "IRQ_GPU", "IRQ_NVME", "IRQ_USB", "IRQ_NIC", "IRQ_AUDIO", "IRQ_COALESCE", "IRQ_WATCH"}
  }

  predicate SharedInt(k: string) {
    GeneralInt(k) || DeveloperInt(k) || AdvancedInt(k) || NetworkInt(k) || IrqInt(k)
  }

  predicate SharedDouble(k: string) {
    k in {"REFRESH_INTERVAL", "LOAD_THRESHOLD"}
  }

  predicate SharedText(k: string) {
    k in {"SERVER_ADDRESS", "AFFINITY_MASK", "AFFINITY_FREQ_MASK", "FALLBACK_PROFILE", "THP_MODE", "NET_QDISC"}
  }

  // Fields that SET_CONFIG does not store in memory, and AFFINITY_LEVEL, which the loader does not know.

  predicate OtherInt(k: string) {
    k in {"AFFINITY_LEVEL", "SERVER_PORT", "JOURNAL_KEEP", "JOURNAL_MAX_MB"}
  }

  predicate OtherText(k: string) {
    k in {"DAEMON_STATE", "SERVER_SSH", "LINT_VALGRIND_KINDS"}
  }

  predicate ClangText(k: string) {
    k in {"LINT_CLANG_DIAGNOSTIC", "LINT_CLANG_BUGPRONE", "LINT_CLANG_MODERNIZE", "LINT_CLANG_READABILITY",
          "LINT_CLANG_PERFORMANCE", "LINT_CLANG_PORTABILITY", "LINT_CLANG_ANALYZER"}
  }

  predicate CheckText(k: string) {
    k in {"LINT_CPPCHECK_ALL", "LINT_CPPCHECK_WARNING", "LINT_CPPCHECK_STYLE", "LINT_CPPCHECK_PERFORMANCE",
          "LINT_CPPCHECK_PORTABILITY", "LINT_CPPCHECK_INFORMATION", "LINT_CPPCHECK_UNUSED",
          "LINT_VALGRIND_MODE", "LINT_VALGRIND_ORIGINS"}
  }

  /** The struct declaration. */
  function FieldOf(k: string): (f: Option<Field>)
    ensures f.Some? && f.value.TextField? ==> f.value.size >= 16
  {
    if SharedInt(k) || OtherInt(k) then Some(IntField)
    else if SharedDouble(k) then Some(DoubleField)
    else if k == "SERVER_ENABLED" then Some(SwitchField)
    else if SharedText(k) then
      Some(TextField(
        if k == "SERVER_ADDRESS" then 128 else if k == "NET_QDISC" then 32 else if k == "THP_MODE" then 16 else 64))
    else if OtherText(k) then Some(TextField(32))
    else if ClangText(k) || CheckText(k) then Some(TextField(16))
    else None
  }

  /** A text that names one field in the file and stays on its line. */
  predicate FieldName(k: string) {
    PlainKey(k) && CleanText(k)
  }

  predicate Capitals(k: string) {
    |k| <= 32 && forall i :: 0 <= i < |k| ==> 'A' <= k[i] <= 'Z' || k[i] == '_'
  }

  lemma CapitalsAreNames(k: string)
    requires Capitals(k)
    ensures FieldName(k)
  {
  }

  lemma GeneralNames(k: string)
    requires GeneralInt(k)
    ensures Capitals(k)
  {
  }

  lemma DeveloperNames(k: string)
    requires DeveloperInt(k)
    ensures Capitals(k)
  {
    if k != "ADVANCED_CONFIG_ENABLE" {
      assert k == "FORCE_UNSUPPORTED_DISPLAY";
    }
  }

  lemma AdvancedNames(k: string)
    requires AdvancedInt(k)
    ensures Capitals(k)
  {
  }

  lemma DeviceNames(k: string)
    requires NetworkInt(k) || IrqInt(k)
    ensures Capitals(k)
  {
  }

  lemma SharedNames(k: string)
    requires SharedText(k)
    ensures Capitals(k)
  {
  }

  lemma DoubleNames(k: string)
    requires SharedDouble(k)
    ensures Capitals(k)
  {
  }

  lemma OtherNames(k: string)
    requires OtherInt(k) || k == "SERVER_ENABLED"
    ensures Capitals(k)
  {
  }

  lemma OtherTextNames(k: string)
    requires OtherText(k)
    ensures Capitals(k)
  {
  }

  lemma ClangNames(k: string)
    requires ClangText(k)
    ensures Capitals(k)
  {
  }

  lemma CheckNames(k: string)
    requires CheckText(k)
    ensures Capitals(k)
  {
  }

  /** Every field name is a plain key: no equals sign, no newline or NUL, no comment. */
  lemma FieldNamesArePlain(k: string)
    requires FieldOf(k).Some?
    ensures FieldName(k) && Capitals(k)
  {
    hide GeneralInt, DeveloperInt, AdvancedInt, NetworkInt, IrqInt, SharedDouble, SharedText, OtherInt, OtherText,
      ClangText, CheckText;
    if GeneralInt(k) { GeneralNames(k); }
    else if DeveloperInt(k) { DeveloperNames(k); }
    else if AdvancedInt(k) { AdvancedNames(k); }
    else if NetworkInt(k) || IrqInt(k) { DeviceNames(k); }
    else if SharedText(k) { SharedNames(k); }
    else if SharedDouble(k) { DoubleNames(k); }
    else if ClangText(k) { ClangNames(k); }
    else if CheckText(k) { CheckNames(k); }
    else if OtherText(k) { OtherTextNames(k); }
    else { OtherNames(k); }
    CapitalsAreNames(k);
  }

  /** `config_load` parses every field but AFFINITY_LEVEL. */
  predicate LoaderKnows(k: string) {
    FieldOf(k).Some? && k != "AFFINITY_LEVEL"
  }

  /** The fields a SET_CONFIG command also stores in memory. */
  predicate SocketKnows(k: string) {
    SharedInt(k) || SharedText(k) || SharedDouble(k) || k == "AFFINITY_LEVEL"
  }

  // ---------------------------------------------------------------- the tables, key by key

  /** The keys SET_CONFIG stores in memory. */
  lemma SocketKeys(k: string)
    ensures SocketKnows(k) <==> k in {
      "POLLING_INTERVAL", "DEV_ENABLE", "DETECTION_LEVEL", "EBPF_ENABLE", "DEBUG_ENABLE", "ADVANCED_CONFIG_ENABLE",
      "FORCE_UNSUPPORTED_DISPLAY", "SCHED_BORE", "SCHED_BIT_SHIFT", "SCHED_BURST_FORK", "SCHED_SLICE_US", "VM_MAX_MAP",
      "SPLIT_LOCK_DETECT", "NMI_WATCHDOG", "NET_FASTOPEN", "NET_RP_FILTER", "NET_SOURCE_ROUTE", "IRQ_ENABLE", "IRQ_GPU",
      "IRQ_NVME", "IRQ_USB", "IRQ_NIC", "IRQ_AUDIO", "IRQ_COALESCE", "IRQ_WATCH", "REFRESH_INTERVAL", "LOAD_THRESHOLD",
      "SERVER_ADDRESS", "AFFINITY_MASK", "AFFINITY_FREQ_MASK", "FALLBACK_PROFILE", "THP_MODE", "NET_QDISC",
      "AFFINITY_LEVEL"}
  {
  }

  /** The keys the loader parses. */
  lemma LoaderKeys(k: string)
    ensures LoaderKnows(k) <==> k != "AFFINITY_LEVEL" && (SocketKnows(k) || k in {
      "SERVER_ENABLED", "SERVER_PORT", "JOURNAL_KEEP", "JOURNAL_MAX_MB", "DAEMON_STATE", "SERVER_SSH",
      "LINT_VALGRIND_KINDS", "LINT_CLANG_DIAGNOSTIC", "LINT_CLANG_BUGPRONE", "LINT_CLANG_MODERNIZE",
      "LINT_CLANG_READABILITY", "LINT_CLANG_PERFORMANCE", "LINT_CLANG_PORTABILITY", "LINT_CLANG_ANALYZER",
      "LINT_CPPCHECK_ALL", "LINT_CPPCHECK_WARNING", "LINT_CPPCHECK_STYLE", "LINT_CPPCHECK_PERFORMANCE",
      "LINT_CPPCHECK_PORTABILITY", "LINT_CPPCHECK_INFORMATION", "LINT_CPPCHECK_UNUSED", "LINT_VALGRIND_MODE",
      "LINT_VALGRIND_ORIGINS"})
  {
  }

  /** The integer fields, except the switch. */
  lemma IntegerFields(k: string)
    requires SharedInt(k) || OtherInt(k)
    ensures FieldOf(k) == Some(IntField)
  {
  }

  lemma DoubleFields(k: string)
    requires k in {"REFRESH_INTERVAL", "LOAD_THRESHOLD"}
    ensures FieldOf(k) == Some(DoubleField)
  {
  }

  lemma SwitchIsOne()
    ensures FieldOf("SERVER_ENABLED") == Some(SwitchField)
  {
  }

  /** The text fields with their sizes in the struct. */
  lemma AddressSize()
    ensures FieldOf("SERVER_ADDRESS") == Some(TextField(128))
  {
  }

  lemma MaskSizes(k: string)
    requires k in {"AFFINITY_MASK", "AFFINITY_FREQ_MASK"}
    ensures FieldOf(k) == Some(TextField(64))
  {
  }

  lemma ProfileSize()
    ensures FieldOf("FALLBACK_PROFILE") == Some(TextField(64))
  {
  }

  lemma PolicySizes(k: string)
    requires k in {"THP_MODE", "NET_QDISC"}
    ensures FieldOf(k) == Some(TextField(if k == "THP_MODE" then 16 else 32))
  {
  }

  lemma StateSizes(k: string)
    requires k in {"DAEMON_STATE", "SERVER_SSH", "LINT_VALGRIND_KINDS"}
    ensures FieldOf(k) == Some(TextField(32))
  {
  }

  lemma ClangSizes(k: string)
    requires ClangText(k)
    ensures FieldOf(k) == Some(TextField(16))
  {
  }

  lemma CheckSizes(k: string)
    requires CheckText(k)
    ensures FieldOf(k) == Some(TextField(16))
  {
  }
}
