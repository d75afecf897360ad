# X3D Toggle: a Dafny model of the daemon's core

X3D Toggle is a C daemon for AMD X3D processors. It keeps a text configuration store, answers a
line-based IPC protocol, drives one hardware register (the V-Cache mode), pins interrupts, and carries
its own string, number and format library. This project models that core and proves what it keeps over
every input and every run. Files, sysfs nodes and `/proc` texts are strings or maps; nothing does I/O.

Check everything with `dafny verify dfyconfig.toml` (Dafny 4.11).

| file | what it holds |
|---|---|
| `text.dfy` | C strings, bounded copies, line splitting |
| `numbers.dfy`, `atof.dfy` | `_xui_itoa`, `_xui_utoa`, `strtol`, `strtoull`, `atoi`, `atof`, and their round trips |
| `libc.dfy` | `memmove`, `strlcat_local`, `strstr`, `trim_ws_inplace` on memory |
| `format.dfy`, `utf8.dfy` | `printf_vsn` against an unbounded rendering; padding in code points |
| `config.dfy` | `config_update` on whole files, the loader's and the GUI's view of them |
| `window.dfy` | what the loader still sees of a file past 4095 bytes, before and after an update |
| `fields.dfy` | the fields of the configuration struct |
| `store.dfy` | `config_load`, the struct as a write-through cache, `config_get` |
| `daemon.dfy` | IPC dispatch, the poll, the main loop |
| `protocol.dfy` | each message of the protocol, from its bytes to what it changes and answers |
| `games.dfy`, `gamefile.dfy` | the game list: load, match, add, remove |
| `counter.dfy` | the count of running games |
| `irq.dfy` | interrupt binding and teardown |
| `masks.dfy` | the GUI's core masks |
| `status.dfy` | the CPU counters |

Each piece of imperative source is a method with the source's loops, buffers and limits, proved equal to
a specification function; the properties are lemmas about those functions.

## Conventions

- A C string is a Dafny `string` without its NUL, one character per byte. A missing file is the empty
  file: `config_load`, `config_update`, `game_add` and `game_remove` treat both alike.
- Integer widths are explicit: `strtoull` wraps at 2^64; `atoi`, whose overflow C leaves undefined,
  wraps at 2^32; `strtol` clamps; negating the least `long long` wraps. Widths of `printf_vsn` and numbers
  given to it must be in their C range. Counters and lengths that cannot realistically overflow are unbounded.
- `atof` is exact decimal arithmetic over the reals. The formatter's `%.1f` takes a number as the part before
  the point and the digit that C arithmetic finds behind it.
- The struct `DaemonConfig` is a map from the key of a field to its value; which keys each handler knows
  is a table read off its `strcmp` chain. Built-in defaults are a parameter.
- The hardware node, the game detectors, forks, kernel writes and the start of the eBPF detector are inputs
  of each step: whether they succeed, and whether the node has a path, can be read, and which texts it takes.
- The symbol table of the formatter is a parameter.

## What the code does not do

Several promises of the documentation, of the standard or of the neighbouring code are false as stated.
Each has a lemma that says exactly when it holds.

- `x3d sleep` announces that manual modes now persist (src/daemon/daemon.c:222-224), and `x3d cache` and
  its siblings put the daemon to sleep before they set a mode (src/daemon/modes.c:139-144). A suspended
  poll swaps the mode with a stale target, so the mode is gone by the end of its own round and returns in
  every second one, unless it was in place before: `Daemon.SleepKeepsModeIff`,
  `Daemon.ManualModePersists`. `dual` and `swap` alternate with the last automatic mode:
  `Daemon.DualAlternates`. The `dual` of SET_UNPARK does not survive its round: `Daemon.UnparkIsUndone`.
- Memory and file disagree from the start if the file sets an empty state (`Daemon.StartUpCoherentIff`,
  `Daemon.EmptyStateExample`). They come to disagree after SET_CONFIG of a text that fits the struct but not
  the loader's copy, which is one byte shorter (`ConfigStore.SetConfigExact`,
  `ConfigStore.LongTextExample`), of a key with an equals sign (`ConfigStore.StrayEqualsExact`), in a file
  that outgrows the loader's 4095 bytes (`ConfigStore.UpdateExact`, `ConfigStore.LongFileExample`) or in an
  empty one (`ConfigStore.EmptyFileExample`), and after a failed ADVANCED_SET
  (`ConfigStore.AdvancedSetExact`, `ConfigStore.RefusedExample`).
  AFFINITY_LEVEL is written but never loaded (`ConfigStore.AffinityLevelIsForgotten`).
- The formatter knows neither `%.2f` nor `%ll`: GET_CONFIG REFRESH_INTERVAL answers `f`, and the `%llx` of
  DAEMON_INFO prints `llx` (`Format.RenderTwoDecimals`, `Daemon.InfoIsPrinted`). How many arguments a format
  takes, for every format: `Format.TakesExactly`.
- Adding and removing a game cancel out only if the file has a user section
  (`GameFile.AddRemoveWithoutSection`) and at most 64 lines, for the reading loop of `game_add` never grows
  its array (`GameFile.AddRemoveRoundTrip`).
- `game_add` and `game_remove` work on the file CONFIG_PATH (scripts/framework/config.sh:344), `games_load` on
  games.conf (include/games.h:11): `GameFile.AddedGameMatches` speaks of one file given to both.
- A bind and teardown lose a mask that is longer than 63 bytes, empty, or whose interrupt appears twice
  (`Irq.CycleRestoresIff`), and binding twice loses the original (`Irq.RebindForgets`). Coalescing is set to
  50 microseconds whatever it was before (`Irq.CycleRateIff`).
- The core masks of the GUI separate the cores if and only if both texts fit their 255 bytes
  (`CoreMasks.SeparatedIff`); for every choice that is so only with at most 88 cores
  (`CoreMasks.AlwaysSeparatedIff`).
- `strtol` skips only blanks and tabs, leaves the end pointer alone on overflow, reads `0x` without a digit
  to its end, and with no digits reports where it stopped, where ISO C11 asks for the start of the text.
  When the two agree, exactly: `Numbers.StrtolConformsIff`; a text of each kind on which they do not:
  `Numbers.StrtolDeparts`.
- `_xui_itoa` is undone by `strtol` only for numbers that are not negative, or base 10 and not -2^63
  (`Numbers.ItoaRoundTripIff`).

## Model

| member | source | states |
|---|---|---|
| Text.UnlinesOfLines | src/daemon/config.c:485-500 | splitting a text at newlines and writing the lines back gives the text, up to a missing final newline |
| Text.LinesOfUnlines | src/daemon/config.c:485-500 | a file written line by line is read back as the same lines |
| Numbers.Utoa | scripts/framework/xui.sh:454-465 | the digit loop and in-place reversal leave the canonical numeral and a NUL, for every number and base 2 to 36 |
| Numbers.Itoa | scripts/framework/xui.sh:438-452 | the digit loop with division toward zero, the sign of base 10 only, and the reversal, for every 64-bit number and base 2 to 36; the one negation that overflows wraps |
| Numbers.ItoaRoundTripIff | scripts/framework/xui.sh:438-452 | strtol gives the number back and stops at its end if and only if it is not negative, or the base is 10 and it is not -2^63 |
| Numbers.Reverse | scripts/framework/xui.sh:432-436 | in-place reversal of a prefix, the rest of the buffer untouched |
| Numbers.ValueOfDigits | scripts/framework/xui.sh:454-465 | the value of the numeral of n is n, in every base 2 to 36 |
| Numbers.DigitsFit | scripts/framework/xui.sh:529-541 | every 64-bit number in base 10 or 16 fits the 32-byte scratch buffers |
| Numbers.OverflowTest | src/libc.c:784-787 | the guard r > (limit - v) / b fires exactly when r*b + v exceeds the limit |
| Numbers.Strtol | src/libc.c:760-797 | for every string and base 0 or 2 to 36: the signed value of the maximal digit run with the end behind it, or the clamped limit with ERANGE and the end left alone |
| Numbers.StrtolConformsIff | src/libc.c:760-797 | value, end and ERANGE are those of section 7.22.1.4 of ISO C11 if and only if the text holds a number in the range of long behind blanks, tabs, sign and a complete prefix, or no number and neither blank nor sign in front |
| Numbers.StrtolDeparts | src/libc.c:763-797 | a text of each kind on which the two differ: a lone sign, a bare 0x, each of the four other white spaces in front, an overflow |
| Numbers.StrtolReads | src/libc.c:760-797 | a number written behind blanks and tabs with any sign, any prefix that its base allows and digits of either case is read as that number with the end behind its digits, or as the nearest limit of long |
| Numbers.DigitsOfBytes | src/libc.c:776-781 | the byte of each digit, printed in lower case and read in both |
| Numbers.NoOtherDigits | src/libc.c:776-781 | no byte but those of 0-9, a-z and A-Z is a digit |
| Numbers.Strtoull | src/libc.c:799-821 | the value of the run of known digits modulo 2^64 and the end of the run, in every base; letters above f end it |
| Numbers.UllLetters | src/libc.c:805-814 | `strtoull` knows the digits up to f in either case and no others, whatever the base |
| Numbers.Atoi | src/libc.c:712-723 | wrapping at each digit equals wrapping the signed value once |
| Numbers.AtoiReads | src/libc.c:712-723 | blanks and tabs in front, an optional minus and whatever follows the digits do not disturb the number; a plus sign reads as zero |
| Atof.AtofReads | src/libc.c:724-748 | blanks and tabs, an optional minus, digits and digits behind a point are read as that decimal number |
| Numbers.StrtolOfItoa | src/libc.c:760-797 | strtol of a printed 64-bit number gives the number and stops at its end, whatever non-digit follows |
| Numbers.StrtoullOfUtoa | src/libc.c:799-821 | strtoull behind any blanks reads back a printed number and stops at its end, in base 2 to 16 |
| Numbers.AtoiOfItoa | src/libc.c:712-723 | atoi of a printed int gives the int, over the whole range |
| Libc.Memmove | src/libc.c:697-710 | for every overlap in one array the destination gets the old source and nothing else changes |
| Libc.Strlcat | src/libc.c:905-915 | the buffer holds the first size-1 bytes of the concatenation and the result is the untruncated length; a text that fills the limit already is left alone |
| Libc.Strstr | src/libc.c:645-662 | the first occurrence, and a result if and only if there is an occurrence |
| Libc.TrimIsTheOnlyWay | src/games.c:15-29 | the trimmed text is the only one obtained by cutting white space off both ends and leaving none there |
| Libc.TrimStrips | src/games.c:15-29 | exactly blank, tab, newline, return, vertical tab and form feed are cut off, from both ends |
| Libc.TrimWsInplace | src/games.c:15-29 | the C string in the buffer becomes its trimmed text, for every string |
| Format.PrintfVsn | scripts/framework/xui.sh:467-571 | exactly the first size-1 bytes of the unbounded rendering, a NUL behind them, their number as result, nothing written behind the buffer; terminates despite the rollback |
| Format.Measure | scripts/framework/xui.sh:511-523 | the measuring loop counts the bytes outside escape sequences that start a character |
| Format.PutField | scripts/framework/xui.sh:525-527 | truncating while padding equals truncating the padded field |
| Format.RenderLiteral | scripts/framework/xui.sh:499-499 | text without directives or symbols stands for itself |
| Format.RenderString | scripts/framework/xui.sh:507-527 | `%s` copies its argument unchanged, even one that looks like a symbol or directive |
| Format.RenderInt | scripts/framework/xui.sh:528-534 | `%d` prints the decimal numeral |
| Format.RenderUnsigned | scripts/framework/xui.sh:535-551 | `%u` and `%x` print the numeral in base 10 and 16 |
| Format.RenderField | scripts/framework/xui.sh:500-551 | every width and `-` on `%s %d %u %x %zu`: the argument padded to that many columns, the rest of the format unaffected |
| Format.RenderStar | scripts/framework/xui.sh:502-505 | `*` takes the width from an argument, and a negative one pads nothing |
| Format.TakesExactly | scripts/framework/xui.sh:500-567 | a rendering depends on exactly the arguments that `*` and the known conversions of the format take, whatever follows them |
| Format.RenderPaddedString | scripts/framework/xui.sh:500-527 | `%Ns` and `%-Ns` pad to N visible columns for every N, the width read back from its digits |
| Format.RenderPaddedNumbers | scripts/framework/xui.sh:507-551 | so do `%Nd`, `%Nu`, `%Nx` and `%Nzu`, with the numerals written out, and `%Ns` of a null pointer with `(null)` |
| Format.PaddedIs | scripts/framework/xui.sh:525-527 | the padding is blanks up to the width, in front of the text or, with `-`, behind it |
| Format.ColouredText | scripts/framework/xui.sh:511-523 | from an escape byte to the next m nothing is counted, and what surrounds it is |
| Format.RenderColoured | scripts/framework/xui.sh:507-527 | so a coloured text in `%Ns` is padded by what is seen of it |
| Format.RenderSymbol | scripts/framework/xui.sh:471-494 | `${NAME}` becomes the text of the first entry of that name in the table and nothing else changes |
| Format.RenderNoSymbol | scripts/framework/xui.sh:471-497 | a name in no entry, or of 64 bytes and more, stays as it is written |
| Format.RenderUnknownSymbol | scripts/framework/xui.sh:471-497 | the reference to an unknown or too long name is rolled back: `$` is emitted and the rest rendered as if it stood alone, directives inside the braces included |
| Format.UnknownSymbolStays | scripts/framework/xui.sh:471-497 | so a name without directives is left standing |
| Format.RenderTwoDecimals | src/daemon/config.c:464-465 | `%.2f` prints a bare f and takes no argument |
| Format.RenderOneDecimal | scripts/framework/xui.sh:552-565 | `%.1f` prints the part before the point, a point and one digit, and takes one argument |
| Format.RenderLongLong | src/socket.c:92-96 | `%llx` prints llx and takes no argument |
| Format.RenderUnknownDirective | scripts/framework/xui.sh:566-567 | any other character behind a percent sign stands for itself and takes no argument |
| Utf8.VisibleCountsCodePoints | scripts/framework/xui.sh:515-523 | on printable UTF-8 (section 3 of RFC 3629) the loop counts exactly the code points |
| Utf8.PaddingInColumns | scripts/framework/xui.sh:507-527 | a padded field is valid UTF-8 of exactly max(N, code points) code points: the argument with blanks on one side |
| Utf8.FormattedColumns | scripts/framework/xui.sh:467-571 | the same for the whole formatter on `%Ns` and `%-Ns` |
| ConfigFile.MatchesIsBinds | src/daemon/config.c:489-489 | for a plain key the writer's prefix test and the reader's split at the first equals sign agree on every line |
| ConfigFile.PutGetLoader | src/daemon/config.c:309-380 | after an update the last-match reader finds the new value despite duplicates, and every other key as before |
| ConfigFile.PutGetFile | src/daemon/config.c:471-514 | the same through whole files within the loader's 4095 bytes |
| ConfigFile.GuiReadsLines | src/gtk4/gui.c:741-753 | with lines under 511 bytes the fgets pieces are the lines |
| ConfigFile.PutGetGui | src/gtk4/gui.c:736-755 | after an update the first-match fallback reader returns the new value, up to a carriage return and 255 bytes, despite duplicates and every other key as before |
| ConfigFile.GuiFindsNoComment | src/gtk4/gui.c:744-745 | a key that starts like a comment or a blank line is never found |
| ConfigFile.GuiStopsAtNul | src/gtk4/gui.c:741-750 | of a piece with a NUL only what is in front of it counts |
| ConfigFile.LongPiece | src/gtk4/gui.c:741-743 | a line of 511 bytes or more arrives in pieces of 511 |
| ConfigFile.UpdatedLines | src/daemon/config.c:481-513 | an untruncated update reads back as exactly the updated lines, newline-terminated and NUL-free |
| ConfigFile.UpdateLimits | src/daemon/config.c:471-514 | nothing behind the first 8191 bytes of a file is read or written; within them the result is the updated lines |
| ConfigFile.UpdateOverwrites | src/daemon/config.c:481-507 | a second update of a key equals updating once with the last value, on whole contents |
| ConfigFile.UpdateIdempotent | src/daemon/config.c:481-507 | updating twice with one value equals updating once |
| ConfigFile.UpdatesCommute | src/daemon/config.c:481-507 | updates of two distinct keys commute on whole contents if and only if at least one key is already present |
| ConfigFile.UpdateReads | src/daemon/config.c:309-380 | what the loader reads for any field after an update with any key, equals signs and comments included: the new text for the field that the key owns, unless a later line that the key does not rewrite decides it, and the old text for all others |
| ConfigFile.OwnerMatches | src/daemon/config.c:489-489 | for a key with or without an equals sign the writer replaces exactly the lines that bind the field before the first one to a value starting with the rest |
| ConfigWindow.SeenIsCut | src/daemon/config.c:302-309 | the lines the loader sees are those the writer sees up to a cut found by summing line lengths |
| ConfigWindow.OthersRead | src/daemon/config.c:481-513 | after an update of a file of any length the loader reads a field that the key does not own off the old lines up to the new cut |
| ConfigWindow.OwnerRead | src/daemon/config.c:481-513 | and the field that the key owns as the new text, the start of it if the cut is inside its last line, or what was there |
| ConfigStore.LoadIsLastMatch | src/daemon/config.c:261-384 | the line-by-line loader gives each field its last value in the file, else the default, else what it held |
| Fields.FieldNamesArePlain | src/daemon/config.c:309-380 | no field name holds an equals sign, newline or NUL or starts a comment, so the writer can reach every field |
| Fields.SocketKeys | src/socket.c:316-372 | the keys SET_CONFIG stores in memory, all of them |
| Fields.LoaderKeys | src/daemon/config.c:309-380 | the keys the loader parses: those but AFFINITY_LEVEL, and 23 of its own |
| Fields.AddressSize | scripts/framework/config.sh:377-377 | the size of SERVER_ADDRESS in the struct |
| Fields.StateSizes | scripts/framework/config.sh:374-425 | the sizes of DAEMON_STATE, SERVER_SSH and LINT_VALGRIND_KINDS |
| Fields.MaskSizes | scripts/framework/config.sh:368-369 | the sizes of the two masks |
| Fields.ProfileSize | scripts/framework/config.sh:375-375 | the size of FALLBACK_PROFILE |
| Fields.PolicySizes | scripts/framework/config.sh:389-392 | the sizes of THP_MODE and NET_QDISC |
| Fields.ClangSizes | scripts/framework/config.sh:410-416 | the sizes of the LINT_CLANG texts |
| Fields.CheckSizes | scripts/framework/config.sh:417-426 | the sizes of the LINT_CPPCHECK and the remaining LINT_VALGRIND texts |
| Fields.IntegerFields | scripts/framework/config.sh:363-431 | which fields are read by atoi |
| ConfigStore.ThresholdIsCut | src/daemon/config.c:391-392 | LOAD_THRESHOLD set as a decimal number is answered as its whole part, cut toward zero |
| ConfigStore.SwitchReads | src/daemon/config.c:326-326 | SERVER_ENABLED is on for the word true and every number but zero |
| ConfigStore.LoadCoherent | src/daemon/config.c:261-384 | a fresh load is coherent: loading again changes no cached field |
| ConfigStore.SetConfigExact | src/socket.c:310-376 | from a coherent state, for every key and every file, SET_CONFIG keeps memory and file in step if and only if: in an empty file memory is not moved away from what a load restores; in one that fits, text fits the loader and a stray equals sign is harmless; in a longer one the moved cut leaves every other field as it reads, and the key's own line is read as stored |
| ConfigStore.UpdateExact | src/daemon/config.c:471-514 | from a coherent store, an update of a file of any length keeps it coherent if and only if what enters or leaves the loader's sight says the same for every field the key does not own, and the last line in sight of the field it owns reads as what memory takes; all told from the old lines and sums of their lengths |
| ConfigStore.UpdateFits | src/daemon/config.c:471-514 | in a file that fits only the owned field decides |
| ConfigStore.EmptyFileExample | src/socket.c:335-336 | DEV_ENABLE set with an empty file |
| ConfigStore.SeenAfterUpdate | src/daemon/config.c:302-309 | the loader sees exactly the updated lines within 4095 bytes, the last one cut |
| ConfigStore.LongTextExample | src/socket.c:355-355 | a THP_MODE of 15 bytes |
| ConfigStore.PushedOut | src/daemon/config.c:471-514 | in a file that fills the loader to the last byte, a longer value for one setting hides another from it |
| ConfigStore.LongFileExample | src/socket.c:355-355 | so setting THP_MODE loses DEV_ENABLE |
| ConfigStore.StrayEqualsExact | src/socket.c:310-376 | SET_CONFIG of a key k=w leaves memory alone and stays coherent if and only if k is not cached, or the line that decides k is left alone, or says what memory holds |
| ConfigStore.StrayEqualsExample | src/socket.c:310-376 | SET_CONFIG DEV_ENABLE=1 x makes the next load read 1=x for DEV_ENABLE |
| ConfigStore.SetDaemonExact | src/socket.c:275-281 | SET_DAEMON keeps file and memory in step on every file that fits, and exactly when on the others |
| ConfigStore.AdvancedSetExact | src/socket.c:426-495 | ADVANCED_SET stays coherent if and only if the file takes what the kernel took, or the kernel refused a value that memory held already or that no load would replace |
| ConfigStore.RefusedExample | src/socket.c:434-474 | a refused THP_MODE |
| ConfigStore.ApplyCoherentIff | src/socket.c:275-495 | one command keeps a coherent store coherent if and only if it is admissible |
| ConfigStore.RunCoherentIff | src/socket.c:275-495 | the store is coherent after every command of a run if and only if every command is admissible |
| ConfigStore.CoherentMeansReloadIsNoOp | src/daemon/config.c:261-384 | in a coherent state a load changes no cached field |
| ConfigStore.AffinityLevelIsForgotten | src/socket.c:340-341 | no load reads AFFINITY_LEVEL from the file; the built-in default comes back |
| ConfigStore.SetThenGet | src/daemon/config.c:386-469 | SET_CONFIG of a decimal number, any commands that leave the key alone, loads included in an admissible run, then GET_CONFIG: the same text |
| ConfigStore.SetTextThenGet | src/daemon/config.c:386-469 | the same for a text that fits its field |
| ConfigStore.RunLeaves | src/socket.c:310-396 | memory keeps a field through any run that does not touch it, loads included as long as they find that one field in step |
| ConfigStore.CoherentLoads | src/socket.c:275-396 | coherent runs are of this kind for every cached field |
| ConfigStore.DaemonConf.UpdateLoop | src/daemon/config.c:481-500 | the line loop on a bounded buffer leaves the first 8191 bytes of the rewritten lines and reports whether the key was met |
| ConfigStore.DaemonConf.Update | src/daemon/config.c:471-514 | the file becomes the updated contents; an empty one stays empty |
| ConfigStore.DaemonConf.Load | src/daemon/config.c:261-384 | the struct becomes the defaults overlaid with the file's lines in order |
| ConfigStore.DaemonConf.SetConfig | src/socket.c:310-376 | file always, memory for the keys the handler knows |
| ConfigStore.DaemonConf.SetDaemon | src/socket.c:275-281 | file and memory for the three state words, neither for any other |
| ConfigStore.DaemonConf.AdvancedSet | src/socket.c:426-495 | memory for every known name, the file only when the kernel took the value |
| ConfigStore.DaemonConf.Handle | src/socket.c:275-495 | each store command changes file and memory as its specification says |
| Daemon.MessagesAreClean | src/socket.c:80-82 | no message yields a key with a blank, or a key or value with a newline or NUL |
| Daemon.SetConfigIsPrinted | src/gtk4/gui.c:761-765 | the GUI's printf_sn produces the SET_CONFIG message for every key and value |
| Daemon.SetConfigRoundTrip | src/socket.c:310-315 | a message the GUI prints is parsed back into the same key and value |
| Daemon.SetConfigArrives | src/socket.c:310-376 | such a message changes that setting and nothing else of the daemon, but for the detector that EBPF_ENABLE starts and stops |
| Daemon.SettingComesBack | src/socket.c:98-101 | over the loop: SET_CONFIG of an integer setting, any rounds that do not set it anew, then GET_CONFIG answers the same decimal text |
| Daemon.MessageIsCut | src/socket.c:80-82 | of a longer message exactly the first 511 bytes arrive |
| Daemon.GetConfigAnswers | src/socket.c:98-101 | GET_CONFIG of a field answers what memory holds for it |
| Daemon.SetWrapperNumber | src/socket.c:377-379 | SET_WRAPPER followed by a printed int is parsed as that int |
| Daemon.SetModeDispatch | src/socket.c:109-110 | no earlier prefix test catches SET_MODE, whatever its argument |
| Daemon.SetDaemonDispatch | src/socket.c:275-276 | no earlier prefix test catches SET_DAEMON, whatever its argument |
| Protocol.AdvancedSetArrives | src/socket.c:426-495 | ADVANCED_SET of each of the ten integer parameters by its name, with any int: only the field that belongs to it changes, GET_CONFIG answers the number, the file holds it if and only if the kernel took it, and the answer says which |
| Protocol.AdvancedTextArrives | src/socket.c:456-489 | the same for the queueing discipline and the THP policy, with any text, cut to the loader's copy |
| Protocol.UnknownParameter | src/socket.c:426-495 | a name of no parameter changes nothing and is an error |
| Protocol.SetDaemonArrives | src/socket.c:275-309 | each of the three words is stored in memory and file; default, and auto if its script starts, end an override; auto without it is an error |
| Protocol.SetDaemonRefuses | src/socket.c:275-309 | any other word is an error and changes nothing |
| Protocol.SetModeArrives | src/socket.c:109-133 | the seven words in their order, each with the mode it writes to the node and the override it leaves, and the error for a text with none |
| Protocol.SetWrapperArrives | src/socket.c:377-390 | any number but zero takes the lock, asks for cache and leaves override 1; zero gives it back, asks for frequency and leaves none |
| Protocol.ToggleArrives | src/socket.c:102-108 | frequency if the node reads cache, cache in every other case, with the override that goes with it |
| Protocol.UnparkAnswers | src/socket.c:208-213 | SET_UNPARK of ccd1 or all asks for dual and answers whether the node took it |
| Protocol.Questions | src/socket.c:84-89 | PING, and MODE: what the node reads up to 31 bytes, or unknown without a node; no promise when it cannot be read |
| Protocol.DisableAndSync | src/socket.c:391-396 | DAEMON_DISABLE ends the loop and nothing else, CONFIG_SYNC loads the file and nothing else |
| Protocol.UnknownKey | src/socket.c:98-101 | GET_CONFIG of a key the struct does not have answers ERR |
| Protocol.SetConfigAccepts | src/socket.c:310-376 | every SET_CONFIG with a value is answered OK, whatever its key |
| Protocol.SetConfigRefuses | src/socket.c:310-315 | one without a value changes nothing and answers ERR |
| Protocol.UnknownIsError | src/socket.c:496-500 | a message with another first letter than the commands have is an error and changes nothing |
| Protocol.OthersChangeNothing | src/socket.c:90-427 | the tuning commands and the other questions leave store and controller alone |
| Daemon.NumberIsPrinted | src/daemon/config.c:389-390 | the answer for an integer field is its decimal numeral, never cut by the 128-byte buffer |
| Daemon.RefreshIsPrinted | src/daemon/config.c:464-465 | the answer for REFRESH_INTERVAL is what the formatter makes of its directive |
| Daemon.InfoIsPrinted | src/socket.c:90-97 | the whole answer of DAEMON_INFO, field by field, with `llx` in place of the capability mask |
| Daemon.PollEnforcesDecision | src/daemon/polling/polling.c:96-136 | a poll of a readable, accepting node puts the decision in force: cache under the wrapper lock, else the override's mode, else cache iff a game runs; it writes only if another mode was in place |
| Protocol.PollRemembers | src/daemon/polling/polling.c:96-136 | what every kind of poll leaves in the two buffers, cut to 31 bytes |
| Protocol.UnreadableNode | src/daemon/polling/polling.c:96-136 | a node that cannot be read is never written |
| Protocol.ReloadComesLast | src/daemon/daemon.c:91-97 | the poll of a round goes by what memory held before its reload |
| Daemon.HistoryDecides | src/socket.c:102-133 | lock, override and state word are what the last messages about them said, reloads notwithstanding as long as they find the state in step |
| Daemon.ModeIsDecidedByHistory | src/daemon/daemon.c:74-98 | the mode after any run of messages, polls and reloads is the one the history of messages decides: cache under the lock; in state default the last override, or cache if and only if a game was detected |
| Daemon.WrapperHoldsCache | src/socket.c:377-390 | until a message releases the wrapper lock every round of every run ends in cache, whatever else is commanded, SET_WRAPPER with another number included |
| Daemon.WrapperReleased | src/socket.c:386-389 | releasing the lock sets frequency at once and hands the decision back to detection |
| Daemon.WritesAreChanges | src/daemon/polling/polling.c:108-128 | without commands in the automatic regime the number of hardware writes equals the number of changes of decision over the run |
| Daemon.ChosenModeHolds | src/socket.c:109-133 | in state default a chosen mode survives any number of polls, and the node is not written again |
| Daemon.ToggleTwice | src/socket.c:102-108 | over rounds of the loop, TOGGLE changes the mode and a second TOGGLE restores it |
| Daemon.AutoResumes | src/socket.c:112-114 | any word that holds auto, default or reset ends the override, leaves the mode alone and hands the decision back to detection |
| Daemon.SuspendedPoll | src/daemon/polling/polling.c:129-136 | a suspended poll swaps mode and target, or learns the mode if the target is empty |
| Daemon.SuspendedOrbit | src/daemon/polling/polling.c:129-136 | n suspended polls leave mode and target unchanged for even n and swapped for odd n |
| Daemon.ManualModePersists | src/daemon/polling/polling.c:129-136 | a mode in place when the daemon is suspended persists for all time if and only if the target is equal or empty |
| Daemon.SleepKeepsModeIff | src/daemon/modes.c:139-144 | after the two messages SET_DAEMON manual and SET_MODE with any of the four modes, and any number of quiet rounds, the chosen mode is in place if and only if it was the automatic one or that number is odd |
| Daemon.DualAlternates | src/socket.c:123-130 | dual and swap are undone by the next poll and brought back by the one after |
| Daemon.UnparkIsUndone | src/socket.c:208-213 | SET_UNPARK ccd1 or all writes dual, and in the automatic regime the poll of the same round takes it out again |
| Daemon.DisableStops | src/daemon/daemon.c:84-91 | after DAEMON_DISABLE nothing is polled or written |
| Daemon.LoopStore | src/daemon/daemon.c:74-98 | the loop changes the store by exactly the commands of its messages and reloads, in order |
| Daemon.StartUpCoherentIff | src/daemon/daemon.c:41-57 | start-up leaves a coherent store if and only if the file sets no empty state |
| Daemon.EmptyStateExample | src/daemon/daemon.c:55-57 | with the line DAEMON_STATE= the daemon starts in state default, incoherent, and the next CONFIG_SYNC suspends it |
| Daemon.SyncHeals | src/socket.c:394-396 | CONFIG_SYNC makes any store coherent |
| Daemon.DaemonKeepsCoherence | src/daemon/daemon.c:41-98 | from start-up through any loop, the store is coherent after every command if and only if the file set no empty state and every command that came in was admissible |
| Daemon.DetectorFollowsSetting | src/socket.c:324-331 | the eBPF detector is active only while EBPF_ENABLE is set, through any run in which loads find that field in step |
| Daemon.Process.Start | src/daemon/daemon.c:41-61 | load, detector, frequency mode and the memory-only default for an empty state |
| Protocol.StartUpNode | src/daemon/daemon.c:41-61 | after start-up an accepting node is in frequency, and the eBPF detector runs if and only if EBPF_ENABLE was loaded as a number other than zero and it could be started; a missing or empty state becomes default |
| Daemon.Process.PollingRun | src/daemon/polling/polling.c:96-136 | the poll, branch by branch, equals the step function |
| Daemon.Process.SocketHandle | src/socket.c:75-501 | one message changes store and controller as dispatched, and is answered from the state it found |
| Daemon.Process.MainLoop | src/daemon/daemon.c:74-98 | the loop order is message, stop check, poll, reload |
| Games.NamesAreEntries | src/games.c:48-87 | the table holds distinct names, all of them entries, and all entries while it has room |
| Games.EntriesLiterally | src/games.c:48-87 | a text is an entry if and only if it has two bytes, starts no comment and is the text of a line behind a `[` line that holds `[GAMES_SYS]` or `[GAMES_USR]`, with no other `[` line between |
| Games.LoadedEntry | src/games.c:48-87 | and such a line of fewer than 64 bytes is in the loaded table while that has room |
| Games.EntryTextIsTrim | src/games.c:62-70 | the two-sided cut is the trimmed line when blanks are its only white space |
| Games.MatchIsSubstringOfEntry | src/games.c:31-99 | with entries under 64 bytes and at most 512 of them, a name matches if and only if it contains some listed entry; the stored names are distinct |
| Games.GameList.Load | src/games.c:31-89 | sections, trimming, de-duplication and the 512 limit, loop by loop |
| Games.GameList.Matches | src/games.c:91-99 | true if and only if the name contains a stored entry |
| GameFile.AddRemoveRoundTrip | src/games.c:115-265 | with at most 64 lines add inserts exactly one line behind the header, and remove then restores the file, up to a missing final newline; with more, and only then, add leaves its allocation |
| GameFile.AddRemoveWithoutSection | src/games.c:164-169 | without a user section the new header stays behind; the same limit of 64 lines |
| GameFile.ListedStays | src/games.c:127-159 | a game that some line under a header of the games already is, blanks aside, is not added again: the file stays, with success |
| GameFile.AddTwice | src/games.c:115-190 | adding a game twice is adding it once |
| GameFile.AddedIsCut | src/games.c:161-181 | for a name of any length: it and its newline, cut to 255 bytes, go behind the last header of the user section, or with a new header to the end of the file |
| GameFile.AddedGameMatches | src/games.c:31-190 | of a file with an added game the loader makes a table that matches every name containing it |
| GameFile.OthersStay | src/games.c:206-231 | a system game, or one no user line is, is not removed and the file stays |
| GameFile.ListedLiterally | src/games.c:131-152 | what `game_add` looks for: a line that is the game, blanks aside, under a header of either kind |
| GameFile.FoundLiterally | src/games.c:206-220 | what `game_remove` looks for: the exact line under a header of one kind |
| GameFile.KeptLiterally | src/games.c:242-256 | the second pass drops a line if and only if it is the game, line end aside, in the user part |
| GameFile.GamesConf.ShiftInsert | src/games.c:175-178 | the right-to-left shift loop is insertion at an index |
| GameFile.GamesConf.ReadForAdd | src/games.c:118-153 | the reading loop finds a place for every line if and only if there are no more than the array holds, and then keeps them all |
| GameFile.GamesConf.Expand | src/games.c:103-113 | twice the room, at most for 1024 lines, the lines kept |
| GameFile.GamesConf.Add | src/games.c:115-190 | the file and result code of game_add, limits included |
| GameFile.GamesConf.Remove | src/games.c:192-265 | the file and result code of game_remove, limits included |
| GameFile.NotListedNotFound | src/games.c:206-220 | what game_add does not find trimmed, game_remove does not find exactly |
| GameFile.KeptAfterAdd | src/games.c:242-256 | the second pass drops exactly the added line |
| GameCounter.CountIsMaxSuffix | src/daemon/bpf/bpf-user.c:41-93 | the counter is the maximum over all suffixes of the history of launches minus exits |
| GameCounter.GameRunningIff | src/daemon/bpf/bpf-user.c:198-198 | a game counts as running if and only if some suffix has more launches than exits |
| GameCounter.CountIsExactIff | src/daemon/bpf/bpf-user.c:41-93 | the counter equals launches minus exits if and only if no prefix has more exits than launches |
| GameCounter.CountSteps | src/daemon/bpf/bpf-user.c:41-93 | what each kind of event adds to the counter, the names of the two signals written out |
| GameCounter.LaunchThenExit | src/daemon/bpf/bpf-user.c:41-93 | a launch followed by an exit, each noticed either way, leaves the counter as it was |
| GameCounter.Tracker.HandleEvent | src/daemon/bpf/bpf-user.c:41-70 | the handler keeps the counter equal to that function of the history |
| GameCounter.Tracker.OnSignal | src/daemon/bpf/bpf-user.c:73-93 | so does the signal handler |
| GameCounter.Tracker.GameRunning | src/daemon/bpf/bpf-user.c:198-198 | the answer in terms of the history |
| Irq.BindEffect | src/irq.c:245-295 | for each interrupt what a bind leaves as mask and as saved mask, repetitions and refused writes included |
| Irq.RestoreEffect | src/irq.c:276-289 | for each interrupt what a restore pass leaves |
| Irq.CycleEffect | src/irq.c:351-507 | one init, bind and teardown from an idle machine, exactly, for every interrupt and for irqbalance |
| Irq.CycleRestoresIff | src/irq.c:351-507 | a cycle gives an interrupt its mask back if and only if it was not pinned, refused, pinned once with a mask of 1 to 63 bytes, or on the core already |
| Irq.CyclesRestore | src/irq.c:351-507 | any number of cycles with distinct vectors restores every mask, every saved file and irqbalance |
| Irq.RunCyclesSnoc | src/irq.c:351-507 | a run of cycles is the run without the last cycle and then the last |
| Irq.BindPinsIff | src/irq.c:351-437 | a bind moves an interrupt to the core if and only if a line starts with its number and names a driver of an enabled class: amdgpu, else nouveau, signalled by message; nvme; xhci_hcd; eth, else enp; snd_hda, else snd-hda |
| Irq.ListsAfterBind | src/irq.c:351-437 | the list each class is left with for the teardown, bound or not |
| Irq.VerifiedAppend | src/irq.c:386-395 | the filter for message signalling keeps the order of the vectors |
| Irq.InactiveBindsNothing | src/irq.c:372-400 | with the settings off or pinning at 3 a bind touches nothing |
| Irq.BalancerStops | src/irq.c:144-170 | while a bind lasts irqbalance is stopped, and the marker remembers whether it ran |
| Irq.BoundRate | src/irq.c:332-349 | while a coalescing bind lasts every discovered interface has delay 0 and no other changes |
| Irq.NicOf | src/irq.c:297-330 | the name a line gives: from its first token to the next blank or hyphen, at most 31 bytes |
| Irq.NicsInOrder | src/irq.c:297-330 | the names come in the order of the lines, and eight are enough |
| Irq.NicsOfText | src/irq.c:297-311 | they are looked for in at most 8191 bytes, up to a NUL |
| Irq.CycleRateIff | src/irq.c:332-507 | a cycle gives an interface its coalescing delay back if and only if it was not reset, or the delay was 50 |
| Irq.RulesFollowBinding | src/irq.c:439-507 | behind any number of cycles the udev rule file exists exactly while a bind with active settings lasts |
| Irq.SecondTeardownIsNoOp | src/irq.c:485-507 | tearing down twice equals tearing down once |
| Irq.RebindForgets | src/irq.c:245-260 | binding twice without a teardown loses the original mask |
| Irq.Controller.Discover | src/irq.c:172-198 | the vectors of the matching lines in order, at most 64 |
| Irq.Controller.DiscoverNames | src/irq.c:297-330 | the interface names of the matching lines in order, at most eight of 31 bytes |
| Irq.Controller.Coalesce | src/irq.c:332-349 | one delay for every discovered interface that exists |
| Irq.FoundIff | src/irq.c:172-198 | a list that is not full holds exactly the positive numbers heading the lines that name the driver |
| Irq.Controller.BindDevices | src/irq.c:372-437 | the device classes in turn, fallback drivers, the MSI filter and coalescing included |
| Irq.Controller.Bind | src/irq.c:622-632 | initialise, bind every device class, write the rules |
| Irq.Controller.TearDown | src/irq.c:485-507 | the nested restore loops, coalescing, the rule file and irqbalance |
| CoreMasks.PartsOfJoined | src/gtk4/gui.c:523-547 | splitting a printed mask at commas yields the printed numbers |
| CoreMasks.MaskRoundTrip | src/gtk4/gui.c:523-547 | is_core_in_mask on a printed list holds exactly for the listed cores |
| CoreMasks.RangeInMask | src/gtk4/gui.c:523-547 | a range holds exactly the cores between its ends, alone and within a list |
| CoreMasks.MasksPartition | src/gtk4/gui.c:616-651 | every core is in exactly one of the two masks when both texts fit |
| CoreMasks.SeparatedIff | src/gtk4/gui.c:616-651 | every core of a choice is in exactly its mask if and only if both texts fit: of a list that is cut the last core is never read back |
| CoreMasks.AlwaysSeparatedIff | src/gtk4/gui.c:616-651 | every choice of n cores is separated by the two masks if and only if n is at most 88 |
| CoreMasks.Core88IsLost | src/gtk4/gui.c:621-650 | with 89 or more cores all on one side, core 88 is in neither mask |
| CoreMasks.BuildMasks | src/gtk4/gui.c:621-650 | the two building loops leave the first 255 bytes of the joined lists |
| CoreMasks.IsCoreInMask | src/gtk4/gui.c:523-547 | the reading loop decides membership in some part |
| CpuStatus.CpuStats.Read | src/status.c:18-35 | seven successive fields from the first blank, or no change |
| CpuStatus.StatsRoundTrip | src/status.c:18-35 | all seven counters are recovered from a blank-separated line, whatever follows it |

## Left out

- Syscall wrappers, sockets, fork and exec, systemctl, journal output, and the CLI: foreign calls or user
  interface without logic of this kind. `SET_DAEMON auto` runs a reset script whose effects are not modelled.
- The load computation of `status_cpu`, and how `%.1f` finds its digit: floating point.
- Format.PrintfVsn: requires formats that do not end inside a directive, with arguments of matching type,
  because C leaves the others undefined.
- CPPC and cgroup commands, the parking of single cores, and the transition log of the poll: they do not
  touch the state modelled here.
- Daemon.Process.SocketHandle: the answers of DAEMON_INFO, GAMES_LIST, ADVANCED_GET and of the tuning
  commands are not part of it. TOGGLE and MODE with an unreadable node read an uninitialised buffer in C; the
  model takes any such text as different from `cache` and leaves the answer open.
- Irq.Controller.BindDevices: settings are given as parsed values; `parse_conf_int`, `verify_msi` and watch
  mode are loose text heuristics and not modelled, a write to a vector either always succeeds or always
  fails, and `ethtool` succeeds on the interfaces that exist.
- GameCounter.Tracker.HandleEvent: one atomic step; races between the GameMode thread and the main loop,
  and overflow of the 32-bit counter, are not modelled.
- GameFile.GamesConf.Add: what happens after a line is stored outside the allocation is not modelled, only
  when it happens; allocations themselves succeed.
- `affinity_get_topology` and the installers, packaging and server module.
