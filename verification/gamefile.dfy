/** Adding and removing games in the sectioned configuration file: `game_add` and `game_remove` of
    src/games.c. */
module GameFile {
  import opened Text
  import opened Libc
  import opened Games

  const MAX_LINES: nat := 1024 // what the reading loops allow
  const CAPACITY: nat := 64    // what game_add allocates
  const FILE_LIMIT: nat := 16383
  const SLOT: nat := 255 // a line with its newline, in 256 bytes

  /** `Overrun` is no code of the program: it stands for a line stored outside the allocation, after which
      nothing is promised. */
  datatype Code = Success | Overrun | NotRemoved

  /** A line as it is kept in memory: newline appended, cut to the slot. */
  function Slot(l: string): (s: string)
    ensures s != [] && |s| <= SLOT
    ensures |l| < SLOT ==> s == l + "\n"
  {
    Take(l + "\n", SLOT)
  }

  function Slots(ls: seq<string>): (r: seq<string>)
    ensures |r| == |ls| && forall i :: 0 <= i < |ls| ==> r[i] == Slot(ls[i])
  {
    seq(|ls|, i requires 0 <= i < |ls| => Slot(ls[i]))
  }

  /** Writing the slots out one after the other. */
  function Join(ss: seq<string>): string {
    if ss == [] then "" else ss[0] + Join(ss[1..])
  }

  /** The lines the two loops see: at most 1024 of the first 16383 bytes. */
  function Seen(file: string): (ls: seq<string>)
    ensures |ls| <= MAX_LINES
  {
    var ls := Lines(CStr(Take(file, FILE_LIMIT)));
    if |ls| <= MAX_LINES then ls else ls[..MAX_LINES]
  }

  // ---------------------------------------------------------------- sections

  /** 1: system games, 2: user games, 0: anything else. */
  function SectionOf(sec: int, l: string): int {
    if Header(l) then (if Contains(l, SYS) then 1 else if Contains(l, USR) then 2 else 0) else sec
  }

  function SectionAfter(ls: seq<string>, sec: int): int {
    if ls == [] then sec else SectionAfter(ls[1..], SectionOf(sec, ls[0]))
  }

  predicate UsrHeader(l: string) {
    Header(l) && !Contains(l, SYS) && Contains(l, USR)
  }

  /** The last user-section header, or -1. */
  function UsrIndex(ls: seq<string>): (i: int)
    ensures -1 <= i < |ls|
  {
    if ls == [] then -1
    else if UsrHeader(ls[|ls| - 1]) then |ls| - 1
    else UsrIndex(ls[..|ls| - 1])
  }

  // ---------------------------------------------------------------- game_add

  /** `game_add` compares trimmed lines, in either games section. */
  predicate AddHit(sec: int, l: string, game: string) {
    !Header(l) && (sec == 1 || sec == 2) && Trim(Take(l, SLOT)) == game
  }

  predicate AlreadyListed(ls: seq<string>, sec: int, game: string) {
    ls != [] && (AddHit(sec, ls[0], game) || AlreadyListed(ls[1..], SectionOf(sec, ls[0]), game))
  }

  function InsertAt(ss: seq<string>, i: nat, s: string): seq<string>
    requires i <= |ss|
  {
    ss[..i] + [s] + ss[i..]
  }

  function AddedSlots(ls: seq<string>, game: string): seq<string> {
    if UsrIndex(ls) == -1 then Slots(ls) + [Take("\n" + USR + "\n" + game + "\n", SLOT)]
    else InsertAt(Slots(ls), UsrIndex(ls) + 1, Slot(game))
  }

  function Added(file: string, game: string): (string, Code) {
    var ls := Seen(file);
    if |ls| > CAPACITY then (file, Overrun)
    else if AlreadyListed(ls, 0, game) then (file, Success)
    else (Join(AddedSlots(ls, game)), Success)
  }

  // ---------------------------------------------------------------- game_remove

  /** `game_remove` first looks for the exact line in one section. */
  predicate Finds(ls: seq<string>, sec: int, game: string, which: int) {
    ls != [] &&
    ((!Header(ls[0]) && sec == which && Take(ls[0], SLOT) == game)
     || Finds(ls[1..], SectionOf(sec, ls[0]), game, which))
  }

  /** The second pass tells the user section by any line that holds its name. */
  predicate UsrOf(inUsr: bool, s: string) {
    if Contains(s, USR) then true else if Header(s) then false else inUsr
  }

  function StripEol(s: string): string {
    if s != [] && (s[|s| - 1] == '\n' || s[|s| - 1] == '\r') then StripEol(s[..|s| - 1]) else s
  }

  /** The slots that survive the second pass. */
  function Kept(ls: seq<string>, inUsr: bool, game: string): seq<string> {
    if ls == [] then []
    else
      var s := Slot(ls[0]);
      var u := UsrOf(inUsr, s);
      (if u && StripEol(s) == game then [] else [s]) + Kept(ls[1..], u, game)
  }

  function UsrAfter(ls: seq<string>, inUsr: bool): bool {
    if ls == [] then inUsr else UsrAfter(ls[1..], UsrOf(inUsr, Slot(ls[0])))
  }

  function Removed(file: string, game: string): (string, Code) {
    var ls := Seen(file);
    if Finds(ls, 0, game, 1) || !Finds(ls, 0, game, 2) then (file, NotRemoved)
    else (Join(Kept(ls, false, game)), Success)
  }

  // ---------------------------------------------------------------- splitting the scans

  lemma {:induction false} SectionAppend(a: seq<string>, b: seq<string>, sec: int)
    ensures SectionAfter(a + b, sec) == SectionAfter(b, SectionAfter(a, sec))
    decreases a
  {
    hide SectionOf;
    if a == [] {
      assert a + b == b;
    } else {
      assert (a + b)[1..] == a[1..] + b;
      SectionAppend(a[1..], b, SectionOf(sec, a[0]));
    }
  }

  lemma {:induction false} ListedAppend(a: seq<string>, b: seq<string>, sec: int, game: string)
    ensures AlreadyListed(a + b, sec, game)
      <==> AlreadyListed(a, sec, game) || AlreadyListed(b, SectionAfter(a, sec), game)
    decreases a
  {
    hide SectionOf, AddHit;
    if a == [] {
      assert a + b == b;
    } else {
      assert (a + b)[1..] == a[1..] + b;
      ListedAppend(a[1..], b, SectionOf(sec, a[0]), game);
    }
  }

  lemma {:induction false} FindsAppend(a: seq<string>, b: seq<string>, sec: int, game: string, which: int)
    ensures Finds(a + b, sec, game, which)
      <==> Finds(a, sec, game, which) || Finds(b, SectionAfter(a, sec), game, which)
    decreases a
  {
    hide SectionOf, Header;
    if a == [] {
      assert a + b == b;
    } else {
      assert (a + b)[1..] == a[1..] + b;
      FindsAppend(a[1..], b, SectionOf(sec, a[0]), game, which);
    }
  }

  lemma {:induction false} KeptAppend(a: seq<string>, b: seq<string>, inUsr: bool, game: string)
    ensures Kept(a + b, inUsr, game) == Kept(a, inUsr, game) + Kept(b, UsrAfter(a, inUsr), game)
    ensures UsrAfter(a + b, inUsr) == UsrAfter(b, UsrAfter(a, inUsr))
    decreases a
  {
    hide UsrOf, StripEol, Slot;
    if a == [] {
      assert a + b == b;
    } else {
      assert (a + b)[1..] == a[1..] + b;
      var s := Slot(a[0]);
      var u := UsrOf(inUsr, s);
      KeptAppend(a[1..], b, u, game);
      var d := if u && StripEol(s) == game then [] else [s];
      assert d + (Kept(a[1..], u, game) + Kept(b, UsrAfter(a, inUsr), game))
        == (d + Kept(a[1..], u, game)) + Kept(b, UsrAfter(a, inUsr), game);
    }
  }

  // ---------------------------------------------------------------- add, then remove

  predicate ShortLines(ls: seq<string>) {
    forall l :: l in ls ==> |l| < SLOT
  }

  predicate NoUsrName(ls: seq<string>) {
    forall l :: l in ls ==> !Contains(l, USR)
  }

  /** A name the list can hold as one line of its own. */
  predicate ProperName(game: string) {
    && Trimmed(game) && '\n' !in game && '\0' !in game && |game| < SLOT
    && !Header(game)
  }

  lemma ContainsWithNewline(l: string, n: string)
    requires n != [] && '\n' !in n
    ensures Contains(l + "\n", n) <==> Contains(l, n)
  {
    if Contains(l + "\n", n) {
      var i :| 0 <= i <= |l + "\n"| && OccursAt(l + "\n", n, i);
      assert n[|n| - 1] == (l + "\n")[i + |n| - 1];
      assert i + |n| <= |l|;
      assert forall k :: 0 <= k < |n| ==> n[k] == (l + "\n")[i + k] == l[i + k];
      assert OccursAt(l, n, i);
    }
    if Contains(l, n) {
      var i :| 0 <= i <= |l| && OccursAt(l, n, i);
      assert forall k :: 0 <= k < |n| ==> n[k] == l[i + k] == (l + "\n")[i + k];
      assert OccursAt(l + "\n", n, i);
    }
  }

  lemma SlotFacts(l: string)
    requires |l| < SLOT
    ensures Slot(l) == l + "\n" && (Contains(Slot(l), USR) <==> Contains(l, USR)) && (Header(Slot(l)) <==> Header(l))
  {
    ContainsWithNewline(l, USR);
    assert l != [] ==> (l + "\n")[0] == l[0];
  }

  lemma {:induction false} StripIsTrimRight(s: string)
    ensures var t := StripEol(s);
      && |t| <= |s| && s[..|t|] == t && SpaceIn(s, |t|, |s|)
  {
    if s != [] && (s[|s| - 1] == '\n' || s[|s| - 1] == '\r') {
      var s' := s[..|s| - 1];
      StripIsTrimRight(s');
      var t := StripEol(s');
      forall k | |t| <= k < |s| ensures IsSpace(s[k]) {
        if k < |s'| { assert s[k] == s'[k]; }
      }
    }
  }

  /** A slot that strips to a trimmed name comes from a line that trims to it. */
  lemma StripImpliesTrim(l: string, game: string)
    requires Trimmed(game) && StripEol(l + "\n") == game
    ensures Trim(l) == game
  {
    assert (l + "\n")[..|l|] == l;
    assert StripEol(l + "\n") == StripEol(l);
    StripIsTrimRight(l);
    TrimIsTheOnlyWay(l, 0, |game|);
    assert l[0..|game|] == l[..|game|];
  }

  lemma TrimmedIsTrim(game: string)
    requires Trimmed(game)
    ensures Trim(game) == game && StripEol(game + "\n") == game
  {
    TrimIsTheOnlyWay(game, 0, |game|);
    assert game[0..|game|] == game;
    assert (game + "\n")[..|game|] == game;
    assert StripEol(game + "\n") == StripEol(game);
  }

  /** Behind the header nothing but the new name can strip to it. */
  lemma {:induction false} NothingElseDropped(ls: seq<string>, sec: int, game: string)
    requires ShortLines(ls) && NoUsrName(ls) && ProperName(game) && !AlreadyListed(ls, sec, game)
    ensures Kept(ls, sec == 2, game) == Slots(ls)
    decreases ls
  {
    if ls != [] {
      var l := ls[0];
      assert |l| < SLOT && !Contains(l, USR);
      SlotFacts(l);
      if sec == 2 && !Header(l) { StaysUnlisted(l, sec, game); }
      hide Contains, StripEol, Trim, ProperName, Header, AddHit;
      NothingElseDropped(ls[1..], SectionOf(sec, l), game);
      assert Slots(ls) == [Slot(l)] + Slots(ls[1..]);
    }
  }

  /** A line that is no hit for `game_add` is none for the second pass. */
  lemma StaysUnlisted(l: string, sec: int, game: string)
    requires |l| < SLOT && Trimmed(game) && !AddHit(sec, l, game) && sec == 2 && !Header(l)
    ensures StripEol(Slot(l)) != game
  {
    assert Take(l, SLOT) == l;
    if StripEol(Slot(l)) == game {
      StripImpliesTrim(l, game);
    }
  }

  /** Before the header the second pass drops nothing. */
  lemma {:induction false} NothingDroppedBefore(ls: seq<string>, game: string)
    requires ShortLines(ls) && NoUsrName(ls)
    ensures Kept(ls, false, game) == Slots(ls) && !UsrAfter(ls, false)
    decreases ls
  {
    if ls != [] {
      assert |ls[0]| < SLOT && !Contains(ls[0], USR);
      SlotFacts(ls[0]);
      hide Contains, StripEol, Header;
      NothingDroppedBefore(ls[1..], game);
      assert Slots(ls) == [Slot(ls[0])] + Slots(ls[1..]);
    }
  }

  /** An exact line is a trimmed line: what `game_add` did not find, `game_remove` does not find. */
  lemma {:induction false} NotListedNotFound(ls: seq<string>, sec: int, game: string, which: int)
    requires Trimmed(game) && !AlreadyListed(ls, sec, game) && (which == 1 || which == 2)
    ensures !Finds(ls, sec, game, which)
    decreases ls
  {
    if ls != [] {
      TrimmedIsTrim(game);
      hide Trim, Header, Contains, StripEol;
      NotListedNotFound(ls[1..], SectionOf(sec, ls[0]), game, which);
    }
  }

  lemma {:induction false} JoinOfSlots(ls: seq<string>)
    requires ShortLines(ls)
    ensures Join(Slots(ls)) == Unlines(ls)
  {
    if ls != [] {
      assert |ls[0]| < SLOT;
      JoinOfSlots(ls[1..]);
      assert Slots(ls)[1..] == Slots(ls[1..]);
    }
  }

  /** The lines of a file with one user section, cut at its header. */
  predicate OneUsrSection(before: seq<string>, header: string, after: seq<string>) {
    UsrHeader(header) && |header| < SLOT
    && ShortLines(before) && NoUsrName(before) && ShortLines(after) && NoUsrName(after)
  }

  lemma UsrIndexIs(before: seq<string>, header: string, after: seq<string>)
    requires OneUsrSection(before, header, after)
    ensures UsrIndex(before + [header] + after) == |before|
    decreases after
  {
    var ls := before + [header] + after;
    if after == [] {
      assert ls[|ls| - 1] == header;
    } else {
      var m := |after| - 1;
      assert ls[|ls| - 1] == after[m] && after[m] in after;
      assert ls[..|ls| - 1] == before + [header] + after[..m];
      UsrIndexIs(before, header, after[..m]);
    }
  }

  /** The second pass on the file with the new name: exactly that name goes. */
  lemma KeptAfterAdd(before: seq<string>, header: string, after: seq<string>, game: string)
    requires OneUsrSection(before, header, after) && ProperName(game) && !AlreadyListed(after, 2, game)
    ensures Kept(before + [header] + [game] + after, false, game) == Slots(before + [header] + after)
  {
    NothingDroppedBefore(before, game);
    NothingElseDropped(after, 2, game);
    KeptHeader(header, game);
    KeptGame(game);
    hide *;
    KeptCompose(before, header, after, game, Slots(before), [Slot(header)], Slots(after));
    SlotsOfParts(before, header, after);
  }

  lemma KeptCompose(before: seq<string>, header: string, after: seq<string>, game: string,
                    x: seq<string>, y: seq<string>, z: seq<string>)
    requires Kept(before, false, game) == x && !UsrAfter(before, false)
    requires Kept([header], false, game) == y && UsrAfter([header], false)
    requires Kept([game], true, game) == [] && UsrAfter([game], true)
    requires Kept(after, true, game) == z
    ensures Kept(before + [header] + [game] + after, false, game) == x + y + z
  {
    hide *;
    KeptAppend(before, [header], false, game);
    KeptAppend(before + [header], [game], false, game);
    KeptAppend(before + [header] + [game], after, false, game);
    assert x + y + [] == x + y;
  }

  lemma SlotsOfParts(before: seq<string>, header: string, after: seq<string>)
    ensures Slots(before + [header] + after) == Slots(before) + [Slot(header)] + Slots(after)
  {
    hide *;
    SlotsAppend(before + [header], after);
    SlotsAppend(before, [header]);
    SlotOfOne(header);
  }

  lemma SlotsAppend(a: seq<string>, b: seq<string>)
    ensures Slots(a + b) == Slots(a) + Slots(b)
  {
    hide Slot;
  }

  lemma SlotOfOne(l: string)
    ensures Slots([l]) == [Slot(l)]
  {
    hide Slot;
  }

  lemma KeptHeader(header: string, game: string)
    requires UsrHeader(header) && |header| < SLOT && ProperName(game)
    ensures Kept([header], false, game) == [Slot(header)] && UsrAfter([header], false)
  {
    SlotFacts(header);
    var s := Slot(header);
    StripIsTrimRight(s);
    assert s[0] == '[' && !IsSpace(s[0]);
    assert StripEol(s) != game by {
      if |StripEol(s)| > 0 { assert StripEol(s)[0] == s[0]; }
    }
    assert [header][1..] == [];
    hide Contains, StripEol;
  }

  lemma KeptGame(game: string)
    requires ProperName(game)
    ensures Kept([game], true, game) == [] && UsrAfter([game], true)
  {
    SlotFacts(game);
    TrimmedIsTrim(game);
    assert [game][1..] == [];
    hide Contains, StripEol;
  }

  /** The first pass finds the new name among the user games only. */
  lemma FoundAfterAdd(before: seq<string>, header: string, after: seq<string>, game: string)
    requires UsrHeader(header) && ProperName(game)
    requires !AlreadyListed(before + [header] + after, 0, game)
    ensures var ls := before + [header] + [game] + after;
      Finds(ls, 0, game, 2) && !Finds(ls, 0, game, 1)
    ensures !AlreadyListed(after, 2, game)
  {
    var s := SectionAfter(before + [header], 0);
    SectionAppend(before, [header], 0);
    assert s == 2 by { assert [header][1..] == []; }
    ListedAppend(before + [header], after, 0, game);
    NotListedNotFound(before + [header], 0, game, 1);
    NotListedNotFound(after, 2, game, 1);
    assert Finds([game], 2, game, 2) && !Finds([game], 2, game, 1) && SectionAfter([game], 2) == 2 by {
      assert [game][1..] == [];
      assert Take(game, SLOT) == game;
    }
    hide Finds, Contains, Header, ProperName, AlreadyListed;
    FindsAppend(before + [header], [game] + after, 0, game, 1);
    FindsAppend(before + [header], [game] + after, 0, game, 2);
    FindsAppend([game], after, 2, game, 1);
    FindsAppend([game], after, 2, game, 2);
    assert before + [header] + [game] + after == before + [header] + ([game] + after);
  }

  /** Reading back a file of short, clean lines. */
  lemma SeenOfUnlines(ls: seq<string>)
    requires |ls| <= MAX_LINES && |Unlines(ls)| <= FILE_LIMIT
    requires forall l :: l in ls ==> '\n' !in l && '\0' !in l
    ensures Seen(Unlines(ls)) == ls
  {
    LinesOfUnlines(ls);
    UnlinesClean(ls, '\0');
  }

  lemma UnlinesInsert(before: seq<string>, header: string, after: seq<string>, game: string)
    ensures |Unlines(before + [header] + [game] + after)| == |Unlines(before + [header] + after)| + |game| + 1
  {
    var a := before + [header];
    UnlinesAppend(a, [game] + after);
    UnlinesCons(game, after);
    UnlinesAppend(a, after);
    assert a + [game] + after == a + ([game] + after);
  }

  lemma AddedIs(before: seq<string>, header: string, after: seq<string>, game: string)
    requires OneUsrSection(before, header, after) && ProperName(game)
    ensures Join(AddedSlots(before + [header] + after, game)) == Unlines(before + [header] + [game] + after)
  {
    var ls := before + [header] + after;
    UsrIndexIs(before, header, after);
    var long := before + [header] + [game] + after;
    SlotsAppend(before + [header], after);
    SlotsAppend(before + [header], [game]);
    SlotsAppend(before + [header] + [game], after);
    SlotOfOne(game);
    assert ShortLines(long);
    JoinOfSlots(long);
    hide *;
    var a, b := Slots(before + [header]), Slots(after);
    assert (a + b)[..|before| + 1] == a && (a + b)[|before| + 1..] == b;
    InsertedIs(ls, game, |before| + 1, a, b);
  }

  lemma InsertedIs(ls: seq<string>, game: string, i: nat, a: seq<string>, b: seq<string>)
    requires UsrIndex(ls) + 1 == i > 0 && Slots(ls)[..i] == a && Slots(ls)[i..] == b
    ensures AddedSlots(ls, game) == a + [Slot(game)] + b
  {
  }

  /** The lines `game_add` stores stay inside its allocation if and only if the file has at most 64. */
  lemma AddOverrunsIff(file: string, game: string)
    requires '\0' !in file && |file| <= FILE_LIMIT
    ensures Added(file, game).1 == Overrun <==> |Lines(file)| > 64
  {
    hide Lines, AlreadyListed, AddedSlots;
  }

  /** Add, then remove, is the identity, up to a missing final newline, if and only if the file has at most
      64 lines: for every file of short lines with one user section, and every proper name it does not list. */
  lemma AddRemoveRoundTrip(file: string, before: seq<string>, header: string, after: seq<string>, game: string)
    requires '\0' !in file && |file| + |game| + 2 <= FILE_LIMIT
    requires Lines(file) == before + [header] + after
    requires OneUsrSection(before, header, after) && ProperName(game)
    requires !AlreadyListed(Lines(file), 0, game)
    ensures Added(file, game).1 == Overrun <==> |Lines(file)| > 64
    ensures |Lines(file)| <= 64 ==>
      && Added(file, game).1 == Success
      && Lines(Added(file, game).0) == before + [header] + [game] + after
      && Removed(Added(file, game).0, game) == (if NewlineTerminated(file) then file else file + "\n", Success)
  {
    hide Unlines, Contains, ProperName, OneUsrSection;
    AddOverrunsIff(file, game);
    if |Lines(file)| <= 64 {
      hide *;
      RoundTripInside(file, before, header, after, game);
    }
  }

  lemma RoundTripInside(file: string, before: seq<string>, header: string, after: seq<string>, game: string)
    requires '\0' !in file && |file| + |game| + 2 <= FILE_LIMIT && |Lines(file)| <= 64
    requires Lines(file) == before + [header] + after
    requires OneUsrSection(before, header, after) && ProperName(game)
    requires !AlreadyListed(Lines(file), 0, game)
    ensures Added(file, game).1 == Success
    ensures Lines(Added(file, game).0) == before + [header] + [game] + after
    ensures Removed(Added(file, game).0, game) == (if NewlineTerminated(file) then file else file + "\n", Success)
  {
    hide AlreadyListed, Finds, Kept, UsrIndex, Contains, OneUsrSection, ProperName, Unlines;
    var ls, long := before + [header] + after, before + [header] + [game] + after;
    LinesClean(file, '\0');
    UnlinesOfLines(file);
    AddedIs(before, header, after, game);
    assert Seen(file) == ls;
    assert Added(file, game) == (Unlines(long), Success);
    UnlinesInsert(before, header, after, game);
    NameIsClean(game);
    LongIsClean(before, header, after, game);
    SeenOfUnlines(long);
    LinesOfUnlines(long);
    UsrHeaderIs(before, header, after);
    FoundAfterAdd(before, header, after, game);
    KeptAfterAdd(before, header, after, game);
    AllShort(before, header, after);
    JoinOfSlots(ls);
  }

  lemma NameIsClean(game: string)
    requires ProperName(game)
    ensures '\n' !in game && '\0' !in game
  {
  }

  lemma UsrHeaderIs(before: seq<string>, header: string, after: seq<string>)
    requires OneUsrSection(before, header, after)
    ensures UsrHeader(header)
  {
  }

  lemma AllShort(before: seq<string>, header: string, after: seq<string>)
    requires OneUsrSection(before, header, after)
    ensures ShortLines(before + [header] + after)
  {
  }

  lemma LongIsClean(before: seq<string>, header: string, after: seq<string>, game: string)
    requires forall l :: l in before + [header] + after ==> '\n' !in l && '\0' !in l
    requires '\n' !in game && '\0' !in game
    ensures forall l :: l in before + [header] + [game] + after ==> '\n' !in l && '\0' !in l
  {
    forall l | l in before + [header] + [game] + after ensures '\n' !in l && '\0' !in l {
      assert l == game || l in before + [header] + after;
    }
  }

  lemma FreshHeader()
    ensures UsrHeader(USR)
  {
    MissingLetter(USR, SYS, 8);
    assert OccursAt(USR, USR, 0);
  }

  lemma BlankAndHeaderNotListed(sec: int, game: string)
    requires ProperName(game) && game != []
    ensures !AlreadyListed(["", USR] + [], sec, game)
  {
    var ls := ["", USR] + [];
    assert ls[1..] == [USR] && [USR][1..] == [];
    assert !AddHit(sec, "", game) by { assert Trim("") == ""; }
    var next := SectionOf(sec, "");
    assert !AddHit(next, USR, game);
    hide Contains, Trim;
    assert !AlreadyListed([USR], next, game);
  }

  /** Without a user section the two do not cancel out: the new section header stays behind. */
  lemma AddRemoveWithoutSection(file: string, game: string)
    requires '\0' !in file && NewlineTerminated(file) && |file| + |game| + 14 <= FILE_LIMIT
    requires ShortLines(Lines(file)) && NoUsrName(Lines(file))
    requires ProperName(game) && game != [] && |game| + 14 <= SLOT && !AlreadyListed(Lines(file), 0, game)
    ensures Added(file, game).1 == Overrun <==> |Lines(file)| > 64
    ensures |Lines(file)| <= 64 ==>
      && Added(file, game) == (file + "\n" + USR + "\n" + game + "\n", Success)
      && Removed(Added(file, game).0, game) == (file + "\n" + USR + "\n", Success)
  {
    hide *;
    AddOverrunsIff(file, game);
    if |Lines(file)| <= 64 {
      SectionStaysBehind(file, game);
    }
  }

  lemma RoomForThree(n: nat)
    requires n <= 64
    ensures n + 3 <= MAX_LINES
  {
  }

  lemma SectionStaysBehind(file: string, game: string)
    requires '\0' !in file && NewlineTerminated(file) && |file| + |game| + 14 <= FILE_LIMIT && |Lines(file)| <= 64
    requires ShortLines(Lines(file)) && NoUsrName(Lines(file))
    requires ProperName(game) && game != [] && |game| + 14 <= SLOT && !AlreadyListed(Lines(file), 0, game)
    ensures Added(file, game) == (file + "\n" + USR + "\n" + game + "\n", Success)
    ensures Removed(Added(file, game).0, game) == (file + "\n" + USR + "\n", Success)
  {
    hide *;
    RoomForThree(|Lines(file)|);
    AddedWithoutSection(file, game);
    var ls := Lines(file);
    var before := ls + [""];
    LinesClean(file, '\0');
    UnlinesOfLines(file);
    TailLines(ls, game);
    NotListedWithHeader(ls, game);
    BeforeIsProper(ls);
    NewLinesClean(ls, game);
    HeaderLength();
    RemovedLast(before, USR, game);
    assert file + ("\n" + USR + "\n" + game + "\n") == file + "\n" + USR + "\n" + game + "\n";
    assert file + ("\n" + USR + "\n") == file + "\n" + USR + "\n";
  }

  /** Removing a name that ends the file, right behind the header of its section. */
  lemma RemovedLast(before: seq<string>, header: string, game: string)
    requires OneUsrSection(before, header, []) && ProperName(game)
    requires !AlreadyListed(before + [header] + [], 0, game)
    requires var long := before + [header] + [game] + [];
      && |long| <= MAX_LINES && |Unlines(long)| <= FILE_LIMIT
      && forall l :: l in long ==> '\n' !in l && '\0' !in l
    ensures Removed(Unlines(before + [header] + [game] + []), game) == (Unlines(before + [header] + []), Success)
  {
    hide AlreadyListed, Finds, Kept, UsrIndex, Contains, ProperName, Unlines, Header, Lines;
    SeenOfUnlines(before + [header] + [game] + []);
    FoundAfterAdd(before, header, [], game);
    KeptAfterAdd(before, header, [], game);
    AllShort(before, header, []);
    JoinOfSlots(before + [header] + []);
  }

  lemma AddedWithoutSection(file: string, game: string)
    requires '\0' !in file && NewlineTerminated(file) && |file| <= FILE_LIMIT && |Lines(file)| <= 64
    requires ShortLines(Lines(file)) && NoUsrName(Lines(file))
    requires |game| + 14 <= SLOT && !AlreadyListed(Lines(file), 0, game)
    ensures Added(file, game) == (file + ("\n" + USR + "\n" + game + "\n"), Success)
  {
    var ls := Lines(file);
    UnlinesOfLines(file);
    NoIndex(ls);
    JoinAppended(ls, game);
    JoinOfSlots(ls);
    hide AlreadyListed, UsrIndex, Lines, Unlines, Join, AddedSlots;
  }

  lemma NotListedWithHeader(ls: seq<string>, game: string)
    requires ProperName(game) && game != [] && !AlreadyListed(ls, 0, game)
    ensures !AlreadyListed(ls + [""] + [USR] + [], 0, game)
  {
    hide ProperName, AlreadyListed;
    BlankAndHeaderNotListed(SectionAfter(ls, 0), game);
    ListedAppend(ls, ["", USR] + [], 0, game);
    assert ls + (["", USR] + []) == ls + [""] + [USR] + [];
  }

  lemma BeforeIsProper(ls: seq<string>)
    requires ShortLines(ls) && NoUsrName(ls)
    ensures OneUsrSection(ls + [""], USR, [])
  {
    hide Contains, UsrHeader, ShortLines, NoUsrName;
    FreshHeader();
    EmptyProper();
    SnocProper(ls, "");
  }

  lemma EmptyProper()
    ensures ShortLines([]) && NoUsrName([]) && |USR| < SLOT && !Contains("", USR)
  {
  }

  lemma SnocProper(ls: seq<string>, l: string)
    requires ShortLines(ls) && NoUsrName(ls) && |l| < SLOT && !Contains(l, USR)
    ensures ShortLines(ls + [l]) && NoUsrName(ls + [l])
  {
    hide Contains;
  }

  lemma HeaderLength()
    ensures |USR| == 11
  {
  }

  lemma NewLinesClean(ls: seq<string>, game: string)
    requires ProperName(game) && forall l :: l in ls ==> '\n' !in l && '\0' !in l
    ensures forall l :: l in ls + [""] + [USR] + [game] + [] ==> '\n' !in l && '\0' !in l
    ensures |ls + [""] + [USR] + [game] + []| == |ls| + 3
  {
    assert '\n' !in USR && '\0' !in USR;
    NameIsClean(game);
    hide ProperName;
    forall l | l in ls + [""] + [USR] + [game] + [] ensures '\n' !in l && '\0' !in l {
      assert l in ls || l == "" || l == USR || l == game;
    }
  }

  lemma {:induction false} NoIndex(ls: seq<string>)
    requires NoUsrName(ls)
    ensures UsrIndex(ls) == -1
  {
    if ls != [] {
      assert !Contains(ls[|ls| - 1], USR);
      NoIndex(ls[..|ls| - 1]);
    }
  }

  lemma {:induction false} JoinAppend(a: seq<string>, b: seq<string>)
    ensures Join(a + b) == Join(a) + Join(b)
  {
    if a == [] {
      assert a + b == b;
    } else {
      assert (a + b)[1..] == a[1..] + b && (a + b)[0] == a[0];
      JoinAppend(a[1..], b);
      var x, y := Join(a[1..]), Join(b);
      assert a[0] + (x + y) == (a[0] + x) + y;
    }
  }

  lemma JoinAppended(ls: seq<string>, game: string)
    requires UsrIndex(ls) == -1 && |game| + 14 <= SLOT
    ensures Join(AddedSlots(ls, game)) == Join(Slots(ls)) + ("\n" + USR + "\n" + game + "\n")
  {
    var s := "\n" + USR + "\n" + game + "\n";
    assert Take(s, SLOT) == s;
    JoinAppend(Slots(ls), [s]);
    assert Join([s]) == s by { assert [s][1..] == []; }
  }

  lemma TailLines(ls: seq<string>, game: string)
    ensures var before := ls + [""];
      && Unlines(before + [USR] + [game] + []) == Unlines(ls) + ("\n" + USR + "\n" + game + "\n")
      && Unlines(before + [USR] + []) == Unlines(ls) + ("\n" + USR + "\n")
  {
    hide *;
    UnlinesAppend(ls, [""]);
    UnlinesAppend(ls + [""], [USR]);
    UnlinesAppend(ls + [""] + [USR], [game]);
    UnlinesOne("");
    UnlinesOne(USR);
    UnlinesOne(game);
    var a, b := ls + [""] + [USR] + [game], ls + [""] + [USR];
    assert a + [] == a && b + [] == b;
    var u := Unlines(ls);
    assert u + ("" + "\n") + (USR + "\n") == u + ("\n" + USR + "\n");
    assert u + ("" + "\n") + (USR + "\n") + (game + "\n") == u + ("\n" + USR + "\n" + game + "\n");
  }

  lemma UnlinesOne(l: string)
    ensures Unlines([l]) == l + "\n"
  {
    assert [l][1..] == [];
  }

  // ---------------------------------------------------------------- the scans, in the words of the file alone

  ghost predicate OpensSys(l: string) {
    Bracket(l) && exists a: string, b: string :: l == a + "[GAMES_SYS]" + b
  }

  lemma OpensSysIff(l: string)
    ensures OpensSys(l) <==> Header(l) && Contains(l, SYS)
  {
    OpensIff(l);
    if Contains(l, SYS) {
      var a, b := ContainsSplit(l, SYS);
      assert l == a + "[GAMES_SYS]" + b;
    }
    if OpensSys(l) {
      var a: string, b: string :| l == a + "[GAMES_SYS]" + b;
      ContainsJoin(a, SYS, b);
    }
  }

  /** The last header opens a games section: the system's if `which` is 1, the user's if it is 2. */
  ghost predicate InKind(ls: seq<string>, which: int) {
    exists h: nat :: h < |ls| && LastHeader(ls, h) && Opens(ls[h]) && (OpensSys(ls[h]) <==> which == 1)
  }

  predicate LastHeader(ls: seq<string>, h: nat) {
    forall j :: h < j < |ls| ==> !Bracket(ls[j])
  }

  lemma SectionStep(ls: seq<string>, l: string)
    ensures SectionAfter(ls + [l], 0) ==
      if Opens(l) then (if OpensSys(l) then 1 else 2) else if Bracket(l) then 0 else SectionAfter(ls, 0)
  {
    OpensIff(l);
    OpensSysIff(l);
    SectionAppend(ls, [l], 0);
    assert [l][1..] == [];
    hide Contains, Opens, OpensSys, Bracket, Header;
  }

  lemma {:induction false} KindIs(ls: seq<string>, which: int)
    requires which == 1 || which == 2
    ensures SectionAfter(ls, 0) == which <==> InKind(ls, which)
    decreases |ls|
  {
    if ls != [] {
      hide Opens, OpensSys, Bracket, SectionAfter, LastHeader;
      var n := |ls| - 1;
      SplitLast(ls);
      var top, l := ls[..n], ls[n];
      KindIs(top, which);
      SectionStep(top, l);
      OpensBracket(l);
      KindStep(top, l, which);
    } else {
      assert SectionAfter([], 0) == 0;
    }
  }

  /** The last header of the lines with one more at the end. */
  lemma KindStep(top: seq<string>, l: string, which: int)
    ensures InKind(top + [l], which)
      <==> (if Bracket(l) then Opens(l) && (OpensSys(l) <==> which == 1) else InKind(top, which))
  {
    var ls, n := top + [l], |top|;
    OpensBracket(l);
    hide Opens, OpensSys, Bracket;
    if InKind(ls, which) {
      var h: nat :| h < |ls| && LastHeader(ls, h) && Opens(ls[h]) && (OpensSys(ls[h]) <==> which == 1);
      if h < n {
        assert forall j :: h < j < n ==> top[j] == ls[j];
        assert LastHeader(top, h) && top[h] == ls[h];
        assert !Bracket(ls[n]) && InKind(top, which);
      } else {
        assert h == n && ls[h] == l;
      }
    }
    if !Bracket(l) && InKind(top, which) {
      var h: nat :| h < n && LastHeader(top, h) && Opens(top[h]) && (OpensSys(top[h]) <==> which == 1);
      assert forall j :: h < j < n ==> ls[j] == top[j];
      assert ls[n] == l && LastHeader(ls, h) && ls[h] == top[h];
      assert InKind(ls, which);
    }
    if Opens(l) && (OpensSys(l) <==> which == 1) {
      assert LastHeader(ls, n) && ls[n] == l;
    }
  }

  lemma OpensBracket(l: string)
    ensures Opens(l) ==> Bracket(l)
  {
  }

  /** Line `i` lies in the section of that kind. */
  ghost predicate UnderKind(ls: seq<string>, h: nat, i: nat, which: int)
    requires i < |ls|
  {
    Under(ls, h, i) && (OpensSys(ls[h]) <==> which == 1)
  }

  lemma KindLiterally(ls: seq<string>, i: nat, which: int)
    requires i < |ls| && (which == 1 || which == 2)
    ensures !Header(ls[i]) && SectionAfter(ls[..i], 0) == which <==> exists h: nat :: UnderKind(ls, h, i, which)
  {
    hide Opens, OpensSys, Bracket, SectionAfter;
    var top := ls[..i];
    KindIs(top, which);
    OpensIff(ls[i]);
    if !Header(ls[i]) && InKind(top, which) {
      var h: nat :| h < i && LastHeader(top, h) && Opens(top[h]) && (OpensSys(top[h]) <==> which == 1);
      forall j | h < j <= i ensures !Bracket(ls[j]) {
        if j < i { assert top[j] == ls[j]; }
      }
      assert ls[h] == top[h];
      assert UnderKind(ls, h, i, which);
    }
    if h: nat :| UnderKind(ls, h, i, which) {
      assert forall j :: h < j < i ==> top[j] == ls[j];
      assert LastHeader(top, h) && top[h] == ls[h];
    }
  }

  /** `game_add` finds a game if and only if some line under a header of the games is it, blanks aside. */
  lemma {:induction false} ListedLiterally(ls: seq<string>, game: string)
    ensures AlreadyListed(ls, 0, game)
      <==> exists i: nat, h: nat :: i < |ls| && Trim(Take(ls[i], 255)) == game && Under(ls, h, i)
    decreases |ls|
  {
    if ls != [] {
      var n := |ls| - 1;
      SplitLast(ls);
      var top, l := ls[..n], ls[n];
      ListedLiterally(top, game);
      ScanStep(top, l, game);
      KindLiterally(ls, n, 1);
      KindLiterally(ls, n, 2);
      EitherKind(ls, n);
      hide Under, UnderKind, Trim, SectionAfter, Header, Contains, AlreadyListed;
      if i: nat, h: nat :| i < |ls| && Trim(Take(ls[i], 255)) == game && Under(ls, h, i) {
        if i < n {
          UnderPrefix(ls, h, i);
          assert Trim(Take(top[i], 255)) == game && Under(top, h, i);
        }
      }
      if i: nat, h: nat :| i < |top| && Trim(Take(top[i], 255)) == game && Under(top, h, i) {
        UnderLonger(ls, h, i);
        assert Trim(Take(ls[i], 255)) == game && Under(ls, h, i);
      }
    }
  }

  lemma EitherKind(ls: seq<string>, i: nat)
    requires i < |ls|
    ensures forall h: nat :: Under(ls, h, i) <==> UnderKind(ls, h, i, 1) || UnderKind(ls, h, i, 2)
  {
    hide Under, OpensSys;
  }

  lemma UnderLonger(ls: seq<string>, h: nat, i: nat)
    requires i < |ls| - 1 && Under(ls[..|ls| - 1], h, i)
    ensures Under(ls, h, i)
  {
    hide Opens, Bracket;
    var top := ls[..|ls| - 1];
    assert forall j :: 0 <= j <= i ==> top[j] == ls[j];
  }

  /** `game_remove` looks for the exact line in the sections of one kind. */
  lemma {:induction false} FoundLiterally(ls: seq<string>, game: string, which: int)
    requires which == 1 || which == 2
    ensures Finds(ls, 0, game, which)
      <==> exists i: nat, h: nat :: i < |ls| && Take(ls[i], 255) == game && UnderKind(ls, h, i, which)
    decreases |ls|
  {
    if ls != [] {
      var n := |ls| - 1;
      SplitLast(ls);
      var top, l := ls[..n], ls[n];
      FoundLiterally(top, game, which);
      ScanStep(top, l, game);
      KindLiterally(ls, n, which);
      hide Under, OpensSys, Trim, SectionAfter, Header, Contains, Finds;
      if i: nat, h: nat :| i < |ls| && Take(ls[i], 255) == game && UnderKind(ls, h, i, which) {
        if i < n {
          UnderIsAbove(ls, h, i);
          UnderPrefix(ls, h, i);
          assert top[h] == ls[h];
          assert Take(top[i], 255) == game && UnderKind(top, h, i, which);
        }
      }
      if i: nat, h: nat :| i < |top| && Take(top[i], 255) == game && UnderKind(top, h, i, which) {
        UnderIsAbove(top, h, i);
        UnderLonger(ls, h, i);
        assert top[h] == ls[h];
        assert Take(ls[i], 255) == game && UnderKind(ls, h, i, which);
      }
    }
  }

  lemma UnderIsAbove(ls: seq<string>, h: nat, i: nat)
    requires i < |ls| && Under(ls, h, i)
    ensures h < i
  {
  }

  /** The lines that are read: all of them, within 16383 bytes and 1024 lines. */
  lemma SeenLimits(file: string)
    ensures |Seen(file)| <= 1024 && Seen(file) == Seen(Take(file, 16383))
    ensures '\0' !in file && |file| <= 16383 && |Lines(file)| <= 1024 ==> Seen(file) == Lines(file)
    ensures '\0' !in file && |file| <= 16383 && |Lines(file)| > 1024 ==> Seen(file) == Lines(file)[..1024]
  {
    hide Lines, CStr;
    assert Take(Take(file, FILE_LIMIT), FILE_LIMIT) == Take(file, FILE_LIMIT);
  }

  /** A game that is listed, in either section, is not added again: the file stays as it is. */
  lemma ListedStays(file: string, game: string, h: nat, i: nat)
    requires '\0' !in file && |file| <= 16383 && |Lines(file)| <= 64
    requires i < |Lines(file)| && Under(Lines(file), h, i) && Trim(Take(Lines(file)[i], 255)) == game
    ensures Added(file, game) == (file, Success)
  {
    SeenLimits(file);
    hide Lines, Under, Trim, AddedSlots;
    ListedLiterally(Lines(file), game);
    hide AlreadyListed;
  }

  /** Whatever the length of the name, what is added is cut to 255 bytes, with the newline behind a name that
      fits, at the end of the file together with a header if there is none. */
  lemma AddedIsCut(file: string, game: string)
    requires |Seen(file)| <= 64 && !AlreadyListed(Seen(file), 0, game)
    ensures var ls := Seen(file);
      var i := UsrIndex(ls);
      Added(file, game) ==
        (if i == -1 then Join(Slots(ls)) + Take("\n[GAMES_USR]\n" + game + "\n", 255)
         else Join(Slots(ls)[..i + 1]) + Take(game + "\n", 255) + Join(Slots(ls)[i + 1..]), Success)
  {
    var ls := Seen(file);
    var ss, i := Slots(ls), UsrIndex(ls);
    assert SLOT == 255 && "\n" + USR + "\n" == "\n[GAMES_USR]\n";
    hide Seen, Slots, AlreadyListed, UsrIndex;
    var s := if i == -1 then Take("\n[GAMES_USR]\n" + game + "\n", 255) else Take(game + "\n", 255);
    assert Join([s]) == s by { assert [s][1..] == []; }
    hide Join;
    if i == -1 {
      JoinAppend(ss, [s]);
    } else {
      JoinAppend(ss[..i + 1] + [s], ss[i + 1..]);
      JoinAppend(ss[..i + 1], [s]);
    }
  }

  /** Adding a game twice is adding it once. */
  lemma AddTwice(file: string, before: seq<string>, header: string, after: seq<string>, game: string)
    requires '\0' !in file && |file| + |game| + 2 <= FILE_LIMIT && |Lines(file)| < 64
    requires Lines(file) == before + [header] + after
    requires OneUsrSection(before, header, after) && ProperName(game)
    requires !AlreadyListed(Lines(file), 0, game)
    ensures Added(Added(file, game).0, game) == (Added(file, game).0, Success)
  {
    RoundTripInside(file, before, header, after, game);
    var once := Added(file, game).0;
    AddedText(file, before, header, after, game);
    assert Trim(Take(game, 255)) == game by { TrimmedIsTrim(game); }
    NewLineIsUnder(before, header, after, game);
    hide Added, Lines, Under, Trim, ProperName, OneUsrSection, AlreadyListed, Unlines;
    var ls := Lines(once);
    assert ls[|before| + 1] == game;
    ListedStays(once, game, |before|, |before| + 1);
  }

  lemma AddedText(file: string, before: seq<string>, header: string, after: seq<string>, game: string)
    requires '\0' !in file && |file| + |game| + 2 <= FILE_LIMIT && |Lines(file)| <= 64
    requires Lines(file) == before + [header] + after
    requires OneUsrSection(before, header, after) && ProperName(game)
    requires !AlreadyListed(Lines(file), 0, game)
    ensures '\0' !in Added(file, game).0 && |Added(file, game).0| <= |file| + |game| + 2
    ensures Added(file, game).0 == Unlines(before + [header] + [game] + after)
  {
    hide AlreadyListed, Contains, OneUsrSection, ProperName, Unlines;
    var long := before + [header] + [game] + after;
    LinesClean(file, '\0');
    UnlinesOfLines(file);
    AddedIs(before, header, after, game);
    SeenLimits(file);
    UnlinesInsert(before, header, after, game);
    NameIsClean(game);
    LongIsClean(before, header, after, game);
    UnlinesClean(long, '\0');
    hide Lines;
  }

  lemma NewLineIsUnder(before: seq<string>, header: string, after: seq<string>, game: string)
    requires UsrHeader(header) && ProperName(game)
    ensures Under(before + [header] + [game] + after, |before|, |before| + 1)
  {
    OpensIff(header);
    OpensIff(game);
    hide Opens, Bracket, Contains;
    var ls, h := before + [header] + [game] + after, |before|;
    assert ls[h] == header && ls[h + 1] == game;
  }

  /** What `game_add` wrote, `games_load` and `games_match` find, in a file that fits both: every process whose
      name contains the game matches. */
  lemma AddedGameMatches(file: string, before: seq<string>, header: string, after: seq<string>,
                         game: string, comm: string)
    requires '\0' !in file && |file| + |game| + 2 <= 8191 && |Lines(file)| <= 64
    requires Lines(file) == before + [header] + after
    requires OneUsrSection(before, header, after) && ProperName(game)
    requires !AlreadyListed(Lines(file), 0, game)
    requires 2 <= |game| < 64 && game[0] != '#' && Contains(comm, game)
    ensures Match(Names(Lines(CStr(Take(Added(file, game).0, 8191)))), comm)
  {
    RoundTripInside(file, before, header, after, game);
    AddedText(file, before, header, after, game);
    UsrHeaderIs(before, header, after);
    NewLineIsUnder(before, header, after, game);
    ProperIsEntry(game);
    hide Added, Lines, Under, EntryText, ProperName, OneUsrSection, AlreadyListed, Unlines, Contains;
    var text := Added(file, game).0;
    assert CStr(Take(text, 8191)) == text;
    var ls := Lines(text);
    assert ls[|before| + 1] == game && |ls| <= 65;
    LoadedEntry(ls, |before|, |before| + 1);
    hide Names;
    NonEmptyHost(comm, game);
  }

  lemma ProperIsEntry(game: string)
    requires ProperName(game) && game != []
    ensures EntryText(game) == game
  {
    assert !IsSpace(game[0]) && !IsSpace(game[|game| - 1]);
    EntryTextOf("", game, "");
    assert "" + game + "" == game;
  }

  /** A game of the system cannot be removed, and a game the user did not list is not. */
  lemma OthersStay(file: string, game: string)
    requires '\0' !in file && |file| <= 16383 && |Lines(file)| <= 1024
    requires var ls := Lines(file);
      || (exists i: nat, h: nat :: i < |ls| && Take(ls[i], 255) == game && UnderKind(ls, h, i, 1))
      || (forall i: nat, h: nat :: i < |ls| && UnderKind(ls, h, i, 2) ==> Take(ls[i], 255) != game)
    ensures Removed(file, game) == (file, NotRemoved)
  {
    SeenLimits(file);
    hide Lines, UnderKind, Kept;
    FoundLiterally(Lines(file), game, 1);
    FoundLiterally(Lines(file), game, 2);
    hide Finds;
  }

  /** The second pass is in the user's part from a line that holds the section's name to the next header. */
  lemma {:induction false} UsrLiterally(ls: seq<string>)
    ensures UsrAfter(ls, false) <==> exists h: nat ::
      h < |ls| && Contains(Take(ls[h] + "\n", 255), "[GAMES_USR]") && LastHeader(ls, h)
    decreases |ls|
  {
    if ls != [] {
      var n := |ls| - 1;
      SplitLast(ls);
      var top, l := ls[..n], ls[n];
      UsrLiterally(top);
      KeptAppend(top, [l], false, "");
      assert [l][1..] == [] && UsrAfter(ls, false) == UsrOf(UsrAfter(top, false), Slot(l));
      assert Header(Slot(l)) <==> Bracket(l) by { if l != [] { assert Slot(l)[0] == l[0]; } }
      hide Contains, UsrAfter, Slot;
      assert Slot(l) == Take(l + "\n", 255) by { SlotIs(l); }
      if h: nat :| h < |ls| && Contains(Take(ls[h] + "\n", 255), "[GAMES_USR]") && LastHeader(ls, h) {
        if h < n {
          assert forall j :: h < j < n ==> top[j] == ls[j];
          assert top[h] == ls[h] && LastHeader(top, h) && !Bracket(l);
        }
      }
      if h: nat :| h < n && Contains(Take(top[h] + "\n", 255), "[GAMES_USR]") && LastHeader(top, h) {
        if !Bracket(l) {
          assert forall j :: h < j < n ==> top[j] == ls[j];
          assert top[h] == ls[h] && LastHeader(ls, h);
        }
      }
      if Contains(Take(l + "\n", 255), "[GAMES_USR]") { assert LastHeader(ls, n); }
    }
  }

  lemma SlotIs(l: string)
    ensures Slot(l) == Take(l + "\n", 255)
  {
  }

  /** It drops a line if and only if that part contains it and it is the game, newlines and returns aside, and
      keeps all others as they were read. */
  lemma KeptLiterally(ls: seq<string>, l: string, game: string)
    ensures Kept(ls + [l], false, game) == Kept(ls, false, game)
      + if UsrAfter(ls + [l], false) && StripEol(Take(l + "\n", 255)) == game then [] else [Take(l + "\n", 255)]
  {
    KeptAppend(ls, [l], false, game);
    assert [l][1..] == [];
    SlotIs(l);
    hide UsrOf, StripEol, Slot;
    assert Kept([], UsrAfter([l], UsrAfter(ls, false)), game) == [];
  }

  lemma {:induction false} StripEolOf(s: string, post: string)
    requires forall k :: 0 <= k < |post| ==> post[k] == '\n' || post[k] == '\r'
    requires s != [] ==> s[|s| - 1] != '\n' && s[|s| - 1] != '\r'
    ensures StripEol(s + post) == s
    decreases |post|
  {
    if post == [] {
      assert s + post == s;
    } else {
      assert (s + post)[..|s + post| - 1] == s + post[..|post| - 1];
      StripEolOf(s, post[..|post| - 1]);
    }
  }

  // ---------------------------------------------------------------- the program

  class GamesConf {
    var content: string

    constructor (content: string)
      ensures this.content == content
    {
      this.content := content;
    }

    /** A line copied into the 256-byte buffer and trimmed there. */
    static method TrimmedCopy(l: string) returns (t: string)
      requires '\0' !in l
      ensures t == Trim(Take(l, SLOT))
    {
      var s := Take(l, SLOT);
      var clean := new char[SLOT + 1](i => if 0 <= i < |s| then s[i] else '\0');
      assert clean[..][|s|] == '\0';
      assert clean[..|s|] == s;
      CStrAt(clean[..], s);
      TrimWsInplace(clean);
      t := CStr(clean[..]);
    }

    static method NextSection(sec: int, l: string) returns (r: int)
      ensures r == SectionOf(sec, l)
    {
      r := sec;
      if Header(l) {
        var sys := Strstr(l, SYS);
        var usr := Strstr(l, USR);
        r := if sys.Some? then 1 else if usr.Some? then 2 else 0;
      }
    }

    /** What `game_add` notes about one line. */
    static method ExamineForAdd(l: string, game: string, sec: int, listed: bool, idx: int, at: nat,
                                ghost done: seq<string>)
      returns (sec': int, listed': bool, idx': int)
      requires '\0' !in l && at == |done| && AddNotes(done, game, sec, listed, idx)
      ensures AddNotes(done + [l], game, sec', listed', idx')
    {
      ScanStep(done, l, game);
      hide Contains, Trim, SectionAfter, AlreadyListed, UsrIndex;
      sec', listed', idx' := sec, listed, idx;
      if Header(l) {
        sec' := NextSection(sec, l);
        if sec' == 2 { idx' := at; }
      } else {
        var clean := TrimmedCopy(l);
        if (sec == 1 || sec == 2) && clean == game { listed' := true; }
      }
    }

    static method StoreSlot(lines: array<string>, count: nat, l: string, ghost done: seq<string>)
      requires count == |done| < lines.Length && lines[..count] == Slots(done)
      modifies lines
      ensures lines[..count + 1] == Slots(done + [l])
    {
      hide Slot;
      SlotsAppend(done, [l]);
      SlotOfOne(l);
      lines[count] := Slot(l);
      assert lines[..count + 1] == Slots(done) + [Slot(l)];
    }

    /** The reading loop of `game_add`. It never grows its array: `inside` tells whether every line found a
        place in it. */
    static method ReadForAdd(file: string, game: string, lines: array<string>)
      returns (inside: bool, count: nat, listed: bool, idx: int)
      requires lines.Length <= MAX_LINES
      modifies lines
      ensures inside <==> |Seen(file)| <= lines.Length
      ensures inside ==> count == |Seen(file)| && lines[..count] == Slots(Seen(file))
      ensures inside ==> listed == AlreadyListed(Seen(file), 0, game) && idx == UsrIndex(Seen(file))
    {
      var ln := CStr(Take(file, FILE_LIMIT));
      ghost var all := Lines(ln);
      ghost var done := [];
      var sec := 0;
      inside, count, listed, idx := true, 0, false, -1;
      assert done + Lines(ln) == all;
      assert AddNotes(done, game, sec, listed, idx);
      while ln != [] && count < MAX_LINES
        invariant '\0' !in ln && done + Lines(ln) == all && count == |done| <= lines.Length
        invariant lines[..count] == Slots(done) && AddNotes(done, game, sec, listed, idx)
        decreases |ln|
      {
        hide *;
        var l, rest := NextLine(ln);
        if count == lines.Length {
          TooMany(file, all, done, l, rest);
          return false, count, listed, idx;
        }
        DoneSnoc(done, l, rest, all);
        StoreSlot(lines, count, l, done);
        sec, listed, idx := ExamineForAdd(l, game, sec, listed, idx, count, done);
        count, done, ln := count + 1, done + [l], rest;
      }
      EndOfScan(done, ln, all);
    }

    /** `lines_expand`: twice the room, at most for 1024 lines, the lines kept. */
    static method Expand(lines: array<string>) returns (more: array<string>)
      requires lines.Length < MAX_LINES
      ensures fresh(more) && lines.Length <= more.Length && (0 < lines.Length ==> lines.Length < more.Length)
      ensures more[..lines.Length] == lines[..]
    {
      var cap := lines.Length * 2;
      if cap > MAX_LINES { cap := MAX_LINES; }
      more := new string[cap](i requires 0 <= i < cap reads lines => if i < lines.Length then lines[i] else "");
    }

    /** The right-to-left shift that makes room for one line. */
    static method ShiftInsert(lines: array<string>, count: nat, at: nat, s: string)
      requires at <= count < lines.Length
      modifies lines
      ensures lines[..count + 1] == InsertAt(old(lines[..count]), at, s)
    {
      ghost var before := lines[..];
      var j := count;
      while j > at
        invariant at <= j <= count
        invariant forall k :: 0 <= k <= j && k < count ==> lines[k] == before[k]
        invariant forall k :: j < k <= count ==> lines[k] == before[k - 1]
      {
        lines[j] := lines[j - 1];
        j := j - 1;
      }
      lines[at] := s;
    }

    static method WriteOut(lines: array<string>, count: nat) returns (out: string)
      requires count <= lines.Length
      ensures out == Join(lines[..count])
    {
      out := "";
      var i := 0;
      while i < count
        invariant 0 <= i <= count && out == Join(lines[..i])
      {
        assert lines[..i + 1] == lines[..i] + [lines[i]];
        JoinAppend(lines[..i], [lines[i]]);
        assert [lines[i]][1..] == [];
        out := out + lines[i];
        i := i + 1;
      }
    }

    /** `game_add`. */
    method Add(game: string) returns (code: Code)
      modifies this
      ensures (content, code) == Added(old(content), game)
    {
      hide Seen, AlreadyListed, UsrIndex, Join;
      var lines := new string[CAPACITY](_ => "");
      var inside, count, listed, idx := ReadForAdd(content, game, lines);
      if !inside { return Overrun; }
      if listed { return Success; }
      ghost var slots := lines[..count];
      if count >= lines.Length {
        lines := Expand(lines);
        assert lines[..count] == slots;
      }
      if idx == -1 {
        lines[count] := Take("\n" + USR + "\n" + game + "\n", SLOT);
        assert lines[..count + 1] == slots + [lines[count]];
      } else {
        ShiftInsert(lines, count, idx + 1, Slot(game));
      }
      content := WriteOut(lines, count + 1);
      code := Success;
    }

    /** What `game_remove` notes about one line. */
    static method ExamineForRemove(l: string, game: string, sec: int, sys: bool, usr: bool, ghost done: seq<string>)
      returns (sec': int, sys': bool, usr': bool)
      requires RemoveNotes(done, game, sec, sys, usr)
      ensures RemoveNotes(done + [l], game, sec', sys', usr')
    {
      ScanStep(done, l, game);
      hide Contains, SectionAfter, Finds;
      sec', sys', usr' := sec, sys, usr;
      if Header(l) {
        sec' := NextSection(sec, l);
      } else {
        if sec == 1 && Take(l, SLOT) == game { sys' := true; }
        if sec == 2 && Take(l, SLOT) == game { usr' := true; }
      }
    }

    /** The reading loop of `game_remove`. */
    static method ReadForRemove(file: string, game: string, lines: array<string>)
      returns (count: nat, sys: bool, usr: bool)
      requires lines.Length == MAX_LINES
      modifies lines
      ensures count == |Seen(file)| && lines[..count] == Slots(Seen(file))
      ensures sys == Finds(Seen(file), 0, game, 1) && usr == Finds(Seen(file), 0, game, 2)
    {
      var ln := CStr(Take(file, FILE_LIMIT));
      ghost var all := Lines(ln);
      ghost var done := [];
      var sec := 0;
      count, sys, usr := 0, false, false;
      assert done + Lines(ln) == all;
      assert RemoveNotes(done, game, sec, sys, usr);
      while ln != [] && count < MAX_LINES
        invariant done + Lines(ln) == all && count == |done| <= MAX_LINES
        invariant lines[..count] == Slots(done) && RemoveNotes(done, game, sec, sys, usr)
        decreases |ln|
      {
        hide *;
        var l, rest := NextLine(ln);
        DoneSnoc(done, l, rest, all);
        StoreSlot(lines, count, l, done);
        sec, sys, usr := ExamineForRemove(l, game, sec, sys, usr, done);
        count, done, ln := count + 1, done + [l], rest;
      }
      EndOfScan(done, ln, all);
    }

    static method Stripped(s: string) returns (t: string)
      ensures t == StripEol(s)
    {
      t := s;
      while t != [] && (t[|t| - 1] == '\n' || t[|t| - 1] == '\r')
        invariant StripEol(s) == StripEol(t)
        decreases |t|
      {
        t := t[..|t| - 1];
      }
    }

    /** The second pass of `game_remove`. */
    static method Filter(lines: seq<string>, game: string, ghost ls: seq<string>) returns (kept: seq<string>)
      requires lines == Slots(ls)
      ensures kept == Kept(ls, false, game)
    {
      kept := [];
      var inUsr := false;
      var i := 0;
      while i < |lines|
        invariant 0 <= i <= |lines|
        invariant kept == Kept(ls[..i], false, game) && inUsr == UsrAfter(ls[..i], false)
      {
        hide StripEol, Contains;
        var s := lines[i];
        var usr := Strstr(s, USR);
        if usr.Some? { inUsr := true; } else if Header(s) { inUsr := false; }
        var clean := Stripped(s);
        assert ls[..i + 1] == ls[..i] + [ls[i]] && [ls[i]][1..] == [];
        KeptAppend(ls[..i], [ls[i]], false, game);
        if !(inUsr && clean == game) { kept := kept + [s]; }
        i := i + 1;
      }
      assert ls[..|lines|] == ls;
    }

    /** `game_remove`. */
    method Remove(game: string) returns (code: Code)
      modifies this
      ensures (content, code) == Removed(old(content), game)
    {
      hide Seen, Finds, Kept, Join;
      var lines := new string[MAX_LINES](_ => "");
      var count, sys, usr := ReadForRemove(content, game, lines);
      if sys || !usr { return NotRemoved; }
      var kept := Filter(lines[..count], game, Seen(content));
      var out := new string[|kept|](i requires 0 <= i < |kept| => kept[i]);
      assert out[..|kept|] == kept;
      content := WriteOut(out, |kept|);
      code := Success;
    }
  }

  /** What the reading loop of `game_add` knows after `done`. */
  predicate AddNotes(done: seq<string>, game: string, sec: int, listed: bool, idx: int) {
    sec == SectionAfter(done, 0) && listed == AlreadyListed(done, 0, game) && idx == UsrIndex(done)
  }

  /** What the reading loop of `game_remove` knows after `done`. */
  predicate RemoveNotes(done: seq<string>, game: string, sec: int, sys: bool, usr: bool) {
    sec == SectionAfter(done, 0) && sys == Finds(done, 0, game, 1) && usr == Finds(done, 0, game, 2)
  }

  lemma ScanStep(done: seq<string>, l: string, game: string)
    ensures SectionAfter(done + [l], 0) == SectionOf(SectionAfter(done, 0), l)
    ensures UsrIndex(done + [l]) == if UsrHeader(l) then |done| else UsrIndex(done)
    ensures AlreadyListed(done + [l], 0, game)
      <==> AlreadyListed(done, 0, game) || AddHit(SectionAfter(done, 0), l, game)
    ensures forall w :: w == 1 || w == 2 ==>
      (Finds(done + [l], 0, game, w)
       <==> Finds(done, 0, game, w) || (!Header(l) && SectionAfter(done, 0) == w && Take(l, SLOT) == game))
  {
    assert [l][1..] == [] && (done + [l])[..|done|] == done;
    SectionAppend(done, [l], 0);
    ListedAppend(done, [l], 0, game);
    FindsAppend(done, [l], 0, game, 1);
    FindsAppend(done, [l], 0, game, 2);
  }

  lemma DoneSnoc(done: seq<string>, l: string, rest: string, all: seq<string>)
    requires done + ([l] + Lines(rest)) == all
    ensures done + [l] + Lines(rest) == all
  {
    hide Lines;
    AppendAssoc(done, [l], Lines(rest));
  }

  /** A line is left when the array is full. */
  lemma TooMany(file: string, all: seq<string>, done: seq<string>, l: string, rest: string)
    requires all == Lines(CStr(Take(file, FILE_LIMIT))) && done + ([l] + Lines(rest)) == all && |done| < MAX_LINES
    ensures |Seen(file)| > |done|
  {
    hide Lines;
  }

  /** Both reading loops stop at the end of the text or at 1024 lines. */
  lemma EndOfScan(done: seq<string>, ln: string, all: seq<string>)
    requires done + Lines(ln) == all && |done| <= MAX_LINES && (ln == [] || |done| == MAX_LINES)
    ensures done == if |all| <= MAX_LINES then all else all[..MAX_LINES]
  {
    assert ln == [] ==> done + Lines(ln) == done;
  }
}
