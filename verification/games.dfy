/** The game list of src/games.c: loading and matching. */
module Games {
  import opened Text
  import opened Numbers
  import opened Libc

  const GAMES_MAX: nat := 512
  const NAME_LIMIT: nat := 63   // GAME_NAME - 1
  const READ_LIMIT: nat := 8191

  const SYS: string := "[GAMES_SYS]"
  const USR: string := "[GAMES_USR]"

  predicate Header(l: string) {
    At(l, 0) == '['
  }

  predicate GamesHeader(l: string) {
    Contains(l, SYS) || Contains(l, USR)
  }

  /** Whether the line behind `ls` lies in a games section. */
  predicate InSection(ls: seq<string>) {
    ls != [] &&
    var l := ls[|ls| - 1];
    if Header(l) then GamesHeader(l) else InSection(ls[..|ls| - 1])
  }

  predicate Padding(c: char) {
    c == '\n' || c == '\r' || c == ' ' || c == '\t'
  }

  function PaddingStart(l: string, j: nat): (i: nat)
    requires j <= |l|
    ensures i <= j && (forall k :: i <= k < j ==> Padding(l[k])) && (i > 0 ==> !Padding(l[i - 1]))
  {
    if j == 0 || !Padding(l[j - 1]) then j else PaddingStart(l, j - 1)
  }

  /** A list entry without the blanks around it. */
  function EntryText(l: string): string {
    var s := l[..PaddingStart(l, |l|)];
    s[SkipBlanks(s, 0)..]
  }

  /** Line `i` names a game: it lies in a games section and is neither blank, comment nor too short. */
  predicate Listed(ls: seq<string>, i: nat)
    requires i < |ls|
  {
    var p := EntryText(ls[i]);
    !Header(ls[i]) && InSection(ls[..i]) && |p| >= 2 && p[0] != '#'
  }

  /** The games a file names: the simple reading. */
  function Entries(ls: seq<string>): set<string> {
    set i | 0 <= i < |ls| && Listed(ls, i) :: EntryText(ls[i])
  }

  /** The table the loader builds, line by line. */
  function Names(ls: seq<string>): (ns: seq<string>)
    ensures |ns| <= 512 && |ns| <= |ls| && forall i :: 0 <= i < |ns| ==> |ns[i]| < 64
  {
    if ls == [] then []
    else
      var n := |ls| - 1;
      var ns := Names(ls[..n]);
      var p := EntryText(ls[n]);
      if |ns| < GAMES_MAX && Listed(ls, n) && p !in ns then ns + [Take(p, NAME_LIMIT)] else ns
  }

  /** `games_match` on a table. */
  predicate Match(ns: seq<string>, comm: string) {
    comm != [] && exists i :: 0 <= i < |ns| && ns[i] != [] && Contains(comm, ns[i])
  }

  // ---------------------------------------------------------------- sections and entries, in other words

  /** A line lies in a games section if and only if the last header before it names one. */
  lemma {:induction false} InSectionIff(ls: seq<string>)
    ensures InSection(ls) <==>
      exists h :: 0 <= h < |ls| && Header(ls[h]) && GamesHeader(ls[h]) && forall j :: h < j < |ls| ==> !Header(ls[j])
  {
    hide GamesHeader, Header;
    if ls != [] {
      var n := |ls| - 1;
      InSectionIff(ls[..n]);
      if !Header(ls[n]) && InSection(ls[..n]) {
        var h :| 0 <= h < n && Header(ls[h]) && GamesHeader(ls[h]) && forall j :: h < j < n ==> !Header(ls[..n][j]);
        assert forall j :: h < j < |ls| ==> !Header(ls[j]);
      }
    }
  }

  /** Cut in two words: a header of the games is a line that starts with a bracket and holds one of the two
      names in brackets. */
  ghost predicate Opens(l: string) {
    l != "" && l[0] == '[' &&
    exists a: string, b: string :: l == a + "[GAMES_SYS]" + b || l == a + "[GAMES_USR]" + b
  }

  predicate Bracket(l: string) {
    l != "" && l[0] == '['
  }

  lemma OpensIff(l: string)
    ensures Opens(l) <==> Header(l) && GamesHeader(l)
    ensures Bracket(l) <==> Header(l)
  {
    if Contains(l, SYS) {
      var a, b := ContainsSplit(l, SYS);
      assert l == a + "[GAMES_SYS]" + b;
    }
    if Contains(l, USR) {
      var a, b := ContainsSplit(l, USR);
      assert l == a + "[GAMES_USR]" + b;
    }
    if Opens(l) {
      var a: string, b: string :| l == a + "[GAMES_SYS]" + b || l == a + "[GAMES_USR]" + b;
      if l == a + "[GAMES_SYS]" + b { ContainsJoin(a, SYS, b); }
      if l == a + "[GAMES_USR]" + b { ContainsJoin(a, USR, b); }
    }
  }

  /** Line `i` lies under line `h`, a header of the games, with no other header in between or itself. */
  ghost predicate Under(ls: seq<string>, h: nat, i: nat)
    requires i < |ls|
  {
    h < i && Opens(ls[h]) && forall j :: h < j <= i ==> !Bracket(ls[j])
  }

  /** The sections in the words of the file alone. */
  lemma SectionsLiterally(ls: seq<string>, i: nat)
    requires i < |ls|
    ensures !Header(ls[i]) && InSection(ls[..i]) <==> exists h: nat :: Under(ls, h, i)
  {
    InSectionIff(ls[..i]);
    forall j | 0 <= j <= i ensures Opens(ls[j]) <==> Header(ls[j]) && GamesHeader(ls[j])
      ensures Bracket(ls[j]) <==> Header(ls[j])
    {
      OpensIff(ls[j]);
    }
    hide Opens, Bracket, Header, GamesHeader, InSection;
    var top := ls[..i];
    if !Header(ls[i]) && InSection(top) {
      var h :| 0 <= h < i && Header(top[h]) && GamesHeader(top[h]) && forall j :: h < j < i ==> !Header(top[j]);
      forall j | h < j <= i ensures !Bracket(ls[j]) {
        if j < i { assert top[j] == ls[j]; }
      }
      assert Under(ls, h, i);
    }
    if h: nat :| Under(ls, h, i) {
      assert Header(top[h]) && GamesHeader(top[h]);
      assert forall j :: h < j < i ==> top[j] == ls[j];
    }
  }

  /** A padded line: blanks and tabs before a text, returns too behind it. */
  lemma EntryTextOf(pre: string, p: string, post: string)
    requires forall k :: 0 <= k < |pre| ==> pre[k] == ' ' || pre[k] == '\t'
    requires forall k :: 0 <= k < |post| ==> post[k] in {' ', '\t', '\r', '\n'}
    requires p != [] && p[0] !in {' ', '\t'} && p[|p| - 1] !in {' ', '\t', '\r', '\n'}
    ensures EntryText(pre + p + post) == p
  {
    var l, s := pre + p + post, pre + p;
    assert forall k :: |s| <= k < |l| ==> l[k] == post[k - |s|];
    assert l[|s| - 1] == p[|p| - 1];
    PaddingEnds(l, |s|, |l|);
    assert l[..|s|] == s;
    assert forall k :: 0 <= k < |pre| ==> s[k] == pre[k];
    assert s[|pre|] == p[0];
    SkipTo(s, 0, |pre|);
    assert s[|pre|..] == p;
    hide SkipBlanks, PaddingStart;
  }

  lemma {:induction false} PaddingEnds(l: string, i: nat, j: nat)
    requires 0 < i <= j <= |l| && !Padding(l[i - 1]) && forall k :: i <= k < j ==> Padding(l[k])
    ensures PaddingStart(l, j) == i
    decreases j
  {
    if i < j { PaddingEnds(l, i, j - 1); }
  }

  /** What the list holds, in the words of the file alone: the texts of at least two bytes, no comments, of
      the lines under a header of the games. */
  lemma EntriesLiterally(ls: seq<string>, e: string)
    ensures e in Entries(ls) <==>
      |e| >= 2 && e[0] != '#' && exists i: nat, h: nat :: i < |ls| && EntryText(ls[i]) == e && Under(ls, h, i)
  {
    forall i | 0 <= i < |ls| ensures Listed(ls, i) <==>
        |EntryText(ls[i])| >= 2 && EntryText(ls[i])[0] != '#' && exists h: nat :: Under(ls, h, i)
    {
      SectionsLiterally(ls, i);
    }
    hide EntryText, Listed, Under;
    if e in Entries(ls) {
      var i: nat :| i < |ls| && Listed(ls, i) && EntryText(ls[i]) == e;
      var h: nat :| Under(ls, h, i);
    }
    if |e| >= 2 && e[0] != '#' && exists i: nat, h: nat :: i < |ls| && EntryText(ls[i]) == e && Under(ls, h, i) {
      var i: nat, h: nat :| i < |ls| && EntryText(ls[i]) == e && Under(ls, h, i);
      assert Listed(ls, i);
    }
  }

  /** A line under a header of the games is in the loaded table while it has room. */
  lemma {:induction false} LoadedEntry(ls: seq<string>, h: nat, i: nat)
    requires i < |ls| && Under(ls, h, i) && |Names(ls)| < 512
    requires var p := EntryText(ls[i]); 2 <= |p| < 64 && p[0] != '#'
    ensures EntryText(ls[i]) in Names(ls)
    decreases ls
  {
    SectionsLiterally(ls, i);
    var n := |ls| - 1;
    hide EntryText, Header, InSection, Under, Opens;
    if i < n {
      UnderPrefix(ls, h, i);
      LoadedEntry(ls[..n], h, i);
    }
  }

  lemma UnderPrefix(ls: seq<string>, h: nat, i: nat)
    requires i < |ls| - 1 && Under(ls, h, i)
    ensures Under(ls[..|ls| - 1], h, i)
  {
    hide Opens, Bracket;
    var top := ls[..|ls| - 1];
    assert forall j :: 0 <= j <= i ==> top[j] == ls[j];
  }

  /** On a line without control characters the entry is the trimmed line. */
  lemma EntryTextIsTrim(l: string)
    requires forall k :: 0 <= k < |l| ==> (IsSpace(l[k]) <==> IsBlank(l[k]))
    ensures EntryText(l) == Trim(l)
  {
    var j := PaddingStart(l, |l|);
    var s := l[..j];
    var i := SkipBlanks(s, 0);
    assert forall k :: 0 <= k < i ==> IsBlank(s[k]) && s[k] == l[k];
    assert EntryText(l) == l[i..j];
    assert forall k :: 0 <= k < |l| ==> (Padding(l[k]) <==> IsSpace(l[k]));
    assert i < j ==> !IsBlank(s[i]) && s[i] == l[i] && l[i..j][0] == l[i] && l[i..j][j - i - 1] == l[j - 1];
    TrimIsTheOnlyWay(l, i, j);
  }

  // ---------------------------------------------------------------- the table is the simple reading

  lemma EntriesSnoc(ls: seq<string>, l: string)
    ensures Entries(ls + [l]) == Entries(ls) + (if Listed(ls + [l], |ls|) then {EntryText(l)} else {})
  {
    hide EntryText, InSection;
    var all := ls + [l];
    assert forall i :: 0 <= i < |ls| ==> all[..i] == ls[..i] && all[i] == ls[i];
    forall i | 0 <= i < |ls| ensures Listed(all, i) <==> Listed(ls, i) {
    }
    assert forall e :: e in Entries(all) <==> e in Entries(ls) || (Listed(all, |ls|) && e == EntryText(l));
  }

  predicate ShortEntries(ls: seq<string>) {
    forall e :: e in Entries(ls) ==> |e| < 64
  }

  predicate Distinct(ns: seq<string>) {
    forall i, j :: 0 <= i < j < |ns| ==> ns[i] != ns[j]
  }

  function Elements(ns: seq<string>): set<string> {
    set n | n in ns
  }

  lemma {:induction false} DistinctSize(ns: seq<string>)
    requires Distinct(ns)
    ensures |Elements(ns)| == |ns|
  {
    if ns != [] {
      var m := |ns| - 1;
      DistinctSize(ns[..m]);
      assert Elements(ns) == Elements(ns[..m]) + {ns[m]};
      assert ns[m] !in ns[..m];
    }
  }

  /** The table holds every entry once, as long as it has room. */
  lemma {:induction false} NamesAreEntries(ls: seq<string>)
    requires ShortEntries(ls)
    ensures Distinct(Names(ls)) && Elements(Names(ls)) <= Entries(ls)
    ensures |Names(ls)| < 512 ==> Elements(Names(ls)) == Entries(ls)
  {
    if ls != [] {
      var n := |ls| - 1;
      var init, l := ls[..n], ls[n];
      assert ls == init + [l];
      EntriesSnoc(init, l);
      NamesAreEntries(init);
      hide EntryText, Listed, Entries;
      var ns, p := Names(init), EntryText(l);
      if |ns| < GAMES_MAX && Listed(ls, n) && p !in ns {
        assert Take(p, NAME_LIMIT) == p;
        assert Elements(ns + [p]) == Elements(ns) + {p};
      }
    }
  }

  /** Bounded, de-duplicated loading loses nothing a match could notice: with entries under 64 bytes and
      at most 512 of them, a name matches if and only if it contains some listed entry. */
  lemma MatchIsSubstringOfEntry(ls: seq<string>, comm: string)
    requires ShortEntries(ls) && |Entries(ls)| <= 512
    ensures Distinct(Names(ls))
    ensures Match(Names(ls), comm) <==> exists e :: e in Entries(ls) && Contains(comm, e)
  {
    NamesAreEntries(ls);
    var ns := Names(ls);
    DistinctSize(ns);
    if |ns| == GAMES_MAX {
      SameSize(Elements(ns), Entries(ls));
    }
    assert Elements(ns) == Entries(ls);
    EntriesAreLong(ls);
    hide Entries, Names, Contains;
    if e :| e in Entries(ls) && Contains(comm, e) {
      assert e in ns;
      var i :| 0 <= i < |ns| && ns[i] == e;
      NonEmptyHost(comm, e);
    }
  }

  lemma NonEmptyHost(h: string, n: string)
    requires n != [] && Contains(h, n)
    ensures h != []
  {
  }

  lemma EntriesAreLong(ls: seq<string>)
    ensures forall e :: e in Entries(ls) ==> |e| >= 2
  {
  }

  lemma SameSize(a: set<string>, b: set<string>)
    requires a <= b && |b| <= |a|
    ensures a == b
  {
    if a != b {
      var x :| x in b && x !in a;
      assert a <= b - {x};
      SubsetSize(a, b - {x});
    }
  }

  lemma SubsetSize(a: set<string>, b: set<string>)
    requires a <= b
    ensures |a| <= |b|
    decreases |a|
  {
    if a != {} {
      var x :| x in a;
      SubsetSize(a - {x}, b - {x});
    }
  }

  // ---------------------------------------------------------------- the program

  class GameList {
    var names: seq<string>

    /** The two trimming loops of the loader. */
    static method CleanEntry(l: string) returns (p: string)
      ensures p == EntryText(l)
    {
      var len := |l|;
      while len > 0 && Padding(l[len - 1])
        invariant 0 <= len <= |l| && PaddingStart(l, |l|) == PaddingStart(l, len)
      {
        len := len - 1;
      }
      var s := l[..len];
      var i := 0;
      while i < |s| && IsBlank(s[i])
        invariant i <= |s| && SkipBlanks(s, 0) == SkipBlanks(s, i)
      {
        i := i + 1;
      }
      p := s[i..];
    }

    static method IsGamesHeader(l: string) returns (r: bool)
      ensures r == GamesHeader(l)
    {
      var sys := Strstr(l, SYS);
      var usr := Strstr(l, USR);
      r := sys.Some? || usr.Some?;
    }

    /** The linear search for a duplicate. */
    method Known(p: string) returns (dup: bool)
      ensures dup <==> p in names
    {
      var i := 0;
      while i < |names|
        invariant 0 <= i <= |names| && p !in names[..i]
      {
        if names[i] == p { return true; }
        i := i + 1;
      }
      return false;
    }

    /** The body of the loading loop. */
    method LoadLine(l: string, section: bool, ghost done: seq<string>) returns (section': bool)
      requires names == Names(done) && |names| < GAMES_MAX && section == InSection(done)
      modifies this
      ensures names == Names(done + [l]) && section' == InSection(done + [l])
    {
      assert (done + [l])[..|done|] == done;
      section' := section;
      if Header(l) {
        section' := IsGamesHeader(l);
      } else if section {
        var p := CleanEntry(l);
        if |p| >= 2 && p[0] != '#' {
          var dup := Known(p);
          if !dup { names := names + [Take(p, NAME_LIMIT)]; }
        }
      }
    }

    /** `games_load`: stops at the end of the file or when the table is full. */
    method Load(file: string) returns (count: nat)
      modifies this
      ensures names == Names(Lines(CStr(Take(file, 8191)))) && count == |names|
    {
      names := [];
      var line := CStr(Take(file, READ_LIMIT));
      ghost var all := Lines(line);
      var section := false;
      ghost var done := [];
      assert done + Lines(line) == all;
      while line != [] && |names| < GAMES_MAX
        invariant done + Lines(line) == all && names == Names(done) && section == InSection(done)
        decreases |line|
      {
        hide Lines, Names, InSection;
        var l, rest := NextLine(line);
        assert done + ([l] + Lines(rest)) == done + [l] + Lines(rest);
        section := LoadLine(l, section, done);
        done, line := done + [l], rest;
      }
      if line == [] {
        assert done + Lines([]) == done;
      } else {
        FullStays(done, Lines(line));
      }
      count := |names|;
    }

    /** `games_match`. */
    method Matches(comm: string) returns (hit: bool)
      ensures hit == Match(names, comm)
    {
      if comm == [] { return false; }
      var i := 0;
      while i < |names|
        invariant 0 <= i <= |names|
        invariant forall k :: 0 <= k < i ==> names[k] == [] || !Contains(comm, names[k])
      {
        if names[i] != [] {
          var at := Strstr(comm, names[i]);
          if at.Some? { return true; }
        }
        i := i + 1;
      }
      return false;
    }
  }

  /** A full table does not change any more. */
  lemma {:induction false} FullStays(done: seq<string>, more: seq<string>)
    requires |Names(done)| == GAMES_MAX
    ensures Names(done + more) == Names(done)
  {
    if more == [] {
      assert done + more == done;
    } else {
      var n := |more| - 1;
      FullStays(done, more[..n]);
      assert (done + more)[..|done + more| - 1] == done + more[..n];
    }
  }
}
