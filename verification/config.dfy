/** The KEY=VALUE store of src/daemon/config.c and the fallback reader of src/gtk4/gui.c, as
    functions on file contents. */
module ConfigFile {
  import opened Text

  const LOAD_LIMIT: nat := 4095   // what config_load reads
  const UPDATE_LIMIT: nat := 8191 // what config_update reads and writes

  // ---------------------------------------------------------------- config_update on lines

  function Entry(key: string, val: string): string {
    key + "=" + val
  }

  /** The prefix test of `config_update`: the key and an equals sign behind it. */
  predicate Matches(line: string, key: string) {
    key + "=" <= line
  }

  function RewriteLine(line: string, key: string, val: string): string {
    if Matches(line, key) then Entry(key, val) else line
  }

  function Rewrite(ls: seq<string>, key: string, val: string): (r: seq<string>)
    ensures |r| == |ls|
    ensures forall i :: 0 <= i < |ls| ==> r[i] == RewriteLine(ls[i], key, val)
  {
    seq(|ls|, i requires 0 <= i < |ls| => RewriteLine(ls[i], key, val))
  }

  predicate Present(ls: seq<string>, key: string) {
    exists i :: 0 <= i < |ls| && Matches(ls[i], key)
  }

  function UpdateLines(ls: seq<string>, key: string, val: string): seq<string> {
    Rewrite(ls, key, val) + if Present(ls, key) then [] else [Entry(key, val)]
  }

  /** The lines `config_update` sees in a file. */
  function SeenByUpdate(file: string): seq<string> {
    Lines(CStr(Take(file, UPDATE_LIMIT)))
  }

  /** The new file contents. An empty or missing file stays as it is. */
  function Updated(file: string, key: string, val: string): string {
    if file == [] then file
    else Take(Unlines(UpdateLines(SeenByUpdate(file), key, val)), UPDATE_LIMIT)
  }

  // ---------------------------------------------------------------- the two readers

  /** How `config_load` splits a line into key and value; comments and other text bind nothing. */
  function Binding(line: string): Option<(string, string)> {
    var i := IndexOf(line, '=');
    if line == [] || line[0] == '#' || i == |line| then None
    else Some((line[..i], line[i + 1..]))
  }

  predicate Binds(line: string, key: string) {
    Binding(line).Some? && Binding(line).value.0 == key
  }

  /** The value `config_load` ends up with: the last line wins. */
  function LastValue(ls: seq<string>, key: string): Option<string> {
    if ls == [] then None
    else if Binds(ls[|ls| - 1], key) then Some(Binding(ls[|ls| - 1]).value.1)
    else LastValue(ls[..|ls| - 1], key)
  }

  const LINE_BUFFER: nat := 511  // what one fgets call stores
  const VALUE_BUFFER: nat := 255

  /** The pieces successive `fgets` calls deliver. */
  function Pieces(s: string): seq<string>
    decreases |s|
  {
    if s == [] then []
    else
      var i := IndexOf(s, '\n');
      var n := Take(if i < |s| then s[..i + 1] else s, LINE_BUFFER);
      [n] + Pieces(s[|n|..])
  }

  /** Everything before the first carriage return or newline. */
  function UntilEol(s: string): string {
    if s == [] || s[0] == '\r' || s[0] == '\n' then [] else [s[0]] + UntilEol(s[1..])
  }

  predicate GuiHit(line: string, key: string) {
    !(At(line, 0) == '#' || At(line, 0) == '\n') && Matches(line, key)
  }

  function GuiScan(pieces: seq<string>, key: string): string {
    if pieces == [] then ""
    else
      var line := CStr(pieces[0]);
      if GuiHit(line, key) then Take(UntilEol(line[|key| + 1..]), VALUE_BUFFER)
      else GuiScan(pieces[1..], key)
  }

  /** The file fallback of the GUI's `config_get`: the first match wins. */
  function GuiRead(file: string, key: string): string {
    GuiScan(Pieces(file), key)
  }

  // ---------------------------------------------------------------- put, get and frame on lines

  /** Keys that stay one key when they are written and read back. */
  predicate PlainKey(key: string) {
    '=' !in key && (key == [] || key[0] != '#')
  }

  /** For a plain key the writer's prefix test and the reader's split agree. */
  lemma MatchesIsBinds(line: string, key: string)
    requires PlainKey(key)
    ensures Matches(line, key) <==> Binds(line, key)
    ensures Matches(line, key) ==> Binding(line) == Some((key, line[|key| + 1..]))
  {
    if Matches(line, key) {
      assert line[|key|] == (key + "=")[|key|] == '=';
      assert forall k :: 0 <= k < |key| ==> line[k] == (key + "=")[k] == key[k];
      assert IndexOf(line, '=') == |key|;
      assert line[..|key|] == key;
    }
    if Binding(line).Some? {
      var i := IndexOf(line, '=');
      assert line == (line[..i] + "=") + line[i + 1..];
    }
  }

  lemma EntryMatches(key: string, val: string)
    ensures Matches(Entry(key, val), key)
    ensures PlainKey(key) ==> Binding(Entry(key, val)) == Some((key, val))
  {
    var l := Entry(key, val);
    assert l == (key + "=") + val;
    if PlainKey(key) {
      MatchesIsBinds(l, key);
      assert l[|key| + 1..] == val;
    }
  }

  lemma LastValueSnoc(ls: seq<string>, line: string, key: string)
    ensures LastValue(ls + [line], key) == if Binds(line, key) then Some(Binding(line).value.1) else LastValue(ls, key)
  {
    assert (ls + [line])[..|ls|] == ls;
  }

  lemma LongPrefix(a: string, b: string, line: string)
    ensures a + b <= line <==> a <= line && b <= line[|a|..]
  {
    if a + b <= line {
      assert line[..|a|] == (a + b)[..|a|] == a;
      assert line[|a|..][..|b|] == line[..|a + b|][|a|..] == b;
    }
    if a <= line && b <= line[|a|..] {
      assert line[..|a + b|] == line[..|a|] + line[|a|..][..|b|] == a + b;
    }
  }

  // ---------------------------------------------------------------- the field a key writes to

  predicate Comment(key: string) {
    key != [] && key[0] == '#'
  }

  /** The field a line of this key is read as: up to the first equals sign, if it holds one. */
  function Owner(key: string): string {
    key[..IndexOf(key, '=')]
  }

  /** What such a line's value starts with in any case. */
  function Lead(key: string): string {
    var i := IndexOf(key, '=');
    if i == |key| then "" else key[i + 1..] + "="
  }

  /** The updater's prefix test in the reader's terms, for every key that is no comment. */
  lemma OwnerMatches(line: string, key: string, val: string)
    requires !Comment(key)
    ensures PlainKey(Owner(key))
    ensures Matches(line, key) <==> Binds(line, Owner(key)) && Lead(key) <= Binding(line).value.1
    ensures Binding(Entry(key, val)) == Some((Owner(key), Lead(key) + val)) && Binds(Entry(key, val), Owner(key))
  {
    var o, w := Owner(key), Lead(key);
    OwnerSplit(key);
    assert PlainKey(o);
    MatchesIsBinds(line, o);
    LongPrefix(o + "=", w, line);
    assert Entry(key, val) == Entry(o, w + val) by { AppendAssoc(o + "=", w, val); }
    EntryMatches(o, w + val);
  }

  lemma OwnerSplit(key: string)
    ensures key + "=" == Owner(key) + "=" + Lead(key)
  {
    var i := IndexOf(key, '=');
    if i < |key| {
      assert key == key[..i] + "=" + key[i + 1..];
    } else {
      assert key[..i] == key;
    }
  }

  lemma CommentBindsNothing(line: string, key: string, val: string)
    requires Comment(key)
    ensures Matches(line, key) ==> Binding(line).None?
    ensures Binding(Entry(key, val)).None?
  {
    if Matches(line, key) { assert line[0] == (key + "=")[0]; }
    assert Entry(key, val)[0] == '#';
  }

  /** The key's lines are about this field. */
  predicate Owns(key: string, k: string) {
    !Comment(key) && Owner(key) == k
  }

  /** Rewriting a line never adds, drops or changes a binding of a field the key does not own. */
  lemma RewriteOther(line: string, key: string, val: string, k: string)
    requires !Owns(key, k)
    ensures Binds(RewriteLine(line, key, val), k) <==> Binds(line, k)
    ensures Binds(line, k) ==> RewriteLine(line, key, val) == line
    ensures !Binds(Entry(key, val), k)
  {
    if Comment(key) {
      CommentBindsNothing(line, key, val);
    } else {
      OwnerMatches(line, key, val);
    }
  }

  // ---------------------------------------------------------------- what the loader reads after an update

  lemma {:induction false} RewriteReads(ls: seq<string>, key: string, val: string, k: string)
    ensures LastValue(Rewrite(ls, key, val), k) ==
      var last := LastValue(ls, k);
      if Owns(key, k) && last.Some? && Lead(key) <= last.value then Some(Lead(key) + val) else last
  {
    if ls != [] {
      hide *;
      var n := |ls| - 1;
      RewriteReads(ls[..n], key, val, k);
      LineReads(ls[n], key, val, k);
      LastValueSnoc(ls[..n], ls[n], k);
      LastValueSnoc(Rewrite(ls[..n], key, val), RewriteLine(ls[n], key, val), k);
      SplitLast(ls);
      RewriteLast(ls, key, val);
    }
  }

  lemma RewriteLast(ls: seq<string>, key: string, val: string)
    requires ls != []
    ensures var n := |ls| - 1;
      Rewrite(ls, key, val) == Rewrite(ls[..n], key, val) + [RewriteLine(ls[n], key, val)]
  {
    hide RewriteLine;
  }

  /** What rewriting makes of one line, field by field. */
  lemma LineReads(l: string, key: string, val: string, k: string)
    ensures Binds(RewriteLine(l, key, val), k) <==> Binds(l, k)
    ensures Binds(l, k) ==>
      Binding(RewriteLine(l, key, val)).value.1
      == (if Owns(key, k) && Lead(key) <= Binding(l).value.1 then Lead(key) + val else Binding(l).value.1)
  {
    if Owns(key, k) {
      OwnerMatches(l, key, val);
    } else {
      RewriteOther(l, key, val, k);
    }
    hide Matches, Binding, Entry, Lead, Owns;
  }

  lemma OwnedRewrite(ls: seq<string>, key: string, val: string)
    requires !Comment(key)
    ensures LastValue(Rewrite(ls, key, val), Owner(key)) ==
      var last := LastValue(ls, Owner(key));
      if last.Some? && Lead(key) <= last.value then Some(Lead(key) + val) else last
  {
    RewriteReads(ls, key, val, Owner(key));
    hide Rewrite, LastValue, Owner, Lead;
  }

  /** The line that decides the field is one the key rewrites. */
  predicate Decides(ls: seq<string>, key: string) {
    LastValue(ls, Owner(key)).Some? && Lead(key) <= LastValue(ls, Owner(key)).value
  }

  /** What the loader reads after an update, for every key and every field: the new text for the field the
      key owns, unless a later line that the key does not rewrite decides it; the old text for all others. */
  lemma UpdateReads(ls: seq<string>, key: string, val: string, k: string)
    ensures LastValue(UpdateLines(ls, key, val), k) ==
      if Owns(key, k) && (!Present(ls, key) || Decides(ls, key)) then Some(Lead(key) + val) else LastValue(ls, k)
  {
    RewriteReads(ls, key, val, k);
    if Owns(key, k) {
      OwnerMatches("", key, val);
    } else {
      RewriteOther("", key, val, k);
    }
    hide Matches, Binding, Entry, Lead, Present, LastValue;
    var r := Rewrite(ls, key, val);
    LastValueSnoc(r, Entry(key, val), k);
    assert r + [] == r;
  }

  lemma {:induction false} PresentIsBound(ls: seq<string>, key: string)
    requires PlainKey(key)
    ensures Present(ls, key) <==> LastValue(ls, key).Some?
  {
    if ls != [] {
      var n := |ls| - 1;
      PresentIsBound(ls[..n], key);
      MatchesIsBinds(ls[n], key);
      hide Matches, Binding, PlainKey;
      assert Present(ls, key) <==> Present(ls[..n], key) || Matches(ls[n], key);
    }
  }

  lemma PlainOwner(key: string)
    requires PlainKey(key)
    ensures Owner(key) == key && Lead(key) == "" && Owns(key, key)
  {
    assert IndexOf(key, '=') == |key|;
    assert key[..|key|] == key;
  }

  /** After an update the loader finds the new value, whatever duplicates the file held, and every
      other key reads as before. */
  lemma PutGetLoader(ls: seq<string>, key: string, val: string)
    requires PlainKey(key)
    ensures LastValue(UpdateLines(ls, key, val), key) == Some(val)
    ensures forall other :: other != key ==> LastValue(UpdateLines(ls, key, val), other) == LastValue(ls, other)
  {
    PlainOwner(key);
    PresentIsBound(ls, key);
    hide PlainKey, Present, LastValue, UpdateLines, Owner, Lead;
    forall k ensures k == key ==> LastValue(UpdateLines(ls, key, val), k) == Some(val)
      ensures k != key ==> LastValue(UpdateLines(ls, key, val), k) == LastValue(ls, k)
    {
      UpdateReads(ls, key, val, k);
      assert "" + val == val;
    }
  }

  // ---------------------------------------------------------------- from lines to whole files

  predicate CleanText(s: string) {
    '\n' !in s && '\0' !in s
  }

  /** A file `config_update` handles without cutting anything. */
  predicate Fits(file: string, key: string, val: string, limit: nat) {
    && file != [] && '\0' !in file && |file| <= limit
    && |Unlines(UpdateLines(Lines(file), key, val))| <= limit
  }

  lemma UpdateLinesClean(ls: seq<string>, key: string, val: string)
    requires CleanText(key) && CleanText(val) && forall l :: l in ls ==> CleanText(l)
    ensures forall l :: l in UpdateLines(ls, key, val) ==> CleanText(l)
  {
    var r := UpdateLines(ls, key, val);
    assert CleanText(Entry(key, val));
    forall i | 0 <= i < |r| ensures CleanText(r[i]) {
      if i < |ls| { assert ls[i] in ls; }
    }
  }

  /** Reading back an untruncated update yields exactly the updated lines. */
  lemma UpdatedLines(file: string, key: string, val: string, limit: nat)
    requires limit <= UPDATE_LIMIT && Fits(file, key, val, limit) && CleanText(key) && CleanText(val)
    ensures var f := Updated(file, key, val);
      && f == Unlines(UpdateLines(Lines(file), key, val)) && f != [] && '\0' !in f && |f| <= limit
      && NewlineTerminated(f) && Lines(f) == UpdateLines(Lines(file), key, val)
  {
    var ls := Lines(file);
    var us := UpdateLines(ls, key, val);
    LinesClean(file, '\0');
    UpdateLinesClean(ls, key, val);
    LinesOfUnlines(us);
    UnlinesClean(us, '\0');
    UnlinesTerminated(us);
    assert |us| > 0;
    UnlinesLength(us);
  }

  /** Nothing behind the first 8191 bytes of a file is read, and nothing beyond them is written. */
  lemma UpdateLimits(file: string, key: string, val: string)
    ensures |Updated(file, key, val)| <= 8191
    ensures Updated(file, key, val) == Updated(Take(file, 8191), key, val)
    ensures file != [] ==> Updated(file, key, val) == Take(Unlines(UpdateLines(SeenByUpdate(file), key, val)), 8191)
    ensures '\0' !in file && |file| <= 8191 ==> SeenByUpdate(file) == Lines(file)
  {
    hide CStr, Lines, Unlines, UpdateLines;
    assert Take(Take(file, UPDATE_LIMIT), UPDATE_LIMIT) == Take(file, UPDATE_LIMIT);
  }

  // ---------------------------------------------------------------- the fallback reader

  /** The fallback reader on whole lines. */
  function GuiLines(ls: seq<string>, key: string): string {
    if ls == [] then ""
    else if GuiHit(ls[0], key) then Take(UntilEol(ls[0][|key| + 1..]), VALUE_BUFFER)
    else GuiLines(ls[1..], key)
  }

  lemma {:induction false} UntilEolNewline(s: string)
    ensures UntilEol(s + "\n") == UntilEol(s)
  {
    if s == [] {
      assert s + "\n" == "\n";
    } else {
      UntilEolNewline(s[1..]);
      assert (s + "\n")[1..] == s[1..] + "\n";
    }
  }

  lemma {:induction false} UntilEolClean(s: string)
    requires '\r' !in s && '\n' !in s
    ensures UntilEol(s) == s
  {
    if s != [] {
      UntilEolClean(s[1..]);
    }
  }

  lemma GuiHitNewline(l: string, key: string)
    requires '\n' !in key && '\n' !in l
    ensures GuiHit(l + "\n", key) <==> GuiHit(l, key)
    ensures GuiHit(l, key) ==> UntilEol((l + "\n")[|key| + 1..]) == UntilEol(l[|key| + 1..])
  {
    var n := |key| + 1;
    if Matches(l + "\n", key) {
      assert (l + "\n")[|key|] == (key + "=")[|key|] == '=';
      assert (l + "\n")[..n] == l[..n];
    }
    if Matches(l, key) {
      assert (l + "\n")[..n] == l[..n];
      UntilEolNewline(l[n..]);
      assert (l + "\n")[n..] == l[n..] + "\n";
    }
  }

  predicate ShortLines(ls: seq<string>) {
    forall l :: l in ls ==> |l| < 511
  }

  /** Comments and blank lines are no settings: a key that starts like one is never found. */
  lemma GuiFindsNoComment(file: string, key: string)
    requires key != [] && (key[0] == '#' || key[0] == '\n')
    ensures GuiRead(file, key) == ""
  {
    NoCommentHit(Pieces(file), key);
  }

  lemma {:induction false} NoCommentHit(pieces: seq<string>, key: string)
    requires key != [] && (key[0] == '#' || key[0] == '\n')
    ensures GuiScan(pieces, key) == ""
  {
    if pieces != [] {
      var line := CStr(pieces[0]);
      assert Matches(line, key) ==> line[0] == (key + "=")[0];
      hide CStr;
      NoCommentHit(pieces[1..], key);
    }
  }

  /** Of a piece with a NUL what is in front of it counts. */
  lemma GuiStopsAtNul(line: string, more: string, rest: seq<string>, key: string)
    requires '\0' !in line
    ensures GuiScan([line + "\0" + more] + rest, key) == GuiScan([line] + rest, key)
  {
    var t := line + "\0" + more;
    assert t[..|line|] == line && t[|line|] == '\0';
    assert forall k :: 0 <= k < |line| ==> t[k] == line[k];
    assert IndexOf(t, '\0') == |line| == IndexOf(line, '\0');
    assert ([t] + rest)[1..] == rest == ([line] + rest)[1..];
    hide GuiHit, UntilEol;
  }

  /** A line of 511 bytes or more arrives in pieces of 511. */
  lemma LongPiece(s: string)
    requires |s| >= 511 && '\n' !in s[..510]
    ensures Pieces(s) == [s[..511]] + Pieces(s[511..])
  {
    assert forall k :: 0 <= k < 510 ==> s[k] == s[..510][k];
    var i := IndexOf(s, '\n');
    assert i >= 510;
    assert Take(if i < |s| then s[..i + 1] else s, LINE_BUFFER) == s[..511];
  }

  lemma PiecesCons(s: string, l: string, eol: string, rest: string)
    requires FirstLine(s, l, eol, rest) && |l| < LINE_BUFFER
    ensures Pieces(s) == [l + eol] + Pieces(rest)
  {
    var n := |l + eol|;
    assert forall k :: 0 <= k < |l| ==> s[k] == l[k];
    assert eol == "\n" ==> s[|l|] == '\n';
    assert IndexOf(s, '\n') == |l|;
    assert s[..n] == l + eol && s[n..] == rest;
    assert eol == "" ==> s == l + eol;
  }

  lemma GuiScanCons(l: string, eol: string, pieces: seq<string>, ls: seq<string>, key: string)
    requires eol == "" || eol == "\n"
    requires '\0' !in l && '\n' !in l && '\n' !in key && GuiScan(pieces, key) == GuiLines(ls, key)
    ensures GuiScan([l + eol] + pieces, key) == GuiLines([l] + ls, key)
  {
    GuiHitNewline(l, key);
    hide GuiHit, UntilEol;
    assert CStr(l + eol) == l + eol;
    assert ([l + eol] + pieces)[1..] == pieces && ([l] + ls)[1..] == ls;
    assert l + "" == l;
  }

  /** With lines that fit its buffer the fallback reads whole lines. */
  lemma {:induction false} GuiReadsLines(file: string, key: string)
    requires '\0' !in file && '\n' !in key && ShortLines(Lines(file))
    ensures GuiRead(file, key) == GuiLines(Lines(file), key)
    decreases |file|
  {
    if file != [] {
      hide GuiScan, GuiLines, Lines, Pieces, ShortLines;
      var l, eol, rest := LinesCons(file);
      ShortTail(l, Lines(rest));
      GuiReadsLines(rest, key);
      PiecesCons(file, l, eol, rest);
      GuiScanCons(l, eol, Pieces(rest), Lines(rest), key);
    }
  }

  lemma ShortTail(l: string, ls: seq<string>)
    requires ShortLines([l] + ls)
    ensures |l| < LINE_BUFFER && ShortLines(ls)
  {
    assert ([l] + ls)[0] == l;
  }

  lemma GuiHitIsMatch(l: string, key: string)
    requires PlainKey(key) && '\n' !in l
    ensures GuiHit(l, key) <==> Matches(l, key)
  {
    if Matches(l, key) {
      assert l[0] == (key + "=")[0];
    }
  }

  lemma {:induction false} GuiPut(ls: seq<string>, key: string, val: string)
    requires PlainKey(key) && CleanText(key) && CleanText(val) && forall l :: l in ls ==> CleanText(l)
    ensures GuiLines(UpdateLines(ls, key, val), key) == Take(UntilEol(val), VALUE_BUFFER)
  {
    var u := UpdateLines(ls, key, val);
    UpdateLinesClean(ls, key, val);
    EntryMatches(key, val);
    assert Entry(key, val)[|key| + 1..] == val;
    assert CleanText(Entry(key, val));
    GuiHitIsMatch(Entry(key, val), key);
    if ls != [] && !Matches(ls[0], key) {
      GuiPut(ls[1..], key, val);
      assert CleanText(ls[0]);
      GuiHitIsMatch(ls[0], key);
      assert Present(ls, key) <==> Present(ls[1..], key) by {
        if Present(ls, key) {
          var i :| 0 <= i < |ls| && Matches(ls[i], key);
          assert ls[1..][i - 1] == ls[i];
        }
      }
      hide GuiHit, Matches, Entry, UntilEol, PlainKey;
      assert u[1..] == UpdateLines(ls[1..], key, val);
    }
  }

  lemma {:induction false} GuiFrame(ls: seq<string>, key: string, val: string, other: string)
    requires PlainKey(key) && PlainKey(other) && key != other && CleanText(key) && CleanText(val)
    requires forall l :: l in ls ==> CleanText(l)
    ensures GuiLines(Rewrite(ls, key, val) , other) == GuiLines(ls, other)
    ensures GuiLines(Rewrite(ls, key, val) + [Entry(key, val)], other) == GuiLines(ls, other)
  {
    var r, e := Rewrite(ls, key, val), Entry(key, val);
    assert CleanText(e);
    OtherKeyUntouched("", key, val, other);
    GuiHitIsMatch(e, other);
    if ls == [] {
      assert r + [e] == [e];
    } else {
      GuiFrame(ls[1..], key, val, other);
      OtherKeyUntouched(ls[0], key, val, other);
      assert CleanText(ls[0]);
      GuiHitIsMatch(ls[0], other);
      GuiHitIsMatch(r[0], other);
      hide GuiHit, Matches, Entry, UntilEol, PlainKey, CleanText;
      assert r[1..] == Rewrite(ls[1..], key, val);
      assert (r + [e])[1..] == r[1..] + [e];
    }
  }

  lemma UpdatedShort(ls: seq<string>, key: string, val: string)
    requires ShortLines(ls) && |Entry(key, val)| < LINE_BUFFER
    ensures ShortLines(UpdateLines(ls, key, val))
  {
    var u := UpdateLines(ls, key, val);
    forall i | 0 <= i < |u| ensures |u[i]| < LINE_BUFFER {
      if i < |ls| { assert ls[i] in ls; }
    }
  }

  /** Put and get through whole files: after an untruncated update the fallback reader returns the new
      value, up to a carriage return and its 255 bytes, even if the file held duplicates, and reads every
      other key as before. */
  lemma PutGetGui(file: string, key: string, val: string, other: string)
    requires PlainKey(key) && PlainKey(other) && key != other
    requires CleanText(key) && CleanText(val) && CleanText(other)
    requires Fits(file, key, val, UPDATE_LIMIT) && ShortLines(Lines(file)) && |Entry(key, val)| < LINE_BUFFER
    ensures GuiRead(Updated(file, key, val), key) == Take(UntilEol(val), VALUE_BUFFER)
    ensures '\r' !in val ==> GuiRead(Updated(file, key, val), key) == if |val| <= 255 then val else val[..255]
    ensures GuiRead(Updated(file, key, val), other) == GuiRead(file, other)
  {
    hide Updated, Lines, Unlines, PlainKey, GuiRead, GuiLines;
    var ls := Lines(file);
    var f := Updated(file, key, val);
    LinesClean(file, '\0');
    UpdatedLines(file, key, val, UPDATE_LIMIT);
    UpdatedShort(ls, key, val);
    GuiReadsLines(f, key);
    GuiReadsLines(f, other);
    GuiReadsLines(file, other);
    GuiPut(ls, key, val);
    if '\r' !in val { UntilEolClean(val); }
    GuiFrame(ls, key, val, other);
    assert Rewrite(ls, key, val) + [] == Rewrite(ls, key, val);
  }

  /** The same for the loader, which sees the first 4095 bytes. */
  lemma PutGetFile(file: string, key: string, val: string)
    requires PlainKey(key) && CleanText(key) && CleanText(val) && Fits(file, key, val, LOAD_LIMIT)
    ensures var seen := Lines(CStr(Take(Updated(file, key, val), LOAD_LIMIT)));
      && LastValue(seen, key) == Some(val)
      && forall other :: other != key ==>
        LastValue(seen, other) == LastValue(Lines(CStr(Take(file, LOAD_LIMIT))), other)
  {
    UpdatedLines(file, key, val, LOAD_LIMIT);
    PutGetLoader(Lines(file), key, val);
  }

  // ---------------------------------------------------------------- update algebra

  /** The last of two updates of one key wins, on whole contents. */
  lemma UpdateOverwrites(file: string, key: string, v1: string, v2: string)
    requires CleanText(key) && CleanText(v1) && CleanText(v2)
    requires Fits(file, key, v1, UPDATE_LIMIT)
    ensures Updated(Updated(file, key, v1), key, v2) == Updated(file, key, v2)
  {
    UpdatedLines(file, key, v1, UPDATE_LIMIT);
    OverwriteLines(Lines(file), key, v1, v2);
  }

  lemma OverwriteLines(ls: seq<string>, key: string, v1: string, v2: string)
    ensures UpdateLines(UpdateLines(ls, key, v1), key, v2) == UpdateLines(ls, key, v2)
  {
    EntryMatches(key, v1);
    EntryMatches(key, v2);
    hide Matches, Entry;
    var u := UpdateLines(ls, key, v1);
    assert Present(u, key) by {
      if Present(ls, key) {
        var i :| 0 <= i < |ls| && Matches(ls[i], key);
        assert Matches(u[i], key);
      } else {
        assert Matches(u[|ls|], key);
      }
    }
    var a, b := UpdateLines(u, key, v2), UpdateLines(ls, key, v2);
    forall i | 0 <= i < |a| ensures a[i] == b[i] {
    }
  }

  /** Update is idempotent. */
  lemma UpdateIdempotent(file: string, key: string, val: string)
    requires CleanText(key) && CleanText(val) && Fits(file, key, val, UPDATE_LIMIT)
    ensures Updated(Updated(file, key, val), key, val) == Updated(file, key, val)
  {
    UpdateOverwrites(file, key, val, val);
  }

  lemma OtherKeyUntouched(line: string, key: string, val: string, other: string)
    requires PlainKey(key) && PlainKey(other) && key != other
    ensures Matches(RewriteLine(line, key, val), other) <==> Matches(line, other)
    ensures Matches(line, key) ==> !Matches(line, other)
    ensures !Matches(Entry(key, val), other)
  {
    EntryMatches(key, val);
    MatchesIsBinds(line, key);
    MatchesIsBinds(line, other);
    MatchesIsBinds(Entry(key, val), other);
  }

  lemma PresentAfter(ls: seq<string>, key: string, val: string, other: string)
    requires PlainKey(key) && PlainKey(other) && key != other
    ensures Present(UpdateLines(ls, key, val), other) <==> Present(ls, other)
  {
    var u := UpdateLines(ls, key, val);
    forall i | 0 <= i < |u|
      ensures i < |ls| ==> (Matches(u[i], other) <==> Matches(ls[i], other))
      ensures i >= |ls| ==> !Matches(u[i], other)
    {
      OtherKeyUntouched(if i < |ls| then ls[i] else "", key, val, other);
    }
    if Present(ls, other) {
      var i :| 0 <= i < |ls| && Matches(ls[i], other);
      assert Matches(u[i], other);
    }
  }

  function Appended(ls: seq<string>, key: string, val: string): seq<string> {
    if Present(ls, key) then [] else [Entry(key, val)]
  }

  lemma RewriteTwice(ls: seq<string>, k1: string, v1: string, k2: string, v2: string)
    requires PlainKey(k1) && PlainKey(k2) && k1 != k2
    ensures UpdateLines(UpdateLines(ls, k1, v1), k2, v2)
            == Rewrite(Rewrite(ls, k1, v1), k2, v2) + Appended(ls, k1, v1) + Appended(ls, k2, v2)
    ensures Rewrite(Rewrite(ls, k1, v1), k2, v2) == Rewrite(Rewrite(ls, k2, v2), k1, v1)
  {
    var u := UpdateLines(ls, k1, v1);
    PresentAfter(ls, k1, v1, k2);
    OtherKeyUntouched("", k1, v1, k2);
    assert Rewrite(u, k2, v2) == Rewrite(Rewrite(ls, k1, v1), k2, v2) + Appended(ls, k1, v1);
    var x, y := Rewrite(Rewrite(ls, k1, v1), k2, v2), Rewrite(Rewrite(ls, k2, v2), k1, v1);
    forall i | 0 <= i < |ls| ensures x[i] == y[i] {
      OtherKeyUntouched(ls[i], k1, v1, k2);
      OtherKeyUntouched(ls[i], k2, v2, k1);
    }
  }

  lemma CommuteLines(ls: seq<string>, k1: string, v1: string, k2: string, v2: string)
    requires PlainKey(k1) && PlainKey(k2) && k1 != k2
    ensures UpdateLines(UpdateLines(ls, k1, v1), k2, v2) == UpdateLines(UpdateLines(ls, k2, v2), k1, v1)
            <==> Present(ls, k1) || Present(ls, k2)
  {
    RewriteTwice(ls, k1, v1, k2, v2);
    RewriteTwice(ls, k2, v2, k1, v1);
    EntryMatches(k1, v1);
    OtherKeyUntouched("", k2, v2, k1);
    hide UpdateLines, Matches, Present, PlainKey;
    var r := Rewrite(Rewrite(ls, k1, v1), k2, v2);
    var e1, e2 := Appended(ls, k1, v1), Appended(ls, k2, v2);
    if e1 != [] && e2 != [] {
      assert (r + e1 + e2)[|r|] == Entry(k1, v1) && (r + e2 + e1)[|r|] == Entry(k2, v2);
    } else {
      assert r + e1 + e2 == r + e2 + e1;
    }
  }

  /** Updates of two distinct keys commute on whole contents exactly when at least one of the keys is
      already in the file. */
  lemma UpdatesCommute(file: string, k1: string, v1: string, k2: string, v2: string)
    requires PlainKey(k1) && PlainKey(k2) && k1 != k2
    requires CleanText(k1) && CleanText(v1) && CleanText(k2) && CleanText(v2)
    requires Fits(file, k1, v1, UPDATE_LIMIT) && Fits(file, k2, v2, UPDATE_LIMIT)
    requires Fits(Updated(file, k1, v1), k2, v2, UPDATE_LIMIT) && Fits(Updated(file, k2, v2), k1, v1, UPDATE_LIMIT)
    ensures Updated(Updated(file, k1, v1), k2, v2) == Updated(Updated(file, k2, v2), k1, v1)
            <==> Present(Lines(file), k1) || Present(Lines(file), k2)
  {
    hide Updated, UpdateLines, Present;
    UpdatedLines(file, k1, v1, UPDATE_LIMIT);
    UpdatedLines(file, k2, v2, UPDATE_LIMIT);
    UpdatedLines(Updated(file, k1, v1), k2, v2, UPDATE_LIMIT);
    UpdatedLines(Updated(file, k2, v2), k1, v1, UPDATE_LIMIT);
    CommuteLines(Lines(file), k1, v1, k2, v2);
  }
}
