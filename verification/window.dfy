/** What the loader still sees of a configuration file that has outgrown its 4095 bytes, before and after
    an update, in terms of the lines the file had before. */
module ConfigWindow {
  import opened Text
  import opened ConfigFile

  // ---------------------------------------------------------------- lines within a number of bytes

  /** What a reader of the first `cap` bytes sees of a file of lines: whole lines, and perhaps the start
      of one more. */
  function Window(ls: seq<string>, cap: nat): seq<string>
    decreases ls
  {
    if ls == [] || cap == 0 then []
    else if |ls[0]| < cap then [ls[0]] + Window(ls[1..], cap - |ls[0]| - 1)
    else [ls[0][..cap]]
  }

  predicate NoNewlines(ls: seq<string>) {
    forall i :: 0 <= i < |ls| ==> '\n' !in ls[i]
  }

  lemma {:induction false} WindowIsSeen(ls: seq<string>, cap: nat)
    requires NoNewlines(ls)
    ensures Lines(Take(Unlines(ls), cap)) == Window(ls, cap)
    decreases ls
  {
    if ls != [] && cap != 0 {
      hide *;
      var l, rest := ls[0], Unlines(ls[1..]);
      FirstOfMany(ls, cap);
      if |l| < cap {
        WindowIsSeen(ls[1..], cap - |l| - 1);
        TakeBehind(l, rest, cap);
        LinesOfFirst(l, Take(rest, cap - |l| - 1));
      } else {
        TakeWithin(l, rest, cap);
        LastLine(l[..cap]);
      }
    }
  }

  lemma FirstOfMany(ls: seq<string>, cap: nat)
    requires ls != [] && cap != 0 && NoNewlines(ls)
    ensures '\n' !in ls[0] && NoNewlines(ls[1..]) && Unlines(ls) == ls[0] + "\n" + Unlines(ls[1..])
    ensures |ls[0]| < cap ==> Window(ls, cap) == [ls[0]] + Window(ls[1..], cap - |ls[0]| - 1)
    ensures |ls[0]| >= cap ==> Window(ls, cap) == [ls[0][..cap]] && '\n' !in ls[0][..cap]
  {
  }

  lemma TakeWithin(l: string, rest: string, cap: nat)
    requires cap <= |l|
    ensures Take(l + "\n" + rest, cap) == l[..cap]
  {
  }

  lemma TakeBehind(l: string, rest: string, cap: nat)
    requires |l| < cap
    ensures Take(l + "\n" + rest, cap) == l + "\n" + Take(rest, cap - |l| - 1)
  {
  }

  lemma LinesOfFirst(l: string, rest: string)
    requires '\n' !in l
    ensures Lines(l + "\n" + rest) == [l] + Lines(rest)
  {
    var s := l + "\n" + rest;
    assert s[|l|] == '\n' && forall k :: 0 <= k < |l| ==> s[k] == l[k];
    assert IndexOf(s, '\n') == |l|;
    assert s[..|l|] == l && s[|l| + 1..] == rest;
  }

  lemma LastLine(l: string)
    requires '\n' !in l && l != []
    ensures Lines(l) == [l]
  {
  }

  /** Where a reader of a number of bytes stops: behind so many whole lines, and so many bytes into the
      next one. */
  datatype Cut = Cut(lines: nat, bytes: nat)

  /** The cut, by summing the lengths of the lines. */
  function CutOf(ls: seq<string>, cap: nat): (c: Cut)
    ensures c.lines <= |ls| && (c.lines < |ls| ==> c.bytes <= |ls[c.lines]|)
    decreases ls
  {
    if ls == [] || cap <= |ls[0]| then Cut(0, cap)
    else
      var c := CutOf(ls[1..], cap - |ls[0]| - 1);
      Cut(c.lines + 1, c.bytes)
  }

  function WholeTo(ls: seq<string>, c: Cut): seq<string> {
    if c.lines < |ls| then ls[..c.lines] else ls
  }

  function PieceAt(ls: seq<string>, c: Cut): seq<string> {
    if c.lines < |ls| && c.bytes > 0 then [Take(ls[c.lines], c.bytes)] else []
  }

  /** The lines of a file up to a cut. */
  function SeenTo(ls: seq<string>, c: Cut): seq<string> {
    WholeTo(ls, c) + PieceAt(ls, c)
  }

  lemma {:induction false} WindowIsCut(ls: seq<string>, cap: nat)
    ensures Window(ls, cap) == SeenTo(ls, CutOf(ls, cap))
    decreases ls
  {
    if ls != [] && |ls[0]| < cap {
      var rest, l := ls[1..], ls[0];
      var d := CutOf(rest, cap - |l| - 1);
      WindowIsCut(rest, cap - |l| - 1);
      assert [l] + rest == ls;
      hide SeenTo;
      SeenToCons(l, rest, d);
    } else if ls != [] {
      assert ls[..0] == [] && Take(ls[0], cap) == ls[0][..cap];
    }
  }

  lemma SeenToCons(l: string, rest: seq<string>, d: Cut)
    requires d.lines <= |rest|
    ensures SeenTo([l] + rest, Cut(d.lines + 1, d.bytes)) == [l] + SeenTo(rest, d)
  {
    var ls, c := [l] + rest, Cut(d.lines + 1, d.bytes);
    assert WholeTo(ls, c) == [l] + WholeTo(rest, d);
    assert PieceAt(ls, c) == PieceAt(rest, d);
    AppendAssoc([l], WholeTo(rest, d), PieceAt(rest, d));
  }

  /** The loader's lines are the updater's lines up to the loader's cut. */
  lemma SeenIsCut(file: string)
    ensures var ls := SeenByUpdate(file);
      Lines(CStr(Take(file, LOAD_LIMIT))) == SeenTo(ls, CutOf(ls, LOAD_LIMIT))
  {
    var text := CStr(Take(file, UPDATE_LIMIT));
    var ls := Lines(text);
    ShorterText(file);
    UnlinesOfLines(text);
    hide CStr, Unlines;
    assert NoNewlines(ls);
    WindowIsCut(ls, LOAD_LIMIT);
    WindowIsSeen(ls, LOAD_LIMIT);
    if |text| < LOAD_LIMIT {
      LinesOfUnlines(ls);
    }
    hide Lines, Window, SeenTo, CutOf;
    if |text| >= LOAD_LIMIT {
      assert Take(text + "\n", LOAD_LIMIT) == Take(text, LOAD_LIMIT);
    }
  }

  lemma ShorterText(file: string)
    ensures CStr(Take(file, LOAD_LIMIT)) == Take(CStr(Take(file, UPDATE_LIMIT)), LOAD_LIMIT)
  {
    var a, b := Take(file, LOAD_LIMIT), Take(file, UPDATE_LIMIT);
    var i, j := IndexOf(a, '\0'), IndexOf(b, '\0');
    assert forall k :: 0 <= k < |a| ==> a[k] == b[k];
    assert i == if j < |a| then j else |a|;
  }

  /** Cutting a line keeps its binding if the equals sign stays in sight. */
  lemma CutBinds(line: string, r: nat, k: string)
    ensures Binds(Take(line, r), k) <==> Binds(line, k) && |k| < r
    ensures Binds(Take(line, r), k) ==> Binding(Take(line, r)).value.1 == Take(Binding(line).value.1, r - |k| - 1)
  {
    if r < |line| {
      var cut := line[..r];
      var i, j := IndexOf(cut, '='), IndexOf(line, '=');
      assert forall n :: 0 <= n < r ==> cut[n] == line[n];
      if j < r {
        assert i == j && cut[..i] == line[..j] && cut[i + 1..] == line[j + 1..][..r - j - 1];
      } else {
        assert i == |cut|;
      }
    }
  }

  // ---------------------------------------------------------------- what an update changes in sight

  lemma WholeOfUpdate(ls: seq<string>, key: string, val: string, c: Cut)
    requires c.lines <= |UpdateLines(ls, key, val)|
    ensures WholeTo(UpdateLines(ls, key, val), c) ==
      Rewrite(WholeTo(ls, c), key, val) + if c.lines > |ls| then [Entry(key, val)] else []
    ensures PieceAt(UpdateLines(ls, key, val), c) ==
      if c.bytes == 0 || c.lines > |ls| || (c.lines == |ls| && Present(ls, key)) then []
      else [Take(if c.lines < |ls| then RewriteLine(ls[c.lines], key, val) else Entry(key, val), c.bytes)]
  {
    hide Entry, Matches;
  }

  /** Two lists of lines, each with at most one more. */
  lemma LastOfTwo(a: seq<string>, b: seq<string>, k: string)
    requires |b| <= 1
    ensures LastValue(a + b, k) == if |b| == 1 && Binds(b[0], k) then Some(Binding(b[0]).value.1) else LastValue(a, k)
  {
    if b == [] {
      assert a + b == a;
    } else {
      assert b == [b[0]];
      LastValueSnoc(a, b[0], k);
    }
  }

  /** What the loader reads for a field is read off the old lines up to the new cut, unless the key owns it. */
  lemma OthersRead(ls: seq<string>, key: string, val: string, c: Cut, k: string)
    requires c.lines <= |UpdateLines(ls, key, val)| && !Owns(key, k)
    ensures LastValue(SeenTo(UpdateLines(ls, key, val), c), k) == LastValue(SeenTo(ls, c), k)
  {
    var us := UpdateLines(ls, key, val);
    WholeOfUpdate(ls, key, val, c);
    RewriteReads(WholeTo(ls, c), key, val, k);
    RewriteOther("", key, val, k);
    CutBinds(Entry(key, val), c.bytes, k);
    if c.lines < |ls| {
      RewriteOther(ls[c.lines], key, val, k);
      CutBinds(ls[c.lines], c.bytes, k);
      CutBinds(RewriteLine(ls[c.lines], key, val), c.bytes, k);
    }
    hide Binding, Entry, Matches, RewriteLine, Rewrite, UpdateLines, WholeTo, Owns, LastValue;
    LastOfTwo(WholeTo(us, c), PieceAt(us, c), k);
    LastOfTwo(WholeTo(ls, c), PieceAt(ls, c), k);
    LastOfTwo(Rewrite(WholeTo(ls, c), key, val), if c.lines > |ls| then [Entry(key, val)] else [], k);
  }

  /** The last line in sight is the start of one the update wrote. */
  predicate CutsNewLine(ls: seq<string>, key: string, c: Cut) {
    if c.lines < |ls| then Matches(ls[c.lines], key) else c.lines == |ls| && !Present(ls, key)
  }

  /** What the loader reads for the field the key owns, off the old lines up to the new cut: the new text if a
      new line is behind the last one in sight, the start of it if the cut is inside that line, and else
      what was there. */
  function OwnReads(ls: seq<string>, key: string, val: string, c: Cut): Option<string> {
    var o, text := Owner(key), Lead(key) + val;
    if c.lines > |ls| then Some(text)
    else if CutsNewLine(ls, key, c) && c.bytes > |o| then Some(Take(text, c.bytes - |o| - 1))
    else
      var last := LastValue(SeenTo(ls, c), o);
      if last.Some? && Lead(key) <= last.value then Some(text) else last
  }

  lemma OwnerRead(ls: seq<string>, key: string, val: string, c: Cut)
    requires c.lines <= |UpdateLines(ls, key, val)| && !Comment(key)
    ensures LastValue(SeenTo(UpdateLines(ls, key, val), c), Owner(key)) == OwnReads(ls, key, val, c)
  {
    hide *;
    var us, o := UpdateLines(ls, key, val), Owner(key);
    WholeOfUpdate(ls, key, val, c);
    SeenIs(us, c, o);
    SeenIs(ls, c, o);
    OwnedRewrite(WholeTo(ls, c), key, val);
    OwnerMatches("", key, val);
    if c.lines > |ls| {
      LastValueSnoc(Rewrite(WholeTo(ls, c), key, val), Entry(key, val), o);
      NewLineWhole(ls, key, val, c);
    } else {
      var w := Rewrite(WholeTo(ls, c), key, val);
      assert w + [] == w;
      if CutsNewLine(ls, key, c) {
        NewLineCut(ls, key, val, c);
      } else {
        OldLineCut(ls, key, val, c);
      }
    }
  }

  lemma SeenIs(ls: seq<string>, c: Cut, k: string)
    ensures var b := PieceAt(ls, c);
      && |b| <= 1
      && LastValue(SeenTo(ls, c), k)
         == if |b| == 1 && Binds(b[0], k) then Some(Binding(b[0]).value.1) else LastValue(WholeTo(ls, c), k)
  {
    hide LastValue, WholeTo, Binding;
    LastOfTwo(WholeTo(ls, c), PieceAt(ls, c), k);
  }

  lemma NewLineWhole(ls: seq<string>, key: string, val: string, c: Cut)
    requires c.lines > |ls|
    ensures OwnReads(ls, key, val, c) == Some(Lead(key) + val)
    ensures PieceAt(ls, c) == []
  {
    hide Owner, Lead, LastValue;
  }

  lemma NewLineCut(ls: seq<string>, key: string, val: string, c: Cut)
    requires !Comment(key) && CutsNewLine(ls, key, c) && c.lines <= |UpdateLines(ls, key, val)|
    ensures var b, o := PieceAt(UpdateLines(ls, key, val), c), Owner(key);
      var last := LastValue(WholeTo(ls, c), o);
      OwnReads(ls, key, val, c) ==
        if |b| == 1 && Binds(b[0], o) then Some(Binding(b[0]).value.1)
        else if last.Some? && Lead(key) <= last.value then Some(Lead(key) + val) else last
  {
    hide UpdateLines, Binding, LastValue, Owner, Lead, Entry, SeenTo, WholeTo, Matches, Present;
    var o, e := Owner(key), Entry(key, val);
    WholeOfUpdate(ls, key, val, c);
    OwnerMatches("", key, val);
    CutBinds(e, c.bytes, o);
    SeenIs(ls, c, o);
    if c.lines < |ls| {
      CutBinds(ls[c.lines], c.bytes, o);
    }
  }

  lemma OldLineCut(ls: seq<string>, key: string, val: string, c: Cut)
    requires !Comment(key) && !CutsNewLine(ls, key, c) && c.lines <= |ls|
    ensures var b, o := PieceAt(UpdateLines(ls, key, val), c), Owner(key);
      var last := LastValue(WholeTo(ls, c), o);
      OwnReads(ls, key, val, c) ==
        if |b| == 1 && Binds(b[0], o) then Some(Binding(b[0]).value.1)
        else if last.Some? && Lead(key) <= last.value then Some(Lead(key) + val) else last
  {
    var o := Owner(key);
    WholeOfUpdate(ls, key, val, c);
    SeenIs(ls, c, o);
    if c.lines < |ls| {
      var l := ls[c.lines];
      OwnerMatches(l, key, val);
      CutBinds(l, c.bytes, o);
      assert RewriteLine(l, key, val) == l;
      if Binds(l, o) && c.bytes > |o| { PrefixOfCut(Lead(key), Binding(l).value.1, c.bytes - |o| - 1); }
    }
    hide UpdateLines, Binding, LastValue, Owner, Lead, SeenTo, WholeTo, Matches, Present;
  }

  lemma PrefixOfCut(w: string, v: string, n: nat)
    ensures w <= Take(v, n) ==> w <= v
  {
  }
}
