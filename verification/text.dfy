/** C strings, bounded copies and line splitting: what every other component is built on.

  A C string is a Dafny `string` without its terminating NUL; a character stands for one byte.
  A file is the `string` of its bytes. The program treats a missing file like an empty one, and so
  does this model.
*/
module Text {

  datatype Option<+T> = None | Some(value: T)

  lemma AppendAssoc<T>(a: seq<T>, b: seq<T>, c: seq<T>)
    ensures a + (b + c) == a + b + c
  {
  }

  lemma SplitLast<T>(s: seq<T>)
    requires s != []
    ensures s == s[..|s| - 1] + [s[|s| - 1]]
  {
  }

  lemma Triple<T>(a: T, b: T, c: T)
    ensures [a] + ([b] + [c]) == [a, b, c] && [a] + [b] + [c] == [a, b, c]
  {
  }

  /** At most the first `n` bytes: a copy into a buffer of `n + 1` bytes. */
  function Take(s: string, n: nat): (r: string)
    ensures r <= s && |r| <= n
    ensures |s| <= n ==> r == s
    ensures |s| > n ==> |r| == n
  {
    if |s| <= n then s else s[..n]
  }

  /** Truncating early or late makes no difference to a bounded append. */
  lemma TakeAppend(a: string, b: string, n: nat)
    ensures Take(Take(a, n) + b, n) == Take(a + b, n)
  {
    if |a| > n {
      assert Take(a, n) == a[..n];
      assert (a[..n] + b)[..n] == a[..n] == (a + b)[..n];
    }
  }

  lemma TwoPieces(before: string, a: string, b: string, cap: nat)
    ensures Take(Take(before + a, cap) + b, cap) == Take(before + (a + b), cap)
  {
    TakeAppend(before + a, b, cap);
    assert before + a + b == before + (a + b);
  }

  /** The byte a C program reads at `s[i]`, the terminator included. */
  function At(s: string, i: nat): char {
    if i < |s| then s[i] else '\0'
  }

  lemma TerminatorIsNul(s: string)
    ensures At(s, |s|) == '\0'
  {
  }

  /** The first position of `c` at or after `i`, or the length of `s`. */
  function IndexFrom(s: string, c: char, i: nat): (j: nat)
    requires i <= |s|
    ensures i <= j <= |s|
    ensures forall k :: i <= k < j ==> s[k] != c
    ensures j < |s| ==> s[j] == c
    decreases |s| - i
  {
    if i == |s| || s[i] == c then i else IndexFrom(s, c, i + 1)
  }

  function IndexOf(s: string, c: char): (j: nat)
    ensures j <= |s|
    ensures forall k :: 0 <= k < j ==> s[k] != c
    ensures j < |s| ==> s[j] == c
  {
    IndexFrom(s, c, 0)
  }

  /** The C string held by a buffer: everything before the first NUL. */
  function CStr(buf: string): (s: string)
    ensures s <= buf && '\0' !in s
    ensures '\0' !in buf ==> s == buf
  {
    buf[..IndexOf(buf, '\0')]
  }

  lemma BufferText(buf: string)
    requires '\0' in buf
    ensures |CStr(buf)| < |buf|
  {
  }

  lemma CStrOfPrefix(s: string, rest: string)
    requires '\0' !in s
    ensures CStr(s + ['\0'] + rest) == s
  {
    var buf := s + ['\0'] + rest;
    assert buf[|s|] == '\0';
    assert forall k :: 0 <= k < |s| ==> buf[k] == s[k];
    assert IndexOf(buf, '\0') == |s|;
  }

  /** The lines a loop from newline to newline visits; the text after the last newline counts only if
      it is not empty. */
  function Lines(s: string): (ls: seq<string>)
    ensures forall l :: l in ls ==> '\n' !in l
    decreases |s|
  {
    if s == [] then []
    else
      var i := IndexOf(s, '\n');
      if i == |s| then [s] else [s[..i]] + Lines(s[i + 1..])
  }

  /** How a line is set off from the text behind it. */
  predicate FirstLine(s: string, l: string, eol: string, rest: string) {
    && s == l + eol + rest && '\n' !in l
    && (eol == "\n" || (eol == "" && rest == "" && l != ""))
  }

  /** The first line of a text, its terminator and what follows. */
  lemma LinesCons(s: string) returns (l: string, eol: string, rest: string)
    requires s != []
    ensures FirstLine(s, l, eol, rest) && |rest| < |s| && Lines(s) == [l] + Lines(rest)
  {
    var i := IndexOf(s, '\n');
    if i == |s| {
      l, eol, rest := s, "", "";
      assert [s] + Lines([]) == [s] && s + "" + "" == s;
    } else {
      l, eol, rest := s[..i], "\n", s[i + 1..];
      assert s == s[..i] + [s[i]] + s[i + 1..];
    }
  }

  /** The step of every line loop: cut at the next newline and move behind the cut. */
  method NextLine(s: string) returns (l: string, rest: string)
    requires s != []
    ensures Lines(s) == [l] + Lines(rest) && |rest| < |s| && '\n' !in l
    ensures forall c :: c !in s ==> c !in l && c !in rest
  {
    var i := IndexOf(s, '\n');
    l := s[..i];
    rest := if i < |s| then s[i + 1..] else [];
    ghost var l', eol, rest' := LinesCons(s);
    assert forall k :: 0 <= k < |l'| ==> s[k] == l'[k];
    assert eol == "\n" ==> s[|l'|] == '\n';
    assert i == |l'|;
    assert l == l' && rest == rest';
  }

  /** Writing every line followed by a newline. */
  function Unlines(ls: seq<string>): string {
    if ls == [] then "" else ls[0] + "\n" + Unlines(ls[1..])
  }

  lemma {:induction false} LinesOfUnlines(ls: seq<string>)
    requires forall l :: l in ls ==> '\n' !in l
    ensures Lines(Unlines(ls)) == ls
  {
    if ls != [] {
      var s := Unlines(ls);
      assert '\n' !in ls[0];
      LinesOfUnlines(ls[1..]);
      assert s == ls[0] + "\n" + Unlines(ls[1..]);
      assert s[|ls[0]|] == '\n';
      assert forall k :: 0 <= k < |ls[0]| ==> s[k] == ls[0][k];
      assert IndexOf(s, '\n') == |ls[0]|;
      assert s[..|ls[0]|] == ls[0];
      assert s[|ls[0]| + 1..] == Unlines(ls[1..]);
    }
  }

  predicate NewlineTerminated(s: string) {
    s == [] || s[|s| - 1] == '\n'
  }

  lemma UnlinesCons(l: string, ls: seq<string>)
    ensures Unlines([l] + ls) == l + "\n" + Unlines(ls)
  {
    assert ([l] + ls)[1..] == ls;
  }

  lemma TerminatorOfTail(s: string, i: nat)
    requires i < |s| && s[i] == '\n'
    ensures var rest := s[i + 1..];
      var head := s[..i] + "\n";
      (if NewlineTerminated(s) then s else s + "\n")
      == if NewlineTerminated(rest) then head + rest else head + (rest + "\n")
  {
    var rest := s[i + 1..];
    assert s == s[..i] + "\n" + rest;
    assert NewlineTerminated(rest) <==> NewlineTerminated(s);
    assert s[..i] + "\n" + (rest + "\n") == s + "\n";
  }

  /** Splitting and writing back restores the text, up to a missing final newline. */
  lemma {:induction false} UnlinesOfLines(s: string)
    ensures Unlines(Lines(s)) == if NewlineTerminated(s) then s else s + "\n"
    decreases |s|
  {
    if s != [] {
      var i := IndexOf(s, '\n');
      if i == |s| {
        UnlinesCons(s, []);
        assert [s] + [] == [s];
      } else {
        var rest := s[i + 1..];
        UnlinesOfLines(rest);
        UnlinesCons(s[..i], Lines(rest));
        TerminatorOfTail(s, i);
      }
    }
  }

  lemma {:induction false} UnlinesAppend(a: seq<string>, b: seq<string>)
    ensures Unlines(a + b) == Unlines(a) + Unlines(b)
  {
    if a == [] {
      assert a + b == b;
    } else {
      var l, ls := a[0], a[1..];
      assert a == [l] + ls && a + b == [l] + (ls + b);
      UnlinesAppend(ls, b);
      UnlinesCons(l, ls);
      UnlinesCons(l, ls + b);
      hide Unlines;
      assert l + "\n" + (Unlines(ls) + Unlines(b)) == (l + "\n" + Unlines(ls)) + Unlines(b);
    }
  }

  lemma {:induction false} UnlinesLength(ls: seq<string>)
    ensures |ls| <= |Unlines(ls)|
    ensures forall l :: l in ls ==> |l| < |Unlines(ls)|
  {
    if ls != [] {
      UnlinesLength(ls[1..]);
    }
  }

  lemma {:induction false} UnlinesTerminated(ls: seq<string>)
    ensures NewlineTerminated(Unlines(ls))
  {
    if ls != [] {
      UnlinesTerminated(ls[1..]);
    }
  }

  /** No byte of a file that is written back line by line is lost or invented. */
  lemma {:induction false} UnlinesClean(ls: seq<string>, c: char)
    requires c != '\n'
    ensures c in Unlines(ls) <==> exists l :: l in ls && c in l
  {
    if ls != [] {
      UnlinesClean(ls[1..], c);
      assert forall l :: l in ls <==> l == ls[0] || l in ls[1..];
    }
  }

  lemma {:induction false} LinesClean(s: string, c: char)
    requires c !in s
    ensures forall l :: l in Lines(s) ==> c !in l
    decreases |s|
  {
    if s != [] {
      var l, eol, rest := LinesCons(s);
      hide Lines;
      assert c !in rest && c !in l;
      LinesClean(rest, c);
    }
  }
}
