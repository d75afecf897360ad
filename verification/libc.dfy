/** The string routines of src/libc.c that work on memory, and `trim_ws_inplace` of src/games.c. */
module Libc {
  import opened Text

  /** `memmove` inside one array: for every overlap the destination receives the old source, and
      nothing else changes. */
  method Memmove(a: array<char>, dest: nat, src: nat, n: nat)
    requires dest + n <= a.Length && src + n <= a.Length
    modifies a
    ensures a[dest..dest + n] == old(a[src..src + n])
    ensures forall k :: 0 <= k < dest || dest + n <= k < a.Length ==> a[k] == old(a[k])
  {
    ghost var before := a[..];
    if dest < src {
      var i := 0;
      while i < n
        invariant 0 <= i <= n
        invariant forall k :: dest <= k < dest + i ==> a[k] == before[k - dest + src]
        invariant forall k :: 0 <= k < dest || dest + i <= k < a.Length ==> a[k] == before[k]
      {
        a[dest + i] := a[src + i];
        i := i + 1;
      }
    } else {
      var i := n;
      while i > 0
        invariant 0 <= i <= n
        invariant forall k :: dest + i <= k < dest + n ==> a[k] == before[k - dest + src]
        invariant forall k :: 0 <= k < dest + i || dest + n <= k < a.Length ==> a[k] == before[k]
      {
        i := i - 1;
        a[dest + i] := a[src + i];
      }
    }
  }

  /** `strlcat_local` with a limit of `size` bytes: append and cut to what fits. A text that fills the
      limit already is left alone. */
  method Strlcat(dst: array<char>, src: string, size: nat) returns (res: nat)
    requires '\0' in dst[..] && '\0' !in src && size <= dst.Length
    modifies dst
    ensures '\0' in dst[..]
    ensures var before := old(CStr(dst[..]));
      if |before| >= size then dst[..] == old(dst[..]) && res == size + |src|
      else CStr(dst[..]) == Take(before + src, size - 1) && res == |before| + |src|
    ensures forall k :: size <= k < dst.Length ==> dst[k] == old(dst[k])
  {
    var dlen := Strlen(dst);
    if dlen >= size { return size + |src|; }
    res := dlen + |src|;
    var copy := if res >= size then size - dlen - 1 else |src|;
    CopyBehind(dst, dlen, src[..copy]);
    assert dst[..dlen] + src[..copy] == old(CStr(dst[..])) + src[..copy] == Take(old(CStr(dst[..])) + src, size - 1);
  }

  method Strlen(a: array<char>) returns (n: nat)
    requires '\0' in a[..]
    ensures n == |CStr(a[..])| < a.Length && a[..n] == CStr(a[..])
  {
    ghost var s := CStr(a[..]);
    assert |s| < a.Length && a[|s|] == '\0' && s == a[..|s|];
    assert forall k :: 0 <= k < |s| ==> a[k] == s[k] != '\0';
    n := 0;
    while a[n] != '\0'
      invariant 0 <= n <= |s|
      decreases a.Length - n
    {
      assert n != |s|;
      n := n + 1;
    }
  }

  /** Text and terminator behind the first `at` bytes. */
  method CopyBehind(dst: array<char>, at: nat, text: string)
    requires at + |text| < dst.Length && '\0' !in dst[..at] && '\0' !in text
    modifies dst
    ensures dst[..at] == old(dst[..at]) && CStr(dst[..]) == dst[..at] + text && '\0' in dst[..]
    ensures forall k :: at + |text| < k < dst.Length ==> dst[k] == old(dst[k])
  {
    var i := 0;
    while i < |text|
      invariant 0 <= i <= |text|
      invariant dst[..at] == old(dst[..at]) && dst[at..at + i] == text[..i]
      invariant forall k :: at + |text| < k < dst.Length ==> dst[k] == old(dst[k])
    {
      dst[at + i] := text[i];
      i := i + 1;
    }
    dst[at + |text|] := '\0';
    assert dst[..at] == old(dst[..at]) && dst[at..at + |text|] == text;
    assert dst[..at + |text|] == dst[..at] + text;
    CStrAt(dst[..], dst[..at] + text);
  }

  // ---------------------------------------------------------------- substring search

  predicate OccursAt(h: string, n: string, i: nat) {
    i + |n| <= |h| && forall k :: 0 <= k < |n| ==> n[k] == h[i + k]
  }

  predicate Contains(h: string, n: string) {
    exists i :: 0 <= i <= |h| && OccursAt(h, n, i)
  }

  lemma MissingLetter(h: string, n: string, p: nat)
    requires p < |n| && n[p] !in h
    ensures !Contains(h, n)
  {
    var c := n[p];
    forall i: nat ensures !OccursAt(h, n, i) {
    }
  }

  /** Containing a text is being cut in three with it in the middle. */
  lemma ContainsSplit(h: string, n: string) returns (a: string, b: string)
    requires Contains(h, n)
    ensures h == a + n + b
  {
    var i :| 0 <= i <= |h| && OccursAt(h, n, i);
    a, b := h[..i], h[i + |n|..];
    assert h[i..i + |n|] == n;
  }

  lemma ContainsJoin(a: string, n: string, b: string)
    ensures Contains(a + n + b, n)
  {
    var h := a + n + b;
    assert forall k :: 0 <= k < |n| ==> n[k] == h[|a| + k];
    assert OccursAt(h, n, |a|);
  }

  /** The first occurrence at or behind `i`. */
  function Find(h: string, n: string, i: nat): (r: Option<nat>)
    requires i <= |h|
    ensures r.Some? ==> i <= r.value <= |h| && OccursAt(h, n, r.value)
    ensures r.Some? ==> forall k :: i <= k < r.value ==> !OccursAt(h, n, k)
    ensures r.None? ==> forall k :: i <= k <= |h| ==> !OccursAt(h, n, k)
    decreases |h| - i
  {
    if OccursAt(h, n, i) then Some(i) else if i == |h| then None else Find(h, n, i + 1)
  }

  /** `strstr`: the first occurrence, if there is one. */
  method Strstr(h: string, n: string) returns (r: Option<nat>)
    ensures r.Some? ==> OccursAt(h, n, r.value) && forall k :: 0 <= k < r.value ==> !OccursAt(h, n, k)
    ensures r.Some? <==> Contains(h, n)
  {
    if n == [] {
      assert OccursAt(h, n, 0);
      return Some(0);
    }
    var i := 0;
    while i < |h|
      invariant 0 <= i <= |h|
      invariant forall k :: 0 <= k < i ==> !OccursAt(h, n, k)
    {
      if h[i] == n[0] {
        var j := 0;
        while i + j < |h| && j < |n| && h[i + j] == n[j]
          invariant 0 <= j <= |n| && i + j <= |h|
          invariant forall k :: 0 <= k < j ==> n[k] == h[i + k]
        {
          j := j + 1;
        }
        if j == |n| {
          assert OccursAt(h, n, i);
          return Some(i);
        }
      }
      assert !OccursAt(h, n, i);
      i := i + 1;
    }
    assert !OccursAt(h, n, |h|);
    return None;
  }

  // ---------------------------------------------------------------- trimming

  predicate IsSpace(c: char) {
    c == ' ' || c == '\t' || c == '\n' || c == '\r' || c as int == 12 || c as int == 11
  }

  predicate SpaceIn(s: string, i: nat, j: nat)
    requires i <= j <= |s|
  {
    forall k :: i <= k < j ==> IsSpace(s[k])
  }

  /** Nothing left to trim. */
  predicate Trimmed(s: string) {
    s != [] ==> !IsSpace(s[0]) && !IsSpace(s[|s| - 1])
  }

  function LeadEnd(s: string, i: nat): (j: nat)
    requires i <= |s|
    ensures i <= j <= |s| && SpaceIn(s, i, j) && (j < |s| ==> !IsSpace(s[j]))
    decreases |s| - i
  {
    if i == |s| || !IsSpace(s[i]) then i else LeadEnd(s, i + 1)
  }

  function TrailStart(s: string, lo: nat, j: nat): (i: nat)
    requires lo <= j <= |s|
    ensures lo <= i <= j && SpaceIn(s, i, j) && (i > lo ==> !IsSpace(s[i - 1]))
    decreases j
  {
    if j == lo || !IsSpace(s[j - 1]) then j else TrailStart(s, lo, j - 1)
  }

  /** The text without its leading and trailing white space. */
  function Trim(s: string): (t: string)
    ensures Trimmed(t)
  {
    var i := LeadEnd(s, 0);
    s[i..TrailStart(s, i, |s|)]
  }

  /** `Trim` is the only way to cut white space off both ends and leave none there. */
  lemma TrimIsTheOnlyWay(s: string, i: nat, j: nat)
    requires i <= j <= |s| && SpaceIn(s, 0, i) && SpaceIn(s, j, |s|) && Trimmed(s[i..j])
    ensures Trim(s) == s[i..j]
  {
    var a := LeadEnd(s, 0);
    var b := TrailStart(s, a, |s|);
    if i < j {
      assert s[i..j][0] == s[i] && s[i..j][j - i - 1] == s[j - 1];
      assert a == i && b == j;
    } else {
      assert SpaceIn(s, 0, |s|);
      assert a == b == |s|;
    }
  }

  /** Exactly blank, tab, newline, return, vertical tab and form feed are cut off, from both ends. */
  lemma TrimStrips(pre: string, s: string, post: string)
    requires forall k :: 0 <= k < |pre| ==> pre[k] in {' ', '\t', '\n', '\r', '\U{0b}', '\U{0c}'}
    requires forall k :: 0 <= k < |post| ==> post[k] in {' ', '\t', '\n', '\r', '\U{0b}', '\U{0c}'}
    requires s != [] ==> s[0] !in {' ', '\t', '\n', '\r', '\U{0b}', '\U{0c}'}
    requires s != [] ==> s[|s| - 1] !in {' ', '\t', '\n', '\r', '\U{0b}', '\U{0c}'}
    ensures Trim(pre + s + post) == s
  {
    var t := pre + s + post;
    var i, j := |pre|, |pre + s|;
    assert t[i..j] == s;
    assert forall k :: 0 <= k < i ==> t[k] == pre[k];
    assert forall k :: j <= k < |t| ==> t[k] == post[k - j];
    TrimIsTheOnlyWay(t, i, j);
  }

  /** The two scanning loops of `trim_ws_inplace`: the limits of the trimmed text. */
  method TrimLimits(s: string) returns (start: nat, end: nat)
    ensures start <= end <= |s| && s[start..end] == Trim(s)
  {
    start := 0;
    while start < |s| && IsSpace(s[start])
      invariant 0 <= start <= |s| && SpaceIn(s, 0, start)
    {
      start := start + 1;
    }
    end := |s|;
    while end > start && IsSpace(s[end - 1])
      invariant start <= end <= |s| && SpaceIn(s, end, |s|)
    {
      end := end - 1;
    }
    TrimIsTheOnlyWay(s, start, end);
  }

  lemma CStrAt(buf: string, t: string)
    requires '\0' !in t && |t| < |buf| && buf[..|t|] == t && buf[|t|] == '\0'
    ensures CStr(buf) == t && '\0' in buf
  {
    assert buf == t + ['\0'] + buf[|t| + 1..];
    CStrOfPrefix(t, buf[|t| + 1..]);
  }

  /** `trim_ws_inplace`: the C string in `a` becomes its trimmed text, for every string. */
  method TrimWsInplace(a: array<char>)
    requires '\0' in a[..]
    modifies a
    ensures '\0' in a[..] && CStr(a[..]) == Trim(old(CStr(a[..])))
  {
    var s := CStr(a[..]);
    var start, end := TrimLimits(s);
    CutAndMove(a, s, start, end);
  }

  method CutAndMove(a: array<char>, s: string, start: nat, end: nat)
    requires s == CStr(a[..]) && |s| < a.Length && start <= end <= |s|
    modifies a
    ensures '\0' in a[..] && CStr(a[..]) == s[start..end]
  {
    assert s == a[..|s|];
    a[end] := '\0';
    ghost var b := a[..];
    assert b[start..end] == s[start..end];
    var n := end - start;
    if start != 0 {
      Memmove(a, 0, start, n + 1);
      assert a[..n] == a[0..n + 1][..n] == b[start..end + 1][..n] == b[start..end];
      assert a[n] == a[0..n + 1][n] == b[start..end + 1][n] == '\0';
    }
    CStrAt(a[..], s[start..end]);
  }
}
