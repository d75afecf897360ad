/** Padding in visible columns: the measuring loop of `%s` against the UTF-8 encoding form of
    section 3 of RFC 3629. */
module Utf8 {
  import opened Text
  import opened Numbers
  import opened Format

  /** A code point a C string can hold and a terminal shows: no NUL, no surrogate, no escape. */
  predicate Printable(cp: nat) {
    0 < cp <= 0x10FFFF && !(0xD800 <= cp <= 0xDFFF) && cp != 27
  }

  function Byte(n: nat): char
    requires n < 256
  {
    n as char
  }

  function Tail(n: nat): char {
    Byte(0x80 + n % 64)
  }

  function Encode(cp: nat): (s: string)
    requires Printable(cp)
    ensures 1 <= |s| <= 4
  {
    if cp < 0x80 then [Byte(cp)]
    else if cp < 0x800 then [Byte(0xC0 + cp / 64), Tail(cp)]
    else if cp < 0x10000 then [Byte(0xE0 + cp / 4096), Tail(cp / 64), Tail(cp)]
    else [Byte(0xF0 + cp / 262144), Tail(cp / 4096), Tail(cp / 64), Tail(cp)]
  }

  /** The six bits of a continuation byte. */
  function Bits(c: char): int {
    c as int - 0x80
  }

  predicate Continues(c: char) {
    0x80 <= c as int <= 0xBF
  }

  /** The encoding is that of the standard: the shortest form with room for the code point, whose bytes hold its
      bits behind their marks. */
  lemma OneByteForm(cp: nat)
    requires Printable(cp)
    ensures cp <= 0x7F ==> Encode(cp) == [cp as char]
  {
  }

  lemma TwoByteForm(cp: nat)
    requires Printable(cp) && 0x80 <= cp <= 0x7FF
    ensures var e := Encode(cp);
      |e| == 2 && Continues(e[1]) && (e[0] as int - 0xC0) * 64 + Bits(e[1]) == cp
  {
  }

  lemma ThreeByteForm(cp: nat)
    requires Printable(cp) && 0x800 <= cp <= 0xFFFF
    ensures var e := Encode(cp);
      && |e| == 3 && Continues(e[1]) && Continues(e[2])
      && (e[0] as int - 0xE0) * 4096 + Bits(e[1]) * 64 + Bits(e[2]) == cp
  {
    var q := cp / 64;
    assert cp / 4096 == q / 64;
    assert q == q / 64 * 64 + q % 64 && cp == q * 64 + cp % 64;
  }

  lemma FourByteForm(cp: nat)
    requires Printable(cp) && 0x10000 <= cp
    ensures var e := Encode(cp);
      && |e| == 4 && Continues(e[1]) && Continues(e[2]) && Continues(e[3])
      && (e[0] as int - 0xF0) * 262144 + Bits(e[1]) * 4096 + Bits(e[2]) * 64 + Bits(e[3]) == cp
  {
    var q := cp / 64;
    var p := q / 64;
    assert cp / 4096 == p && cp / 262144 == p / 64;
    assert p == p / 64 * 64 + p % 64 && q == p * 64 + q % 64 && cp == q * 64 + cp % 64;
  }

  predicate AllPrintable(cps: seq<nat>) {
    forall cp :: cp in cps ==> Printable(cp)
  }

  function EncodeAll(cps: seq<nat>): string
    requires AllPrintable(cps)
  {
    if cps == [] then "" else EncodeAll(cps[..|cps| - 1]) + Encode(cps[|cps| - 1])
  }

  lemma VisibleSnoc(s: string, c: char)
    requires c != ESC && !Visible(s).1
    ensures Visible(s + [c]) == (if IsLead(c) then Visible(s).0 + 1 else Visible(s).0, false)
  {
    hide IsLead;
    assert (s + [c])[..|s|] == s && (s + [c])[|s|] == c;
  }

  /** Exactly the first byte of an encoded code point is a lead byte. */
  lemma LeadBytes(cp: nat)
    requires Printable(cp)
    ensures var e := Encode(cp);
      IsLead(e[0]) && e[0] != ESC && forall k :: 1 <= k < |e| ==> !IsLead(e[k]) && e[k] != ESC
  {
  }

  predicate AllTail(t: string) {
    forall k :: 0 <= k < |t| ==> !IsLead(t[k]) && t[k] != ESC
  }

  lemma {:induction false} VisibleTail(s: string, t: string)
    requires !Visible(s).1 && AllTail(t)
    ensures Visible(s + t) == Visible(s)
    decreases |t|
  {
    hide Visible, IsLead;
    if t == [] {
      assert s + t == s;
    } else {
      var init, last := t[..|t| - 1], t[|t| - 1];
      VisibleTail(s, init);
      VisibleSnoc(s + init, last);
      assert s + init + [last] == s + t;
    }
  }

  /** The loop counts code points. */
  lemma {:induction false} VisibleCountsCodePoints(cps: seq<nat>)
    requires AllPrintable(cps)
    ensures Visible(EncodeAll(cps)) == (|cps|, false)
  {
    if cps != [] {
      var n := |cps| - 1;
      var s, e := EncodeAll(cps[..n]), Encode(cps[n]);
      VisibleCountsCodePoints(cps[..n]);
      LeadBytes(cps[n]);
      hide Visible, Encode, IsLead;
      VisibleSnoc(s, e[0]);
      assert AllTail(e[1..]);
      VisibleTail(s + [e[0]], e[1..]);
      assert s + [e[0]] + e[1..] == s + e;
    }
  }

  function Blanks(n: nat): (cps: seq<nat>)
    ensures |cps| == n && AllPrintable(cps)
  {
    seq(n, _ => 32)
  }

  lemma {:induction false} EncodeAppend(a: seq<nat>, b: seq<nat>)
    requires AllPrintable(a) && AllPrintable(b)
    ensures EncodeAll(a + b) == EncodeAll(a) + EncodeAll(b)
  {
    if b == [] {
      assert a + b == a;
    } else {
      var n := |b| - 1;
      assert (a + b)[..|a + b| - 1] == a + b[..n];
      EncodeAppend(a, b[..n]);
      assert (a + b)[|a + b| - 1] == b[n];
      hide Encode, Printable;
      AppendAssoc(EncodeAll(a), EncodeAll(b[..n]), Encode(b[n]));
    }
  }

  lemma {:induction false} EncodeBlanks(n: nat)
    ensures EncodeAll(Blanks(n)) == Spaces(n)
  {
    if n > 0 {
      EncodeBlanks(n - 1);
      assert Blanks(n)[..n - 1] == Blanks(n - 1);
      assert Spaces(n) == Spaces(n - 1) + " ";
    }
  }

  /** `%Ns` and `%-Ns` of valid UTF-8 emit exactly max(N, code points) code points: the argument with
      blanks before or behind it. */
  lemma PaddingInColumns(cps: seq<nat>, left: bool, width: int)
    requires AllPrintable(cps)
    ensures var text := EncodeAll(cps);
      var pad := Blanks(if width > |cps| then width - |cps| else 0);
      var shown := if left then cps + pad else pad + cps;
      && |shown| == (if width > |cps| then width else |cps|)
      && Padded(text, Visible(text).0, left, width) == EncodeAll(shown)
  {
    var n := if width > |cps| then width - |cps| else 0;
    VisibleCountsCodePoints(cps);
    EncodeBlanks(n);
    EncodeAppend(cps, Blanks(n));
    EncodeAppend(Blanks(n), cps);
  }

  /** The same through the formatter, directive and all. */
  lemma FormattedColumns(symbols: Symbols, cps: seq<nat>, left: bool, width: nat)
    requires AllPrintable(cps) && width < TWO_31
    ensures var fmt := (if left then "%-" else "%") + Digits(width, 10) + "s";
      var pad := Blanks(if width > |cps| then width - |cps| else 0);
      && WellFormed(symbols, fmt, [StrArg(EncodeAll(cps))])
      && Render(symbols, fmt, [StrArg(EncodeAll(cps))]) == EncodeAll(if left then cps + pad else pad + cps)
  {
    hide *;
    RenderPaddedString(symbols, EncodeAll(cps), left, width);
    PaddingInColumns(cps, left, width);
  }
}
