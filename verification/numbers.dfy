/** Printing and parsing numbers: `_xui_rev`, `_xui_itoa`, `_xui_utoa` of scripts/framework/xui.sh
    and `strtol`, `strtoull`, `atoi` of src/libc.c. */
module Numbers {
  import opened Text

  const LONG_MAX: int := 0x7FFF_FFFF_FFFF_FFFF
  const TWO_63: int := 0x8000_0000_0000_0000
  const TWO_64: int := 0x1_0000_0000_0000_0000
  const TWO_32: int := 0x1_0000_0000
  const TWO_31: int := 0x8000_0000

  // ---------------------------------------------------------------- numerals and their value

  /** The value of an alphanumeric digit, or 36 for any other byte. */
  function DigitOf(c: char): (d: nat)
    ensures d <= 36
  {
    if '0' <= c <= '9' then c as int - '0' as int
    else if 'a' <= c <= 'z' then c as int - 'a' as int + 10
    else if 'A' <= c <= 'Z' then c as int - 'A' as int + 10
    else 36
  }

  function DigitChar(d: nat): (c: char)
    requires d < 36
    ensures DigitOf(c) == d
  {
    if d > 9 then (d - 10 + 'a' as int) as char else (d + '0' as int) as char
  }

  predicate DigitRun(s: string, i: nat, j: nat, b: nat)
    requires i <= j <= |s|
  {
    forall k :: i <= k < j ==> DigitOf(s[k]) < b
  }

  /** The number a digit string denotes in base `b`. */
  function Value(s: string, b: nat): nat {
    if s == [] then 0 else Value(s[..|s| - 1], b) * b + DigitOf(s[|s| - 1])
  }

  /** The end of the maximal run of base-`b` digits that starts at `i`. */
  function RunEnd(s: string, i: nat, b: nat): (j: nat)
    requires i <= |s|
    ensures i <= j <= |s|
    ensures DigitRun(s, i, j, b)
    ensures j < |s| ==> DigitOf(s[j]) >= b
    decreases |s| - i
  {
    if i == |s| || DigitOf(s[i]) >= b then i
    else RunEnd(s, i + 1, b)
  }

  lemma QuotientBounds(n: nat, b: nat, q: int, r: int)
    requires 2 <= b && n == q * b + r && 0 <= r < b
    ensures q >= 0 && (n >= b ==> 0 < q < n) && (n < b ==> q == 0)
  {
    MulMono(q, -1, b);
    MulMono(1, q, b);
    MulGrows(0, if q > 0 then q else 0, b);
  }

  lemma MulMono(x: int, y: int, b: nat)
    ensures x <= y ==> x * b <= y * b
  {
  }

  lemma MulGrows(x: nat, y: nat, b: nat)
    requires 2 <= b
    ensures y <= y * b && (0 < y ==> y < y * b) && (x <= y ==> x * b <= y * b)
  {
  }

  lemma DivShrinks(n: nat, b: nat)
    requires 2 <= b
    ensures n == n / b * b + n % b && 0 <= n % b < b && n / b >= 0
    ensures n >= b ==> 0 < n / b < n
    ensures n < b ==> n / b == 0
  {
    QuotientBounds(n, b, n / b, n % b);
  }

  /** The numeral without leading zeros. */
  function Digits(n: nat, b: nat): (s: string)
    requires 2 <= b <= 36
    ensures |s| >= 1 && DigitRun(s, 0, |s|, b)
    decreases n
  {
    DivShrinks(n, b);
    if n < b then [DigitChar(n)] else Digits(n / b, b) + [DigitChar(n % b)]
  }

  function Decimal(n: int): string {
    if n < 0 then "-" + Digits(-n, 10) else Digits(n, 10)
  }

  /** Parsing undoes printing, in every base. */
  lemma {:induction false} ValueOfDigits(n: nat, b: nat)
    requires 2 <= b <= 36
    ensures Value(Digits(n, b), b) == n
    decreases n
  {
    DivShrinks(n, b);
    if n < b {
      assert Digits(n, b)[..0] == [];
    } else {
      ValueOfDigits(n / b, b);
      var s := Digits(n, b);
      assert s[..|s| - 1] == Digits(n / b, b);
    }
  }

  function Pow(b: nat, k: nat): nat {
    if k == 0 then 1 else b * Pow(b, k - 1)
  }

  lemma {:induction false} PowAdd(b: nat, m: nat, n: nat)
    ensures Pow(b, m + n) == Pow(b, m) * Pow(b, n)
  {
    if m == 0 {
      assert Pow(b, 0) == 1;
    } else {
      PowAdd(b, m - 1, n);
      MulAssoc(b, Pow(b, m - 1), Pow(b, n));
      PowStep(b, m);
      PowStep(b, m + n);
      hide Pow;
    }
  }

  lemma PowStep(b: nat, k: nat)
    requires k > 0
    ensures Pow(b, k) == b * Pow(b, k - 1)
  {
  }

  lemma MulAssoc(x: nat, y: nat, z: nat)
    ensures x * (y * z) == (x * y) * z
  {
  }

  lemma {:induction false} DigitsLength(n: nat, b: nat, k: nat)
    requires 2 <= b <= 36 && n < Pow(b, k + 1)
    ensures |Digits(n, b)| <= k + 1
    decreases k
  {
    DivShrinks(n, b);
    if n >= b && k > 0 {
      QuotientBelow(n / b, n, b, Pow(b, k));
      DigitsLength(n / b, b, k - 1);
    }
  }

  lemma QuotientBelow(q: nat, n: nat, b: nat, p: nat)
    requires q * b <= n < b * p
    ensures q < p
  {
    MulMono(p, q, b);
  }

  /** Every 64-bit number fits the 32-byte scratch buffers of the formatter. */
  lemma DigitsFit(n: nat, b: nat)
    requires n < TWO_64 && (b == 10 || b == 16)
    ensures |Digits(n, b)| <= 20
  {
    if b == 10 {
      assert Pow(10, 5) == 100_000;
      PowAdd(10, 5, 5);
      PowAdd(10, 10, 10);
      DigitsLength(n, 10, 19);
    } else {
      assert Pow(16, 4) == 0x1_0000;
      PowAdd(16, 4, 4);
      PowAdd(16, 8, 8);
      DigitsLength(n, 16, 15);
    }
  }

  // ---------------------------------------------------------------- printing in place

  function Rev(s: string): (r: string)
    ensures |r| == |s|
    ensures forall k :: 0 <= k < |s| ==> r[k] == s[|s| - 1 - k]
  {
    seq(|s|, k requires 0 <= k < |s| => s[|s| - 1 - k])
  }

  lemma RevSnoc(s: string, c: char)
    ensures Rev(s + [c]) == [c] + Rev(s)
  {
  }

  method Reverse(s: array<char>, len: nat)
    requires len <= s.Length
    modifies s
    ensures s[..len] == Rev(old(s[..len]))
    ensures s[len..] == old(s[len..])
  {
    var i, j := 0, len - 1;
    while i < j
      invariant 0 <= i && i + j == len - 1 && i <= j + 1
      invariant forall k :: 0 <= k < i || j < k < len ==> s[k] == old(s[len - 1 - k])
      invariant forall k :: i <= k <= j || len <= k < s.Length ==> s[k] == old(s[k])
    {
      s[i], s[j] := s[j], s[i];
      i, j := i + 1, j - 1;
    }
  }

  /** Writes the numeral of `n` and a NUL; returns the length of the numeral. */
  method Utoa(n: nat, s: array<char>, base: nat) returns (len: nat)
    requires 2 <= base <= 36 && |Digits(n, base)| < s.Length
    modifies s
    ensures len == |Digits(n, base)| && s[..len] == Digits(n, base) && s[len] == '\0'
  {
    if n == 0 {
      PrintZero(s, base);
      return 1;
    }
    NumeralIsDigits(n, base);
    hide Digits, Numeral, Rev;
    len := FillDigits(n, s, base);
    Finish(s, len);
  }

  /** Terminates the reversed numeral and turns it round. */
  method Finish(s: array<char>, len: nat)
    requires len < s.Length
    modifies s
    ensures s[..len] == Rev(old(s[..len])) && s[len] == '\0'
  {
    ghost var text := s[..len];
    s[len] := '\0';
    assert s[..len] == text;
    Reverse(s, len);
    assert s[len] == s[len..][0];
  }

  /** Division toward zero and its remainder, as C computes them. */
  function QuotC(n: int, b: nat): (q: int)
    requires 2 <= b
    ensures n == 0 || Abs(q) < Abs(n)
    ensures n >= 0 ==> q == n / b
    ensures n < 0 ==> q <= 0
  {
    DivShrinks(Abs(n), b);
    if n >= 0 then n / b else -(Abs(n) / b)
  }

  function RemC(n: int, b: nat): (r: int)
    requires 2 <= b
    ensures 0 - b < r < b && (n >= 0 ==> r == n % b) && (n < 0 ==> r <= 0)
  {
    if n >= 0 then n % b else -(Abs(n) % b)
  }

  function Abs(n: int): nat {
    if n < 0 then -n else n
  }

  /** The byte the printers store for a remainder; below zero it lies below the digits. */
  function DigitByte(r: int): (c: char)
    requires -36 < r < 36
    ensures r >= 0 ==> c == DigitChar(r)
    ensures r < 0 ==> '\0' < c < '0'
  {
    if r > 9 then (r - 10 + 'a' as int) as char else (r + '0' as int) as char
  }

  /** What the digit loop makes of any number, most significant digit first. */
  function Numeral(n: int, b: nat): (s: string)
    requires 2 <= b <= 36
    ensures |s| >= 1
    decreases Abs(n)
  {
    var low := [DigitByte(RemC(n, b))];
    if QuotC(n, b) == 0 then low else Numeral(QuotC(n, b), b) + low
  }

  lemma {:induction false} NumeralIsDigits(n: nat, b: nat)
    requires 2 <= b <= 36
    ensures Numeral(n, b) == Digits(n, b)
    decreases n
  {
    DivShrinks(n, b);
    if n >= b { NumeralIsDigits(n / b, b); }
  }

  lemma {:induction false} NumeralLength(n: int, b: nat)
    requires 2 <= b <= 36
    ensures |Numeral(n, b)| == |Digits(Abs(n), b)|
    decreases Abs(n)
  {
    DivShrinks(Abs(n), b);
    if QuotC(n, b) != 0 { NumeralLength(QuotC(n, b), b); }
  }

  /** `out` holds the low digits of `n`, reversed; `m` is what is left to print. */
  ghost predicate Pending(n: int, m: int, out: string, base: nat)
    requires 2 <= base <= 36
  {
    Numeral(n, base) == (if m == 0 then "" else Numeral(m, base)) + Rev(out)
  }

  lemma PendingStep(n: int, m: int, out: string, base: nat)
    requires 2 <= base <= 36 && m != 0 && Pending(n, m, out, base)
    ensures Pending(n, QuotC(m, base), out + [DigitByte(RemC(m, base))], base)
  {
    var c := DigitByte(RemC(m, base));
    RevSnoc(out, c);
    var q := QuotC(m, base);
    var high := if q == 0 then "" else Numeral(q, base);
    assert Numeral(m, base) == high + [c];
    hide Numeral, QuotC, RemC, Rev;
    assert high + [c] + Rev(out) == high + ([c] + Rev(out));
  }

  lemma PendingFits(n: int, m: int, out: string, base: nat, size: nat)
    requires 2 <= base <= 36 && Pending(n, m, out, base) && |Numeral(n, base)| < size
    ensures |out| < size && (m != 0 ==> |out| + 1 < size) && (m == 0 ==> Rev(out) == Numeral(n, base))
  {
    hide Rev;
    assert m == 0 ==> "" + Rev(out) == Rev(out);
  }

  /** The loop both printers share: the digits of `n`, least significant first. */
  method FillDigits(n: int, s: array<char>, base: nat) returns (len: nat)
    requires 2 <= base <= 36 && n != 0 && |Numeral(n, base)| < s.Length
    modifies s
    ensures len == |Numeral(n, base)| && Rev(s[..len]) == Numeral(n, base)
  {
    hide Numeral, QuotC, RemC;
    var m := n;
    len := 0;
    assert Pending(n, m, s[..0], base) by { assert Rev(s[..0]) == "" && Numeral(n, base) + "" == Numeral(n, base); }
    while m != 0
      invariant 0 <= len < s.Length && Pending(n, m, s[..len], base)
      decreases Abs(m)
    {
      hide Pending, Rev, DigitByte;
      len := StoreDigit(s, len, DigitByte(RemC(m, base)), n, m, base);
      m := QuotC(m, base);
    }
    PendingFits(n, 0, s[..len], base, s.Length);
  }

  method StoreDigit(s: array<char>, at: nat, c: char, ghost n: int, ghost m: int, ghost base: nat) returns (len: nat)
    requires 2 <= base <= 36 && m != 0 && at < s.Length && Pending(n, m, s[..at], base) && |Numeral(n, base)| < s.Length
    requires c == DigitByte(RemC(m, base))
    modifies s
    ensures len == at + 1 < s.Length && Pending(n, QuotC(m, base), s[..len], base)
  {
    PendingFits(n, m, s[..at], base, s.Length);
    PendingStep(n, m, s[..at], base);
    hide Pending, Numeral, QuotC, RemC, DigitByte;
    ghost var before := s[..at];
    s[at] := c;
    len := at + 1;
    assert s[..len] == before + [c];
  }

  /** Negation of a 64-bit number; the least one is its own negative. */
  function Neg64(n: int): int {
    if n == -TWO_63 then n else -n
  }

  /** The text of `_xui_itoa`: a sign only in base 10. */
  function ItoaText(n: int, b: nat): string
    requires 2 <= b <= 36
  {
    if n < 0 && b == 10 then "-" + Numeral(Neg64(n), b) else Numeral(n, b)
  }

  method Itoa(n: int, s: array<char>, base: nat) returns (len: nat)
    requires -TWO_63 <= n < TWO_63 && 2 <= base <= 36 && |ItoaText(n, base)| < s.Length
    modifies s
    ensures len == |ItoaText(n, base)| && s[..len] == ItoaText(n, base) && s[len] == '\0'
  {
    if n == 0 {
      PrintZero(s, base);
      return 1;
    }
    hide Numeral, Rev;
    var neg := n < 0 && base == 10;
    len := FillDigits(if neg then Neg64(n) else n, s, base);
    if neg {
      AppendSign(s, len);
      len := len + 1;
    }
    Finish(s, len);
  }

  method AppendSign(s: array<char>, len: nat)
    requires len < s.Length
    modifies s
    ensures Rev(s[..len + 1]) == "-" + Rev(old(s[..len]))
  {
    ghost var low := s[..len];
    s[len] := '-';
    assert s[..len + 1] == low + "-";
    RevSnoc(low, '-');
  }

  method PrintZero(s: array<char>, base: nat)
    requires 2 <= base <= 36 && 2 <= s.Length
    modifies s
    ensures Numeral(0, base) == Digits(0, base) == "0" && s[..1] == "0" && s[1] == '\0'
  {
    s[0] := '0';
    s[1] := '\0';
    NumeralIsDigits(0, base);
  }

  /** In base 10 it is the decimal numeral, but for the one number whose negation overflows. */
  lemma ItoaIsDecimal(n: int)
    requires -TWO_63 < n
    ensures ItoaText(n, 10) == Decimal(n)
  {
    NumeralIsDigits(if n < 0 then -n else n, 10);
  }

  // ---------------------------------------------------------------- parsing

  predicate IsBlank(c: char) {
    c == ' ' || c == '\t'
  }

  /** The first position at or after `i` that holds no space or tab. */
  function SkipBlanks(s: string, i: nat): (j: nat)
    requires i <= |s|
    ensures i <= j <= |s|
    ensures forall k :: i <= k < j ==> IsBlank(s[k])
    ensures j < |s| ==> !IsBlank(s[j])
    decreases |s| - i
  {
    if i == |s| || !IsBlank(s[i]) then i else SkipBlanks(s, i + 1)
  }

  /** The split of the input into sign, base and start of the digits. */
  datatype Subject = Subject(neg: bool, start: nat, base: nat)

  predicate HexPrefix(s: string, i: nat) {
    At(s, i) == '0' && (At(s, i + 1) == 'x' || At(s, i + 1) == 'X')
  }

  function SubjectOf(s: string, base: nat): (r: Subject)
    ensures r.start <= |s|
    ensures base != 0 ==> r.base == base
    ensures base == 0 ==> r.base in {8, 10, 16}
  {
    var i := SkipBlanks(s, 0);
    var neg := At(s, i) == '-';
    var p := if At(s, i) == '-' || At(s, i) == '+' then i + 1 else i;
    if (base == 0 || base == 16) && HexPrefix(s, p) then Subject(neg, p + 2, 16)
    else if base == 0 && At(s, p) == '0' then Subject(neg, p + 1, 8)
    else Subject(neg, p, if base == 0 then 10 else base)
  }

  /** A result of `strtol`: the value, what is stored through the end pointer, and whether `errno` becomes
      ERANGE. */
  datatype LongResult = LongResult(value: int, end: Option<nat>, erange: bool)

  /** The meaning of this `strtol`: the signed value of the maximal digit run and its end, or the nearest
      limit with ERANGE and no end. */
  function LongOf(s: string, base: nat): LongResult {
    var t := SubjectOf(s, base);
    var stop := RunEnd(s, t.start, t.base);
    Clamp(t.neg, Value(s[t.start..stop], t.base), stop)
  }

  /** A magnitude and its sign, if 64 bits hold them; else the limit on that side. */
  function Clamp(neg: bool, v: nat, stop: nat): LongResult {
    if neg && v > TWO_63 then LongResult(-TWO_63, None, true)
    else if !neg && v > LONG_MAX then LongResult(LONG_MAX, None, true)
    else LongResult(if neg then 0 - v else v, Some(stop), false)
  }

  /** The guard of the digit loop fires exactly when the next value would exceed the limit. */
  lemma OverflowTest(r: nat, limit: nat, v: nat, b: nat)
    requires 2 <= b && v <= limit
    ensures r > (limit - v) / b <==> r * b + v > limit
  {
    var q := (limit - v) / b;
    var m := (limit - v) % b;
    assert limit - v == q * b + m && 0 <= m < b;
    if r > q {
      assert r * b >= (q + 1) * b == q * b + b;
    } else {
      assert r * b <= q * b;
    }
  }

  /** Reading one more digit can only raise the value. */
  lemma ValueStep(s: string, i: nat, p: nat, b: nat)
    requires i <= p < |s|
    ensures Value(s[i..p + 1], b) == Value(s[i..p], b) * b + DigitOf(s[p])
  {
    assert s[i..p + 1][..p - i] == s[i..p];
  }

  lemma RunEndFrom(s: string, i: nat, p: nat, b: nat)
    requires i <= p <= |s| && DigitRun(s, i, p, b)
    requires p == |s| || DigitOf(s[p]) >= b
    ensures RunEnd(s, i, b) == p
  {
  }

  /** Blanks, sign and base prefix: the part of `strtol` before its digit loop. */
  method ScanSubject(s: string, base: nat) returns (neg: bool, p: nat, b: nat)
    requires base == 0 || 2 <= base <= 36
    ensures SubjectOf(s, base) == Subject(neg, p, b) && p <= |s| && 2 <= b <= 36
  {
    p := 0;
    while IsBlank(At(s, p))
      invariant p <= |s| && SkipBlanks(s, 0) == SkipBlanks(s, p)
      decreases |s| - p
    {
      p := p + 1;
    }
    neg := false;
    if At(s, p) == '-' { neg := true; p := p + 1; }
    else if At(s, p) == '+' { p := p + 1; }
    b := base;
    if b == 0 {
      if HexPrefix(s, p) { b := 16; p := p + 2; }
      else if At(s, p) == '0' { b := 8; p := p + 1; }
      else { b := 10; }
    } else if b == 16 && HexPrefix(s, p) {
      p := p + 2;
    }
  }

  /** The accumulator of `strtol`: exact, or known to be past the limit. */
  predicate Accumulated(r: nat, overflow: bool, exact: nat, limit: nat) {
    if overflow then exact > limit else r == exact <= limit
  }

  /** One digit, with the overflow test of the source. */
  method Accumulate(r: nat, overflow: bool, limit: nat, v: nat, b: nat, ghost exact: nat)
    returns (r': nat, overflow': bool)
    requires 2 <= b && v <= limit && Accumulated(r, overflow, exact, limit)
    ensures Accumulated(r', overflow', exact * b + v, limit)
  {
    OverflowTest(r, limit, v, b);
    MulGrows(0, exact, b);
    r', overflow' := r, overflow;
    if !overflow' && r > (limit - v) / b {
      overflow' := true;
    }
    if !overflow' { r' := r * b + v; }
  }

  /** The digit loop of `strtol`. */
  method ScanDigits(s: string, start: nat, b: nat, limit: nat) returns (r: nat, overflow: bool, p: nat)
    requires start <= |s| && 2 <= b <= 36 && 36 <= limit
    ensures p == RunEnd(s, start, b) && Accumulated(r, overflow, Value(s[start..p], b), limit)
  {
    r, overflow, p := 0, false, start;
    assert s[start..start] == [] && Value([], b) == 0;
    hide Value;
    while p < |s| && DigitOf(s[p]) < b
      invariant start <= p <= |s| && DigitRun(s, start, p, b)
      invariant Accumulated(r, overflow, Value(s[start..p], b), limit)
    {
      r, overflow := Accumulate(r, overflow, limit, DigitOf(s[p]), b, Value(s[start..p], b));
      ValueStep(s, start, p, b);
      p := p + 1;
    }
    RunEndFrom(s, start, p, b);
  }

  /** `strtol`, loop by loop. */
  method Strtol(s: string, base: nat) returns (value: int, end: Option<nat>, erange: bool)
    requires base == 0 || 2 <= base <= 36
    ensures LongResult(value, end, erange) == LongOf(s, base)
  {
    hide SubjectOf, Value, RunEnd;
    var neg, start, b := ScanSubject(s, base);
    var limit: nat := if neg then LONG_MAX + 1 else LONG_MAX;
    var r, overflow, p := ScanDigits(s, start, b, limit);
    if overflow {
      return if neg then -TWO_63 else LONG_MAX, None, true;
    }
    value := r;
    return if neg then -value else value, Some(p), false;
  }

  // ---------------------------------------------------------------- strtol against the standard

  /** White space of the C locale. */
  predicate IsWhite(c: char) {
    IsBlank(c) || c == '\n' || c == '\r' || c as int == 12 || c as int == 11
  }

  function SkipWhite(s: string, i: nat): (j: nat)
    requires i <= |s|
    ensures i <= j <= |s|
    ensures forall k :: i <= k < j ==> IsWhite(s[k])
    ensures j < |s| ==> !IsWhite(s[j])
    decreases |s| - i
  {
    if i == |s| || !IsWhite(s[i]) then i else SkipWhite(s, i + 1)
  }

  predicate IsSign(c: char) {
    c == '-' || c == '+'
  }

  /** The position behind an optional sign. */
  function AfterSign(s: string, i: nat): (p: nat)
    requires i <= |s|
    ensures i <= p <= |s|
  {
    if IsSign(At(s, i)) then i + 1 else i
  }

  /** `0x` in a base that allows it. */
  predicate HexAllowed(s: string, p: nat, base: nat) {
    (base == 0 || base == 16) && HexPrefix(s, p)
  }

  /** Section 7.22.1.4 of ISO C11, paragraphs 2 to 8: all white space is skipped, `0x` is a prefix only
      in front of a digit, the end is stored in every case, and without digits it is the start. */
  function IsoLongOf(s: string, base: nat): LongResult {
    var t := IsoSubjectOf(s, base);
    var stop := RunEnd(s, t.start, t.base);
    if stop == t.start then LongResult(0, Some(0), false)
    else Clamp(t.neg, Value(s[t.start..stop], t.base), stop).(end := Some(stop))
  }

  function IsoSubjectOf(s: string, base: nat): (r: Subject)
    ensures r.start <= |s|
  {
    var i := SkipWhite(s, 0);
    var neg := At(s, i) == '-';
    var p := AfterSign(s, i);
    if HexAllowed(s, p, base) && DigitOf(At(s, p + 2)) < 16 then Subject(neg, p + 2, 16)
    else Subject(neg, p, if base != 0 then base else if At(s, p) == '0' then 8 else 10)
  }

  /** The text in front of the digits holds only what this `strtol` knows: blanks, tabs and no `0x` that
      leads nowhere. */
  predicate PlainLead(s: string, base: nat) {
    var i := SkipWhite(s, 0);
    var p := AfterSign(s, i);
    SkipBlanks(s, 0) == i && (HexAllowed(s, p, base) ==> DigitOf(At(s, p + 2)) < 16)
  }

  /** There is a number behind white space and sign. */
  predicate HasDigits(s: string, base: nat) {
    DigitOf(At(s, AfterSign(s, SkipWhite(s, 0)))) < if base == 0 then 10 else base
  }

  /** The digits of the number denote one in the range of `long`. */
  predicate NumberFits(s: string, base: nat) {
    var t := IsoSubjectOf(s, base);
    Value(s[t.start..RunEnd(s, t.start, t.base)], t.base) <= if t.neg then TWO_63 else LONG_MAX
  }

  /** When the two agree: a number in the range of `long` behind a plain lead, or no number in a text that
      starts with neither blank nor sign. */
  predicate StrtolConforms(s: string, base: nat) {
    if HasDigits(s, base) then PlainLead(s, base) && NumberFits(s, base)
    else !IsBlank(At(s, 0)) && !IsSign(At(s, 0))
  }

  /** `strtol` does what the standard asks for if and only if the text is of one of these two kinds. */
  lemma StrtolConformsIff(s: string, base: nat)
    requires base == 0 || 2 <= base <= 36
    ensures LongOf(s, base) == IsoLongOf(s, base) <==> StrtolConforms(s, base)
    ensures PlainLead(s, base) ==>
      LongOf(s, base).value == IsoLongOf(s, base).value && LongOf(s, base).erange == IsoLongOf(s, base).erange
  {
    hide Value, NumberFits;
    BlanksAreWhite(s);
    if !HasDigits(s, base) {
      NoDigits(s, base);
    } else if SkipBlanks(s, 0) != SkipWhite(s, 0) {
      OtherWhiteSpace(s, base);
    } else if PlainLead(s, base) {
      SameSubject(s, base);
    } else {
      BarePrefix(s, base);
    }
  }

  lemma BlanksAreWhite(s: string)
    ensures SkipBlanks(s, 0) <= SkipWhite(s, 0)
    ensures SkipBlanks(s, 0) < SkipWhite(s, 0) ==> IsWhite(s[SkipBlanks(s, 0)])
  {
    BlanksEndFirst(s, SkipBlanks(s, 0), SkipWhite(s, 0));
  }

  lemma BlanksEndFirst(s: string, i: nat, j: nat)
    requires i <= |s| && j <= |s| && (forall k :: 0 <= k < i ==> IsBlank(s[k])) && (j < |s| ==> !IsWhite(s[j]))
    ensures i <= j
  {
  }

  lemma EmptyRun(s: string, i: nat, b: nat)
    requires i <= |s| && DigitOf(At(s, i)) >= b
    ensures RunEnd(s, i, b) == i && Value(s[i..i], b) == 0
  {
    assert s[i..i] == [];
  }

  /** Without digits the source reports where it stopped, the standard the start. */
  lemma NoDigits(s: string, base: nat)
    requires (base == 0 || 2 <= base <= 36) && !HasDigits(s, base)
    ensures LongOf(s, base) == LongResult(0, Some(AfterSign(s, SkipBlanks(s, 0))), false)
    ensures IsoLongOf(s, base) == LongResult(0, Some(0), false)
    ensures AfterSign(s, SkipBlanks(s, 0)) == 0 <==> !IsBlank(At(s, 0)) && !IsSign(At(s, 0))
  {
    hide Value, RunEnd;
    var b := if base == 0 then 10 else base;
    var p, q := AfterSign(s, SkipBlanks(s, 0)), AfterSign(s, SkipWhite(s, 0));
    BlanksAreWhite(s);
    assert DigitOf(At(s, p)) >= b && DigitOf(At(s, q)) >= b by { hide SkipBlanks, SkipWhite; }
    EmptyRun(s, p, b);
    EmptyRun(s, q, b);
    assert SubjectOf(s, base).start == p && SubjectOf(s, base).base == b by { hide SkipBlanks, SkipWhite; }
    assert IsoSubjectOf(s, base).start == q && IsoSubjectOf(s, base).base == b by { hide SkipBlanks, SkipWhite; }
    assert p == 0 <==> !IsBlank(At(s, 0)) && !IsSign(At(s, 0));
    hide SubjectOf, IsoSubjectOf, SkipBlanks, SkipWhite, AfterSign, HasDigits;
  }

  /** A newline, return, form feed or vertical tab in front of a number stops the source at once. */
  lemma OtherWhiteSpace(s: string, base: nat)
    requires (base == 0 || 2 <= base <= 36) && HasDigits(s, base) && SkipBlanks(s, 0) != SkipWhite(s, 0)
    ensures LongOf(s, base) == LongResult(0, Some(SkipBlanks(s, 0)), false)
    ensures IsoLongOf(s, base).end.Some? && IsoLongOf(s, base).end.value > SkipBlanks(s, 0)
  {
    var i := SkipBlanks(s, 0);
    BlanksAreWhite(s);
    assert SubjectOf(s, base) == Subject(false, i, if base == 0 then 10 else base) by { hide Value, RunEnd, SkipWhite; }
    EmptyRun(s, i, if base == 0 then 10 else base);
    var u := IsoSubjectOf(s, base);
    assert i < u.start < |s| && DigitOf(s[u.start]) < u.base by { hide Value, RunEnd, SkipBlanks, SkipWhite; }
    hide Value, SubjectOf, IsoSubjectOf, SkipBlanks, SkipWhite, HasDigits;
  }

  /** Behind a plain lead both read the same digits. */
  lemma SameSubject(s: string, base: nat)
    requires (base == 0 || 2 <= base <= 36) && HasDigits(s, base) && PlainLead(s, base)
    ensures var l, r := LongOf(s, base), IsoLongOf(s, base);
      && l.value == r.value && l.erange == r.erange && r.end.Some?
      && (!l.erange ==> l.end == r.end) && (l.erange ==> l.end.None?) && (l.erange <==> !NumberFits(s, base))
  {
    hide SubjectOf, IsoSubjectOf, HasDigits, PlainLead, Value, RunEnd, Clamp;
    var t, u := SubjectOf(s, base), IsoSubjectOf(s, base);
    SubjectsAgree(s, base);
    SameRun(s, t, u);
    ClampEnds(t.neg, Value(s[t.start..RunEnd(s, t.start, t.base)], t.base), RunEnd(s, t.start, t.base));
  }

  lemma ClampEnds(neg: bool, v: nat, stop: nat)
    ensures var r := Clamp(neg, v, stop);
      && (if r.erange then r.end.None? else r.end == Some(stop))
      && (r.erange <==> v > if neg then TWO_63 else LONG_MAX)
  {
  }

  lemma SameRun(s: string, t: Subject, u: Subject)
    requires t.base == u.base >= 2 && u.start < |s| && t.start <= |s| && DigitOf(s[u.start]) < u.base
    requires t.start == u.start || (t.start == u.start + 1 && s[u.start] == '0')
    ensures var stop := RunEnd(s, u.start, u.base);
      RunEnd(s, t.start, t.base) == stop > u.start && Value(s[t.start..stop], t.base) == Value(s[u.start..stop], u.base)
  {
    if t.start != u.start {
      LeadingZero(s, u.start, u.base);
    }
    hide Value;
  }

  /** Both find the same sign and base; only the zero of an octal number is a digit to one of them. */
  lemma SubjectsAgree(s: string, base: nat)
    requires (base == 0 || 2 <= base <= 36) && HasDigits(s, base) && PlainLead(s, base)
    ensures var t, u := SubjectOf(s, base), IsoSubjectOf(s, base);
      && t.neg == u.neg && t.base == u.base >= 2 && u.start < |s| && DigitOf(s[u.start]) < u.base
      && (t.start == u.start || (t.start == u.start + 1 && s[u.start] == '0'))
  {
    hide SkipBlanks, SkipWhite;
  }

  /** A zero in front changes neither the value of a run nor its end. */
  lemma LeadingZero(s: string, p: nat, b: nat)
    requires p < |s| && s[p] == '0' && 2 <= b
    ensures RunEnd(s, p, b) == RunEnd(s, p + 1, b)
    ensures Value(s[p..RunEnd(s, p, b)], b) == Value(s[p + 1..RunEnd(s, p, b)], b)
  {
    var e := RunEnd(s, p + 1, b);
    assert s[p..e] == "0" + s[p + 1..e];
    ValueOfZero(s[p + 1..e], b);
  }

  lemma {:induction false} ValueOfZero(s: string, b: nat)
    ensures Value("0" + s, b) == Value(s, b)
  {
    if s == [] {
      assert "0" + s == "0" && "0"[..0] == [];
    } else {
      var n := |s| - 1;
      ValueOfZero(s[..n], b);
      assert ("0" + s)[..n + 1] == "0" + s[..n];
    }
  }

  /** `0x` without a digit behind it: the source stops behind the x, the standard behind the zero. */
  lemma BarePrefix(s: string, base: nat)
    requires (base == 0 || 2 <= base <= 36) && HasDigits(s, base)
    requires SkipBlanks(s, 0) == SkipWhite(s, 0) && !PlainLead(s, base)
    ensures var p := AfterSign(s, SkipWhite(s, 0));
      LongOf(s, base) == LongResult(0, Some(p + 2), false) && IsoLongOf(s, base) == LongResult(0, Some(p + 1), false)
  {
    var p := AfterSign(s, SkipWhite(s, 0));
    var b := if base == 0 then 8 else 16;
    assert HexAllowed(s, p, base) && DigitOf(At(s, p + 2)) >= 16;
    assert SubjectOf(s, base).start == p + 2 && SubjectOf(s, base).base == 16 by { hide SkipBlanks, SkipWhite; }
    assert IsoSubjectOf(s, base).start == p && IsoSubjectOf(s, base).base == b by { hide SkipBlanks, SkipWhite; }
    hide SubjectOf, IsoSubjectOf, SkipBlanks, SkipWhite, HasDigits, PlainLead;
    EmptyRun(s, p + 2, 16);
    ZeroAlone(s, p, b);
    hide Value, RunEnd;
  }

  lemma ZeroAlone(s: string, p: nat, b: nat)
    requires p + 1 <= |s| && s[p] == '0' && DigitOf(At(s, p + 1)) >= b >= 2
    ensures RunEnd(s, p, b) == p + 1 && Value(s[p..p + 1], b) == 0
  {
    EmptyRun(s, p + 1, b);
    LeadingZero(s, p, b);
  }

  /** One text of each kind on which the source departs from the standard. */
  lemma StrtolDeparts()
    ensures LongOf("+", 10) == LongResult(0, Some(1), false) && IsoLongOf("+", 10) == LongResult(0, Some(0), false)
    ensures LongOf("0x", 16) == LongResult(0, Some(2), false) && IsoLongOf("0x", 16) == LongResult(0, Some(1), false)
    ensures forall c :: c in {'\n', '\r', '\U{0b}', '\U{0c}'} ==>
      LongOf([c, '7'], 10) == LongResult(0, Some(0), false) && IsoLongOf([c, '7'], 10) == LongResult(7, Some(2), false)
    ensures LongOf(Decimal(TWO_63), 10) == LongResult(LONG_MAX, None, true)
    ensures IsoLongOf(Decimal(TWO_63), 10) == LongResult(LONG_MAX, Some(|Decimal(TWO_63)|), true)
  {
    hide *;
    SignExample();
    BarePrefixExample();
    forall c | c in {'\n', '\r', '\U{0b}', '\U{0c}'}
      ensures LongOf([c, '7'], 10) == LongResult(0, Some(0), false)
      ensures IsoLongOf([c, '7'], 10) == LongResult(7, Some(2), false)
    {
      WhiteExample(c);
    }
    OverflowExample();
  }

  lemma SignExample()
    ensures LongOf("+", 10) == LongResult(0, Some(1), false) && IsoLongOf("+", 10) == LongResult(0, Some(0), false)
  {
    var s := "+";
    assert SkipBlanks(s, 0) == 0 == SkipWhite(s, 0);
    NoDigits(s, 10);
    hide LongOf, IsoLongOf;
  }

  lemma BarePrefixExample()
    ensures LongOf("0x", 16) == LongResult(0, Some(2), false) && IsoLongOf("0x", 16) == LongResult(0, Some(1), false)
  {
    var s := "0x";
    assert SkipBlanks(s, 0) == 0 == SkipWhite(s, 0);
    BarePrefix(s, 16);
  }

  lemma WhiteExample(c: char)
    requires c in {'\n', '\r', '\U{0b}', '\U{0c}'}
    ensures LongOf([c, '7'], 10) == LongResult(0, Some(0), false)
    ensures IsoLongOf([c, '7'], 10) == LongResult(7, Some(2), false)
  {
    var s := [c, '7'];
    assert SkipWhite(s, 1) == 1 && SkipWhite(s, 0) == 1 && SkipBlanks(s, 0) == 0;
    assert RunEnd(s, 2, 10) == 2 && RunEnd(s, 1, 10) == 2;
    assert s[1..2] == "7" && "7"[..0] == [] && Value("7", 10) == 7;
    hide SkipWhite, SkipBlanks, RunEnd, Value;
    OtherWhiteSpace(s, 10);
    hide LongOf;
  }

  lemma OverflowExample()
    ensures LongOf(Decimal(TWO_63), 10) == LongResult(LONG_MAX, None, true)
    ensures IsoLongOf(Decimal(TWO_63), 10) == LongResult(LONG_MAX, Some(|Decimal(TWO_63)|), true)
  {
    var s := Decimal(TWO_63);
    DecimalParts(TWO_63, "");
    assert s + "" == s;
    NumeralStart(TWO_63, 10);
    assert DigitRun(s, 0, |s|, 10);
    hide Digits, Decimal, Value, RunEnd;
    assert SkipWhite(s, 0) == 0;
  }

  // ---------------------------------------------------------------- strtoull

  /** The digits `strtoull` knows: letters only up to `f`. */
  predicate UllDigit(c: char, b: nat) {
    DigitOf(c) < b && DigitOf(c) < 16
  }

  lemma ModStep(x: nat, b: nat, v: nat, m: nat)
    requires m == TWO_64 || m == TWO_32
    ensures (x % m * b + v) % m == (x * b + v) % m
  {
    var q, r := x / m, x % m;
    assert x == q * m + r;
    assert x * b + v == (r * b + v) + (q * b) * m by {
      assert (q * m) * b == (q * b) * m;
      assert (q * m + r) * b == (q * m) * b + r * b;
    }
    ModShift(r * b + v, q * b, m);
  }

  lemma ModShift(y: int, k: int, m: nat)
    requires m == TWO_64 || m == TWO_32
    ensures (y + k * m) % m == y % m
  {
  }

  /** The base that bounds the digits of `strtoull`. */
  function UllBase(b: nat): nat {
    if b <= 16 then b else 16
  }

  /** `strtoull` in any base: the run of the digits it knows, its value modulo 2^64, and its end. */
  method Strtoull(s: string, from: nat, b: nat) returns (value: nat, end: nat)
    requires 2 <= b <= 36 && from <= |s|
    ensures var start := SkipBlanks(s, from);
      end == RunEnd(s, start, UllBase(b)) && value == Value(s[start..end], b) % TWO_64
  {
    var p := from;
    while p < |s| && IsBlank(s[p])
      invariant from <= p <= |s| && SkipBlanks(s, from) == SkipBlanks(s, p)
    {
      p := p + 1;
    }
    value, end := UllDigits(s, p, b);
  }

  method UllDigits(s: string, start: nat, b: nat) returns (value: nat, p: nat)
    requires 2 <= b <= 36 && start <= |s|
    ensures p == RunEnd(s, start, UllBase(b)) && value == Value(s[start..p], b) % TWO_64
  {
    hide Value;
    p := start;
    value := 0;
    assert IsMod64(0, Value(s[start..start], b)) by { EmptyValue(b); assert s[start..start] == []; }
    while p < |s| && UllDigit(s[p], b)
      invariant start <= p <= |s| && DigitRun(s, start, p, UllBase(b))
      invariant IsMod64(value, Value(s[start..p], b))
    {
      value := UllStep(value, s, start, p, b);
      p := p + 1;
    }
    RunEndFrom(s, start, p, UllBase(b));
  }

  lemma EmptyValue(b: nat)
    ensures Value([], b) == 0
  {
  }

  predicate IsMod64(r: nat, exact: nat) {
    r == exact % TWO_64
  }

  /** One round of unsigned 64-bit arithmetic. */
  method UllStep(r: nat, s: string, ghost start: nat, p: nat, b: nat) returns (r': nat)
    requires start <= p < |s| && IsMod64(r, Value(s[start..p], b))
    ensures IsMod64(r', Value(s[start..p + 1], b))
  {
    ModStep(Value(s[start..p], b), b, DigitOf(s[p]), TWO_64);
    ValueStep(s, start, p, b);
    r' := (r * b + DigitOf(s[p])) % TWO_64;
  }

  /** Two's complement wrap-around of a 32-bit `int`. */
  function Wrap32(n: int): (r: int)
    ensures -TWO_31 <= r < TWO_31
    ensures -TWO_31 <= n < TWO_31 ==> r == n
  {
    (n + TWO_31) % TWO_32 - TWO_31
  }

  /** The meaning of `atoi`: blanks, an optional minus, digits; reduced to 32 bits. */
  function IntOf(s: string): (n: int)
    ensures -TWO_31 <= n < TWO_31
  {
    var i := SkipBlanks(s, 0);
    var neg := At(s, i) == '-';
    var start := if neg then i + 1 else i;
    var v := Value(s[start..RunEnd(s, start, 10)], 10);
    Wrap32(if neg then 0 - v else v)
  }

  lemma WrapStep(x: nat, v: nat)
    ensures Wrap32(Wrap32(x) * 10 + v) == Wrap32(x * 10 + v)
  {
    var y := Wrap32(x);
    var k := (x - y) / TWO_32;
    assert x - y == k * TWO_32 by {
      assert x + TWO_31 == (x + TWO_31) / TWO_32 * TWO_32 + (x + TWO_31) % TWO_32;
    }
    assert x * 10 + v + TWO_31 == (y * 10 + v + TWO_31) + (k * 10) * TWO_32;
    ModShift(y * 10 + v + TWO_31, k * 10, TWO_32);
  }

  lemma WrapNeg(x: nat)
    ensures Wrap32(-Wrap32(x)) == Wrap32(0 - x)
  {
    var y := Wrap32(x);
    var k := (x - y) / TWO_32;
    assert x - y == k * TWO_32 by {
      assert x + TWO_31 == (x + TWO_31) / TWO_32 * TWO_32 + (x + TWO_31) % TWO_32;
    }
    assert 0 - x + TWO_31 == (-y + TWO_31) + (-k) * TWO_32;
    ModShift(-y + TWO_31, -k, TWO_32);
  }

  /** `atoi` with its 32-bit accumulator. */
  method Atoi(s: string) returns (n: int)
    ensures n == IntOf(s)
  {
    var p := 0;
    while IsBlank(At(s, p))
      invariant p <= |s| && SkipBlanks(s, 0) == SkipBlanks(s, p)
      decreases |s| - p
    {
      p := p + 1;
    }
    var neg := false;
    if At(s, p) == '-' { neg := true; p := p + 1; }
    n := AtoiDigits(s, p);
    WrapNeg(Value(s[p..RunEnd(s, p, 10)], 10));
    n := Wrap32(if neg then -n else n);
  }

  /** The digit loop of `atoi`: every step wraps, and so does the sum. */
  method AtoiDigits(s: string, start: nat) returns (n: int)
    requires start <= |s|
    ensures n == Wrap32(Value(s[start..RunEnd(s, start, 10)], 10))
  {
    var p := start;
    n := 0;
    assert s[start..start] == [] && Value([], 10) == 0;
    hide Value, Wrap32;
    while p < |s| && '0' <= s[p] <= '9'
      invariant start <= p <= |s| && DigitRun(s, start, p, 10)
      invariant n == Wrap32(Value(s[start..p], 10))
    {
      n := AtoiStep(n, s, start, p);
      p := p + 1;
    }
    RunEndFrom(s, start, p, 10);
  }

  method AtoiStep(n: int, s: string, ghost start: nat, p: nat) returns (n': int)
    requires start <= p < |s| && '0' <= s[p] <= '9' && n == Wrap32(Value(s[start..p], 10))
    ensures n' == Wrap32(Value(s[start..p + 1], 10))
  {
    ValueStep(s, start, p, 10);
    WrapStep(Value(s[start..p], 10), DigitOf(s[p]));
    hide Value, Wrap32;
    n' := Wrap32(n * 10 + (s[p] as int - '0' as int));
  }

  // ---------------------------------------------------------------- round trips

  predicate StopsDigits(tail: string, b: nat) {
    tail == [] || DigitOf(tail[0]) >= b
  }

  /** A numeral embedded in a longer text is read back in full and no further. */
  lemma EmbeddedNumeral(pre: string, n: nat, b: nat, tail: string)
    requires 2 <= b <= 36 && StopsDigits(tail, b)
    ensures var s := pre + Digits(n, b) + tail;
      var stop := |pre| + |Digits(n, b)|;
      RunEnd(s, |pre|, b) == stop && Value(s[|pre|..stop], b) == n
  {
    var ds := Digits(n, b);
    var s := pre + ds + tail;
    assert s[|pre|..|pre| + |ds|] == ds;
    RunEndFrom(s, |pre|, |pre| + |ds|, b);
    ValueOfDigits(n, b);
  }

  lemma NumeralStart(n: nat, b: nat)
    requires 2 <= b <= 36
    ensures var c := Digits(n, b)[0]; !IsBlank(c) && c != '-' && c != '+'
  {
    assert DigitRun(Digits(n, b), 0, |Digits(n, b)|, b);
  }

  /** Sign and magnitude of a printed number, as the parsers find them. */
  lemma DecimalParts(n: int, tail: string)
    requires StopsDigits(tail, 10)
    ensures var s := Decimal(n) + tail;
      var start := if n < 0 then 1 else 0;
      var stop := |Decimal(n)|;
      && SkipBlanks(s, 0) == 0 && At(s, 0) != '+' && (At(s, 0) == '-' <==> n < 0)
      && start <= stop <= |s| && RunEnd(s, start, 10) == stop
      && Value(s[start..stop], 10) == if n < 0 then -n else n
  {
    var m: nat := if n < 0 then -n else n;
    var pre := if n < 0 then "-" else "";
    NumeralStart(m, 10);
    EmbeddedNumeral(pre, m, 10, tail);
    hide Digits, Value;
    var s := Decimal(n) + tail;
    assert s == pre + Digits(m, 10) + tail;
    assert s[0] == if n < 0 then '-' else Digits(m, 10)[0];
  }

  /** `strtol` in base 10 undoes `_xui_itoa`, and stops exactly at the end of the numeral. */
  lemma StrtolOfItoa(n: int, tail: string)
    requires -TWO_63 <= n < TWO_63 && StopsDigits(tail, 10)
    ensures LongOf(Decimal(n) + tail, 10) == LongResult(n, Some(|Decimal(n)|), false)
  {
    DecimalParts(n, tail);
    hide Digits, Decimal, Value, RunEnd;
  }

  lemma {:induction false} OnlyZeros(s: string, b: nat)
    requires forall k :: 0 <= k < |s| ==> s[k] == '0'
    ensures Value(s, b) == 0
  {
    if s != [] { OnlyZeros(s[..|s| - 1], b); }
  }

  lemma {:induction false} BelowZero(n: int, b: nat)
    requires 2 <= b <= 36 && n < 0
    ensures forall k :: 0 <= k < |Numeral(n, b)| ==> Numeral(n, b)[k] <= '0'
    decreases Abs(n)
  {
    if QuotC(n, b) != 0 { BelowZero(QuotC(n, b), b); }
  }

  /** A text without a digit above zero is read as zero. */
  lemma ReadsZero(s: string, b: nat)
    requires 2 <= b <= 36 && forall k :: 0 <= k < |s| ==> s[k] <= '0'
    ensures LongOf(s, b).value == 0
  {
    var t := SubjectOf(s, b);
    var stop := RunEnd(s, t.start, t.base);
    forall k | 0 <= k < stop - t.start ensures s[t.start..stop][k] == '0' {
      assert DigitOf(s[t.start + k]) < t.base;
    }
    OnlyZeros(s[t.start..stop], t.base);
    hide Value, RunEnd, SubjectOf;
  }

  lemma NoPrefix(s: string, b: nat)
    requires 2 <= b <= 36 && s != [] && DigitRun(s, 0, |s|, b) && !IsBlank(s[0]) && !IsSign(s[0])
    ensures SubjectOf(s, b) == Subject(false, 0, b)
  {
    SkipTo(s, 0, 0);
    hide SkipBlanks;
  }

  lemma NatRoundTrip(n: nat, b: nat)
    requires 2 <= b <= 36 && n < TWO_63
    ensures LongOf(Digits(n, b), b) == LongResult(n, Some(|Digits(n, b)|), false)
  {
    var s := Digits(n, b);
    NumeralStart(n, b);
    assert DigitRun(s, 0, |s|, b);
    hide Digits, Value, RunEnd, SubjectOf;
    EmbeddedNumeral("", n, b, "");
    assert "" + s + "" == s;
    NoPrefix(s, b);
  }

  /** In every base: `strtol` undoes `_xui_itoa` if and only if the number is not negative, or the base is
      10 and the number is not the least one. */
  lemma ItoaRoundTripIff(n: int, b: nat)
    requires -TWO_63 <= n < TWO_63 && 2 <= b <= 36
    ensures LongOf(ItoaText(n, b), b) == LongResult(n, Some(|ItoaText(n, b)|), false)
      <==> n >= 0 || (b == 10 && n > -TWO_63)
  {
    if n >= 0 {
      NumeralIsDigits(n, b);
      hide Numeral, Digits, LongOf;
      NatRoundTrip(n, b);
    } else if b == 10 && n > -TWO_63 {
      ItoaIsDecimal(n);
      StrtolOfItoa(n, "");
      hide *;
      assert Decimal(n) + "" == Decimal(n);
    } else {
      BelowZero(n, b);
      hide Numeral, LongOf;
      ReadsZero(ItoaText(n, b), b);
    }
  }

  /** `atoi` undoes `%d` on the whole range of `int`. */
  lemma AtoiOfItoa(n: int, tail: string)
    requires -TWO_31 <= n < TWO_31 && StopsDigits(tail, 10)
    ensures IntOf(Decimal(n) + tail) == n
  {
    DecimalParts(n, tail);
    hide Digits, Decimal, Value, RunEnd;
  }

  predicate AllBlank(s: string) {
    forall k :: 0 <= k < |s| ==> IsBlank(s[k])
  }

  /** `strtoull` undoes `_xui_utoa` behind any blanks, in every base whose digits it knows. */
  lemma StrtoullOfUtoa(pre: string, blanks: string, n: nat, b: nat, tail: string)
    requires 2 <= b <= 16 && AllBlank(blanks) && StopsDigits(tail, b)
    ensures var s := pre + blanks + Digits(n, b) + tail;
      var start := SkipBlanks(s, |pre|);
      start == |pre| + |blanks| && RunEnd(s, start, b) == start + |Digits(n, b)|
      && Value(s[start..RunEnd(s, start, b)], b) == n
  {
    EmbeddedNumeral(pre + blanks, n, b, tail);
    NumeralStart(n, b);
    hide Digits, Value, RunEnd, SkipBlanks;
    SkipsBlanks(pre, blanks, Digits(n, b), tail);
  }

  lemma SkipsBlanks(pre: string, blanks: string, word: string, tail: string)
    requires AllBlank(blanks) && word != [] && !IsBlank(word[0])
    ensures SkipBlanks(pre + blanks + word + tail, |pre|) == |pre + blanks|
  {
    var s := pre + blanks + word + tail;
    assert s[|pre + blanks|] == word[0];
    forall k | |pre| <= k < |pre + blanks| ensures IsBlank(s[k]) {
      assert s[k] == blanks[k - |pre|];
    }
    SkipTo(s, |pre|, |pre + blanks|);
  }

  lemma SkipTo(s: string, i: nat, j: nat)
    requires i <= j < |s| && !IsBlank(s[j]) && forall k :: i <= k < j ==> IsBlank(s[k])
    ensures SkipBlanks(s, i) == j
  {
  }

  // ---------------------------------------------------------------- what the parsers read, byte by byte

  /** The widths of the C types. */
  lemma Widths()
    ensures TWO_31 == Pow(2, 31) == 2147483648 && TWO_32 == Pow(2, 32) == 4294967296
    ensures TWO_63 == Pow(2, 63) == 9223372036854775808 && LONG_MAX == 9223372036854775807
    ensures TWO_64 == Pow(2, 64) == 18446744073709551616
  {
    assert Pow(2, 8) == 256;
    PowAdd(2, 8, 8);
    PowAdd(2, 16, 16);
    PowAdd(2, 32, 32);
    assert Pow(2, 32) == 2 * Pow(2, 31);
    assert Pow(2, 64) == 2 * Pow(2, 63);
    hide Pow;
  }

  /** Digits are printed in lower case and read in both. */
  lemma DigitsOfBytes(d: nat)
    requires d < 36
    ensures d < 10 ==> DigitChar(d) == ('0' as int + d) as char
    ensures d >= 10 ==> DigitChar(d) == ('a' as int + d - 10) as char
    ensures d < 10 ==> DigitOf(('0' as int + d) as char) == d
    ensures d >= 10 ==> DigitOf(('a' as int + d - 10) as char) == d == DigitOf(('A' as int + d - 10) as char)
  {
  }

  /** No other byte is a digit in any base. */
  lemma NoOtherDigits(c: char)
    ensures DigitOf(c) < 36 <==> '0' <= c <= '9' || 'a' <= c <= 'z' || 'A' <= c <= 'Z'
  {
  }

  /** The same digits, in either case. */
  predicate SameDigits(text: string, numeral: string) {
    |text| == |numeral| && forall k :: 0 <= k < |text| ==> DigitOf(text[k]) == DigitOf(numeral[k])
  }

  lemma {:induction false} SameValue(text: string, numeral: string, b: nat)
    requires SameDigits(text, numeral)
    ensures Value(text, b) == Value(numeral, b)
  {
    if text != [] {
      var n := |text| - 1;
      SameValue(text[..n], numeral[..n], b);
    }
  }

  lemma {:induction false} NoLeadingZero(n: nat, b: nat)
    requires 2 <= b <= 36 && n > 0
    ensures 0 < DigitOf(Digits(n, b)[0]) < b
    decreases n
  {
    DivShrinks(n, b);
    if n >= b { NoLeadingZero(n / b, b); }
  }

  /** A prefix that announces the base, for a base argument of `base`: none if the argument says it, and for
      argument 0 none for ten, a zero for eight, and `0x` or `0X` for sixteen, where an argument of 16
      takes it too. */
  predicate Announces(prefix: string, base: nat, b: nat) {
    || (prefix == "" && base == b)
    || (prefix == "" && base == 0 && b == 10)
    || (prefix == "0" && base == 0 && b == 8)
    || ((prefix == "0x" || prefix == "0X") && (base == 0 || base == 16) && b == 16)
  }

  /** `strtol` reads every number as it is written: blanks and tabs, a sign, a prefix, digits in either case;
      out of range it answers the nearest limit. */
  lemma StrtolReads(blanks: string, sign: string, prefix: string, text: string, n: nat, b: nat, base: nat, tail: string)
    requires forall k :: 0 <= k < |blanks| ==> blanks[k] == ' ' || blanks[k] == '\t'
    requires sign == "" || sign == "-" || sign == "+"
    requires 2 <= b <= 36 && 0 < n && Announces(prefix, base, b)
    requires SameDigits(text, Digits(n, b)) && StopsDigits(tail, b)
    ensures LongOf(blanks + sign + prefix + text + tail, base) ==
      if sign == "-" && n > 9223372036854775808 then LongResult(-9223372036854775808, None, true)
      else if sign != "-" && n > 9223372036854775807 then LongResult(9223372036854775807, None, true)
      else LongResult(if sign == "-" then 0 - n else n, Some(|blanks + sign + prefix + text|), false)
  {
    var head := blanks + sign + prefix;
    var s := head + text + tail;
    Widths();
    FirstDigit(text, n, b);
    hide Digits, Value;
    SubjectFound(blanks, sign, prefix, text, tail, base, b);
    TextRun(head, text, Digits(n, b), n, b, tail);
    hide SubjectOf, RunEnd;
  }

  lemma FirstDigit(text: string, n: nat, b: nat)
    requires 2 <= b <= 36 && 0 < n && SameDigits(text, Digits(n, b))
    ensures text != [] && 0 < DigitOf(text[0]) < b
  {
    NoLeadingZero(n, b);
    hide Digits;
  }

  lemma SubjectFound(blanks: string, sign: string, prefix: string, text: string, tail: string, base: nat, b: nat)
    requires forall k :: 0 <= k < |blanks| ==> blanks[k] == ' ' || blanks[k] == '\t'
    requires sign == "" || sign == "-" || sign == "+"
    requires Announces(prefix, base, b) && 2 <= b <= 36 && text != [] && 0 < DigitOf(text[0]) < b
    ensures SubjectOf(blanks + sign + prefix + text + tail, base) == Subject(sign == "-", |blanks + sign + prefix|, b)
  {
    var s := blanks + sign + prefix + text + tail;
    var i, p := |blanks|, |blanks + sign|;
    assert forall k :: 0 <= k < i ==> s[k] == blanks[k];
    assert sign != "" ==> s[i] == sign[0];
    assert forall k :: 0 <= k < |prefix| ==> s[p + k] == prefix[k];
    assert s[p + |prefix|] == text[0];
    SkipTo(s, 0, i);
    hide SkipBlanks;
  }

  lemma TextRun(head: string, text: string, numeral: string, n: nat, b: nat, tail: string)
    requires 2 <= b <= 36 && numeral == Digits(n, b) && SameDigits(text, numeral) && StopsDigits(tail, b)
    ensures var s := head + text + tail;
      RunEnd(s, |head|, b) == |head + text| && Value(s[|head|..|head + text|], b) == n
  {
    var s := head + text + tail;
    assert s[|head|..|head + text|] == text;
    assert DigitRun(numeral, 0, |numeral|, b);
    ValueOfDigits(n, b);
    hide Digits;
    SameValue(text, numeral, b);
    hide Value;
    forall k | |head| <= k < |head + text| ensures DigitOf(s[k]) < b {
      assert s[k] == text[k - |head|] && DigitOf(numeral[k - |head|]) < b;
    }
    RunEndFrom(s, |head|, |head + text|, b);
  }

  /** `atoi` skips blanks and tabs and reads a number with an optional minus; a plus it does not know. */
  lemma AtoiReads(blanks: string, n: int, tail: string)
    requires forall k :: 0 <= k < |blanks| ==> blanks[k] == ' ' || blanks[k] == '\t'
    requires -2147483648 <= n <= 2147483647 && StopsDigits(tail, 10)
    ensures IntOf(blanks + Decimal(n) + tail) == n
    ensures IntOf(blanks + "+" + tail) == 0
  {
    hide IntOf;
    AtoiOfItoa(n, tail);
    DecimalParts(n, tail);
    assert Decimal(n) != [] && !IsBlank((Decimal(n) + tail)[0]) by { DecimalStart(n); }
    hide Decimal;
    AtoiBehind(blanks, Decimal(n) + tail);
    assert blanks + Decimal(n) + tail == blanks + (Decimal(n) + tail);
    PlusIsNothing(blanks, tail);
  }

  lemma DecimalStart(n: int)
    ensures Decimal(n) != [] && !IsBlank(Decimal(n)[0])
  {
    NumeralStart(if n < 0 then -n else n, 10);
    hide Digits;
  }

  lemma PlusIsNothing(blanks: string, tail: string)
    requires forall k :: 0 <= k < |blanks| ==> blanks[k] == ' ' || blanks[k] == '\t'
    ensures IntOf(blanks + "+" + tail) == 0
  {
    var p := blanks + "+" + tail;
    assert p[|blanks|] == '+' && forall k :: 0 <= k < |blanks| ==> p[k] == blanks[k];
    SkipTo(p, 0, |blanks|);
    EmptyRun(p, |blanks|, 10);
    hide SkipBlanks, Value, RunEnd;
  }

  lemma AtoiBehind(blanks: string, s: string)
    requires forall k :: 0 <= k < |blanks| ==> blanks[k] == ' ' || blanks[k] == '\t'
    requires s != [] && !IsBlank(s[0])
    ensures IntOf(blanks + s) == IntOf(s)
  {
    var t := blanks + s;
    assert t[|blanks|] == s[0] && forall k :: 0 <= k < |blanks| ==> t[k] == blanks[k];
    SkipTo(t, 0, |blanks|);
    SkipTo(s, 0, 0);
    var m := if s[0] == '-' then 1 else 0;
    RunBehind(blanks, s, m);
    hide SkipBlanks, RunEnd, Value, IsBlank;
    IntBehind(s, 0, m);
    IntBehind(t, |blanks|, m);
  }

  /** `atoi` behind its blanks. */
  lemma IntBehind(s: string, i: nat, m: nat)
    requires i < |s| && SkipBlanks(s, 0) == i && m == (if s[i] == '-' then 1 else 0)
    ensures IntOf(s) == Wrap32(if m == 1 then 0 - Value(s[i + m..RunEnd(s, i + m, 10)], 10)
                               else Value(s[i + m..RunEnd(s, i + m, 10)], 10))
  {
    hide SkipBlanks, RunEnd, Value, Wrap32;
  }

  lemma RunBehind(pre: string, s: string, m: nat)
    requires m <= |s|
    ensures RunEnd(pre + s, |pre| + m, 10) == |pre| + RunEnd(s, m, 10)
    ensures (pre + s)[|pre| + m..RunEnd(pre + s, |pre| + m, 10)] == s[m..RunEnd(s, m, 10)]
  {
    var t, e := pre + s, RunEnd(s, m, 10);
    forall k | |pre| + m <= k < |pre| + e ensures DigitOf(t[k]) < 10 {
      assert t[k] == s[k - |pre|];
    }
    RunEndFrom(t, |pre| + m, |pre| + e, 10);
  }

  /** `strtoull` knows letters up to `f` in both cases and no others, in any base. */
  lemma UllLetters(b: nat, c: char)
    requires 2 <= b <= 36
    ensures DigitOf(c) < UllBase(b) <==> UllDigit(c, b)
    ensures UllDigit(c, 36) <==> '0' <= c <= '9' || 'a' <= c <= 'f' || 'A' <= c <= 'F'
  {
  }

  /** Below zero in a base other than ten the digits come out as far below the byte of zero as they should be
      above it. */
  lemma {:induction false} MirroredDigits(n: int, b: nat, k: nat)
    requires 2 <= b <= 36 && n < 0 && k < |Numeral(n, b)|
    ensures k < |Digits(-n, b)| && Numeral(n, b)[k] as int == '0' as int - DigitOf(Digits(-n, b)[k])
    decreases Abs(n)
  {
    NumeralLength(n, b);
    DivShrinks(-n, b);
    if QuotC(n, b) != 0 && k < |Numeral(n, b)| - 1 {
      MirroredDigits(QuotC(n, b), b, k);
    }
  }
}
