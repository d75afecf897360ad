/** The bounded formatter `printf_vsn` embedded in scripts/framework/xui.sh: an unbounded rendering
    as the specification, and the in-place program that refines it. */
module Format {
  import opened Text
  import opened Numbers

  /** One variadic argument, tagged with the C type it was passed as. */
  datatype Arg =
    | StrArg(s: string)
    | NullArg
    | IntArg(n: int)
    | UintArg(u: nat)
    | SizeArg(z: nat)
    | DoubleArg(whole: int, tenth: nat) // a double: its part before the point and the digit behind it

  /** The `xui_symbols` table: names with the text they stand for. */
  type Symbols = seq<(string, string)>

  const ESC: char := 27 as char
  const MAX_SYMBOL: nat := 64

  // ---------------------------------------------------------------- the ideal rendering

  function LookUp(symbols: Symbols, name: string): Option<string> {
    if symbols == [] then None
    else if symbols[0].0 == name then Some(symbols[0].1)
    else LookUp(symbols[1..], name)
  }

  /** Not a UTF-8 continuation byte, whose top two bits are 10. */
  predicate IsLead(c: char) {
    c as int / 64 != 2
  }

  /** Columns a text takes on a terminal, and whether it ends inside an escape sequence. */
  function Visible(s: string): (r: (nat, bool)) {
    if s == [] then (0, false)
    else
      var (n, escape) := Visible(s[..|s| - 1]);
      var c := s[|s| - 1];
      if c == ESC then (n, true)
      else if escape then (n, c != 'm')
      else (if IsLead(c) then n + 1 else n, false)
  }

  function Spaces(n: nat): (s: string)
    ensures |s| == n && forall k :: 0 <= k < n ==> s[k] == ' '
  {
    seq(n, _ => ' ')
  }

  /** `text`, taking `columns` columns, padded on one side to `width` columns. */
  function Padded(text: string, columns: nat, left: bool, width: int): string {
    var pad := Spaces(if width > columns then width - columns else 0);
    if left then text + pad else pad + text
  }

  /** A width written in digits after a starting value. */
  function Widen(width: int, digits: string): int {
    if digits == [] then width
    else Widen(width, digits[..|digits| - 1]) * 10 + DigitOf(digits[|digits| - 1])
  }

  /** What the head of a format produces, how much of the format it takes and how many arguments;
      `Undefined` where the C program has no defined behaviour. */
  datatype Piece = Piece(text: string, len: nat, used: nat) | Undefined

  datatype Layout = Layout(left: bool, width: int, pos: nat, used: nat)

  function LayoutAt(fmt: string, args: seq<Arg>): (r: Option<Layout>)
    requires fmt != []
    ensures r.Some? ==> 1 <= r.value.pos <= |fmt| && r.value.used <= |args|
  {
    var left := At(fmt, 1) == '-';
    var p := if left then 2 else 1;
    var star := At(fmt, p) == '*';
    if star && (args == [] || !args[0].IntArg?) then None
    else
      var q := if star then p + 1 else p;
      var e := RunEnd(fmt, q, 10);
      Some(Layout(left, Widen(if star then args[0].n else 0, fmt[q..e]), e, if star then 1 else 0))
  }

  /** `.1f` at a position of the format. */
  predicate OneDecimal(fmt: string, pos: nat) {
    At(fmt, pos) == '.' && At(fmt, pos + 1) == '1' && At(fmt, pos + 2) == 'f'
  }

  /** A number with one digit behind the point. Rounding may carry the digit to ten, which prints a colon. */
  function Tenths(whole: int, tenth: nat): string
    requires tenth <= 10
  {
    ItoaText(whole, 10) + ("." + [(tenth + '0' as int) as char])
  }

  function Conversion(fmt: string, y: Layout, args: seq<Arg>): Piece
    requires y.pos <= |fmt| && y.used <= |args|
  {
    var c := At(fmt, y.pos);
    var arg := if y.used < |args| then args[y.used] else SizeArg(TWO_64);
    if !(-TWO_31 <= y.width < TWO_31) || y.pos == |fmt| then Undefined
    else if c == 's' then
      if arg.StrArg? then Piece(Padded(arg.s, Visible(arg.s).0, y.left, y.width), y.pos + 1, y.used + 1)
      else if arg.NullArg? then Piece(Padded("(null)", Visible("(null)").0, y.left, y.width), y.pos + 1, y.used + 1)
      else Undefined
    else if c == 'd' then
      if arg.IntArg? && -TWO_31 <= arg.n < TWO_31 then
        Piece(Padded(Decimal(arg.n), |Decimal(arg.n)|, y.left, y.width), y.pos + 1, y.used + 1)
      else Undefined
    else if c == 'u' || c == 'x' then
      var base := if c == 'u' then 10 else 16;
      if arg.UintArg? && arg.u < TWO_32 then
        Piece(Padded(Digits(arg.u, base), |Digits(arg.u, base)|, y.left, y.width), y.pos + 1, y.used + 1)
      else Undefined
    else if c == 'z' && At(fmt, y.pos + 1) == 'u' then
      if arg.SizeArg? && arg.z < TWO_64 then
        Piece(Padded(Digits(arg.z, 10), |Digits(arg.z, 10)|, y.left, y.width), y.pos + 2, y.used + 1)
      else Undefined
    else if c == '.' then
      if y.pos + 1 == |fmt| then Undefined
      else if !OneDecimal(fmt, y.pos) then Piece("", y.pos + 2, y.used)
      else if arg.DoubleArg? && -TWO_63 <= arg.whole < TWO_63 && arg.tenth <= 10 then
        Piece(Tenths(arg.whole, arg.tenth), y.pos + 3, y.used + 1)
      else Undefined
    else Piece([c], y.pos + 1, y.used)
  }

  /** The end of a `${NAME}` at the head of `fmt`, with the text of a known symbol. */
  function SymbolAt(symbols: Symbols, fmt: string): (r: Option<(string, nat)>)
    ensures r.Some? ==> 3 <= r.value.1 <= |fmt|
  {
    if At(fmt, 0) == '$' && At(fmt, 1) == '{' then
      var e := IndexFrom(fmt, '}', 2);
      if e < |fmt| && e - 2 < MAX_SYMBOL && LookUp(symbols, fmt[2..e]).Some? then
        Some((LookUp(symbols, fmt[2..e]).value, e + 1))
      else None
    else None
  }

  function FirstPiece(symbols: Symbols, fmt: string, args: seq<Arg>): (r: Piece)
    requires fmt != []
    ensures r.Piece? ==> 1 <= r.len <= |fmt| && r.used <= |args|
  {
    var sym := SymbolAt(symbols, fmt);
    if sym.Some? then Piece(sym.value.0, sym.value.1, 0)
    else if fmt[0] != '%' then Piece([fmt[0]], 1, 0)
    else
      var y := LayoutAt(fmt, args);
      if y.None? then Undefined else Conversion(fmt, y.value, args)
  }

  /** Every directive is complete and finds an argument of its type. */
  predicate WellFormed(symbols: Symbols, fmt: string, args: seq<Arg>)
    decreases |fmt|
  {
    fmt == [] ||
    var r := FirstPiece(symbols, fmt, args);
    r.Piece? && WellFormed(symbols, fmt[r.len..], args[r.used..])
  }

  /** The rendering in a buffer without end. */
  function Render(symbols: Symbols, fmt: string, args: seq<Arg>): string
    requires WellFormed(symbols, fmt, args)
    decreases |fmt|
  {
    if fmt == [] then ""
    else
      var r := FirstPiece(symbols, fmt, args);
      r.text + Render(symbols, fmt[r.len..], args[r.used..])
  }

  // ---------------------------------------------------------------- the program

  /** Copies `text` behind `buf[..i]`, stopping when `cap` bytes are in use. */
  method Put(buf: array<char>, i: nat, cap: nat, text: string) returns (j: nat)
    requires i <= cap < buf.Length
    modifies buf
    ensures i <= j <= cap && buf[..j] == Take(old(buf[..i]) + text, cap)
    ensures forall k :: cap <= k < buf.Length ==> buf[k] == old(buf[k])
  {
    j := i;
    var k := 0;
    while k < |text| && j < cap
      invariant 0 <= k <= |text| && i <= j <= cap && j == i + k
      invariant buf[..j] == old(buf[..i]) + text[..k]
      invariant forall m :: cap <= m < buf.Length ==> buf[m] == old(buf[m])
    {
      buf[j] := text[k];
      j, k := j + 1, k + 1;
      assert buf[..j] == old(buf[..i]) + text[..k];
    }
  }

  /** The padding loop: blanks until the width is used up or the buffer is full. */
  method PadTo(buf: array<char>, i: nat, cap: nat, width: int, columns: nat) returns (j: nat)
    requires i <= cap < buf.Length
    modifies buf
    ensures i <= j <= cap
    ensures buf[..j] == Take(old(buf[..i]) + Spaces(if width > columns then width - columns else 0), cap)
    ensures forall k :: cap <= k < buf.Length ==> buf[k] == old(buf[k])
  {
    j := i;
    var w := width;
    while w > columns && j < cap
      invariant i <= j <= cap && w <= width && j - i == width - w
      invariant w < width ==> w >= columns
      invariant buf[..j] == old(buf[..i]) + Spaces(j - i)
      invariant forall m :: cap <= m < buf.Length ==> buf[m] == old(buf[m])
    {
      buf[j] := ' ';
      j, w := j + 1, w - 1;
      assert buf[..j] == old(buf[..i]) + Spaces(j - i);
    }
  }

  /** One padded field. */
  method PutField(buf: array<char>, i: nat, cap: nat, text: string, columns: nat, left: bool, width: int)
    returns (j: nat)
    requires i <= cap < buf.Length
    modifies buf
    ensures i <= j <= cap && buf[..j] == Take(old(buf[..i]) + Padded(text, columns, left, width), cap)
    ensures forall k :: cap <= k < buf.Length ==> buf[k] == old(buf[k])
  {
    ghost var b := buf[..i];
    ghost var pad := Spaces(if width > columns then width - columns else 0);
    hide Take, Spaces;
    if !left {
      TwoPieces(b, pad, text, cap);
      j := PadTo(buf, i, cap, width, columns);
      j := Put(buf, j, cap, text);
    } else {
      TwoPieces(b, text, pad, cap);
      j := Put(buf, i, cap, text);
      j := PadTo(buf, j, cap, width, columns);
    }
  }

  /** The measuring loop of `%s`: visible columns only. */
  method Measure(s: string) returns (columns: nat)
    ensures columns == Visible(s).0
  {
    columns := 0;
    var escape := false;
    var k := 0;
    while k < |s|
      invariant 0 <= k <= |s| && Visible(s[..k]) == (columns, escape)
    {
      if s[k] == ESC { escape := true; }
      else if escape { if s[k] == 'm' { escape := false; } }
      else if IsLead(s[k]) { columns := columns + 1; }
      assert s[..k + 1][..k] == s[..k];
      k := k + 1;
    }
    assert s[..|s|] == s;
  }

  /** The search through the symbol table. */
  method FindSymbol(symbols: Symbols, name: string) returns (r: Option<string>)
    ensures r == LookUp(symbols, name)
  {
    var k := 0;
    while k < |symbols|
      invariant 0 <= k <= |symbols| && LookUp(symbols, name) == LookUp(symbols[k..], name)
    {
      if symbols[k].0 == name { return Some(symbols[k].1); }
      assert symbols[k..][1..] == symbols[k + 1..];
      k := k + 1;
    }
    return None;
  }

  /** Recognises `${NAME}` at the head of `fmt`; `None` means the scan is rolled back. */
  method ScanSymbol(symbols: Symbols, fmt: string) returns (r: Option<(string, nat)>)
    ensures r == SymbolAt(symbols, fmt)
  {
    r := None;
    if At(fmt, 0) == '$' && At(fmt, 1) == '{' {
      var p := 2;
      while p < |fmt| && fmt[p] != '}'
        invariant 2 <= p <= |fmt| && IndexFrom(fmt, '}', 2) == IndexFrom(fmt, '}', p)
      {
        p := p + 1;
      }
      if p < |fmt| && p - 2 < MAX_SYMBOL {
        var val := FindSymbol(symbols, fmt[2..p]);
        if val.Some? { r := Some((val.value, p + 1)); }
      }
    }
  }

  /** Flag and width of a directive. */
  method ScanLayout(fmt: string, args: seq<Arg>) returns (y: Layout)
    requires fmt != [] && LayoutAt(fmt, args).Some?
    ensures LayoutAt(fmt, args) == Some(y)
  {
    var p, left, width, used := 1, false, 0, 0;
    if At(fmt, p) == '-' { left := true; p := p + 1; }
    if At(fmt, p) == '*' { width := args[0].n; used := 1; p := p + 1; }
    var w, e := ScanWidth(fmt, p, width);
    y := Layout(left, w, e, used);
  }

  method ScanWidth(fmt: string, q: nat, start: int) returns (width: int, p: nat)
    requires q <= |fmt|
    ensures p == RunEnd(fmt, q, 10) && width == Widen(start, fmt[q..p])
  {
    p, width := q, start;
    while p < |fmt| && '0' <= fmt[p] <= '9'
      invariant q <= p <= |fmt| && DigitRun(fmt, q, p, 10) && width == Widen(start, fmt[q..p])
    {
      assert fmt[q..p + 1][..p - q] == fmt[q..p];
      width := width * 10 + DigitOf(fmt[p]);
      p := p + 1;
    }
    RunEndFrom(fmt, q, p, 10);
  }

  lemma DecimalFits(n: int)
    requires -TWO_63 < n < TWO_63
    ensures |Decimal(n)| <= 21
  {
    DigitsFit(if n < 0 then -n else n, 10);
  }

  lemma ItoaFits(n: int)
    requires -TWO_63 <= n < TWO_63
    ensures |ItoaText(n, 10)| <= 21
  {
    NumeralLength(if n < 0 then Neg64(n) else n, 10);
    DigitsFit(Abs(n), 10);
    hide Numeral, Digits;
  }

  /** The fixed-point branch: the whole part, a point, a digit, each while there is room. */
  method PutTenths(buf: array<char>, i: nat, cap: nat, whole: int, tenth: nat) returns (j: nat)
    requires i <= cap < buf.Length && -TWO_63 <= whole < TWO_63 && tenth <= 10
    modifies buf
    ensures i <= j <= cap && buf[..j] == Take(old(buf[..i]) + Tenths(whole, tenth), cap)
    ensures forall k :: cap <= k < buf.Length ==> buf[k] == old(buf[k])
  {
    hide Take, ItoaText;
    ghost var b, text, digit := buf[..i], ItoaText(whole, 10), [(tenth + '0' as int) as char];
    ItoaFits(whole);
    TwoPieces(b, text, ".", cap);
    TwoPieces(b, text + ".", digit, cap);
    AppendAssoc(text, ".", digit);
    var t := new char[32];
    var tlen := Itoa(whole, t, 10);
    j := Put(buf, i, cap, t[..tlen]);
    j := Put(buf, j, cap, ".");
    j := Put(buf, j, cap, [(tenth + '0' as int) as char]);
  }

  /** The conversion of one directive into the buffer. */
  method PutConversion(buf: array<char>, i: nat, cap: nat, fmt: string, y: Layout, args: seq<Arg>)
    returns (j: nat, len: nat, used: nat)
    requires i < cap < buf.Length && y.pos <= |fmt| && y.used <= |args|
    requires Conversion(fmt, y, args).Piece?
    modifies buf
    ensures var r := Conversion(fmt, y, args);
      len == r.len && used == r.used && i <= j <= cap && buf[..j] == Take(old(buf[..i]) + r.text, cap)
    ensures forall k :: cap <= k < buf.Length ==> buf[k] == old(buf[k])
  {
    hide Padded, Visible;
    var c := fmt[y.pos];
    used := y.used;
    len := y.pos + 1;
    if c == 's' {
      var s := if args[used].NullArg? then "(null)" else args[used].s;
      var columns := Measure(s);
      used := used + 1;
      j := PutField(buf, i, cap, s, columns, y.left, y.width);
    } else if c == 'd' {
      var t := new char[32];
      DecimalFits(args[used].n);
      ItoaIsDecimal(args[used].n);
      var tlen := Itoa(args[used].n, t, 10);
      used := used + 1;
      j := PutField(buf, i, cap, t[..tlen], tlen, y.left, y.width);
    } else if c == 'u' || c == 'x' || (c == 'z' && At(fmt, y.pos + 1) == 'u') {
      var n := if c == 'z' then args[used].z else args[used].u;
      var base := if c == 'x' then 16 else 10;
      if c == 'z' { len := len + 1; }
      var t := new char[32];
      DigitsFit(n, base);
      var tlen := Utoa(n, t, base);
      used := used + 1;
      j := PutField(buf, i, cap, t[..tlen], tlen, y.left, y.width);
    } else if OneDecimal(fmt, y.pos) {
      j := PutTenths(buf, i, cap, args[used].whole, args[used].tenth);
      len, used := len + 2, used + 1;
    } else if c == '.' {
      len := len + 1;
      j := i;
      assert Take(buf[..i] + "", cap) == buf[..i];
    } else {
      buf[i] := c;
      j := i + 1;
      assert buf[..j] == old(buf[..i]) + [c];
    }
  }

  /** Bounded output composes: what has been written, followed by the rendering of the rest, agrees
      with the whole rendering on the bytes that fit. */
  lemma Progress(written: string, text: string, rest: string, whole: string, cap: nat)
    requires Take(written + (text + rest), cap) == Take(whole, cap)
    ensures Take(Take(written + text, cap) + rest, cap) == Take(whole, cap)
  {
    TwoPieces(written, text, rest, cap);
  }

  /** One round of the main loop; `whole` is the rendering of the format it started on. */
  method Step(symbols: Symbols, buf: array<char>, i: nat, cap: nat, fmt: string, args: seq<Arg>,
              ghost whole: string)
    returns (j: nat, len: nat, used: nat)
    requires fmt != [] && i < cap < buf.Length && WellFormed(symbols, fmt, args)
    requires Take(buf[..i] + Render(symbols, fmt, args), cap) == Take(whole, cap)
    modifies buf
    ensures 1 <= len <= |fmt| && used <= |args| && i <= j <= cap
    ensures WellFormed(symbols, fmt[len..], args[used..])
    ensures Take(buf[..j] + Render(symbols, fmt[len..], args[used..]), cap) == Take(whole, cap)
    ensures forall k :: cap <= k < buf.Length ==> buf[k] == old(buf[k])
  {
    ghost var r := FirstPiece(symbols, fmt, args);
    ghost var written := buf[..i];
    var sym := ScanSymbol(symbols, fmt);
    if sym.Some? {
      j := Put(buf, i, cap, sym.value.0);
      len, used := sym.value.1, 0;
    } else if fmt[0] != '%' {
      buf[i] := fmt[0];
      j, len, used := i + 1, 1, 0;
      assert buf[..j] == written + [fmt[0]];
    } else {
      var y := ScanLayout(fmt, args);
      j, len, used := PutConversion(buf, i, cap, fmt, y, args);
    }
    Progress(written, r.text, Render(symbols, fmt[len..], args[used..]), whole, cap);
  }

  /** `printf_vsn` writes exactly the first `size - 1` bytes of the ideal rendering and a NUL, and
      returns how many bytes that is. */
  method PrintfVsn(symbols: Symbols, buf: array<char>, size: nat, fmt: string, args: seq<Arg>)
    returns (n: nat)
    requires 1 <= size <= buf.Length && WellFormed(symbols, fmt, args)
    modifies buf
    ensures n < size && buf[n] == '\0'
    ensures buf[..n] == Take(Render(symbols, fmt, args), size - 1)
    ensures forall k :: size <= k < buf.Length ==> buf[k] == old(buf[k])
  {
    ghost var whole := Render(symbols, fmt, args);
    var cap := size - 1;
    var i, p, a := 0, fmt, args; // `p` and `a`: what the two pointers still have ahead of them
    assert buf[..0] + whole == whole;
    while p != [] && i < cap
      invariant 0 <= i <= cap && WellFormed(symbols, p, a)
      invariant Take(buf[..i] + Render(symbols, p, a), cap) == Take(whole, cap)
      invariant forall k :: size <= k < buf.Length ==> buf[k] == old(buf[k])
      decreases |p|
    {
      var len, used;
      i, len, used := Step(symbols, buf, i, cap, p, a, whole);
      p, a := p[len..], a[used..];
    }
    Finished(buf[..i], Render(symbols, p, a), cap);
    n := i;
    buf[n] := '\0';
  }

  lemma Finished(written: string, rest: string, cap: nat)
    requires |written| == cap || (rest == [] && |written| <= cap)
    ensures Take(written + rest, cap) == written
  {
    if rest == [] { assert written + rest == written; }
  }

  // ---------------------------------------------------------------- what the rendering means

  lemma RenderStep(symbols: Symbols, fmt: string, args: seq<Arg>, text: string, rest: string, args': seq<Arg>)
    requires fmt != [] && WellFormed(symbols, rest, args')
    requires var r := FirstPiece(symbols, fmt, args);
      r.Piece? && r.text == text && fmt[r.len..] == rest && args[r.used..] == args'
    ensures WellFormed(symbols, fmt, args)
    ensures Render(symbols, fmt, args) == text + Render(symbols, rest, args')
  {
  }

  /** A text without directives or symbols stands for itself. */
  lemma {:induction false} RenderLiteral(symbols: Symbols, text: string, fmt: string, args: seq<Arg>)
    requires '%' !in text && '$' !in text && WellFormed(symbols, fmt, args)
    ensures WellFormed(symbols, text + fmt, args)
    ensures Render(symbols, text + fmt, args) == text + Render(symbols, fmt, args)
  {
    hide FirstPiece;
    if text == [] {
      assert text + fmt == fmt;
      assert text + Render(symbols, fmt, args) == Render(symbols, fmt, args);
    } else {
      var all, tail := text + fmt, text[1..] + fmt;
      RenderLiteral(symbols, text[1..], fmt, args);
      assert all[1..] == tail;
      RenderChar(symbols, all, args);
      assert text[0] == all[0];
      assert [text[0]] + (text[1..] + Render(symbols, fmt, args)) == text + Render(symbols, fmt, args);
    }
  }

  lemma RenderChar(symbols: Symbols, fmt: string, args: seq<Arg>)
    requires fmt != [] && fmt[0] != '%' && SymbolAt(symbols, fmt).None? && WellFormed(symbols, fmt[1..], args)
    ensures WellFormed(symbols, fmt, args)
    ensures Render(symbols, fmt, args) == [fmt[0]] + Render(symbols, fmt[1..], args)
  {
    RenderStep(symbols, fmt, args, [fmt[0]], fmt[1..], args);
  }

  /** `%s` without a width copies its argument, whatever the argument holds. */
  lemma RenderString(symbols: Symbols, s: string, fmt: string, args: seq<Arg>)
    requires WellFormed(symbols, fmt, args)
    ensures WellFormed(symbols, "%s" + fmt, [StrArg(s)] + args)
    ensures Render(symbols, "%s" + fmt, [StrArg(s)] + args) == s + Render(symbols, fmt, args)
  {
    var f, a := "%s" + fmt, [StrArg(s)] + args;
    assert LayoutAt(f, a) == Some(Layout(false, 0, 1, 0)) by { assert f[1..1] == []; }
    assert FirstPiece(symbols, f, a) == Piece(s, 2, 1) by { assert Spaces(0) + s == s; }
    assert f[2..] == fmt && a[1..] == args;
  }

  /** `%d` without a width prints the decimal numeral. */
  lemma RenderInt(symbols: Symbols, n: int, fmt: string, args: seq<Arg>)
    requires WellFormed(symbols, fmt, args) && -TWO_31 <= n < TWO_31
    ensures WellFormed(symbols, "%d" + fmt, [IntArg(n)] + args)
    ensures Render(symbols, "%d" + fmt, [IntArg(n)] + args) == Decimal(n) + Render(symbols, fmt, args)
  {
    var f, a := "%d" + fmt, [IntArg(n)] + args;
    assert LayoutAt(f, a) == Some(Layout(false, 0, 1, 0)) by { assert f[1..1] == []; }
    assert FirstPiece(symbols, f, a) == Piece(Decimal(n), 2, 1) by { assert Spaces(0) + Decimal(n) == Decimal(n); }
    assert f[2..] == fmt && a[1..] == args;
  }

  /** `%u` and `%x` print the numeral in base 10 and 16. */
  lemma RenderUnsigned(symbols: Symbols, hex: bool, u: nat, fmt: string, args: seq<Arg>)
    requires WellFormed(symbols, fmt, args) && u < TWO_32
    ensures var f := (if hex then "%x" else "%u") + fmt;
      && WellFormed(symbols, f, [UintArg(u)] + args)
      && Render(symbols, f, [UintArg(u)] + args) == Digits(u, if hex then 16 else 10) + Render(symbols, fmt, args)
  {
    var f, a, d := (if hex then "%x" else "%u") + fmt, [UintArg(u)] + args, Digits(u, if hex then 16 else 10);
    assert LayoutAt(f, a) == Some(Layout(false, 0, 1, 0)) by { assert f[1..1] == []; hide Digits; }
    assert Spaces(0) + d == d;
    hide Digits, LayoutAt, Visible;
    assert FirstPiece(symbols, f, a) == Piece(d, 2, 1);
    hide FirstPiece;
    assert f[2..] == fmt && a[1..] == args;
    RenderStep(symbols, f, a, d, fmt, args);
  }

  /** A width in digits means the number it denotes. */
  lemma {:induction false} WidenIsValue(digits: string)
    ensures Widen(0, digits) == Value(digits, 10)
  {
    if digits != [] {
      WidenIsValue(digits[..|digits| - 1]);
    }
  }

  /** Flag and width of `%N` and `%-N`, for every N of a canonical numeral. */
  lemma LayoutOfWidth(left: bool, width: nat, rest: string, args: seq<Arg>)
    requires rest != [] && (rest[0] < '0' || rest[0] > '9')
    ensures var pre := if left then "%-" else "%";
      LayoutAt(pre + Digits(width, 10) + rest, args)
      == Some(Layout(left, width, |pre + Digits(width, 10)|, 0))
  {
    var pre, ds := if left then "%-" else "%", Digits(width, 10);
    assert DigitOf(rest[0]) >= 10;
    NumeralStart(width, 10);
    NotAStar(width);
    ValueOfDigits(width, 10);
    WidenIsValue(ds);
    hide Digits, Value, Widen, RunEnd, DigitOf;
    EmbeddedNumeral(pre, width, 10, rest);
    LayoutOfRun(left, pre, ds, rest, args);
  }

  lemma LayoutOfRun(left: bool, pre: string, ds: string, rest: string, args: seq<Arg>)
    requires pre == (if left then "%-" else "%") && ds != [] && ds[0] != '-' && ds[0] != '*'
    requires RunEnd(pre + ds + rest, |pre|, 10) == |pre + ds|
    ensures LayoutAt(pre + ds + rest, args) == Some(Layout(left, Widen(0, ds), |pre + ds|, 0))
  {
    hide Widen, RunEnd;
    var fmt := pre + ds + rest;
    assert fmt[|pre|] == ds[0];
    assert fmt[|pre|..|pre + ds|] == ds;
  }

  lemma NotAStar(n: nat)
    ensures Digits(n, 10)[0] != '*'
  {
    assert DigitRun(Digits(n, 10), 0, |Digits(n, 10)|, 10);
  }

  /** A width taken from an argument. */
  lemma LayoutOfStar(left: bool, width: int, rest: string, args: seq<Arg>)
    requires rest != [] && (rest[0] < '0' || rest[0] > '9')
    ensures var pre := if left then "%-*" else "%*";
      LayoutAt(pre + rest, [IntArg(width)] + args) == Some(Layout(left, width, |pre|, 1))
  {
    var pre := if left then "%-*" else "%*";
    var fmt := pre + rest;
    assert fmt[|pre|] == rest[0] && DigitOf(rest[0]) >= 10;
    assert RunEnd(fmt, |pre|, 10) == |pre|;
    assert fmt[|pre|..|pre|] == [];
  }

  /** What each conversion shows of its argument, and how many columns that takes. */
  function Shown(conv: string, arg: Arg): Option<(string, nat)> {
    if conv == "s" && arg.StrArg? then Some((arg.s, Visible(arg.s).0))
    else if conv == "s" && arg.NullArg? then Some(("(null)", 6))
    else if conv == "d" && arg.IntArg? && -TWO_31 <= arg.n < TWO_31 then Some((Decimal(arg.n), |Decimal(arg.n)|))
    else if conv == "u" && arg.UintArg? && arg.u < TWO_32 then Some((Digits(arg.u, 10), |Digits(arg.u, 10)|))
    else if conv == "x" && arg.UintArg? && arg.u < TWO_32 then Some((Digits(arg.u, 16), |Digits(arg.u, 16)|))
    else if conv == "zu" && arg.SizeArg? && arg.z < TWO_64 then Some((Digits(arg.z, 10), |Digits(arg.z, 10)|))
    else None
  }

  lemma ShownIsConverted(head: string, conv: string, tail: string, y: Layout, args: seq<Arg>)
    requires y.pos == |head| && y.used < |args| && Shown(conv, args[y.used]).Some? && -TWO_31 <= y.width < TWO_31
    ensures var t := Shown(conv, args[y.used]).value;
      Conversion(head + conv + tail, y, args) == Piece(Padded(t.0, t.1, y.left, y.width), y.pos + |conv|, y.used + 1)
  {
    NullColumns();
    hide Padded, Visible, Decimal, Digits;
    var fmt := head + conv + tail;
    assert fmt[y.pos] == conv[0];
    if conv == "zu" { assert fmt[y.pos + 1] == 'u'; }
  }

  lemma NullColumns()
    ensures Visible("(null)").0 == 6
  {
    var s := "(null)";
    assert s[..5] == "(null" && s[..4] == "(nul" && s[..3] == "(nu" && s[..2] == "(n" && s[..1] == "(" && s[..0] == "";
    assert "(null"[..4] == "(nul" && "(nul"[..3] == "(nu" && "(nu"[..2] == "(n" && "(n"[..1] == "(" && "("[..0] == "";
  }

  lemma ShownStart(conv: string, arg: Arg)
    requires Shown(conv, arg).Some?
    ensures conv != [] && (conv[0] < '0' || conv[0] > '9')
  {
    hide Padded, Visible, Decimal, Digits;
  }

  /** `%Ns`, `%-Nd`, `%Nu`, `%Nx`, `%Nzu` and so on, for every N: the argument, padded to N columns. */
  lemma RenderField(symbols: Symbols, conv: string, arg: Arg, left: bool, width: nat, fmt: string, args: seq<Arg>)
    requires Shown(conv, arg).Some? && width < TWO_31 && WellFormed(symbols, fmt, args)
    ensures var f := (if left then "%-" else "%") + Digits(width, 10) + conv + fmt;
      var t := Shown(conv, arg).value;
      && WellFormed(symbols, f, [arg] + args)
      && Render(symbols, f, [arg] + args) == Padded(t.0, t.1, left, width) + Render(symbols, fmt, args)
  {
    hide *;
    var pre, ds := if left then "%-" else "%", Digits(width, 10);
    var head, f := pre + ds, pre + ds + conv + fmt;
    ShownStart(conv, arg);
    LayoutOfWidth(left, width, conv + fmt, [arg] + args);
    assert pre + ds + (conv + fmt) == f;
    ShownIsConverted(head, conv, fmt, Layout(left, width, |head|, 0), [arg] + args);
    assert f[0] == '%' && f[|head + conv|..] == fmt && ([arg] + args)[1..] == args;
    RenderDirective(symbols, f, [arg] + args, Layout(left, width, |head|, 0), fmt, args);
  }

  /** `%*s` and the like take the width from an argument. A negative one pads nothing. */
  lemma RenderStar(symbols: Symbols, conv: string, arg: Arg, left: bool, width: int, fmt: string, args: seq<Arg>)
    requires Shown(conv, arg).Some? && -TWO_31 <= width < TWO_31 && WellFormed(symbols, fmt, args)
    ensures var f := (if left then "%-*" else "%*") + conv + fmt;
      var t := Shown(conv, arg).value;
      && WellFormed(symbols, f, [IntArg(width), arg] + args)
      && Render(symbols, f, [IntArg(width), arg] + args) == Padded(t.0, t.1, left, width) + Render(symbols, fmt, args)
  {
    hide *;
    var pre, a := if left then "%-*" else "%*", [IntArg(width), arg] + args;
    var f := pre + conv + fmt;
    ShownStart(conv, arg);
    LayoutOfStar(left, width, conv + fmt, [arg] + args);
    assert pre + (conv + fmt) == f && [IntArg(width)] + ([arg] + args) == a;
    ShownIsConverted(pre, conv, fmt, Layout(left, width, |pre|, 1), a);
    assert f[0] == '%' && f[|pre + conv|..] == fmt && a[2..] == args;
    RenderDirective(symbols, f, a, Layout(left, width, |pre|, 1), fmt, args);
  }

  lemma RenderDirective(symbols: Symbols, f: string, a: seq<Arg>, y: Layout, fmt: string, args: seq<Arg>)
    requires f != [] && f[0] == '%' && LayoutAt(f, a) == Some(y) && WellFormed(symbols, fmt, args)
    requires y.pos <= |f| && y.used <= |a|
    requires var r := Conversion(f, y, a);
      r.Piece? && r.len <= |f| && r.used <= |a| && f[r.len..] == fmt && a[r.used..] == args
    ensures WellFormed(symbols, f, a) && Render(symbols, f, a) == Conversion(f, y, a).text + Render(symbols, fmt, args)
  {
    assert SymbolAt(symbols, f).None?;
    assert FirstPiece(symbols, f, a) == Conversion(f, y, a) by { hide Conversion; }
    hide Conversion, LayoutAt, FirstPiece;
    RenderStep(symbols, f, a, Conversion(f, y, a).text, fmt, args);
  }

  /** `%Ns` and `%-Ns` pad to N visible columns. */
  lemma RenderPaddedString(symbols: Symbols, s: string, left: bool, width: nat)
    requires width < TWO_31
    ensures var fmt := (if left then "%-" else "%") + Digits(width, 10) + "s";
      && WellFormed(symbols, fmt, [StrArg(s)])
      && Render(symbols, fmt, [StrArg(s)]) == Padded(s, Visible(s).0, left, width)
  {
    assert Shown("s", StrArg(s)) == Some((s, Visible(s).0)) by { hide Visible; }
    NothingToRender(symbols);
    hide *;
    RenderField(symbols, "s", StrArg(s), left, width, "", []);
    var fmt := (if left then "%-" else "%") + Digits(width, 10) + "s";
    assert fmt + "" == fmt && [StrArg(s)] + [] == [StrArg(s)];
    assert Padded(s, Visible(s).0, left, width) + "" == Padded(s, Visible(s).0, left, width);
  }

  predicate RendersTo(symbols: Symbols, fmt: string, args: seq<Arg>, text: string) {
    WellFormed(symbols, fmt, args) && Render(symbols, fmt, args) == text
  }

  /** Numbers in a field of N columns, and the null pointer. */
  lemma RenderPaddedNumbers(symbols: Symbols, n: int, u: nat, z: nat, left: bool, width: nat,
                            fmt: string, args: seq<Arg>)
    requires -2147483648 <= n <= 2147483647 && u <= 4294967295 && z <= 18446744073709551615 && width <= 2147483647
    requires WellFormed(symbols, fmt, args)
    ensures var pre := (if left then "%-" else "%") + Digits(width, 10);
      var rest := Render(symbols, fmt, args);
      var d, x, y, t := Decimal(n), Digits(u, 10), Digits(u, 16), Digits(z, 10);
      && RendersTo(symbols, pre + "d" + fmt, [IntArg(n)] + args, Padded(d, |d|, left, width) + rest)
      && RendersTo(symbols, pre + "u" + fmt, [UintArg(u)] + args, Padded(x, |x|, left, width) + rest)
      && RendersTo(symbols, pre + "x" + fmt, [UintArg(u)] + args, Padded(y, |y|, left, width) + rest)
      && RendersTo(symbols, pre + "zu" + fmt, [SizeArg(z)] + args, Padded(t, |t|, left, width) + rest)
      && RendersTo(symbols, pre + "s" + fmt, [NullArg] + args, Padded("(null)", 6, left, width) + rest)
  {
    NumbersShown(n, u, z);
    Widths();
    hide Decimal, Digits, Shown, Padded, WellFormed, Render;
    RenderField(symbols, "d", IntArg(n), left, width, fmt, args);
    RenderField(symbols, "u", UintArg(u), left, width, fmt, args);
    RenderField(symbols, "x", UintArg(u), left, width, fmt, args);
    RenderField(symbols, "zu", SizeArg(z), left, width, fmt, args);
    RenderField(symbols, "s", NullArg, left, width, fmt, args);
  }

  lemma NumbersShown(n: int, u: nat, z: nat)
    requires -2147483648 <= n <= 2147483647 && u <= 4294967295 && z <= 18446744073709551615
    ensures Shown("d", IntArg(n)) == Some((Decimal(n), |Decimal(n)|))
    ensures Shown("u", UintArg(u)) == Some((Digits(u, 10), |Digits(u, 10)|))
    ensures Shown("x", UintArg(u)) == Some((Digits(u, 16), |Digits(u, 16)|))
    ensures Shown("zu", SizeArg(z)) == Some((Digits(z, 10), |Digits(z, 10)|))
    ensures Shown("s", NullArg) == Some(("(null)", 6))
  {
    Widths();
    hide Decimal, Digits;
  }

  lemma NothingToRender(symbols: Symbols)
    ensures WellFormed(symbols, "", []) && Render(symbols, "", []) == ""
  {
  }

  /** `${NAME}` of a name that is unknown or too long: the scan rolls back, emits `$` and reads on behind
      it, directives inside the braces included. */
  lemma RenderUnknownSymbol(symbols: Symbols, name: string, fmt: string, args: seq<Arg>)
    requires '}' !in name && (LookUp(symbols, name).None? || |name| >= MAX_SYMBOL)
    requires WellFormed(symbols, "{" + name + "}" + fmt, args)
    ensures WellFormed(symbols, "${" + name + "}" + fmt, args)
    ensures Render(symbols, "${" + name + "}" + fmt, args) == "$" + Render(symbols, "{" + name + "}" + fmt, args)
  {
    hide FirstPiece;
    var f := "${" + name + "}" + fmt;
    NoSymbol(symbols, name, fmt);
    assert f[1..] == "{" + name + "}" + fmt;
    RenderChar(symbols, f, args);
  }

  /** So a name without directives is left standing as it is. */
  lemma UnknownSymbolStays(symbols: Symbols, name: string, fmt: string, args: seq<Arg>)
    requires '%' !in name && '$' !in name && '}' !in name && (LookUp(symbols, name).None? || |name| >= MAX_SYMBOL)
    requires WellFormed(symbols, fmt, args)
    ensures WellFormed(symbols, "${" + name + "}" + fmt, args)
    ensures Render(symbols, "${" + name + "}" + fmt, args) == "${" + name + "}" + Render(symbols, fmt, args)
  {
    hide Render, WellFormed;
    RenderLiteral(symbols, "{" + name + "}", fmt, args);
    RenderUnknownSymbol(symbols, name, fmt, args);
    assert "$" + ("{" + name + "}" + Render(symbols, fmt, args)) == "${" + name + "}" + Render(symbols, fmt, args);
  }

  lemma {:induction false} LookUpFirst(before: Symbols, name: string, text: string, after: Symbols)
    requires forall i :: 0 <= i < |before| ==> before[i].0 != name
    ensures LookUp(before + [(name, text)] + after, name) == Some(text)
  {
    var symbols := before + [(name, text)] + after;
    if before != [] {
      LookUpFirst(before[1..], name, text, after);
      assert symbols[1..] == before[1..] + [(name, text)] + after && symbols[0] == before[0];
    } else {
      assert symbols[0] == (name, text);
    }
  }

  lemma {:induction false} LookUpNowhere(symbols: Symbols, name: string)
    requires forall i :: 0 <= i < |symbols| ==> symbols[i].0 != name
    ensures LookUp(symbols, name).None?
  {
    if symbols != [] { LookUpNowhere(symbols[1..], name); }
  }

  /** A symbol of the table, its first entry of that name, is replaced by the text of that entry. */
  lemma RenderSymbol(before: Symbols, name: string, text: string, after: Symbols, fmt: string, args: seq<Arg>)
    requires forall i :: 0 <= i < |before| ==> before[i].0 != name
    requires '}' !in name && |name| < 64
    requires WellFormed(before + [(name, text)] + after, fmt, args)
    ensures var symbols := before + [(name, text)] + after;
      && WellFormed(symbols, "${" + name + "}" + fmt, args)
      && Render(symbols, "${" + name + "}" + fmt, args) == text + Render(symbols, fmt, args)
  {
    hide LookUp, Render, WellFormed;
    LookUpFirst(before, name, text, after);
    RenderKnownSymbol(before + [(name, text)] + after, name, fmt, args);
  }

  /** A name in no entry, or of 64 bytes and more, stays as it is written. */
  lemma RenderNoSymbol(symbols: Symbols, name: string, fmt: string, args: seq<Arg>)
    requires (forall i :: 0 <= i < |symbols| ==> symbols[i].0 != name) || |name| >= 64
    requires '%' !in name && '$' !in name && '}' !in name && WellFormed(symbols, fmt, args)
    ensures WellFormed(symbols, "${" + name + "}" + fmt, args)
    ensures Render(symbols, "${" + name + "}" + fmt, args) == "${" + name + "}" + Render(symbols, fmt, args)
  {
    if |name| < 64 { LookUpNowhere(symbols, name); }
    hide LookUp, Render, WellFormed;
    UnknownSymbolStays(symbols, name, fmt, args);
  }

  /** `${NAME}` of a known name of fewer than 64 bytes becomes its text. */
  lemma RenderKnownSymbol(symbols: Symbols, name: string, fmt: string, args: seq<Arg>)
    requires '}' !in name && |name| < MAX_SYMBOL && LookUp(symbols, name).Some? && WellFormed(symbols, fmt, args)
    ensures WellFormed(symbols, "${" + name + "}" + fmt, args)
    ensures Render(symbols, "${" + name + "}" + fmt, args) == LookUp(symbols, name).value + Render(symbols, fmt, args)
  {
    var f := "${" + name + "}" + fmt;
    var e := |name| + 2;
    assert f[e] == '}' && f[2..e] == name && f[e + 1..] == fmt;
    assert forall k :: 2 <= k < e ==> f[k] == name[k - 2];
    assert IndexFrom(f, '}', 2) == e;
    assert FirstPiece(symbols, f, args) == Piece(LookUp(symbols, name).value, e + 1, 0) by {
      hide Conversion, LayoutAt;
    }
    hide FirstPiece;
    RenderStep(symbols, f, args, LookUp(symbols, name).value, fmt, args);
  }

  lemma NoSymbol(symbols: Symbols, name: string, fmt: string)
    requires '}' !in name && (LookUp(symbols, name).None? || |name| >= MAX_SYMBOL)
    ensures SymbolAt(symbols, "${" + name + "}" + fmt).None?
  {
    var f := "${" + name + "}" + fmt;
    var e := |name| + 2;
    assert f[e] == '}' && f[2..e] == name;
    assert forall k :: 2 <= k < e ==> f[k] == name[k - 2];
    assert IndexFrom(f, '}', 2) == e;
  }

  /** `%.1f` prints a number with one decimal digit, no width applied. */
  lemma RenderOneDecimal(symbols: Symbols, whole: int, tenth: nat, fmt: string, args: seq<Arg>)
    requires -TWO_63 <= whole < TWO_63 && tenth <= 10 && WellFormed(symbols, fmt, args)
    ensures var a := [DoubleArg(whole, tenth)] + args;
      && WellFormed(symbols, "%.1f" + fmt, a)
      && Render(symbols, "%.1f" + fmt, a) == Tenths(whole, tenth) + Render(symbols, fmt, args)
    ensures tenth < 10 ==> Tenths(whole, tenth) == ItoaText(whole, 10) + "." + Digits(tenth, 10)
  {
    if tenth < 10 { TenthsText(whole, tenth); }
    hide *;
    var f, a, y := "%.1f" + fmt, [DoubleArg(whole, tenth)] + args, Layout(false, 0, 1, 0);
    assert f[0] == '%' && f[1] == '.' && f[4..] == fmt && a[1..] == args;
    TenthsPiece(fmt, whole, tenth, args);
    NoLayout(f, a);
    RenderDirective(symbols, f, a, y, fmt, args);
  }

  lemma TenthsText(whole: int, tenth: nat)
    requires tenth < 10
    ensures Tenths(whole, tenth) == ItoaText(whole, 10) + "." + Digits(tenth, 10)
  {
    hide ItoaText;
    AppendAssoc(ItoaText(whole, 10), ".", Digits(tenth, 10));
  }

  lemma TenthsPiece(fmt: string, whole: int, tenth: nat, args: seq<Arg>)
    requires -TWO_63 <= whole < TWO_63 && tenth <= 10
    ensures Conversion("%.1f" + fmt, Layout(false, 0, 1, 0), [DoubleArg(whole, tenth)] + args)
      == Piece(Tenths(whole, tenth), 4, 1)
  {
    hide Tenths, Padded, Visible, Digits, Decimal;
    var f := "%.1f" + fmt;
    assert f[1] == '.' && f[2] == '1' && f[3] == 'f';
  }

  /** The formatter does not know `%.2f`: it prints a bare `f` and takes no argument. */
  lemma RenderTwoDecimals(symbols: Symbols, args: seq<Arg>)
    ensures WellFormed(symbols, "%.2f", args) && Render(symbols, "%.2f", args) == "f"
  {
    var f := "%.2f";
    assert LayoutAt(f, args) == Some(Layout(false, 0, 1, 0)) by { assert f[1..1] == []; }
    assert FirstPiece(symbols, f, args) == Piece("", 3, 0);
    assert f[3..] == "f" && args[0..] == args;
    assert "f" + "" == "f";
    RenderLiteral(symbols, "f", "", args);
  }

  /** Any other character behind `%` stands for itself and takes no argument. */
  lemma RenderUnknownDirective(symbols: Symbols, c: char, fmt: string, args: seq<Arg>)
    requires c !in {'s', 'd', 'u', 'x', 'z', '.', '-', '*'} && !('0' <= c <= '9') && WellFormed(symbols, fmt, args)
    ensures WellFormed(symbols, "%" + [c] + fmt, args)
    ensures Render(symbols, "%" + [c] + fmt, args) == [c] + Render(symbols, fmt, args)
  {
    var f, y := "%" + [c] + fmt, Layout(false, 0, 1, 0);
    assert -TWO_31 <= y.width < TWO_31;
    hide *;
    assert f[0] == '%' && f[1] == c && f[2..] == fmt && args[0..] == args;
    NoLayout(f, args);
    OrdinaryCharacter(f, y, args);
    RenderDirective(symbols, f, args, y, fmt, args);
  }

  lemma NoLayout(f: string, args: seq<Arg>)
    requires |f| >= 2 && f[1] !in {'-', '*'} && !('0' <= f[1] <= '9')
    ensures LayoutAt(f, args) == Some(Layout(false, 0, 1, 0))
  {
    assert DigitOf(f[1]) >= 10;
    assert RunEnd(f, 1, 10) == 1;
    assert f[1..1] == [];
  }

  lemma OrdinaryCharacter(f: string, y: Layout, args: seq<Arg>)
    requires y.pos < |f| && y.used <= |args| && -TWO_31 <= y.width < TWO_31
    requires f[y.pos] !in {'s', 'd', 'u', 'x', 'z', '.'}
    ensures Conversion(f, y, args) == Piece([f[y.pos]], y.pos + 1, y.used)
  {
    hide Padded, Visible, Decimal, Digits;
  }

  /** Nor does it know `%ll`: the capability mask of DAEMON_INFO reads as `llx`, its argument unread. */
  lemma RenderLongLong(symbols: Symbols, args: seq<Arg>)
    ensures WellFormed(symbols, "%llx", args) && Render(symbols, "%llx", args) == "llx"
  {
    hide *;
    EmptyFormat(symbols, args);
    RenderLiteral(symbols, "lx", "", args);
    assert "lx" + "" == "lx";
    RenderUnknownDirective(symbols, 'l', "lx", args);
    assert "%" + ['l'] + "lx" == "%llx" && ['l'] + "lx" == "llx";
  }

  lemma EmptyFormat(symbols: Symbols, args: seq<Arg>)
    ensures WellFormed(symbols, "", args) && Render(symbols, "", args) == ""
  {
  }

  // ---------------------------------------------------------------- escape sequences take no columns

  lemma {:induction false} VisibleAppend(s: string, t: string)
    requires !Visible(s).1
    ensures Visible(s + t) == (Visible(s).0 + Visible(t).0, Visible(t).1)
    decreases |t|
  {
    hide IsLead;
    if t == [] {
      assert s + t == s;
    } else {
      var n := |t| - 1;
      VisibleAppend(s, t[..n]);
      assert (s + t)[..|s| + n] == s + t[..n] && (s + t)[|s| + n] == t[n];
    }
  }

  lemma {:induction false} InEscape(body: string)
    requires 'm' !in body
    ensures Visible("\U{1b}" + body) == (0, true)
    decreases |body|
  {
    var s := "\U{1b}" + body;
    if body == [] {
      assert s == "\U{1b}" && s[..0] == "";
    } else {
      var n := |body| - 1;
      InEscape(body[..n]);
      assert s[..|s| - 1] == "\U{1b}" + body[..n] && s[|s| - 1] == body[n];
    }
  }

  /** From the escape byte to the next `m` nothing is counted; what surrounds it is. */
  lemma ColouredText(a: string, body: string, b: string)
    requires !Visible(a).1 && 'm' !in body
    ensures Visible(a + ("\U{1b}" + body + "m") + b) == (Visible(a).0 + Visible(b).0, Visible(b).1)
  {
    hide *;
    var e := "\U{1b}" + body;
    InEscape(body);
    EscapeEnds(e);
    VisibleAppend(a, e + "m");
    VisibleAppend(a + (e + "m"), b);
  }

  lemma EscapeEnds(e: string)
    requires Visible(e) == (0, true)
    ensures Visible(e + "m") == (0, false)
  {
    assert (e + "m")[..|e|] == e && (e + "m")[|e|] == 'm';
    hide IsLead;
  }

  lemma VisibleNothing()
    ensures Visible("") == (0, false)
  {
  }

  /** A coloured text is padded by what is seen of it. */
  lemma RenderColoured(symbols: Symbols, colour: string, s: string, reset: string, left: bool, width: nat)
    requires 'm' !in colour && 'm' !in reset && !Visible(s).1 && width < TWO_31
    ensures var fmt := (if left then "%-" else "%") + Digits(width, 10) + "s";
      var text := "" + ("\U{1b}" + colour + "m") + (s + ("\U{1b}" + reset + "m") + "");
      && WellFormed(symbols, fmt, [StrArg(text)])
      && Render(symbols, fmt, [StrArg(text)]) == Padded(text, Visible(s).0, left, width)
  {
    var rest := s + ("\U{1b}" + reset + "m") + "";
    var text := "" + ("\U{1b}" + colour + "m") + rest;
    ColouredText(s, reset, "");
    hide *;
    ColouredText("", colour, rest);
    VisibleNothing();
    RenderPaddedString(symbols, text, left, width);
  }

  /** Padding is blanks, on the left unless asked otherwise. */
  lemma PaddedIs(text: string, columns: nat, left: bool, width: int)
    ensures var p := Padded(text, columns, left, width);
      var n := if width > columns then width - columns else 0;
      && |p| == |text| + n
      && (if left then p[..|text|] == text && forall k :: |text| <= k < |p| ==> p[k] == ' '
          else p[n..] == text && forall k :: 0 <= k < n ==> p[k] == ' ')
  {
  }

  // ---------------------------------------------------------------- how many arguments a format takes

  predicate Fetches(fmt: string, pos: nat) {
    At(fmt, pos) in "sdux" || (At(fmt, pos) == 'z' && At(fmt, pos + 1) == 'u') || OneDecimal(fmt, pos)
  }

  /** Read off the format alone: one argument for each `*` and one for each of the known conversions. */
  function Taken(symbols: Symbols, fmt: string): nat
    decreases |fmt|
  {
    if fmt == [] then 0
    else if SymbolAt(symbols, fmt).Some? then Taken(symbols, fmt[SymbolAt(symbols, fmt).value.1..])
    else if fmt[0] != '%' then Taken(symbols, fmt[1..])
    else
      var p := if At(fmt, 1) == '-' then 2 else 1;
      var star := if At(fmt, p) == '*' then 1 else 0;
      var e := RunEnd(fmt, p + star, 10);
      var len := e + ConversionLength(fmt, e);
      star + (if Fetches(fmt, e) then 1 else 0) + if len <= |fmt| then Taken(symbols, fmt[len..]) else 0
  }

  function ConversionLength(fmt: string, pos: nat): nat {
    if OneDecimal(fmt, pos) then 3
    else if At(fmt, pos) == '.' || (At(fmt, pos) == 'z' && At(fmt, pos + 1) == 'u') then 2 else 1
  }

  lemma ConversionTakes(fmt: string, y: Layout, args: seq<Arg>)
    requires y.pos <= |fmt| && y.used <= |args| && Conversion(fmt, y, args).Piece?
    ensures var r := Conversion(fmt, y, args);
      r.used == y.used + (if Fetches(fmt, y.pos) then 1 else 0) && r.len == y.pos + ConversionLength(fmt, y.pos)
  {
    hide Padded, Visible, Decimal, Digits;
  }

  lemma TakenStep(symbols: Symbols, fmt: string, args: seq<Arg>)
    requires fmt != [] && FirstPiece(symbols, fmt, args).Piece?
    ensures var r := FirstPiece(symbols, fmt, args);
      Taken(symbols, fmt) == r.used + Taken(symbols, fmt[r.len..])
  {
    hide Conversion, RunEnd, Widen, LookUp, Fetches, ConversionLength;
    if SymbolAt(symbols, fmt).None? && fmt[0] == '%' {
      ConversionTakes(fmt, LayoutAt(fmt, args).value, args);
    }
  }

  /** The head of a format looks at no argument behind those it takes. */
  lemma HeadIsLocal(symbols: Symbols, fmt: string, args: seq<Arg>, args': seq<Arg>)
    requires fmt != [] && FirstPiece(symbols, fmt, args).Piece?
    requires var n := FirstPiece(symbols, fmt, args).used; |args'| >= n && args'[..n] == args[..n]
    ensures FirstPiece(symbols, fmt, args') == FirstPiece(symbols, fmt, args)
  {
    hide Padded, Visible, Decimal, Digits, RunEnd, Widen, LookUp;
    var n := FirstPiece(symbols, fmt, args).used;
    assert forall k :: 0 <= k < n ==> args'[k] == args'[..n][k] == args[k];
  }

  /** The rendering depends on exactly these arguments: fewer are too few, and what follows them is never
      read. */
  lemma {:induction false} TakesExactly(symbols: Symbols, fmt: string, args: seq<Arg>, more: seq<Arg>)
    requires WellFormed(symbols, fmt, args)
    ensures var n := Taken(symbols, fmt);
      && n <= |args| && WellFormed(symbols, fmt, args[..n] + more)
      && Render(symbols, fmt, args[..n] + more) == Render(symbols, fmt, args)
    decreases |fmt|
  {
    hide *;
    if fmt != [] {
      var r := FirstPiece(symbols, fmt, args);
      RenderUnfolds(symbols, fmt, args);
      TakenStep(symbols, fmt, args);
      var rest, m := fmt[r.len..], Taken(symbols, fmt[r.len..]);
      TakesExactly(symbols, rest, args[r.used..], more);
      var a := args[..r.used + m] + more;
      assert a[..r.used] == args[..r.used] && a[r.used..] == args[r.used..][..m] + more;
      HeadIsLocal(symbols, fmt, args, a);
      RenderStep(symbols, fmt, a, r.text, rest, a[r.used..]);
    } else {
      EmptyFormat(symbols, args);
      EmptyFormat(symbols, args[..0] + more);
      NothingTaken(symbols);
    }
  }

  lemma NothingTaken(symbols: Symbols)
    ensures Taken(symbols, "") == 0
  {
  }

  lemma RenderUnfolds(symbols: Symbols, fmt: string, args: seq<Arg>)
    requires fmt != [] && WellFormed(symbols, fmt, args)
    ensures var r := FirstPiece(symbols, fmt, args);
      && r.Piece? && 1 <= r.len <= |fmt| && r.used <= |args| && WellFormed(symbols, fmt[r.len..], args[r.used..])
      && Render(symbols, fmt, args) == r.text + Render(symbols, fmt[r.len..], args[r.used..])
  {
    hide FirstPiece;
  }
}
