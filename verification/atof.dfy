/** `atof` of src/libc.c over the reals: rounding aside, it reads a decimal number as it is written. */
module Atof {
  import opened Text
  import opened Numbers

  /** `atof`, rounding aside: an optional minus, digits, and digits after a point. */
  function RealOf(s: string): real {
    var i := SkipBlanks(s, 0);
    if At(s, i) == '-' then -RealFrom(s[i + 1..], 0.0, 1.0, false)
    else RealFrom(s[i..], 0.0, 1.0, false)
  }

  function RealFrom(s: string, res: real, frac: real, point: bool): real {
    if s == [] then res
    else if '0' <= s[0] <= '9' then
      var d := (s[0] as int - '0' as int) as real;
      if point then RealFrom(s[1..], res + d * (frac * 0.1), frac * 0.1, true)
      else RealFrom(s[1..], res * 10.0 + d, frac, false)
    else if s[0] == '.' then RealFrom(s[1..], res, frac, true)
    else res
  }

  function Tenths(k: nat): real
    ensures Tenths(k) > 0.0
  {
    if k == 0 then 1.0 else Tenths(k - 1) * 0.1
  }

  /** A number with more digits written behind it. */
  function Shifted(res: real, p: nat, v: nat): real {
    res * p as real + v as real
  }

  /** The digits before the point. */
  lemma {:induction false} WholePart(ds: string, rest: string, res: real)
    requires DigitRun(ds, 0, |ds|, 10)
    ensures RealFrom(ds + rest, res, 1.0, false)
      == RealFrom(rest, Shifted(res, Pow(10, |ds|), Value(ds, 10)), 1.0, false)
    decreases |ds|
  {
    if ds == [] {
      assert ds + rest == rest;
    } else {
      hide *;
      var d, more := DigitOf(ds[0]), ds[1..];
      TailOfRun(ds, rest);
      WholeDigit(ds[0], more + rest, res);
      WholePart(more, rest, Shifted(res, 10, d));
      ValueOfFirst(ds);
      WholeStep(res, d, Pow(10, |more|), Value(more, 10));
      PowStep(10, |ds|);
    }
  }

  lemma TailOfRun(ds: string, rest: string)
    requires ds != [] && DigitRun(ds, 0, |ds|, 10)
    ensures DigitOf(ds[0]) < 10 && DigitRun(ds[1..], 0, |ds[1..]|, 10) && ds + rest == [ds[0]] + (ds[1..] + rest)
  {
  }

  lemma DigitStep(c: char, rest: string, res: real, frac: real, point: bool)
    requires DigitOf(c) < 10
    ensures RealFrom([c] + rest, res, frac, point) ==
      if point then RealFrom(rest, res + DigitOf(c) as real * (frac * 0.1), frac * 0.1, true)
      else RealFrom(rest, res * 10.0 + DigitOf(c) as real, frac, false)
  {
    DecimalByte(c);
    assert ([c] + rest)[1..] == rest;
  }

  lemma DecimalByte(c: char)
    requires DigitOf(c) < 10
    ensures '0' <= c <= '9' && DigitOf(c) == c as int - '0' as int
  {
  }

  lemma WholeDigit(c: char, rest: string, res: real)
    requires DigitOf(c) < 10
    ensures RealFrom([c] + rest, res, 1.0, false) == RealFrom(rest, Shifted(res, 10, DigitOf(c)), 1.0, false)
  {
    DigitStep(c, rest, res, 1.0, false);
    hide RealFrom;
  }

  lemma WholeStep(res: real, d: nat, p: nat, v: nat)
    ensures Shifted(Shifted(res, 10, d), p, v) == Shifted(res, 10 * p, d * p + v)
  {
    assert (10 * p) as real == 10.0 * p as real && (d * p) as real == d as real * p as real;
    assert (res * 10.0 + d as real) * p as real == res * (10.0 * p as real) + d as real * p as real;
  }

  lemma {:induction false} ValueOfFirst(ds: string)
    requires ds != []
    ensures Value(ds, 10) == DigitOf(ds[0]) * Pow(10, |ds| - 1) + Value(ds[1..], 10)
  {
    var n := |ds| - 1;
    if n == 0 {
      assert ds[..0] == [] && ds[1..] == [];
    } else {
      var init := ds[..n];
      ValueOfFirst(init);
      assert ds[1..][..n - 1] == init[1..];
      assert Value(ds[1..], 10) == Value(init[1..], 10) * 10 + DigitOf(ds[n]);
      assert Pow(10, n) == 10 * Pow(10, n - 1);
      hide Value, Pow;
      FirstStep(DigitOf(ds[0]), Pow(10, n - 1), Value(init[1..], 10), DigitOf(ds[n]));
    }
  }

  lemma FirstStep(d: nat, p: nat, v: nat, e: nat)
    ensures (d * p + v) * 10 + e == d * (10 * p) + (v * 10 + e)
  {
  }

  /** What digits behind the point are worth. */
  function Fraction(v: nat, t: real): real {
    v as real * t
  }

  /** The digits behind it. */
  lemma {:induction false} FractionPart(ds: string, tail: string, res: real, k: nat)
    requires DigitRun(ds, 0, |ds|, 10) && (tail == [] || (DigitOf(tail[0]) >= 10 && tail[0] != '.'))
    ensures RealFrom(ds + tail, res, Tenths(k), true) == res + Fraction(Value(ds, 10), Tenths(k + |ds|))
    decreases |ds|
  {
    if ds == [] {
      StopHere(ds + tail, tail, res, k);
    } else {
      var d, more := DigitOf(ds[0]), ds[1..];
      hide *;
      TailOfRun(ds, tail);
      FractionDigit(ds[0], more + tail, res, k);
      FractionPart(more, tail, res + Fraction(d, Tenths(k + 1)), k + 1);
      ValueOfFirst(ds);
      ShiftTenths(k + 1, |more|);
      FractionStep(res, d, Tenths(k + 1), Pow(10, |more|), Value(more, 10), Tenths(k + |ds|));
    }
  }

  lemma StopHere(s: string, tail: string, res: real, k: nat)
    requires s == [] + tail && (tail == [] || (DigitOf(tail[0]) >= 10 && tail[0] != '.'))
    ensures RealFrom(s, res, Tenths(k), true) == res + Fraction(Value([], 10), Tenths(k + 0))
  {
    assert s == tail;
    EmptyValue(10);
    hide Tenths;
  }

  lemma FractionDigit(c: char, rest: string, res: real, k: nat)
    requires DigitOf(c) < 10
    ensures RealFrom([c] + rest, res, Tenths(k), true)
      == RealFrom(rest, res + Fraction(DigitOf(c), Tenths(k + 1)), Tenths(k + 1), true)
  {
    DigitStep(c, rest, res, Tenths(k), true);
    hide RealFrom;
  }

  lemma FractionStep(res: real, d: nat, t: real, p: nat, v: nat, u: real)
    requires Fraction(p, u) == t
    ensures res + Fraction(d, t) + Fraction(v, u) == res + Fraction(d * p + v, u)
  {
    assert (d * p + v) as real == d as real * p as real + v as real;
    assert d as real * (p as real * u) == (d as real * p as real) * u;
  }

  lemma {:induction false} ShiftTenths(k: nat, n: nat)
    ensures Fraction(Pow(10, n), Tenths(k + n)) == Tenths(k)
  {
    if n > 0 {
      ShiftTenths(k, n - 1);
      var p, t := Pow(10, n - 1), Tenths(k + n - 1);
      assert (10 * p) as real * (t * 0.1) == p as real * t;
    }
  }

  /** `atof` reads a decimal number as it is written, rounding aside: blanks and tabs, an optional minus,
      digits, and digits behind a point. */
  lemma AtofReads(blanks: string, minus: bool, whole: string, frac: string, tail: string)
    requires forall k :: 0 <= k < |blanks| ==> blanks[k] == ' ' || blanks[k] == '\t'
    requires whole != [] && DigitRun(whole, 0, |whole|, 10) && DigitRun(frac, 0, |frac|, 10)
    requires tail == [] || (DigitOf(tail[0]) >= 10 && tail[0] != '.')
    ensures var x := Value(whole, 10) as real + Fraction(Value(frac, 10), Tenths(|frac|));
      RealOf(blanks + ((if minus then "-" else "") + (whole + ("." + (frac + tail))))) == if minus then -x else x
  {
    var body := whole + ("." + (frac + tail));
    BodyValue(whole, frac, tail);
    assert body[0] == whole[0] && DigitOf(whole[0]) < 10;
    hide RealFrom, Value, Tenths, Fraction;
    SignOf(blanks, minus, body);
  }

  lemma SignOf(blanks: string, minus: bool, body: string)
    requires forall k :: 0 <= k < |blanks| ==> blanks[k] == ' ' || blanks[k] == '\t'
    requires body != [] && DigitOf(body[0]) < 10
    ensures RealOf(blanks + ((if minus then "-" else "") + body)) ==
      var x := RealFrom(body, 0.0, 1.0, false); if minus then -x else x
  {
    hide RealFrom;
    var rest := (if minus then "-" else "") + body;
    var s := blanks + rest;
    assert forall k :: 0 <= k < |blanks| ==> s[k] == blanks[k];
    assert s[|blanks|] == rest[0] && s[|blanks|..] == rest;
    SkipTo(s, 0, |blanks|);
    hide SkipBlanks;
    if minus { assert s[|blanks| + 1..] == body; } else { assert rest == body; }
  }

  lemma BodyValue(whole: string, frac: string, tail: string)
    requires DigitRun(whole, 0, |whole|, 10) && DigitRun(frac, 0, |frac|, 10)
    requires tail == [] || (DigitOf(tail[0]) >= 10 && tail[0] != '.')
    ensures RealFrom(whole + ("." + (frac + tail)), 0.0, 1.0, false)
      == Value(whole, 10) as real + Fraction(Value(frac, 10), Tenths(|frac|))
  {
    hide *;
    var v := Value(whole, 10) as real;
    StartValue(Pow(10, |whole|), Value(whole, 10));
    WholePart(whole, "." + (frac + tail), 0.0);
    PointStep(frac + tail, v);
    FractionPart(frac, tail, v, 0);
  }

  lemma StartValue(p: nat, v: nat)
    ensures Shifted(0.0, p, v) == v as real && Tenths(0) == 1.0
  {
  }

  lemma PointStep(rest: string, res: real)
    ensures RealFrom("." + rest, res, 1.0, false) == RealFrom(rest, res, 1.0, true)
  {
    assert ("." + rest)[1..] == rest;
  }

  lemma {:induction false} BelowPower(ds: string)
    requires DigitRun(ds, 0, |ds|, 10)
    ensures Value(ds, 10) < Pow(10, |ds|)
  {
    if ds != [] {
      var n := |ds| - 1;
      BelowPower(ds[..n]);
      assert DigitOf(ds[n]) < 10;
    }
  }

  lemma FractionIsSmall(frac: string)
    requires DigitRun(frac, 0, |frac|, 10)
    ensures 0.0 <= Fraction(Value(frac, 10), Tenths(|frac|)) < 1.0
  {
    BelowPower(frac);
    ShiftTenths(0, |frac|);
    hide Value, Pow;
    SmallerProduct(Value(frac, 10), Pow(10, |frac|), Tenths(|frac|));
  }

  lemma SmallerProduct(v: nat, p: nat, t: real)
    requires v < p && t > 0.0 && Fraction(p, t) == Tenths(0)
    ensures 0.0 <= Fraction(v, t) < 1.0
  {
    assert v as real * t < p as real * t;
  }
}
