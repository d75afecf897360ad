/** The CPU counters of src/status.c, read from the first line of `/proc/stat`. */
module CpuStatus {
  import opened Text
  import opened Numbers

  const STAT_LIMIT: nat := 255

  function FieldEnd(s: string, p: nat): (e: nat)
    requires p <= |s|
    ensures e <= |s|
  {
    RunEnd(s, SkipBlanks(s, p), 10)
  }

  function FieldValue(s: string, p: nat): nat
    requires p <= |s|
  {
    Value(s[SkipBlanks(s, p)..FieldEnd(s, p)], 10) % TWO_64
  }

  /** Successive `strtoull` calls, each starting where the last one stopped. */
  function Fields(s: string, p: nat, n: nat): (r: seq<nat>)
    requires p <= |s|
    ensures |r| == n
    decreases n
  {
    if n == 0 then [] else [FieldValue(s, p)] + Fields(s, FieldEnd(s, p), n - 1)
  }

  class CpuStats {
    var user: nat
    var nice: nat
    var system: nat
    var idle: nat
    var iowait: nat
    var irq: nat
    var softirq: nat

    function Counters(): seq<nat>
      reads this
    {
      [user, nice, system, idle, iowait, irq, softirq]
    }

    /** `stats`: an empty text or one without a blank leaves the counters alone. */
    method Read(text: string)
      modifies this
      ensures var buf := CStr(Take(text, 255));
        Counters() == if IndexOf(buf, ' ') == |buf| then old(Counters()) else Fields(buf, IndexOf(buf, ' '), 7)
    {
      var buf := CStr(Take(text, STAT_LIMIT));
      var p := IndexOf(buf, ' ');
      if p == |buf| { return; }
      ReadSeven(buf, p);
    }

    method ReadSeven(s: string, start: nat)
      requires start <= |s|
      modifies this
      ensures Counters() == Fields(s, start, 7)
    {
      SevenFields(s, start);
      hide FieldValue, FieldEnd, Fields;
      var p := start;
      user, p := Field(s, p);
      nice, p := Field(s, p);
      system, p := Field(s, p);
      idle, p := Field(s, p);
      iowait, p := Field(s, p);
      irq, p := Field(s, p);
      softirq, p := Field(s, p);
    }

    /** One counter, and where the next one starts. */
    static method Field(s: string, p: nat) returns (v: nat, end: nat)
      requires p <= |s|
      ensures v == FieldValue(s, p) && end == FieldEnd(s, p)
    {
      hide Value;
      v, end := Strtoull(s, p, 10);
    }
  }

  lemma SevenFields(s: string, p: nat)
    requires p <= |s|
    ensures var e1 := FieldEnd(s, p);
      var e2 := FieldEnd(s, e1);
      var e3 := FieldEnd(s, e2);
      var e4 := FieldEnd(s, e3);
      var e5 := FieldEnd(s, e4);
      var e6 := FieldEnd(s, e5);
      Fields(s, p, 7) == [FieldValue(s, p), FieldValue(s, e1), FieldValue(s, e2), FieldValue(s, e3),
                          FieldValue(s, e4), FieldValue(s, e5), FieldValue(s, e6)]
  {
    hide FieldValue, FieldEnd;
    var e1 := FieldEnd(s, p);
    var e2 := FieldEnd(s, e1);
    var e3 := FieldEnd(s, e2);
    var e4 := FieldEnd(s, e3);
    var e5 := FieldEnd(s, e4);
    assert Fields(s, e5, 2) == [FieldValue(s, e5), FieldValue(s, FieldEnd(s, e5))];
    assert Fields(s, e3, 4) == [FieldValue(s, e3), FieldValue(s, e4)] + Fields(s, e5, 2);
    assert Fields(s, e1, 6) == [FieldValue(s, e1), FieldValue(s, e2)] + Fields(s, e3, 4);
  }

  // ---------------------------------------------------------------- the counters are recovered

  /** A counter with the blanks printed before it. */
  datatype Cell = Cell(blanks: string, n: nat)

  predicate GoodCell(c: Cell) {
    c.blanks != [] && AllBlank(c.blanks) && c.n < TWO_64
  }

  function Line(cells: seq<Cell>): string {
    if cells == [] then "" else cells[0].blanks + Digits(cells[0].n, 10) + Line(cells[1..])
  }

  function Values(cells: seq<Cell>): (r: seq<nat>)
    ensures |r| == |cells|
  {
    if cells == [] then [] else [cells[0].n] + Values(cells[1..])
  }

  predicate GoodCells(cells: seq<Cell>) {
    forall i :: 0 <= i < |cells| ==> GoodCell(cells[i])
  }

  lemma RestStops(cells: seq<Cell>, tail: string)
    requires GoodCells(cells) && StopsDigits(tail, 10)
    ensures StopsDigits(Line(cells) + tail, 10)
  {
    if cells == [] {
      assert Line(cells) + tail == tail;
    } else {
      assert GoodCell(cells[0]);
      assert IsBlank(cells[0].blanks[0]);
      hide Digits;
      assert (Line(cells) + tail)[0] == cells[0].blanks[0];
    }
  }

  lemma FieldOfCell(pre: string, c: Cell, more: string)
    requires GoodCell(c) && StopsDigits(more, 10)
    ensures var s := pre + c.blanks + Digits(c.n, 10) + more;
      FieldEnd(s, |pre|) == |pre + c.blanks + Digits(c.n, 10)| && FieldValue(s, |pre|) == c.n
  {
    StrtoullOfUtoa(pre, c.blanks, c.n, 10, more);
    hide Digits, Value, RunEnd, SkipBlanks;
  }

  /** Every printed counter is read back, in order. */
  lemma {:induction false} FieldsOfLine(pre: string, cells: seq<Cell>, tail: string)
    requires GoodCells(cells) && StopsDigits(tail, 10)
    ensures Fields(pre + Line(cells) + tail, |pre|, |cells|) == Values(cells)
    decreases cells
  {
    hide *;
    if cells == [] {
      NoFields(pre + Line(cells) + tail, |pre|);
    } else {
      var c, rest := cells[0], cells[1..];
      FirstCell(cells);
      var head := pre + c.blanks + Digits(c.n, 10);
      FieldsOfLine(head, rest, tail);
      SameText(pre, cells, tail);
      var s := head + (Line(rest) + tail);
      assert FieldEnd(s, |pre|) == |head| && FieldValue(s, |pre|) == c.n by {
        RestStops(rest, tail);
        FieldOfCell(pre, c, Line(rest) + tail);
      }
      FieldsStep(s, |pre|, |cells|);
    }
  }

  lemma NoFields(s: string, p: nat)
    requires p <= |s|
    ensures Fields(s, p, 0) == [] == Values([])
  {
  }

  lemma FirstCell(cells: seq<Cell>)
    requires cells != [] && GoodCells(cells)
    ensures GoodCell(cells[0]) && GoodCells(cells[1..]) && Values(cells) == [cells[0].n] + Values(cells[1..])
  {
    hide GoodCell;
  }

  lemma FieldsStep(s: string, p: nat, n: nat)
    requires p <= |s| && n > 0
    ensures Fields(s, p, n) == [FieldValue(s, p)] + Fields(s, FieldEnd(s, p), n - 1)
  {
    hide FieldValue, FieldEnd;
  }

  lemma SameText(pre: string, cells: seq<Cell>, tail: string)
    requires cells != []
    ensures var c := cells[0];
      var s := pre + Line(cells) + tail;
      && s == pre + c.blanks + Digits(c.n, 10) + (Line(cells[1..]) + tail)
      && s == pre + c.blanks + Digits(c.n, 10) + Line(cells[1..]) + tail
  {
    assert Line(cells) == cells[0].blanks + Digits(cells[0].n, 10) + Line(cells[1..]);
    hide *;
    Regroup(pre, cells[0].blanks, Digits(cells[0].n, 10), Line(cells[1..]), tail);
  }

  lemma Regroup<T>(a: seq<T>, b: seq<T>, c: seq<T>, d: seq<T>, e: seq<T>)
    ensures a + (b + c + d) + e == a + b + c + (d + e) == a + b + c + d + e
  {
    AppendAssoc(a, b + c, d);
    AppendAssoc(a, b, c);
    AppendAssoc(a + b + c, d, e);
  }

  lemma {:induction false} LineHasNoNul(cells: seq<Cell>)
    requires GoodCells(cells)
    ensures '\0' !in Line(cells)
  {
    if cells != [] {
      assert GoodCell(cells[0]);
      var d := Digits(cells[0].n, 10);
      assert DigitRun(d, 0, |d|, 10);
      assert '\0' !in d && '\0' !in cells[0].blanks;
      hide Digits;
      LineHasNoNul(cells[1..]);
    }
  }

  lemma PrefixStops(tail: string, cut: string)
    requires StopsDigits(tail, 10) && cut <= tail
    ensures StopsDigits(cut, 10)
  {
  }

  /** `stats` recovers all seven counters from a line of blank-separated numbers, whatever follows. */
  lemma StatsRoundTrip(name: string, cells: seq<Cell>, tail: string)
    requires |cells| == 7 && GoodCells(cells) && cells[0].blanks[0] == ' ' && StopsDigits(tail, 10)
    requires ' ' !in name && '\0' !in name && |name + Line(cells)| <= 255
    ensures var buf := CStr(Take(name + Line(cells) + tail, 255));
      IndexOf(buf, ' ') == |name| < |buf| && Fields(buf, |name|, 7) == Values(cells)
  {
    hide Digits, Fields, CStr;
    var head := name + Line(cells);
    LineHasNoNul(cells);
    var cut := HeadSurvives(head, tail);
    PrefixStops(tail, cut);
    FieldsOfLine(name, cells, cut);
    assert GoodCell(cells[0]);
    assert Line(cells) != [] && Line(cells)[0] == ' ';
    FirstBlank(name, Line(cells), cut);
  }

  lemma FirstBlank(name: string, line: string, rest: string)
    requires ' ' !in name && line != [] && line[0] == ' '
    ensures IndexOf(name + line + rest, ' ') == |name| < |name + line + rest|
  {
    var buf := name + line + rest;
    assert buf[|name|] == ' ' && forall k :: 0 <= k < |name| ==> buf[k] == name[k];
  }

  /** Cutting the buffer loses only what comes behind the counters. */
  lemma HeadSurvives(head: string, tail: string) returns (cut: string)
    requires |head| <= STAT_LIMIT && '\0' !in head
    ensures cut <= tail && CStr(Take(head + tail, STAT_LIMIT)) == head + cut
  {
    var t := Take(tail, STAT_LIMIT - |head|);
    assert Take(head + tail, STAT_LIMIT) == head + t;
    cut := CStr(t);
    var i := IndexOf(t, '\0');
    assert forall k :: 0 <= k < |head| + i ==> (head + t)[k] == if k < |head| then head[k] else t[k - |head|];
    assert i < |t| ==> (head + t)[|head| + i] == '\0';
    assert IndexOf(head + t, '\0') == |head| + i;
    assert (head + t)[..|head| + i] == head + t[..i];
  }
}
