/** Core masks of src/gtk4/gui.c: the loops that print them and `is_core_in_mask`, which reads them. */
module CoreMasks {
  import opened Text
  import opened Numbers

  const MASK_LIMIT: nat := 255

  // ---------------------------------------------------------------- reading

  /** The comma-separated parts the reading loop visits. */
  function Parts(mask: string): seq<string>
    decreases |mask|
  {
    if mask == [] then []
    else
      var i := IndexOf(mask, ',');
      [mask[..i]] + Parts(if i == |mask| then [] else mask[i + 1..])
  }

  /** A part is a core or, with a hyphen, a range. */
  predicate PartHolds(part: string, core: int) {
    var h := IndexOf(part, '-');
    if h < |part| then IntOf(part) <= core <= IntOf(part[h + 1..]) else IntOf(part) == core
  }

  predicate InMask(core: int, mask: string) {
    exists i :: 0 <= i < |Parts(Take(mask, MASK_LIMIT))| && PartHolds(Parts(Take(mask, MASK_LIMIT))[i], core)
  }

  /** One part of the mask. */
  method PartMatches(part: string, core: int) returns (r: bool)
    ensures r == PartHolds(part, core)
  {
    hide IntOf;
    var hyphen := IndexOf(part, '-');
    var start := Atoi(part);
    if hyphen < |part| {
      var end := Atoi(part[hyphen + 1..]);
      r := core >= start && core <= end;
    } else {
      r := start == core;
    }
  }

  predicate NoneHolds(parts: seq<string>, core: int) {
    forall i :: 0 <= i < |parts| ==> !PartHolds(parts[i], core)
  }

  /** `is_core_in_mask`. */
  method IsCoreInMask(core: int, mask: string) returns (r: bool)
    ensures r == InMask(core, mask)
  {
    var p := Take(mask, MASK_LIMIT);
    ghost var done := [];
    assert done + Parts(p) == Parts(p);
    while p != []
      invariant done + Parts(p) == Parts(Take(mask, MASK_LIMIT)) && NoneHolds(done, core)
      decreases |p|
    {
      var comma := IndexOf(p, ',');
      var part := p[..comma];
      var rest := if comma == |p| then [] else p[comma + 1..];
      assert Parts(p) == [part] + Parts(rest);
      hide *;
      var hit := PartMatches(part, core);
      assert done + ([part] + Parts(rest)) == done + [part] + Parts(rest);
      if hit {
        HitIsIn(mask, core, done, part, Parts(rest));
        return true;
      }
      NoneHoldsSnoc(done, part, core);
      done, p := done + [part], rest;
    }
    hide PartHolds;
    assert done + Parts([]) == done;
    return false;
  }

  lemma HitIsIn(mask: string, core: int, done: seq<string>, part: string, more: seq<string>)
    requires PartHolds(part, core) && done + [part] + more == Parts(Take(mask, MASK_LIMIT))
    ensures InMask(core, mask)
  {
    hide PartHolds, Parts;
    assert (done + [part] + more)[|done|] == part;
  }

  lemma NoneHoldsSnoc(done: seq<string>, part: string, core: int)
    requires NoneHolds(done, core) && !PartHolds(part, core)
    ensures NoneHolds(done + [part], core)
  {
    hide PartHolds;
  }

  // ---------------------------------------------------------------- printing

  /** Cores joined by commas. */
  function Joined(cores: seq<nat>): string {
    if cores == [] then ""
    else Extend(Joined(cores[..|cores| - 1]), cores[|cores| - 1])
  }

  /** One more core behind a list, with a comma unless it is the first; no bound yet. */
  function Extend(mask: string, core: nat): string {
    mask + (if mask == [] then "" else ",") + Decimal(core)
  }

  /** The cores of one colour among the first `n`. */
  function Chosen(pick: seq<bool>, colour: bool, n: nat): seq<nat>
    requires n <= |pick|
  {
    if n == 0 then [] else Chosen(pick, colour, n - 1) + (if pick[n - 1] == colour then [n - 1] else [])
  }

  /** They are those cores, in order. */
  lemma {:induction false} ChosenHas(pick: seq<bool>, colour: bool, n: nat)
    requires n <= |pick|
    ensures forall c :: c in Chosen(pick, colour, n) <==> 0 <= c < n && pick[c] == colour
    ensures Increasing(Chosen(pick, colour, n))
  {
    if n > 0 {
      ChosenHas(pick, colour, n - 1);
      var c := Chosen(pick, colour, n - 1);
      assert forall i :: 0 <= i < |c| ==> c[i] in c;
    }
  }

  predicate Increasing(cores: seq<nat>) {
    forall i, j :: 0 <= i < j < |cores| ==> cores[i] < cores[j]
  }

  lemma DecimalIsNotEmpty(n: nat)
    ensures Decimal(n) != [] && ',' !in Decimal(n) && '-' !in Decimal(n)
  {
    var d := Digits(n, 10);
    assert DigitRun(d, 0, |d|, 10);
    forall k | 0 <= k < |d| ensures d[k] != ',' && d[k] != '-' {
      assert DigitOf(d[k]) < 10;
    }
  }

  lemma JoinedSnoc(cores: seq<nat>, c: nat)
    ensures Joined(cores + [c]) == Extend(Joined(cores), c)
  {
    assert (cores + [c])[..|cores|] == cores;
  }

  /** The two mask-building loops: bit `i` of `pick` sends core `i` to the cache mask, else to the
      frequency mask. By-Die picks the cores below the second die, Manual the toggled buttons. */
  method BuildMasks(pick: seq<bool>) returns (cache: string, freq: string)
    ensures cache == Take(Joined(Chosen(pick, true, |pick|)), 255)
    ensures freq == Take(Joined(Chosen(pick, false, |pick|)), 255)
  {
    cache, freq := "", "";
    var i := 0;
    assert MaskIs(cache, pick, true, 0) && MaskIs(freq, pick, false, 0);
    while i < |pick|
      invariant 0 <= i <= |pick| && MaskIs(cache, pick, true, i) && MaskIs(freq, pick, false, i)
    {
      hide *;
      if pick[i] {
        cache := AppendCore(cache, pick, i);
        Untouched(freq, pick, false, i);
      } else {
        freq := AppendCore(freq, pick, i);
        Untouched(cache, pick, true, i);
      }
      i := i + 1;
    }
  }

  predicate MaskIs(mask: string, pick: seq<bool>, colour: bool, i: nat)
    requires i <= |pick|
  {
    mask == Take(Joined(Chosen(pick, colour, i)), MASK_LIMIT)
  }

  lemma Untouched(mask: string, pick: seq<bool>, colour: bool, i: nat)
    requires i < |pick| && pick[i] != colour && MaskIs(mask, pick, colour, i)
    ensures MaskIs(mask, pick, colour, i + 1)
  {
    hide Joined;
    ChosenStep(pick, i);
  }

  lemma ChosenStep(pick: seq<bool>, i: nat)
    requires i < |pick|
    ensures Chosen(pick, pick[i], i + 1) == Chosen(pick, pick[i], i) + [i]
    ensures Chosen(pick, !pick[i], i + 1) == Chosen(pick, !pick[i], i)
  {
  }

  /** One bounded append to the mask of the core's colour. */
  method AppendCore(mask: string, pick: seq<bool>, core: nat) returns (mask': string)
    requires core < |pick| && MaskIs(mask, pick, pick[core], core)
    ensures MaskIs(mask', pick, pick[core], core + 1)
  {
    ChosenStep(pick, core);
    BoundedExtend(Chosen(pick, pick[core], core), core);
    hide Joined, Decimal, Chosen;
    mask' := Take(mask + ((if mask == [] then "" else ",") + Decimal(core)), MASK_LIMIT);
  }

  lemma BoundedExtend(cores: seq<nat>, c: nat)
    ensures var t := Take(Joined(cores), MASK_LIMIT);
      Take(t + ((if t == [] then "" else ",") + Decimal(c)), MASK_LIMIT) == Take(Joined(cores + [c]), MASK_LIMIT)
  {
    hide Decimal;
    JoinedSnoc(cores, c);
    var j := Joined(cores);
    var x := (if j == [] then "" else ",") + Decimal(c);
    TakeAppend(j, x, MASK_LIMIT);
    assert Extend(j, c) == j + x;
  }

  // ---------------------------------------------------------------- printing and reading undo each other

  /** A comma between two masks joins their parts. */
  lemma {:induction false} PartsAppend(a: string, b: string)
    requires a != [] && a[|a| - 1] != ','
    ensures Parts(a + "," + b) == Parts(a) + Parts(b)
    decreases |a|
  {
    hide Parts;
    var i := IndexOf(a, ',');
    CommaStays(a, b);
    PartsIs(a);
    if i == |a| {
      assert a[..i] == a;
      OnePart(a);
    } else {
      var first, rest := a[..i], a[i + 1..];
      assert rest != [] && rest[|rest| - 1] == a[|a| - 1];
      PartsAppend(rest, b);
      AppendAssoc([first], Parts(rest), Parts(b));
    }
  }

  lemma PartsSnoc(mask: string, last: string)
    requires mask != [] && last != [] && ',' !in last && mask[|mask| - 1] != ','
    ensures Parts(mask + "," + last) == Parts(mask) + [last]
  {
    hide Parts;
    PartsAppend(mask, last);
    OnePart(last);
  }

  lemma PartsIs(mask: string)
    requires mask != []
    ensures var i := IndexOf(mask, ',');
      Parts(mask) == [mask[..i]] + Parts(if i == |mask| then [] else mask[i + 1..])
  {
  }

  lemma OnePart(s: string)
    requires s != [] && ',' !in s
    ensures Parts(s) == [s]
  {
    assert IndexOf(s, ',') == |s|;
    assert s[..|s|] == s && [s] + Parts([]) == [s];
  }

  lemma CommaStays(mask: string, last: string)
    ensures var i := IndexOf(mask, ',');
      Parts(mask + "," + last) == [mask[..i]] + Parts(if i == |mask| then last else mask[i + 1..] + "," + last)
  {
    CommaFirst(mask, last);
    PartsIs(mask + "," + last);
    hide Parts;
  }

  /** The first comma of a longer text, and what surrounds it. */
  lemma CommaFirst(mask: string, last: string)
    ensures var all, i := mask + "," + last, IndexOf(mask, ',');
      && IndexOf(all, ',') == i < |all| && all[..i] == mask[..i]
      && all[i + 1..] == if i == |mask| then last else mask[i + 1..] + "," + last
  {
    var all := mask + "," + last;
    var i := IndexOf(mask, ',');
    assert forall k :: 0 <= k < i ==> all[k] == mask[k];
    assert all[i] == ',';
  }

  function Numerals(cores: seq<nat>): (r: seq<string>)
    ensures |r| == |cores| && forall i :: 0 <= i < |cores| ==> r[i] == Decimal(cores[i])
  {
    seq(|cores|, i requires 0 <= i < |cores| => Decimal(cores[i]))
  }

  /** Splitting a printed mask yields the printed numbers. */
  lemma {:induction false} PartsOfJoined(cores: seq<nat>)
    ensures Parts(Joined(cores)) == Numerals(cores)
    ensures cores != [] ==> Joined(cores) != [] && Joined(cores)[|Joined(cores)| - 1] != ','
  {
    if cores != [] {
      var n := |cores| - 1;
      var init, last := cores[..n], Decimal(cores[n]);
      PartsOfJoined(init);
      DecimalIsNotEmpty(cores[n]);
      hide Decimal;
      var j := Joined(init);
      assert Numerals(cores) == Numerals(init) + [last];
      if init == [] {
        assert Joined(cores) == "" + "" + last == last;
        OnePart(last);
      } else {
        PartsSnoc(j, last);
      }
    }
  }

  lemma PrintedPart(c: nat, core: int)
    requires c < TWO_31
    ensures PartHolds(Decimal(c), core) <==> c == core
  {
    DecimalIsNotEmpty(c);
    AtoiOfItoa(c, "");
    assert Decimal(c) + "" == Decimal(c);
    hide Decimal, IntOf;
  }

  /** `is_core_in_mask` on a printed list holds exactly for the listed cores. */
  lemma MaskRoundTrip(cores: seq<nat>, core: int)
    requires |Joined(cores)| <= MASK_LIMIT && forall i :: 0 <= i < |cores| ==> cores[i] < TWO_31
    ensures InMask(core, Joined(cores)) <==> core in cores
  {
    PartsOfJoined(cores);
    hide Joined, Parts, PartHolds, Decimal;
    var parts := Numerals(cores);
    assert Parts(Take(Joined(cores), MASK_LIMIT)) == parts;
    forall i | 0 <= i < |parts| ensures PartHolds(parts[i], core) <==> cores[i] == core {
      PrintedPart(cores[i], core);
    }
  }

  /** Every core is in exactly one of the two masks. */
  lemma MasksPartition(pick: seq<bool>, core: nat)
    requires core < |pick| <= TWO_31
    requires |Joined(Chosen(pick, true, |pick|))| <= MASK_LIMIT && |Joined(Chosen(pick, false, |pick|))| <= MASK_LIMIT
    ensures var cache := Take(Joined(Chosen(pick, true, |pick|)), MASK_LIMIT);
      var freq := Take(Joined(Chosen(pick, false, |pick|)), MASK_LIMIT);
      InMask(core, cache) == pick[core] && InMask(core, freq) == !pick[core]
  {
    hide Joined, InMask, Chosen;
    forall colour: bool ensures var cores := Chosen(pick, colour, |pick|);
        InMask(core, Joined(cores)) <==> pick[core] == colour
    {
      var cores := Chosen(pick, colour, |pick|);
      ChosenHas(pick, colour, |pick|);
      forall i | 0 <= i < |cores| ensures cores[i] < TWO_31 {
        assert cores[i] in cores;
      }
      assert |Joined(cores)| <= MASK_LIMIT by { assert colour == true || colour == false; }
      MaskRoundTrip(cores, core);
    }
  }

  /** A part with a hyphen is a range, both ends included. */
  lemma RangePart(a: nat, b: nat, core: int)
    requires a < 2147483648 && b < 2147483648
    ensures PartHolds(Decimal(a) + "-" + Decimal(b), core) <==> a <= core <= b
  {
    var part := Decimal(a) + "-" + Decimal(b);
    hide Decimal, IntOf;
    DecimalIsNotEmpty(a);
    AtoiOfItoa(a, "-" + Decimal(b));
    AtoiOfItoa(b, "");
    assert part[|Decimal(a)|] == '-' && forall k :: 0 <= k < |Decimal(a)| ==> part[k] == Decimal(a)[k];
    assert IndexOf(part, '-') == |Decimal(a)|;
    assert part == Decimal(a) + ("-" + Decimal(b)) && part[|Decimal(a)| + 1..] == Decimal(b) == Decimal(b) + "";
  }

  lemma RangeIsOnePart(a: nat, b: nat)
    ensures var range := Decimal(a) + "-" + Decimal(b);
      Parts(range) == [range] && range != [] && range[|range| - 1] != ','
  {
    DecimalIsNotEmpty(a);
    DecimalIsNotEmpty(b);
    hide Decimal;
    var range := Decimal(a) + "-" + Decimal(b);
    assert ',' !in range;
    OnePart(range);
  }

  /** A comma between two masks joins what they hold. */
  lemma InMaskAppend(a: string, b: string, core: int)
    requires a != [] && a[|a| - 1] != ',' && |a + "," + b| <= 255
    ensures InMask(core, a + "," + b) <==> InMask(core, a) || InMask(core, b)
  {
    PartsAppend(a, b);
    hide PartHolds, Parts;
    assert Take(a + "," + b, MASK_LIMIT) == a + "," + b && Take(a, MASK_LIMIT) == a && Take(b, MASK_LIMIT) == b;
    SomeOfTwo(Parts(a), Parts(b), core);
  }

  lemma SomeOfTwo(x: seq<string>, y: seq<string>, core: int)
    ensures (exists i :: 0 <= i < |x + y| && PartHolds((x + y)[i], core))
      <==> (exists i :: 0 <= i < |x| && PartHolds(x[i], core)) || (exists i :: 0 <= i < |y| && PartHolds(y[i], core))
  {
    hide PartHolds;
    if i :| 0 <= i < |x| && PartHolds(x[i], core) { assert (x + y)[i] == x[i]; }
    if i :| 0 <= i < |y| && PartHolds(y[i], core) { assert (x + y)[|x| + i] == y[i]; }
  }

  /** A range holds the cores between its ends, on its own and behind or before anything else in a list. */
  lemma RangeInMask(pre: string, a: nat, b: nat, post: string, core: int)
    requires a < 2147483648 && b < 2147483648 && pre != "" && pre[|pre| - 1] != ','
    requires |pre + "," + (Decimal(a) + "-" + Decimal(b) + "," + post)| <= 255
    ensures InMask(core, Decimal(a) + "-" + Decimal(b)) <==> a <= core <= b
    ensures InMask(core, pre + "," + (Decimal(a) + "-" + Decimal(b) + "," + post))
      <==> InMask(core, pre) || a <= core <= b || InMask(core, post)
  {
    var range := Decimal(a) + "-" + Decimal(b);
    RangeIsOnePart(a, b);
    RangePart(a, b, core);
    hide Decimal, PartHolds, Parts;
    assert Take(range, MASK_LIMIT) == range;
    assert InMask(core, range) <==> PartHolds([range][0], core);
    hide InMask;
    InMaskAppend(range, post, core);
    InMaskAppend(pre, range + "," + post, core);
  }

  // ---------------------------------------------------------------- how many cores fit

  /** Neither text is cut. */
  predicate BothFit(pick: seq<bool>) {
    |Joined(Chosen(pick, true, |pick|))| <= 255 && |Joined(Chosen(pick, false, |pick|))| <= 255
  }

  /** The start of a numeral denotes a smaller number. */
  lemma {:induction false} NumeralStartIsSmaller(n: nat, t: nat)
    requires 0 < t < |Digits(n, 10)|
    ensures Value(Digits(n, 10)[..t], 10) < n
    decreases n
  {
    DivShrinks(n, 10);
    var ds, high := Digits(n, 10), Digits(n / 10, 10);
    assert ds[..|high|] == high;
    if t == |high| {
      ValueOfDigits(n / 10, 10);
    } else {
      NumeralStartIsSmaller(n / 10, t);
      assert ds[..t] == high[..t];
    }
  }

  /** So a core whose numeral is cut is not read as itself, nor as a later one. */
  lemma CutPart(c: nat, t: nat, x: nat)
    requires c <= x && c < TWO_31 && 0 < t < |Decimal(c)|
    ensures !PartHolds(Decimal(c)[..t], x)
  {
    var d := Decimal(c)[..t];
    NumeralStartIsSmaller(c, t);
    DecimalIsNotEmpty(c);
    assert DigitRun(Digits(c, 10), 0, |Digits(c, 10)|, 10);
    assert forall k :: 0 <= k < |d| ==> d[k] == Digits(c, 10)[k];
    NumeralStart(c, 10);
    assert '-' !in d;
    hide Digits, Value;
    ReadsDigits(d);
  }

  lemma ReadsDigits(d: string)
    requires d != [] && DigitRun(d, 0, |d|, 10) && Value(d, 10) < TWO_31
    ensures IntOf(d) == Value(d, 10)
  {
    assert !IsBlank(d[0]) && d[0] != '-' by { assert DigitOf(d[0]) < 10; }
    SkipTo(d, 0, 0);
    RunEndFrom(d, 0, |d|, 10);
    assert d[0..|d|] == d;
    hide Value, SkipBlanks, RunEnd;
  }

  lemma TrailingComma(mask: string)
    requires mask != [] && mask[|mask| - 1] != ','
    ensures Parts(mask + ",") == Parts(mask)
  {
    PartsAppend(mask, "");
    assert mask + "," + "" == mask + "," && Parts("") == [];
    hide Parts;
    assert Parts(mask) + [] == Parts(mask);
  }

  /** What is left of a list that is cut behind `init`, inside the numeral of `c`. */
  lemma CutParts(init: seq<nat>, c: nat, r: nat)
    requires init != [] && r < 1 + |Decimal(c)|
    ensures var mask := Joined(init) + ("," + Decimal(c))[..r];
      Parts(mask) == if r <= 1 then Numerals(init) else Numerals(init) + [Decimal(c)[..r - 1]]
  {
    var j, d := Joined(init), Decimal(c);
    PartsOfJoined(init);
    DecimalIsNotEmpty(c);
    hide Joined, Decimal, Parts, Numerals;
    if r == 0 {
      assert ("," + d)[..0] == "" && j + "" == j;
    } else if r == 1 {
      assert ("," + d)[..1] == ",";
      TrailingComma(j);
    } else {
      var last := d[..r - 1];
      assert ("," + d)[..r] == "," + last;
      AppendAssoc(j, ",", last);
      PartsSnoc(j, last);
    }
  }

  /** The last core of a list that is cut is never read back, nor is a later one. */
  lemma {:induction false} CutLoses(cores: seq<nat>, x: nat)
    requires Increasing(cores) && forall i :: 0 <= i < |cores| ==> cores[i] <= x && cores[i] < TWO_31
    requires |Joined(cores)| > MASK_LIMIT
    ensures !InMask(x, Take(Joined(cores), MASK_LIMIT))
    decreases |cores|
  {
    var n := |cores| - 1;
    var init, c := cores[..n], cores[n];
    SplitLast(cores);
    JoinedSnoc(init, c);
    hide InMask;
    if |Joined(init)| > MASK_LIMIT {
      CutLoses(init, x);
      TakePrefix(Joined(init), Joined(cores));
    } else {
      CutHere(init, c, x);
    }
  }

  lemma TakePrefix(a: string, b: string)
    requires a <= b && |a| > MASK_LIMIT
    ensures Take(a, MASK_LIMIT) == Take(b, MASK_LIMIT)
  {
  }

  lemma CutHere(init: seq<nat>, c: nat, x: nat)
    requires forall i :: 0 <= i < |init| ==> init[i] < c
    requires c <= x && c < TWO_31 && |Joined(init)| <= MASK_LIMIT < |Extend(Joined(init), c)|
    ensures !InMask(x, Take(Extend(Joined(init), c), MASK_LIMIT))
  {
    var j := Joined(init);
    assert |Decimal(c)| <= 20 by { DigitsFit(c, 10); }
    hide Decimal, Joined, InMask, Parts, PartHolds, Numerals;
    assert init != [] by { NoCores(); }
    PartsOfJoined(init);
    var r := MASK_LIMIT - |j|;
    CutText(j, c, r);
    CutParts(init, c, r);
    NotAmong(init, c, x);
    hide NoneHolds;
    if r > 1 {
      CutPart(c, r - 1, x);
      NoneHoldsSnoc(Numerals(init), Decimal(c)[..r - 1], x);
    }
    NoPartHolds(j + ("," + Decimal(c))[..r], x);
  }

  lemma CutText(j: string, c: nat, r: nat)
    requires j != [] && |j| + r == MASK_LIMIT < |Extend(j, c)|
    ensures r < 1 + |Decimal(c)| && Take(Extend(j, c), MASK_LIMIT) == j + ("," + Decimal(c))[..r]
  {
    hide Decimal;
    var tail := "," + Decimal(c);
    assert Extend(j, c) == j + tail;
    assert (j + tail)[..MASK_LIMIT] == j + tail[..r];
  }

  lemma NoPartHolds(mask: string, x: int)
    requires |mask| <= MASK_LIMIT && NoneHolds(Parts(mask), x)
    ensures !InMask(x, mask)
  {
    hide Parts, PartHolds;
    assert Take(mask, MASK_LIMIT) == mask;
  }

  lemma NoCores()
    ensures Joined([]) == []
  {
  }

  lemma NotAmong(init: seq<nat>, c: nat, x: nat)
    requires c <= x && c < TWO_31 && forall i :: 0 <= i < |init| ==> init[i] < c
    ensures NoneHolds(Numerals(init), x)
  {
    hide PartHolds, Decimal;
    forall i | 0 <= i < |init| ensures !PartHolds(Numerals(init)[i], x) {
      PrintedPart(init[i], x);
    }
  }

  /** The two masks separate this choice of cores if and only if both texts fit: of a list that is cut, the
      last core is lost. */
  lemma SeparatedIff(pick: seq<bool>)
    requires |pick| <= TWO_31
    ensures (forall core: nat :: core < |pick| ==> Separated(pick, core)) <==> BothFit(pick)
  {
    if BothFit(pick) {
      hide Joined, Chosen, InMask;
      forall core: nat | core < |pick| ensures Separated(pick, core) {
        MasksPartition(pick, core);
      }
    } else {
      var colour := |Joined(Chosen(pick, true, |pick|))| > MASK_LIMIT;
      var core := LastIsLost(pick, colour);
      hide Joined, Chosen, InMask;
      assert !Separated(pick, core);
    }
  }

  lemma LastIsLost(pick: seq<bool>, colour: bool) returns (core: nat)
    requires |pick| <= TWO_31 && |Joined(Chosen(pick, colour, |pick|))| > MASK_LIMIT
    ensures core < |pick| && pick[core] == colour
    ensures !InMask(core, Take(Joined(Chosen(pick, colour, |pick|)), MASK_LIMIT))
  {
    hide Joined, Chosen, InMask, Increasing;
    var cores := Chosen(pick, colour, |pick|);
    NoCores();
    LastChosen(pick, colour);
    core := cores[|cores| - 1];
    CutLoses(cores, core);
  }

  lemma LastChosen(pick: seq<bool>, colour: bool)
    requires Chosen(pick, colour, |pick|) != []
    ensures var cores := Chosen(pick, colour, |pick|);
      var last := cores[|cores| - 1];
      && Increasing(cores) && last < |pick| && pick[last] == colour
      && forall i :: 0 <= i < |cores| ==> cores[i] <= last
  {
    ChosenHas(pick, colour, |pick|);
    hide Chosen;
    var cores := Chosen(pick, colour, |pick|);
    assert cores[|cores| - 1] in cores;
  }

  /** Core `core` is in the mask of its colour and not in the other. */
  predicate Separated(pick: seq<bool>, core: nat)
    requires core < |pick|
  {
    var cache := Take(Joined(Chosen(pick, true, |pick|)), MASK_LIMIT);
    var freq := Take(Joined(Chosen(pick, false, |pick|)), MASK_LIMIT);
    InMask(core, cache) == pick[core] && InMask(core, freq) == !pick[core]
  }

  /** The bytes of the first `n` numerals, each with a comma. */
  function Room(n: nat): nat {
    if n <= 10 then 2 * n else 3 * n - 10
  }

  lemma TwoDigits(c: nat)
    requires c < 100
    ensures |Decimal(c)| == if c < 10 then 1 else 2
  {
    assert Pow(10, 2) == 100;
    DigitsLength(c, 10, 1);
  }

  lemma JoinedGrows(cores: seq<nat>, c: nat)
    ensures |Joined(cores + [c])| == |Joined(cores)| + (if Joined(cores) == [] then 0 else 1) + |Decimal(c)|
  {
    hide Decimal;
    JoinedSnoc(cores, c);
  }

  /** The cores of one colour take no more room than all of them. */
  lemma {:induction false} ChosenFits(pick: seq<bool>, colour: bool, n: nat)
    requires n <= |pick| && n <= 100
    ensures |Joined(Chosen(pick, colour, n))| == 0 || |Joined(Chosen(pick, colour, n))| + 1 <= Room(n)
  {
    if n > 0 {
      ChosenFits(pick, colour, n - 1);
      TwoDigits(n - 1);
      JoinedGrows(Chosen(pick, colour, n - 1), n - 1);
      ChosenStep(pick, n - 1);
      hide Joined, Decimal, Chosen;
    }
  }

  function Upto(n: nat): (cores: seq<nat>)
    ensures |cores| == n && forall i :: 0 <= i < n ==> cores[i] == i
  {
    seq(n, i => i)
  }

  lemma UptoStep(n: nat)
    ensures Upto(n + 1) == Upto(n) + [n]
  {
  }

  /** All the cores on one side fill that room, but for the last comma. */
  lemma {:induction false} UptoLength(n: nat)
    requires 1 <= n <= 100
    ensures |Joined(Upto(n))| + 1 == Room(n)
  {
    UptoStep(n - 1);
    TwoDigits(n - 1);
    JoinedGrows(Upto(n - 1), n - 1);
    if n > 1 {
      UptoLength(n - 1);
    } else {
      assert Upto(0) == [];
    }
    hide Decimal, Upto;
  }

  lemma {:induction false} UptoPrefix(m: nat, n: nat)
    requires m <= n
    ensures Joined(Upto(m)) <= Joined(Upto(n))
    decreases n
  {
    if m < n {
      hide Joined, Upto, Extend;
      UptoPrefix(m, n - 1);
      UptoStep(n - 1);
      JoinedSnoc(Upto(n - 1), n - 1);
      StillPrefix(Joined(Upto(m)), Joined(Upto(n - 1)), n - 1);
    }
  }

  lemma StillPrefix(p: string, mask: string, core: nat)
    requires p <= mask
    ensures p <= Extend(mask, core)
  {
    hide Decimal;
    assert mask <= Extend(mask, core);
  }

  /** From 89 cores on, a mask of all of them is cut inside core 88, which then reads as core 8. */
  lemma CutMask(n: nat)
    requires n >= 89
    ensures Take(Joined(Upto(n)), MASK_LIMIT) == Joined(Upto(88) + [8])
  {
    Eights();
    UptoStep(88);
    hide Joined, Upto, Decimal, Digits;
    UptoLength(88);
    UptoPrefix(89, n);
    JoinedSnoc(Upto(88), 88);
    JoinedSnoc(Upto(88), 8);
    CutInside(Joined(Upto(88)), Joined(Upto(n)));
  }

  lemma Eights()
    ensures Decimal(88) == "88" && Decimal(8) == "8"
  {
    assert Digits(8, 10) == "8";
    assert Digits(88, 10) == Digits(8, 10) + "8";
  }

  lemma CutInside(j: string, all: string)
    requires |j| == 253 && j + "," + "88" <= all
    ensures Take(all, MASK_LIMIT) == j + "," + "8"
  {
    var text := j + "," + "88";
    assert all[..255] == all[..|text|][..255] == text[..255] == j + "," + "8";
  }

  lemma {:induction false} ChosenAll(pick: seq<bool>, n: nat)
    requires n <= |pick| && forall i :: 0 <= i < n ==> pick[i]
    ensures Chosen(pick, true, n) == Upto(n)
  {
    if n == 0 {
      assert Upto(0) == [];
    } else {
      ChosenStep(pick, n - 1);
      hide Chosen, Upto;
      ChosenAll(pick, n - 1);
      UptoStep(n - 1);
    }
  }

  /** Core 88 of 89 or more, all in the cache mask, is in neither mask. */
  lemma Core88IsLost(pick: seq<bool>)
    requires 89 <= |pick| && forall i :: 0 <= i < |pick| ==> pick[i]
    ensures !InMask(88, Take(Joined(Chosen(pick, true, |pick|)), MASK_LIMIT))
  {
    var cores := Upto(88) + [8];
    Without88();
    hide Joined, Chosen, InMask, Upto;
    ChosenAll(pick, |pick|);
    CutMask(|pick|);
    MaskRoundTrip(cores, 88);
  }

  lemma Without88()
    ensures var cores := Upto(88) + [8];
      88 !in cores && forall i :: 0 <= i < |cores| ==> cores[i] < TWO_31
  {
  }

  /** The two masks separate every choice of `n` cores if and only if there are at most 88. */
  lemma AlwaysSeparatedIff(n: nat)
    ensures (forall pick: seq<bool>, core: nat :: |pick| == n && core < n ==> Separated(pick, core)) <==> n <= 88
  {
    hide Separated;
    if n <= 88 {
      forall pick: seq<bool>, core: nat | |pick| == n && core < n ensures Separated(pick, core) {
        SeparatedUpTo88(pick, core);
      }
    } else {
      var pick := seq(n, _ => true);
      NotSeparated(pick);
      assert !Separated(pick, 88);
    }
  }

  lemma SeparatedUpTo88(pick: seq<bool>, core: nat)
    requires core < |pick| <= 88
    ensures Separated(pick, core)
  {
    hide Joined, Chosen, InMask;
    ChosenFits(pick, true, |pick|);
    ChosenFits(pick, false, |pick|);
    MasksPartition(pick, core);
  }

  lemma NotSeparated(pick: seq<bool>)
    requires 89 <= |pick| && forall i :: 0 <= i < |pick| ==> pick[i]
    ensures !Separated(pick, 88)
  {
    hide Joined, Chosen, InMask;
    Core88IsLost(pick);
  }
}
