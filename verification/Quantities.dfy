/** `sumQuantities`: exact sums of DECIMAL(14,3) texts in integer thousandths. */
module Quantities {
  import opened Tables

  // ----- the code's own text handling -----

  predicate AllDigits(s: string) {
    forall i :: 0 <= i < |s| ==> '0' <= s[i] <= '9'
  }

  /** `BigInt(s)` for a text of digits; the empty text counts as zero. */
  function Number(s: string): nat
    requires AllDigits(s)
  {
    if s == "" then 0 else 10 * Number(s[..|s| - 1]) + (s[|s| - 1] - '0') as nat
  }

  /** The position of the first `c`, or the length of the text. */
  function Find(s: string, c: char): (i: nat)
    ensures i <= |s|
  {
    if s == "" || s[0] == c then 0 else Find(s[1..], c) + 1
  }

  /** `s.replace('-', '')`: the first dash only. */
  function DropDash(s: string): string {
    var i := Find(s, '-');
    if i < |s| then s[..i] + s[i + 1..] else s
  }

  /** `[whole, frac = ''] = s.split('.')`: what stands after a second point is ignored. */
  function Split(s: string): (string, string) {
    var dot := Find(s, '.');
    if dot == |s| then (s, "") else
      var after := s[dot + 1..];
      (s[..dot], after[..Find(after, '.')])
  }

  function Padded(fraction: string): string {
    (fraction + "000")[..3]
  }

  /** The thousandths of one text; `None` where `BigInt` would throw. */
  function Units(text: string): Option<int> {
    var (whole, fraction) := Split(DropDash(text));
    if !AllDigits(whole) || !AllDigits(Padded(fraction)) then None
    else
      var units := Number(whole) * 1000 + Number(Padded(fraction));
      Some(if text != "" && text[0] == '-' then -units else units)
  }

  function Digit(n: nat): char
    requires n < 10
  {
    '0' + n as char
  }

  function PrintNat(n: nat): string {
    if n < 10 then [Digit(n)] else PrintNat(n / 10) + [Digit(n % 10)]
  }

  function ThreeDigits(f: nat): string
    requires f < 1000
  {
    [Digit(f / 100), Digit(f / 10 % 10), Digit(f % 10)]
  }

  function Print(total: int): string {
    var size := if total < 0 then -total else total;
    (if total < 0 then "-" else "") + PrintNat(size / 1000) + "." + ThreeDigits(size % 1000)
  }

  function Total(units: seq<Option<int>>): Option<int> {
    if units == [] then Some(0)
    else
      var before, last := Total(units[..|units| - 1]), units[|units| - 1];
      if before.None? || last.None? then None else Some(before.value + last.value)
  }

  /** The thousandths of every value; a missing value counts as zero. */
  function AllUnits(values: seq<Option<string>>): seq<Option<int>> {
    seq(|values|, i requires 0 <= i < |values| => Units(if values[i].Some? then values[i].value else "0"))
  }

  method SumQuantities(values: seq<Option<string>>) returns (sum: Option<string>)
    ensures sum == match Total(AllUnits(values)) case None => None case Some(n) => Some(Print(n))
  {
    hide Units, Print;
    ghost var all := AllUnits(values);
    var total := 0;
    for i := 0 to |values|
      invariant Total(all[..i]) == Some(total)
    {
      assert all[..i + 1][..i] == all[..i];
      var units := Units(if values[i].Some? then values[i].value else "0");
      if units.None? {
        NoTotal(all, i + 1);
        return None;
      }
      total := total + units.value;
    }
    assert all[..|values|] == all;
    return Some(Print(total));
  }

  lemma {:induction false} NoTotal(units: seq<Option<int>>, n: nat)
    requires n <= |units| && Total(units[..n]).None?
    ensures Total(units).None?
  {
    if n < |units| {
      assert units[..|units| - 1][..n] == units[..n];
      NoTotal(units[..|units| - 1], n);
    } else {
      assert units[..n] == units;
    }
  }

  // ----- what a decimal text means -----

  /** A decimal numeral by its parts, and the number it denotes. */
  datatype Decimal = Decimal(negative: bool, whole: string, fraction: Option<string>) {
    predicate WellFormed() {
      AllDigits(whole) && (fraction.Some? ==> AllDigits(fraction.value))
    }

    function Text(): string {
      (if negative then "-" else "") + whole + (if fraction.Some? then "." + fraction.value else "")
    }

    function Fraction(): string {
      if fraction.Some? then fraction.value else ""
    }

    ghost function Size(): real
      requires WellFormed()
    {
      Number(whole) as real + Scaled(Fraction())
    }

    ghost function Value(): real
      requires WellFormed()
    {
      if negative then -Size() else Size()
    }

    /** The form a DECIMAL(14,3) column prints. */
    predicate Canonical() {
      && WellFormed()
      && whole != ""
      && (|whole| > 1 ==> whole[0] != '0')
      && fraction.Some? && |fraction.value| == 3
      && !(negative && whole == "0" && fraction.value == "000")
    }
  }

  /** The digits after the point: the first counts tenths, the next hundredths, and so on. */
  ghost function Scaled(s: string): real
    requires AllDigits(s)
  {
    if s == "" then 0.0 else ((s[0] - '0') as int as real + Scaled(s[1..])) / 10.0
  }

  ghost function Sum(ds: seq<Decimal>): real
    requires forall d :: d in ds ==> d.WellFormed()
  {
    if ds == [] then 0.0 else Sum(ds[..|ds| - 1]) + ds[|ds| - 1].Value()
  }

  ghost predicate Thousandths(d: Decimal) {
    d.WellFormed() && |d.Fraction()| <= 3
  }

  function Texts(ds: seq<Decimal>): seq<Option<string>> {
    seq(|ds|, i requires 0 <= i < |ds| => Some(ds[i].Text()))
  }

  // ----- reading a numeral -----

  lemma {:induction false} FindInDigits(s: string, t: string, c: char)
    requires AllDigits(s) && !('0' <= c <= '9')
    ensures Find(s + t, c) == |s| + Find(t, c)
  {
    if s == "" {
      assert s + t == t;
    } else {
      FindInDigits(s[1..], t, c);
      assert (s + t)[1..] == s[1..] + t;
    }
  }

  lemma DropDashOfText(d: Decimal)
    requires d.WellFormed()
    ensures DropDash(d.Text()) == d.(negative := false).Text()
    ensures d.Text() != "" && d.Text()[0] == '-' <==> d.negative
  {
    hide AllDigits;
    var rest := d.(negative := false).Text();
    if d.negative {
      assert d.Text() == "-" + rest;
    } else if d.fraction.None? {
      FindInDigits(d.whole, "", '-');
      assert rest == d.whole + "";
    } else {
      var f := d.fraction.value;
      FindInDigits(f, "", '-');
      assert f + "" == f && ("." + f)[1..] == f;
      FindInDigits(d.whole, "." + f, '-');
      assert rest == d.whole + ("." + f);
    }
  }

  lemma SplitAtDot(d: Decimal)
    requires d.WellFormed() && !d.negative
    ensures Split(d.Text()) == (d.whole, d.Fraction())
  {
    var tail := if d.fraction.Some? then "." + d.fraction.value else "";
    assert d.Text() == d.whole + tail;
    assert d.Text()[..|d.whole|] == d.whole;
    FindInDigits(d.whole, tail, '.');
    if d.fraction.None? {
      assert d.Text() == d.whole;
    } else {
      var f := d.fraction.value;
      assert d.Text()[|d.whole| + 1..] == f;
      FindInDigits(f, "", '.');
      assert f + "" == f && f[..|f|] == f;
    }
  }

  lemma UnitsOfText(d: Decimal)
    requires d.WellFormed()
    ensures AllDigits(Padded(d.Fraction()))
    ensures Units(d.Text()) ==
      Some((if d.negative then -1 else 1) * (Number(d.whole) * 1000 + Number(Padded(d.Fraction()))))
  {
    hide Number;
    var positive := d.(negative := false);
    DropDashOfText(d);
    SplitAtDot(positive);
    PaddedDigits(d.Fraction());
    UnitsOfParts(d.Text(), d.whole, d.Fraction());
  }

  lemma UnitsOfParts(text: string, whole: string, fraction: string)
    requires Split(DropDash(text)) == (whole, fraction)
    requires AllDigits(whole) && AllDigits(Padded(fraction))
    ensures var units := Number(whole) * 1000 + Number(Padded(fraction));
      Units(text) == Some(if text != "" && text[0] == '-' then -units else units)
  {
  }

  lemma PaddedDigits(s: string)
    requires AllDigits(s)
    ensures |Padded(s)| == 3 && AllDigits(Padded(s))
  {
  }

  lemma NumberOfThree(t: string)
    requires AllDigits(t) && |t| == 3
    ensures Number(t) == 100 * (t[0] - '0') as int + 10 * (t[1] - '0') as int + (t[2] - '0') as int
  {
    var two, one := t[..2], t[..1];
    assert two[..1] == one && one[..0] == "";
    assert Number(one) == (t[0] - '0') as int;
    assert Number(two) == 10 * Number(one) + (t[1] - '0') as int;
  }

  lemma ThousandthsOfFraction(s: string)
    requires AllDigits(s) && |s| <= 3
    ensures AllDigits(Padded(s))
    ensures Scaled(s) * 1000.0 == Number(Padded(s)) as real
  {
    hide Number, Scaled;
    PaddedDigits(s);
    assert s == "" ==> Scaled(s) == 0.0 by { ScaledNone(); }
    NumberOfThree(Padded(s));
    if |s| > 0 {
      ScaledStep(s);
      if |s| > 1 {
        ScaledStep(s[1..]);
        if |s| > 2 {
          ScaledStep(s[1..][1..]);
        }
      }
    }
  }

  lemma ScaledNone()
    ensures Scaled("") == 0.0
  {
  }

  lemma ScaledStep(s: string)
    requires AllDigits(s) && s != ""
    ensures AllDigits(s[1..]) && Scaled(s) == ((s[0] - '0') as int as real + Scaled(s[1..])) / 10.0
    ensures |s| == 1 ==> Scaled(s[1..]) == 0.0
  {
  }

  /** Up to three fraction digits, the thousandths read are exactly the number meant. */
  lemma UnitsExact(d: Decimal)
    requires Thousandths(d)
    ensures Units(d.Text()).Some?
    ensures Units(d.Text()).value as real == d.Value() * 1000.0
  {
    UnitsOfText(d);
    ThousandthsOfFraction(d.Fraction());
  }

  // ----- printing a total -----

  predicate Plain(whole: string) {
    AllDigits(whole) && whole != "" && (|whole| > 1 ==> whole[0] != '0')
  }

  lemma {:induction false} PrintNatReads(n: nat)
    ensures Plain(PrintNat(n)) && Number(PrintNat(n)) == n
    ensures n > 0 ==> PrintNat(n)[0] != '0'
  {
    if n >= 10 {
      PrintNatReads(n / 10);
      assert PrintNat(n)[..|PrintNat(n)| - 1] == PrintNat(n / 10);
    } else {
      assert PrintNat(n)[..0] == "" && Number(PrintNat(n)) == n;
    }
  }

  lemma LastDigit(n: nat, c: char)
    requires '0' <= c <= '9'
    ensures var d := (c - '0') as nat; Digit(d) == c && (10 * n + d) / 10 == n && (10 * n + d) % 10 == d
  {
  }

  lemma {:induction false} NumberPrints(whole: string)
    requires Plain(whole)
    ensures PrintNat(Number(whole)) == whole
    ensures whole[0] != '0' ==> Number(whole) > 0
  {
    var init, last := whole[..|whole| - 1], whole[|whole| - 1];
    assert whole == init + [last];
    assert Number(whole) == 10 * Number(init) + (last - '0') as nat;
    LastDigit(Number(init), last);
    if init != "" {
      NumberPrints(init);
    } else {
      assert Number(init) == 0;
    }
  }

  lemma ThreeDigitsRead(f: nat)
    requires f < 1000
    ensures AllDigits(ThreeDigits(f)) && Number(ThreeDigits(f)) == f
  {
    NumberOfThree(ThreeDigits(f));
  }

  /** The numeral a total is printed as. */
  function Printed(total: int): Decimal {
    var size := if total < 0 then -total else total;
    Decimal(total < 0, PrintNat(size / 1000), Some(ThreeDigits(size % 1000)))
  }

  lemma PrintedCanonical(total: int)
    ensures Printed(total).Canonical()
    ensures Print(total) == Printed(total).Text()
  {
    var d := Printed(total);
    var size := if total < 0 then -total else total;
    PrintNatReads(size / 1000);
    ThreeDigitsRead(size % 1000);
    if size / 1000 == 0 && size % 1000 == 0 {
      assert !d.negative;
    } else if size / 1000 == 0 {
      assert Number("000") == 0 by { NumberOfThree("000"); }
    }
  }

  lemma PaddedThree(f: string)
    requires |f| == 3
    ensures Padded(f) == f
  {
  }

  lemma PrintedReads(total: int)
    ensures Units(Print(total)) == Some(total)
  {
    hide Units, Print, PrintNat, ThreeDigits, Padded, Number;
    var size := if total < 0 then -total else total;
    PrintedCanonical(total);
    PaddedThree(ThreeDigits(size % 1000));
    PrintNatReads(size / 1000);
    ThreeDigitsRead(size % 1000);
    UnitsOfText(Printed(total));
  }

  lemma DigitsOfThree(f: string)
    requires AllDigits(f) && |f| == 3
    ensures Number(f) < 1000
    ensures ThreeDigits(Number(f)) == f
  {
    NumberOfThree(f);
    var a, b, c := (f[0] - '0') as int, (f[1] - '0') as int, (f[2] - '0') as int;
    assert Number(f) / 100 == a && Number(f) / 10 % 10 == b && Number(f) % 10 == c;
  }

  lemma PrintedIsIt(d: Decimal, size: nat)
    requires d.Canonical() && size == Number(d.whole) * 1000 + Number(d.Fraction())
    ensures Printed(size * if d.negative then -1 else 1) == d
  {
    hide Number, PrintNat, AllDigits;
    DigitsOfThree(d.Fraction());
    NumberPrints(d.whole);
    assert size / 1000 == Number(d.whole) && size % 1000 == Number(d.Fraction());
    if size == 0 {
      assert d.whole[0] == '0';
      assert d.whole == "0" && d.Fraction() == ThreeDigits(0);
      assert ThreeDigits(0) == "000";
    }
  }

  lemma CanonicalPrints(d: Decimal)
    requires d.Canonical()
    ensures Units(d.Text()).Some? && Printed(Units(d.Text()).value) == d
  {
    hide Number, PrintNat, AllDigits, Units, Padded, Printed;
    UnitsOfText(d);
    PaddedThree(d.Fraction());
    PrintedIsIt(d, Number(d.whole) * 1000 + Number(d.Fraction()));
  }

  // ----- what the sum promises -----

  /** Exact: the text returned denotes the real sum of the numbers given, in the column's own form. */
  lemma SumIsExact(ds: seq<Decimal>)
    requires forall d :: d in ds ==> d.WellFormed() && |d.Fraction()| <= 3
    ensures Total(AllUnits(Texts(ds))).Some?
    ensures var n := Total(AllUnits(Texts(ds))).value;
      Print(n) == Printed(n).Text() && Printed(n).Canonical() && Printed(n).Value() == Sum(ds)
  {
    TotalIsSum(ds);
    var n := Total(AllUnits(Texts(ds))).value;
    PrintedCanonical(n);
    PrintedReads(n);
    UnitsExact(Printed(n));
  }

  lemma {:induction false} TotalIsSum(ds: seq<Decimal>)
    requires forall d :: d in ds ==> d.WellFormed() && |d.Fraction()| <= 3
    ensures Total(AllUnits(Texts(ds))).Some?
    ensures Total(AllUnits(Texts(ds))).value as real == Sum(ds) * 1000.0
  {
    hide Units, Number, Scaled, AllDigits, Decimal.Text, Decimal.Value, Decimal.WellFormed, Decimal.Fraction;
    if ds != [] {
      var init, last := ds[..|ds| - 1], ds[|ds| - 1];
      TotalIsSum(init);
      UnitsExact(last);
      var all := AllUnits(Texts(ds));
      assert all[..|ds| - 1] == AllUnits(Texts(init));
      assert all[|ds| - 1] == Units(last.Text());
    }
  }

  lemma {:induction false} TotalAppend(a: seq<Option<int>>, b: seq<Option<int>>)
    requires Total(a).Some? && Total(b).Some?
    ensures Total(a + b) == Some(Total(a).value + Total(b).value)
  {
    if b == [] {
      assert a + b == a;
    } else {
      TotalAppend(a, b[..|b| - 1]);
      assert (a + b)[..|a + b| - 1] == a + b[..|b| - 1];
    }
  }

  lemma TotalOfOne(u: int)
    ensures Total([Some(u)]) == Some(u)
  {
  }

  /** Summing partial sums is summing everything. */
  lemma SumOfSums(a: seq<Option<string>>, b: seq<Option<string>>)
    requires Total(AllUnits(a)).Some? && Total(AllUnits(b)).Some?
    ensures var partial := [Some(Print(Total(AllUnits(a)).value)), Some(Print(Total(AllUnits(b)).value))];
      Total(AllUnits(partial)) == Total(AllUnits(a + b)) && Total(AllUnits(a + b)).Some?
  {
    hide Units, Print;
    var m, n := Total(AllUnits(a)).value, Total(AllUnits(b)).value;
    TotalAppend(AllUnits(a), AllUnits(b));
    assert AllUnits(a + b) == AllUnits(a) + AllUnits(b);
    PrintedReads(m);
    PrintedReads(n);
    TotalOfTwo(m, n);
    assert AllUnits([Some(Print(m)), Some(Print(n))]) == [Some(m), Some(n)];
  }

  lemma TotalOfTwo(m: int, n: int)
    ensures Total([Some(m), Some(n)]) == Some(m + n)
  {
    TotalOfOne(m);
    assert [Some(m), Some(n)][..1] == [Some(m)];
  }

  lemma {:induction false} TotalWithout(a: seq<Option<int>>, i: nat)
    requires i < |a| && Total(a).Some?
    ensures Total(a[..i] + a[i + 1..]).Some? && a[i].Some?
    ensures Total(a).value == Total(a[..i] + a[i + 1..]).value + a[i].value
  {
    var n := |a| - 1;
    if i == n {
      assert a[..i] + a[i + 1..] == a[..n];
    } else {
      TotalWithout(a[..n], i);
      var rest := a[..i] + a[i + 1..];
      assert rest[..|rest| - 1] == a[..n][..i] + a[..n][i + 1..];
    }
  }

  lemma RemoveOne<T>(b: seq<T>, i: nat)
    requires i < |b|
    ensures multiset(b) == multiset(b[..i] + b[i + 1..]) + multiset{b[i]}
  {
    assert b == b[..i] + [b[i]] + b[i + 1..];
  }

  lemma FindIn<T>(a: seq<T>, b: seq<T>) returns (i: nat)
    requires multiset(a) == multiset(b) && a != []
    ensures i < |b| && b[i] == a[|a| - 1]
    ensures multiset(a[..|a| - 1]) == multiset(b[..i] + b[i + 1..])
  {
    var n := |a| - 1;
    RemoveOne(a, n);
    assert a[n] in multiset(b);
    i :| 0 <= i < |b| && b[i] == a[n];
    RemoveOne(b, i);
    assert a[..n] + a[n + 1..] == a[..n];
    assert multiset(a[..n]) == multiset(a) - multiset{a[n]};
    assert multiset(b[..i] + b[i + 1..]) == multiset(b) - multiset{b[i]};
  }

  /** The order of the values does not matter. */
  lemma {:induction false} TotalAnyOrder(a: seq<Option<int>>, b: seq<Option<int>>)
    requires multiset(a) == multiset(b) && Total(a).Some? && Total(b).Some?
    ensures Total(a) == Total(b)
    decreases |a|
  {
    if a == [] {
      assert |b| == |multiset(b)| == 0;
    } else {
      var i := FindIn(a, b);
      TotalWithout(b, i);
      TotalAnyOrder(a[..|a| - 1], b[..i] + b[i + 1..]);
    }
  }

  /** Fed back alone, a numeral comes out unchanged exactly when it is canonical; so a zero never shows a sign. */
  lemma UnchangedExactly(d: Decimal)
    requires d.WellFormed()
    ensures Total(AllUnits([Some(d.Text())])).Some?
    ensures Print(Total(AllUnits([Some(d.Text())])).value) == d.Text() <==> d.Canonical()
  {
    UnitsOfText(d);
    var n := Units(d.Text()).value;
    TotalOfOne(n);
    assert AllUnits([Some(d.Text())]) == [Some(n)];
    PrintedCanonical(n);
    if d.Canonical() {
      CanonicalPrints(d);
    } else if Print(n) == d.Text() {
      SameTextSameNumeral(Printed(n), d);
      assert false;
    }
  }

  lemma SameTextSameNumeral(c: Decimal, d: Decimal)
    requires c.Canonical() && d.WellFormed() && c.Text() == d.Text()
    ensures c == d
  {
    DropDashOfText(c);
    DropDashOfText(d);
    SplitAtDot(c.(negative := false));
    SplitAtDot(d.(negative := false));
  }

  /** A missing value counts as nothing. */
  lemma NullIsZero(values: seq<Option<string>>)
    requires Total(AllUnits(values)).Some?
    ensures Total(AllUnits(values + [None])) == Total(AllUnits(values))
  {
    hide Units;
    var all := AllUnits(values + [None]);
    assert all[..|values|] == AllUnits(values) && all[|values|] == Units("0");
    ZeroReads();
  }

  lemma ZeroReads()
    ensures Units("0") == Some(0)
  {
    var zero := Decimal(false, "0", None);
    assert zero.Text() == "0";
    UnitsOfText(zero);
    assert Number("0") == 0 && Number(Padded("")) == 0 by {
      assert "0"[..0] == "" && Padded("") == "000" && "000"[..2] == "00" && "00"[..1] == "0";
    }
  }

  /** Digits beyond the third after the point are cut off. */
  lemma FurtherDigitsCut(d: Decimal)
    requires d.WellFormed() && |d.Fraction()| >= 3
    ensures d.(fraction := Some(d.Fraction()[..3])).WellFormed()
    ensures Units(d.Text()) == Units(d.(fraction := Some(d.Fraction()[..3])).Text())
  {
    hide Units;
    var cut := d.(fraction := Some(d.Fraction()[..3]));
    assert AllDigits(cut.Fraction());
    assert Padded(d.Fraction()) == d.Fraction()[..3] == Padded(cut.Fraction());
    UnitsOfText(d);
    UnitsOfText(cut);
  }
}
