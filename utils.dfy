/** `parseDDMMYYYY` of `src/lib/utils.ts`: split on `-` or `/`, read day,
    month and year with `Number`, and build `new Date(year, month - 1, day)`. */
module Utils {
  import opened Wrappers
  import opened Text
  import opened NumberCoercion
  import opened BankTypes

  predicate IsDateSeparator(c: char) { c == '-' || c == '/' }

  /** Index of the first `-` or `/`, or `|s|`. */
  function SeparatorIndex(s: string): (k: nat)
    ensures k <= |s|
    ensures k < |s| ==> IsDateSeparator(s[k])
    ensures forall i :: 0 <= i < k ==> !IsDateSeparator(s[i])
  {
    if s == [] then 0 else if IsDateSeparator(s[0]) then 0 else 1 + SeparatorIndex(s[1..])
  }

  /** `s.split(/[-/]/)`. */
  function SplitDateFields(s: string): (fields: seq<string>)
    ensures |fields| >= 1
    decreases |s|
  {
    var k := SeparatorIndex(s);
    if k == |s| then [s] else [s[..k]] + SplitDateFields(s[k + 1..])
  }

  /** None is the Invalid Date: a missing field, or one that `Number` reads
      as NaN, makes one of the constructor arguments NaN. */
  function ParseDDMMYYYY(s: string): Option<Date> {
    DateOfFields(SplitDateFields(s))
  }

  /** `const [day, month, year] = fields.map(Number)` and the constructor
      call, which truncates each argument toward zero; `month - 1` is taken
      before the truncation. */
  function DateOfFields(f: seq<string>): Option<Date> {
    if |f| < 3 then None
    else
      var day, month, year := NumberOf(f[0]), NumberOf(f[1]), NumberOf(f[2]);
      if day.Some? && month.Some? && year.Some?
      then Some(Date(Truncate(year.value), Truncate(MinusOne(month.value)), Truncate(day.value)))
      else None
  }

  predicate NoSeparator(s: string) {
    forall i :: 0 <= i < |s| ==> !IsDateSeparator(s[i])
  }

  lemma SplitOfField(a: string)
    requires NoSeparator(a)
    ensures SplitDateFields(a) == [a]
  {
  }

  lemma SplitOfFieldThen(s: string, a: string, c: char, rest: string)
    requires NoSeparator(a) && IsDateSeparator(c) && s == a + [c] + rest
    ensures SplitDateFields(s) == [a] + SplitDateFields(rest)
  {
    assert s[|a|] == c;
    assert SeparatorIndex(s) == |a|;
    assert s[..|a|] == a;
    assert s[|a| + 1..] == rest;
  }

  /** Splitting `d<sep>m<sep>y` gives back the three fields, whichever of the
      two separators is used at each place. */
  lemma SplitOfThreeFields(d: string, m: string, y: string, s1: char, s2: char)
    requires NoSeparator(d) && NoSeparator(m) && NoSeparator(y)
    requires IsDateSeparator(s1) && IsDateSeparator(s2)
    ensures SplitDateFields(d + [s1] + m + [s2] + y) == [d, m, y]
  {
    var s := d + [s1] + m + [s2] + y;
    var tail := m + [s2] + y;
    assert s == d + [s1] + tail;
    SplitOfFieldThen(s, d, s1, tail);
    SplitOfFieldThen(tail, m, s2, y);
    SplitOfField(y);
  }

  /** The first field is the day, the second the 1-based month (stored
      0-based), the third the year; `-` and `/` are interchangeable. */
  lemma ParseDDMMYYYYFields(d: string, m: string, y: string, s1: char, s2: char)
    requires NoSeparator(d) && NoSeparator(m) && NoSeparator(y)
    requires IsDateSeparator(s1) && IsDateSeparator(s2)
    ensures ParseDDMMYYYY(d + [s1] + m + [s2] + y)
            == (if NumberOf(d).Some? && NumberOf(m).Some? && NumberOf(y).Some?
                then Some(Date(Truncate(NumberOf(y).value), Truncate(MinusOne(NumberOf(m).value)), Truncate(NumberOf(d).value)))
                else None)
  {
    var f := SplitDateFields(d + [s1] + m + [s2] + y);
    SplitOfThreeFields(d, m, y, s1, s2);
    DateOfThreeFields(f);
    assert f[0] == d && f[1] == m && f[2] == y;
  }

  lemma DateOfThreeFields(f: seq<string>)
    requires |f| == 3
    ensures DateOfFields(f)
            == (if NumberOf(f[0]).Some? && NumberOf(f[1]).Some? && NumberOf(f[2]).Some?
                then Some(Date(Truncate(NumberOf(f[2]).value), Truncate(MinusOne(NumberOf(f[1]).value)), Truncate(NumberOf(f[0]).value)))
                else None)
  {
  }

  /** `02-03-2024` and `02/03/2024` are the same date. */
  lemma SeparatorsAreInterchangeable(d: string, m: string, y: string)
    requires NoSeparator(d) && NoSeparator(m) && NoSeparator(y)
    ensures ParseDDMMYYYY(d + "-" + m + "-" + y) == ParseDDMMYYYY(d + "/" + m + "/" + y)
  {
    ParseDDMMYYYYFields(d, m, y, '-', '-');
    ParseDDMMYYYYFields(d, m, y, '/', '/');
  }

  /** A field that `Number` reads as NaN gives an Invalid Date, which every
      caller skips. */
  lemma NonNumericFieldIsInvalid(d: string, m: string, y: string, s1: char, s2: char)
    requires NoSeparator(d) && NoSeparator(m) && NoSeparator(y)
    requires IsDateSeparator(s1) && IsDateSeparator(s2)
    requires NumberOf(d).None? || NumberOf(m).None? || NumberOf(y).None?
    ensures ParseDDMMYYYY(d + [s1] + m + [s2] + y) == None
  {
    ParseDDMMYYYYFields(d, m, y, s1, s2);
  }

  /** A month written as a name, such as `02-Jan-2024`, has no digit and
      makes the date invalid. */
  lemma MonthNameIsInvalid(d: string, m: string, y: string)
    requires NoSeparator(d) && NoSeparator(m) && NoSeparator(y)
    requires Trim(m) != [] && forall i :: 0 <= i < |Trim(m)| ==> !IsDigit(Trim(m)[i])
    ensures ParseDDMMYYYY(d + "-" + m + "-" + y) == None
  {
    NoDigitIsNaN(m);
    NonNumericFieldIsInvalid(d, m, y, '-', '-');
  }

  /** A day field that `Number` reads as `v`, in front of a digit month and
      year, gives the date with day `Truncate(v)`. */
  lemma DayFieldReads(x: string, m: string, y: string, v: Decimal)
    requires NoSeparator(x) && AllDigits(m) && AllDigits(y) && NumberOf(x) == Some(v)
    ensures ParseDDMMYYYY(x + "-" + m + "-" + y) == Some(Date(DigitsValue(y), DigitsValue(m) - 1, Truncate(v)))
  {
    DayFieldOf(x, m, y, v);
    WholeFieldsTruncate(x, m, y, v, ParseDDMMYYYY(x + ['-'] + m + ['-'] + y));
  }

  lemma DayFieldOf(x: string, m: string, y: string, v: Decimal)
    requires NoSeparator(x) && AllDigits(m) && AllDigits(y) && NumberOf(x) == Some(v)
    ensures ParseDDMMYYYY(x + ['-'] + m + ['-'] + y)
            == Some(Date(Truncate(Decimal(DigitsValue(y), 0)), Truncate(MinusOne(Decimal(DigitsValue(m), 0))), Truncate(v)))
  {
    DigitsHaveNoSeparator(m);
    DigitsHaveNoSeparator(y);
    NumberOfDigits(m);
    NumberOfDigits(y);
    ParseDDMMYYYYFields(x, m, y, '-', '-');
  }

  lemma WholeFieldsTruncate(x: string, m: string, y: string, v: Decimal, r: Option<Date>)
    requires AllDigits(m) && AllDigits(y)
    requires r == Some(Date(Truncate(Decimal(DigitsValue(y), 0)), Truncate(MinusOne(Decimal(DigitsValue(m), 0))), Truncate(v)))
    ensures r == Some(Date(DigitsValue(y), DigitsValue(m) - 1, Truncate(v)))
  {
    WholeTruncates(DigitsValue(m));
    WholeTruncates(DigitsValue(m) - 1);
    WholeTruncates(DigitsValue(y));
  }

  /** `Number` reads a sign: a day written `+2` is day 2. */
  lemma PlusSignedDay(d: string, m: string, y: string)
    requires AllDigits(d) && d != [] && AllDigits(m) && AllDigits(y)
    ensures ParseDDMMYYYY("+" + d + "-" + m + "-" + y) == Some(Date(DigitsValue(y), DigitsValue(m) - 1, DigitsValue(d)))
  {
    var v := PlusReading(d);
    DayFieldReads("+" + d, m, y, v);
  }

  /** What `Number` reads from `+d`, which truncates to `d`'s value. */
  lemma PlusReading(d: string) returns (v: Decimal)
    requires AllDigits(d) && d != []
    ensures NumberOf("+" + d) == Some(v) && Truncate(v) == DigitsValue(d) && NoSeparator("+" + d)
  {
    NumberOfSigned('+', d);
    assert "+" + d == ['+'] + d;
    v := Decimal(DigitsValue(d), 0);
    WholeTruncates(DigitsValue(d));
    DigitsHaveNoSeparator(d);
    NoSeparatorAround([], '+', d);
  }

  /** `Number` reads a decimal fraction and the constructor drops it: a day
      written `2.75` is day 2. */
  lemma FractionalDayIsTruncated(w: string, f: string, m: string, y: string)
    requires AllDigits(w) && w != [] && AllDigits(f) && AllDigits(m) && AllDigits(y)
    ensures ParseDDMMYYYY(w + "." + f + "-" + m + "-" + y) == Some(Date(DigitsValue(y), DigitsValue(m) - 1, DigitsValue(w)))
  {
    var v := FractionReading(w, f);
    NoSeparatorAround(w, '.', f);
    DayFieldReads(w + "." + f, m, y, v);
  }

  /** What `Number` reads from `w.f`, which truncates to `w`. */
  lemma FractionReading(w: string, f: string) returns (v: Decimal)
    requires AllDigits(w) && w != [] && AllDigits(f)
    ensures NumberOf(w + "." + f) == Some(v) && Truncate(v) == DigitsValue(w)
  {
    v := Decimal(DigitsValue(w) * Pow10(|f|) + DigitsValue(f), -|f|);
    TruncateFraction(w, f);
    FractionNumber(w, f, v);
  }

  lemma FractionNumber(w: string, f: string, v: Decimal)
    requires AllDigits(w) && w != [] && AllDigits(f)
    requires v == Decimal(DigitsValue(w) * Pow10(|f|) + DigitsValue(f), -|f|)
    ensures NumberOf(w + "." + f) == Some(v)
  {
    NumberOfFraction(w, f);
  }

  /** `Number` reads an exponent: a day written `1e1` is day 10. */
  lemma ExponentDay(d: string, e: string, m: string, y: string)
    requires AllDigits(d) && d != [] && AllDigits(e) && e != [] && AllDigits(m) && AllDigits(y)
    ensures ParseDDMMYYYY(d + "e" + e + "-" + m + "-" + y)
            == Some(Date(DigitsValue(y), DigitsValue(m) - 1, DigitsValue(d) * Pow10(DigitsValue(e))))
  {
    NumberOfExponent(d, e);
    NoSeparatorAround(d, 'e', e);
    assert Truncate(Decimal(DigitsValue(d), DigitsValue(e))) == DigitsValue(d) * Pow10(DigitsValue(e));
    DayFieldReads(d + "e" + e, m, y, Decimal(DigitsValue(d), DigitsValue(e)));
  }

  /** `Number` reads `0x`, `0o` and `0b` integers: a day written `0x1f` is
      day 31. */
  lemma RadixDay(c: char, ds: string, m: string, y: string)
    requires c in "xXoObB" && ds != [] && AllRadixDigits(ds, Radix(c)) && AllDigits(m) && AllDigits(y)
    ensures ParseDDMMYYYY("0" + [c] + ds + "-" + m + "-" + y)
            == Some(Date(DigitsValue(y), DigitsValue(m) - 1, RadixValue(ds, Radix(c))))
  {
    var v := RadixReading(c, ds);
    RadixFieldHasNoSeparator(c, ds);
    DayFieldReads("0" + [c] + ds, m, y, v);
  }

  /** What `Number` reads from `0x…`, `0o…` or `0b…`. */
  lemma RadixReading(c: char, ds: string) returns (v: Decimal)
    requires c in "xXoObB" && ds != [] && AllRadixDigits(ds, Radix(c))
    ensures NumberOf("0" + [c] + ds) == Some(v) && Truncate(v) == RadixValue(ds, Radix(c))
  {
    NumberOfRadix(c, ds);
    v := Decimal(RadixValue(ds, Radix(c)), 0);
    WholeTruncates(RadixValue(ds, Radix(c)));
  }

  lemma RadixFieldHasNoSeparator(c: char, ds: string)
    requires c in "xXoObB" && AllRadixDigits(ds, Radix(c))
    ensures NoSeparator("0" + [c] + ds)
  {
    RadixDigitsHaveNoSeparator(ds, Radix(c));
    NoSeparatorAround("0", c, ds);
  }

  /** The month is truncated after one is subtracted: a month written `0.5`
      (`z` is the whole part, all zeros) is January, since -0.5 truncated
      toward zero is 0, not December of the year before. */
  lemma FractionalMonthBelowOne(d: string, z: string, f: string, y: string)
    requires AllDigits(d) && AllDigits(y)
    requires AllDigits(z) && z != [] && DigitsValue(z) == 0
    requires AllDigits(f) && DigitsValue(f) > 0
    ensures ParseDDMMYYYY(d + "-" + z + "." + f + "-" + y) == Some(Date(DigitsValue(y), 0, DigitsValue(d)))
  {
    var v := MonthBelowOne(z, f);
    NoSeparatorAround(z, '.', f);
    MonthFieldReads(d, z + "." + f, y, v);
    MiddleJoin(d, "-", z, ".", f, y);
  }

  lemma MiddleJoin(d: string, s: string, z: string, p: string, f: string, y: string)
    ensures d + s + z + p + f + s + y == d + s + (z + p + f) + s + y
  {
  }

  /** A month field that `Number` reads as `v`, between a digit day and
      year, gives the date with month `Truncate(MinusOne(v))`. */
  lemma MonthFieldReads(d: string, x: string, y: string, v: Decimal)
    requires AllDigits(d) && NoSeparator(x) && AllDigits(y) && NumberOf(x) == Some(v)
    ensures ParseDDMMYYYY(d + "-" + x + "-" + y) == Some(Date(DigitsValue(y), Truncate(MinusOne(v)), DigitsValue(d)))
  {
    DigitsHaveNoSeparator(d);
    DigitsHaveNoSeparator(y);
    NumberOfDigits(d);
    NumberOfDigits(y);
    WholeTruncates(DigitsValue(d));
    WholeTruncates(DigitsValue(y));
    ParseDDMMYYYYFields(d, x, y, '-', '-');
  }

  /** What `Number` reads from `z.f` with `z` all zeros, which less one
      truncates to 0 when `f` is not all zeros. */
  lemma MonthBelowOne(z: string, f: string) returns (v: Decimal)
    requires AllDigits(z) && z != [] && DigitsValue(z) == 0
    requires AllDigits(f) && DigitsValue(f) > 0
    ensures NumberOf(z + "." + f) == Some(v) && Truncate(MinusOne(v)) == 0
  {
    v := Decimal(DigitsValue(f), -|f|);
    ZeroFractionNumber(z, f, v);
    FractionLessOne(f, v);
  }

  lemma FractionLessOne(f: string, v: Decimal)
    requires AllDigits(f) && DigitsValue(f) > 0 && v == Decimal(DigitsValue(f), -|f|)
    ensures Truncate(MinusOne(v)) == 0
  {
    DigitsBelowPow10(f);
    LessOneOfFraction(DigitsValue(f), |f|, Pow10(|f|));
  }

  lemma ZeroFractionNumber(z: string, f: string, v: Decimal)
    requires AllDigits(z) && DigitsValue(z) == 0 && z != []
    requires AllDigits(f) && v == Decimal(DigitsValue(f), -|f|)
    ensures NumberOf(z + "." + f) == Some(v)
  {
    var u := Decimal(DigitsValue(z) * Pow10(|f|) + DigitsValue(f), -|f|);
    assert u == v;
    FractionNumber(z, f, u);
  }

  lemma LessOneOfFraction(c: nat, k: nat, p: nat)
    requires 0 < c < p && k > 0 && p == Pow10(k)
    ensures Truncate(MinusOne(Decimal(c, -(k as int)))) == 0
  {
    assert MinusOne(Decimal(c, -(k as int))) == Decimal(c - p, -(k as int));
    DivOfScaled(0, p - c, p);
    assert Truncate(Decimal(c - p, -(k as int))) == -((p - c) / p);
  }

  /** `w.f` truncates to `w`. */
  lemma TruncateFraction(w: string, f: string)
    requires AllDigits(w) && AllDigits(f)
    ensures Truncate(Decimal(DigitsValue(w) * Pow10(|f|) + DigitsValue(f), -|f|)) == DigitsValue(w)
  {
    DigitsBelowPow10(f);
    ScaledTruncates(DigitsValue(w), DigitsValue(f), |f|, Pow10(|f|));
  }

  lemma ScaledTruncates(a: nat, b: nat, k: nat, p: nat)
    requires p == Pow10(k) && b < p
    ensures Truncate(Decimal(a * p + b, -(k as int))) == a
  {
    if k == 0 {
      assert p == 1;
    } else {
      DivOfScaled(a, b, p);
      TruncateBelowZero(a * p + b, k);
    }
  }

  lemma TruncateBelowZero(c: nat, k: nat)
    requires k > 0
    ensures Truncate(Decimal(c, -(k as int))) == c / Pow10(k)
  {
  }

  /** Two separator-free texts joined by a character that is no separator. */
  lemma NoSeparatorAround(a: string, c: char, b: string)
    requires NoSeparator(a) && NoSeparator(b) && !IsDateSeparator(c)
    ensures NoSeparator(a + [c] + b)
  {
    var x := a + [c] + b;
    forall i | 0 <= i < |x|
      ensures !IsDateSeparator(x[i])
    {
      if i < |a| { assert x[i] == a[i]; } else if i > |a| { assert x[i] == b[i - |a| - 1]; }
    }
  }

  lemma RadixDigitsHaveNoSeparator(ds: string, radix: nat)
    requires radix <= 16 && AllRadixDigits(ds, radix)
    ensures NoSeparator(ds)
  {
    forall i | 0 <= i < |ds|
      ensures !IsDateSeparator(ds[i])
    {
      assert HexValue(ds[i]) < 16;
    }
  }

  lemma {:induction false} DigitsBelowPow10(f: string)
    requires AllDigits(f)
    ensures DigitsValue(f) < Pow10(|f|)
  {
    if f != [] {
      DigitsBelowPow10(f[..|f| - 1]);
    }
  }

  /** Fewer than three fields (no second separator) is an Invalid Date. */
  lemma TooFewFieldsIsInvalid(d: string, m: string, s1: char)
    requires NoSeparator(d) && NoSeparator(m) && IsDateSeparator(s1)
    ensures ParseDDMMYYYY(d + [s1] + m) == None
  {
    SplitOfFieldThen(d + [s1] + m, d, s1, m);
    SplitOfField(m);
  }

  lemma DigitsHaveNoSeparator(s: string)
    requires AllDigits(s)
    ensures NoSeparator(s)
  {
  }

  /** A date text made of digit fields, such as a `[0-9]{2}-[0-9]{2}-[0-9]{4}`
      match, is always a valid date. */
  lemma DigitDateIsValid(d: string, m: string, y: string)
    requires AllDigits(d) && AllDigits(m) && AllDigits(y)
    ensures ParseDDMMYYYY(d + "-" + m + "-" + y).Some?
  {
    DigitsHaveNoSeparator(d);
    DigitsHaveNoSeparator(m);
    DigitsHaveNoSeparator(y);
    var f := SplitDateFields(d + "-" + m + "-" + y);
    SplitOfThreeFields(d, m, y, '-', '-');
    assert f[0] == d && f[1] == m && f[2] == y;
    DigitFieldsAreValid(f);
  }

  lemma DigitFieldsAreValid(f: seq<string>)
    requires |f| == 3 && AllDigits(f[0]) && AllDigits(f[1]) && AllDigits(f[2])
    ensures DateOfFields(f).Some?
  {
    NumberOfDigits(f[0]);
    NumberOfDigits(f[1]);
    NumberOfDigits(f[2]);
  }
}
