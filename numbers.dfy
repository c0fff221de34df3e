/** JavaScript numbers as the parsers use them. Amounts are two-decimal
    rupee values (the store's columns are numeric(12,2)), so a finite number is
    kept exactly as a whole number of paise; NaN is kept apart because
    `Number.parseFloat` produces it for text that is not a number. */
module Numbers {
  import opened Text
  import opened Wrappers

  datatype Num = Finite(paise: int) | NaN

  /** `a - b`; NaN is contagious. */
  function Sub(a: Num, b: Num): (r: Num)
    ensures r.Finite? <==> a.Finite? && b.Finite?
    ensures r.Finite? ==> r.paise + b.paise == a.paise
  {
    if a.Finite? && b.Finite? then Finite(a.paise - b.paise) else NaN
  }

  /** `n >= 0`, which is false for NaN. */
  predicate AtLeastZero(n: Num) {
    n.Finite? && n.paise >= 0
  }

  /** The first two fraction digits as paise; later digits are dropped. */
  function Cents(frac: string): (c: nat)
    requires AllDigits(frac)
    ensures c < 100
  {
    (if |frac| > 0 then DigitValue(frac[0]) * 10 else 0) + (if |frac| > 1 then DigitValue(frac[1]) else 0)
  }

  /** `Number.parseFloat(s)`: leading whitespace, an optional sign, digits, and
      an optional fraction; the longest such prefix is read and the rest of
      the text ignored. NaN when neither the whole nor the fraction part has a
      digit. */
  function ParseFloat(s: string): Num {
    var t := TrimStart(s);
    var neg := t != [] && t[0] == '-';
    var u := if t != [] && (t[0] == '-' || t[0] == '+') then t[1..] else t;
    match ParseUnsigned(u)
    case None => NaN
    case Some(m) => Finite(if neg then -(m as int) else m)
  }

  /** The unsigned part of `parseFloat`, in paise. */
  function ParseUnsigned(u: string): Option<nat> {
    var whole := LeadingDigits(u);
    var frac := FractionPart(u[|whole|..]);
    if whole == [] && frac == [] then None else Some(DigitsValue(whole) * 100 + Cents(frac))
  }

  /** The fraction digits after the whole part: the digits following a `.`. */
  function FractionPart(rest: string): (frac: string)
    ensures AllDigits(frac)
  {
    if rest != [] && rest[0] == '.' then LeadingDigits(rest[1..]) else []
  }

  /** `Number.parseFloat(s) || 0`, and the coercion of text cells in the
      spreadsheet schemas: NaN (and 0) become 0. */
  function ParseFloatOrZero(s: string): int {
    var n := ParseFloat(s);
    if n.Finite? then n.paise else 0
  }

  /** The text of a two-decimal value as JavaScript prints a number
      (`${n}`): no trailing zeros in the fraction, no fraction for whole
      values. */
  function PaiseText(p: int): string {
    var m := if p < 0 then -p else p;
    var fd := FractionDigits(m % 100);
    (if p < 0 then "-" else "") + (NatText(m / 100) + (if fd == [] then [] else "." + fd))
  }

  /** The printed fraction digits of `c` paise. */
  function FractionDigits(c: nat): (fd: string)
    requires c < 100
    ensures AllDigits(fd) && Cents(fd) == c
  {
    if c == 0 then []
    else if c % 10 == 0 then [DigitChar(c / 10)]
    else [DigitChar(c / 10), DigitChar(c % 10)]
  }

  function NumText(n: Num): string {
    match n
    case Finite(p) => PaiseText(p)
    case NaN => "NaN"
  }

  /** The token `[\d,]+\.\d{2}` of the PDF amount patterns. */
  predicate IsAmountToken(s: string) {
    |s| >= 4 && s[|s| - 3] == '.' && IsDigit(s[|s| - 2]) && IsDigit(s[|s| - 1])
    && forall i :: 0 <= i < |s| - 3 ==> IsDigit(s[i]) || s[i] == ','
  }

  /** An amount token holds only digits, commas and the point. */
  lemma AmountTokenIsWord(s: string)
    requires IsAmountToken(s)
    ensures IsWord(s)
  {
  }

  /** `amountStr.replace(/,/g, "")` followed by `parseFloat`. */
  function ParseAmount(s: string): Num {
    ParseFloat(RemoveCommas(s))
  }

  // ---------------------------------------------------------------------------
  // Lemmas
  // ---------------------------------------------------------------------------

  lemma UnsignedOfParts(whole: string, fd: string, u: string, k: nat)
    requires AllDigits(whole) && AllDigits(fd) && (whole != [] || fd != [])
    requires u == whole + (if fd == [] then [] else "." + fd)
    requires k == DigitsValue(whole) * 100 + Cents(fd)
    ensures ParseUnsigned(u) == Some(k)
  {
    var frac: string := if fd == [] then [] else "." + fd;
    LeadingDigitsOfDigitsThen(whole, frac);
    assert u[|whole|..] == frac;
    FractionOfDot(fd);
    UnsignedOf(u, whole, fd);
  }

  lemma UnsignedOf(u: string, whole: string, frac: string)
    requires LeadingDigits(u) == whole && FractionPart(u[|whole|..]) == frac
    ensures ParseUnsigned(u) == if whole == [] && frac == [] then None else Some(DigitsValue(whole) * 100 + Cents(frac))
  {
  }

  lemma FractionOfDot(fd: string)
    requires AllDigits(fd)
    ensures FractionPart(if fd == [] then [] else "." + fd) == fd
  {
    if fd != [] {
      assert ("." + fd)[1..] == fd;
      LeadingDigitsOfDigitsThen(fd, []);
      assert fd + [] == fd;
    }
  }

  lemma SignThenUnsigned(neg: bool, u: string, k: nat)
    requires u != [] && (IsDigit(u[0]) || u[0] == '.')
    requires ParseUnsigned(u) == Some(k)
    ensures ParseFloat((if neg then "-" else "") + u) == Finite(if neg then -(k as int) else k)
  {
    if neg {
      NegatedUnsigned(u, k);
    } else {
      PlainUnsigned(u, k);
      assert "" + u == u;
    }
  }

  lemma NegatedUnsigned(u: string, k: nat)
    requires ParseUnsigned(u) == Some(k)
    ensures ParseFloat("-" + u) == Finite(-(k as int))
  {
    var t := "-" + u;
    assert t[0] == '-' && !IsSpace(t[0]);
    assert TrimStart(t) == t;
    assert t[1..] == u;
    ParseFloatSteps(t, t, true, u);
  }

  lemma PlainUnsigned(u: string, k: nat)
    requires u != [] && (IsDigit(u[0]) || u[0] == '.')
    requires ParseUnsigned(u) == Some(k)
    ensures ParseFloat(u) == Finite(k)
  {
    assert !IsSpace(u[0]);
    assert TrimStart(u) == u;
    ParseFloatSteps(u, u, false, u);
  }

  /** One reading of `parseFloat`, with its intermediate values named. */
  lemma ParseFloatSteps(s: string, t: string, neg: bool, u: string)
    requires t == TrimStart(s) && neg == (t != [] && t[0] == '-')
    requires u == if t != [] && (t[0] == '-' || t[0] == '+') then t[1..] else t
    ensures ParseFloat(s) == match ParseUnsigned(u) case None => NaN case Some(m) => Finite(if neg then -(m as int) else m)
  {
  }

  /** `parseFloat` of `[-]digits[.digits]` reads exactly those parts: `k`
      paise, the whole part and the first two fraction digits. */
  lemma ParseFloatOfParts(neg: bool, whole: string, fd: string, u: string, k: nat)
    requires AllDigits(whole) && AllDigits(fd) && (whole != [] || fd != [])
    requires u == whole + (if fd == [] then [] else "." + fd)
    requires k == DigitsValue(whole) * 100 + Cents(fd)
    ensures ParseFloat((if neg then "-" else "") + u) == Finite(if neg then -(k as int) else k)
  {
    PartsStart(whole, fd, u);
    UnsignedOfParts(whole, fd, u, k);
    SignThenUnsigned(neg, u, k);
  }

  lemma PartsStart(whole: string, fd: string, u: string)
    requires AllDigits(whole) && (whole != [] || fd != [])
    requires u == whole + (if fd == [] then [] else "." + fd)
    ensures u != [] && (IsDigit(u[0]) || u[0] == '.')
  {
    if whole != [] { assert u[0] == whole[0]; } else { assert u == "." + fd; }
  }

  /** Printing a value and parsing the text back gives the value. */
  lemma ParseFloatOfPaiseText(p: int)
    ensures ParseFloat(PaiseText(p)) == Finite(p)
  {
    var m := if p < 0 then -p else p;
    var whole := NatText(m / 100);
    var fd := FractionDigits(m % 100);
    DigitsValueOfNatText(m / 100);
    var u := whole + (if fd == [] then [] else "." + fd);
    var sign: string := if p < 0 then "-" else "";
    assert PaiseText(p) == sign + u;
    assert DigitsValue(whole) * 100 + Cents(fd) == m;
    ParseFloatOfParts(p < 0, whole, fd, u, m);
  }

  lemma {:induction false} RemoveCommasAppend(a: string, b: string)
    ensures RemoveCommas(a + b) == RemoveCommas(a) + RemoveCommas(b)
    decreases |a|
  {
    if a != [] {
      assert (a + b)[1..] == a[1..] + b;
      RemoveCommasAppend(a[1..], b);
    } else {
      assert a + b == b;
    }
  }

  lemma {:induction false} RemoveCommasOfDigitsAndCommas(s: string)
    requires forall i :: 0 <= i < |s| ==> IsDigit(s[i]) || s[i] == ','
    ensures AllDigits(RemoveCommas(s))
    decreases |s|
  {
    if s != [] {
      RemoveCommasOfDigitsAndCommas(s[1..]);
    }
  }

  /** An amount matched by `[\d,]+\.\d{2}` always parses, and is never
      negative. */
  lemma AmountTokenParses(s: string)
    requires IsAmountToken(s)
    ensures AtLeastZero(ParseAmount(s))
  {
    var n := |s| - 3;
    var head := s[..n];
    var tail := s[n..];
    assert s == head + tail;
    RemoveCommasAppend(head, tail);
    RemoveCommasOfDigitsAndCommas(head);
    RemoveCommasWithoutCommas(tail);
    var fd := s[n + 1..];
    assert tail == "." + fd;
    var u := RemoveCommas(head) + tail;
    assert RemoveCommas(s) == "" + u;
    ParseFloatOfParts(false, RemoveCommas(head), fd, u, DigitsValue(RemoveCommas(head)) * 100 + Cents(fd));
    assert ParseFloat("" + u).Finite? && ParseFloat("" + u).paise >= 0;
  }

  lemma {:induction false} RemoveCommasWithoutCommas(s: string)
    requires forall i :: 0 <= i < |s| ==> s[i] != ','
    ensures RemoveCommas(s) == s
    decreases |s|
  {
    if s != [] {
      RemoveCommasWithoutCommas(s[1..]);
    }
  }
}
