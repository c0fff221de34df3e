/** `Number(text)`, JavaScript's string-to-number conversion, as
    `parseDDMMYYYY` applies it to each date field, and the truncation the
    `Date` constructor applies to each of its arguments. A field is read as
    its exact decimal value; None stands for NaN and for the infinities,
    which make the date invalid alike. */
module NumberCoercion {
  import opened Wrappers
  import opened Text

  function Pow10(n: nat): (p: nat)
    ensures p > 0
  {
    if n == 0 then 1 else 10 * Pow10(n - 1)
  }

  /** A finite value, exactly: `coefficient` times ten to the `exponent`. */
  datatype Decimal = Decimal(coefficient: int, exponent: int)

  /** `Number(s)`: surrounding whitespace is ignored and the empty text is 0;
      `0x`, `0o` and `0b` (either case) introduce an unsigned hexadecimal,
      octal or binary integer; anything else must be a whole decimal literal
      with an optional sign, fraction and exponent. `Infinity` has no digit
      and so has no finite value, like every other text. */
  function NumberOf(s: string): Option<Decimal> {
    var t := Trim(s);
    if t == [] then Some(Decimal(0, 0))
    else if IsRadixPrefix(t) then RadixNumber(t[2..], Radix(t[1]))
    else SignedDecimal(t)
  }

  predicate IsRadixPrefix(t: string) {
    |t| >= 2 && t[0] == '0' && t[1] in "xXoObB"
  }

  function Radix(c: char): nat {
    if c == 'x' || c == 'X' then 16 else if c == 'o' || c == 'O' then 8 else 2
  }

  /** The value of a hexadecimal digit of either case; 16 for any other
      character. */
  function HexValue(c: char): (v: nat)
    ensures v <= 16
  {
    if IsDigit(c) then DigitValue(c)
    else if 'a' <= c <= 'f' then c as int - 'a' as int + 10
    else if 'A' <= c <= 'F' then c as int - 'A' as int + 10
    else 16
  }

  predicate AllRadixDigits(ds: string, radix: nat) {
    forall i :: 0 <= i < |ds| ==> HexValue(ds[i]) < radix
  }

  function RadixValue(ds: string, radix: nat): nat
    requires AllRadixDigits(ds, radix)
  {
    if ds == [] then 0
    else
      var init := ds[..|ds| - 1];
      assert AllRadixDigits(init, radix) by {
        forall i | 0 <= i < |init| ensures HexValue(init[i]) < radix {
          assert init[i] == ds[i];
        }
      }
      var high := RadixValue(init, radix);
      NatProduct(high, radix);
      high * radix + HexValue(ds[|ds| - 1])
  }

  lemma NatProduct(a: nat, b: nat)
    ensures a * b >= 0
  {
  }

  /** The digits after `0x`, `0o` or `0b`: at least one, all of the radix. */
  function RadixNumber(ds: string, radix: nat): Option<Decimal> {
    if ds != [] && AllRadixDigits(ds, radix) then Some(Decimal(RadixValue(ds, radix), 0)) else None
  }

  /** `[+-]` followed by the unsigned literal. */
  function SignedDecimal(t: string): Option<Decimal>
    requires t != []
  {
    var u := if t[0] == '-' || t[0] == '+' then t[1..] else t;
    match UnsignedDecimal(u)
    case None => None
    case Some(v) => Some(if t[0] == '-' then Decimal(-v.coefficient, v.exponent) else v)
  }

  /** `digits [. digits] [exponent]` or `. digits [exponent]`, with nothing
      after it. */
  function UnsignedDecimal(u: string): Option<Decimal> {
    var whole := LeadingDigits(u);
    AfterWhole(whole, u[|whole|..])
  }

  /** The optional `.` and fraction digits after the whole part. */
  function AfterWhole(whole: string, r: string): Option<Decimal>
    requires AllDigits(whole)
  {
    if r != [] && r[0] == '.' then
      var frac := LeadingDigits(r[1..]);
      Literal(whole, frac, r[1 + |frac|..])
    else Literal(whole, [], r)
  }

  /** At least one digit in the whole part or the fraction, then the
      exponent and the end of the text. */
  function Literal(whole: string, frac: string, r: string): Option<Decimal>
    requires AllDigits(whole) && AllDigits(frac)
  {
    if whole == [] && frac == [] then None
    else
      match Exponent(r)
      case None => None
      case Some(e) => Some(Decimal(DigitsValue(whole) * Pow10(|frac|) + DigitsValue(frac), e - |frac|))
  }

  /** The exponent of `e[+-]digits` (either case of `e`), or 0 for the empty
      text; None for anything else. */
  function Exponent(r: string): Option<int> {
    if r == [] then Some(0)
    else if r[0] == 'e' || r[0] == 'E' then
      var rest := r[1..];
      var ds := if rest != [] && (rest[0] == '-' || rest[0] == '+') then rest[1..] else rest;
      if ds != [] && AllDigits(ds)
      then Some(if rest[0] == '-' then -(DigitsValue(ds) as int) else DigitsValue(ds))
      else None
    else None
  }

  /** Integer division rounded toward zero. */
  function TruncDiv(a: int, b: nat): int
    requires b > 0
  {
    if a >= 0 then a / b else -((-a) / b)
  }

  /** The quotient rounded toward zero is the largest multiple of `b` that
      does not pass `a` on the way from zero. */
  lemma TruncDivBounds(a: int, b: nat)
    requires b > 0
    ensures a >= 0 ==> TruncDiv(a, b) >= 0 && TruncDiv(a, b) * b <= a < (TruncDiv(a, b) + 1) * b
    ensures a < 0 ==> TruncDiv(a, b) <= 0 && (TruncDiv(a, b) - 1) * b < a <= TruncDiv(a, b) * b
  {
    if a >= 0 {
      QuotientBounds(a, b);
    } else {
      var q := (-a) / b;
      QuotientBounds(-a, b);
      assert (-q) * b == -(q * b);
      assert (-q - 1) * b == -((q + 1) * b);
    }
  }

  /** Euclidean division of a natural number. */
  lemma QuotientBounds(n: nat, b: nat)
    requires b > 0
    ensures n / b >= 0 && (n / b) * b <= n < (n / b + 1) * b
  {
    var q, r := n / b, n % b;
    assert n == q * b + r && 0 <= r < b;
    assert (q + 1) * b == q * b + b;
    if q <= -1 {
      MulAtMost(q, b);
    }
  }

  /** `(a * p + b) / p` is `a` when `b` is below `p`. */
  lemma DivOfScaled(a: nat, b: nat, p: nat)
    requires p > 0 && b < p
    ensures (a * p + b) / p == a
  {
    var n := a * p + b;
    var q, r := n / p, n % p;
    assert n == q * p + r && 0 <= r < p;
    var k := a - q;
    assert k * p == r - b by {
      assert k * p == a * p - q * p;
    }
    if k >= 1 {
      MulAtLeast(k, p);
    } else if k <= -1 {
      MulAtMost(k, p);
    }
  }

  lemma MulAtMost(k: int, p: int)
    requires k <= -1 && p > 0
    ensures k * p <= -p
  {
    MulAtLeast(-k, p);
    assert (-k) * p == -(k * p);
  }

  lemma MulAtLeast(k: int, p: int)
    requires k >= 1 && p > 0
    ensures k * p >= p
  {
    assert k * p == (k - 1) * p + p;
  }


  /** `ToIntegerOrInfinity` on a finite value: the integer part, rounded
      toward zero. */
  function Truncate(x: Decimal): int {
    if x.exponent >= 0 then x.coefficient * Pow10(x.exponent)
    else TruncDiv(x.coefficient, Pow10(-x.exponent))
  }

  /** `x - 1`, exactly. */
  function MinusOne(x: Decimal): (r: Decimal)
    ensures r.exponent == (if x.exponent >= 0 then 0 else x.exponent)
  {
    if x.exponent >= 0 then Decimal(x.coefficient * Pow10(x.exponent) - 1, 0)
    else Decimal(x.coefficient - Pow10(-x.exponent), x.exponent)
  }

  /** A whole value is its own integer part, and one less is exact. */
  lemma WholeTruncates(n: int)
    ensures Truncate(Decimal(n, 0)) == n
    ensures MinusOne(Decimal(n, 0)) == Decimal(n - 1, 0)
  {
    assert Pow10(0) == 1;
  }

  // ---------------------------------------------------------------------------
  // What `Number` reads
  // ---------------------------------------------------------------------------

  lemma TrimOfUnspaced(t: string)
    requires t != [] ==> !IsSpace(t[0]) && !IsSpace(t[|t| - 1])
    ensures Trim(t) == t
  {
    assert TrimStart(t) == t;
  }

  /** `Number` of a trimmed decimal text is its signed literal. */
  lemma DecimalOf(s: string, t: string)
    requires Trim(s) == t && t != [] && !IsRadixPrefix(t)
    ensures NumberOf(s) == SignedDecimal(t)
  {
  }

  /** `Number` of an unpadded decimal text with no sign. */
  lemma UnsignedOf(t: string)
    requires t != [] && !IsSpace(t[0]) && !IsSpace(t[|t| - 1]) && !IsRadixPrefix(t)
    requires t[0] != '-' && t[0] != '+'
    ensures NumberOf(t) == UnsignedDecimal(t)
  {
    TrimOfUnspaced(t);
    DecimalOf(t, t);
  }

  /** The whole part of `d + rest` is `d` when `rest` starts with no digit. */
  lemma WholeOf(d: string, rest: string)
    requires AllDigits(d)
    requires rest == [] || !IsDigit(rest[0])
    ensures UnsignedDecimal(d + rest) == AfterWhole(d, rest)
  {
    LeadingDigitsOfDigitsThen(d, rest);
    assert (d + rest)[|d|..] == rest;
  }

  /** A digit string with no fraction and no exponent is its value. */
  lemma LiteralOfWhole(d: string)
    requires AllDigits(d) && d != []
    ensures Literal(d, [], []) == Some(Decimal(DigitsValue(d), 0))
  {
    assert Exponent([]) == Some(0);
    assert Pow10(0) == 1;
  }

  /** A plain digit string reads as its decimal value (the empty text as 0). */
  lemma NumberOfDigits(s: string)
    requires AllDigits(s)
    ensures NumberOf(s) == Some(Decimal(DigitsValue(s), 0))
  {
    if s == [] {
      TrimOfUnspaced(s);
    } else {
      assert !IsRadixPrefix(s) by {
        if |s| >= 2 { assert IsDigit(s[1]); }
      }
      UnsignedOf(s);
      WholeOf(s, []);
      assert s + [] == s;
      assert AfterWhole(s, []) == Literal(s, [], []);
      LiteralOfWhole(s);
    }
  }

  /** The unsigned literal of a digit string is its value. */
  lemma UnsignedOfDigits(d: string)
    requires AllDigits(d) && d != []
    ensures UnsignedDecimal(d) == Some(Decimal(DigitsValue(d), 0))
  {
    WholeOf(d, []);
    assert d + [] == d;
    assert AfterWhole(d, []) == Literal(d, [], []);
    LiteralOfWhole(d);
  }

  /** A sign in front of the digits is read: `+1` is 1 and `-1` is -1. */
  lemma NumberOfSigned(c: char, d: string)
    requires c == '+' || c == '-'
    requires AllDigits(d) && d != []
    ensures NumberOf([c] + d) == Some(Decimal(if c == '-' then -(DigitsValue(d) as int) else DigitsValue(d), 0))
  {
    var t := [c] + d;
    assert t[0] == c && t[|t| - 1] == d[|d| - 1];
    TrimOfUnspaced(t);
    DecimalOf(t, t);
    SignedDigits(c, d, t);
  }

  lemma SignedDigits(c: char, d: string, t: string)
    requires c == '+' || c == '-'
    requires AllDigits(d) && d != [] && t == [c] + d
    ensures SignedDecimal(t) == Some(Decimal(if c == '-' then -(DigitsValue(d) as int) else DigitsValue(d), 0))
  {
    assert t[0] == c;
    assert t[1..] == d;
    UnsignedOfDigits(d);
  }

  /** A decimal fraction is read exactly: `1.5` is 15 tenths, `1.` is 1 and
      `.5` is 5 tenths. */
  lemma NumberOfFraction(whole: string, frac: string)
    requires AllDigits(whole) && AllDigits(frac) && (whole != [] || frac != [])
    ensures NumberOf(whole + "." + frac)
            == Some(Decimal(DigitsValue(whole) * Pow10(|frac|) + DigitsValue(frac), -|frac|))
  {
    var t := whole + ("." + frac);
    assert whole + "." + frac == t;
    assert t[|whole|] == '.';
    assert t[0] == (if whole != [] then whole[0] else '.');
    assert t[|t| - 1] == (if frac != [] then frac[|frac| - 1] else '.');
    assert !IsRadixPrefix(t) by {
      if |t| >= 2 && t[0] == '0' {
        assert t[1] == (if |whole| >= 2 then whole[1] else '.');
      }
    }
    UnsignedOf(t);
    FractionLiteral(whole, frac);
  }

  lemma FractionLiteral(whole: string, frac: string)
    requires AllDigits(whole) && AllDigits(frac) && (whole != [] || frac != [])
    ensures UnsignedDecimal(whole + ("." + frac))
            == Some(Decimal(DigitsValue(whole) * Pow10(|frac|) + DigitsValue(frac), -|frac|))
  {
    var r := "." + frac;
    WholeOf(whole, r);
    assert r[1..] == frac;
    LeadingDigitsOfDigitsThen(frac, []);
    assert frac + [] == frac;
    assert r[1 + |frac|..] == [];
    assert AfterWhole(whole, r) == Literal(whole, frac, []);
    LiteralWithoutExponent(whole, frac);
  }

  lemma LiteralWithoutExponent(whole: string, frac: string)
    requires AllDigits(whole) && AllDigits(frac) && (whole != [] || frac != [])
    ensures Literal(whole, frac, []) == Some(Decimal(DigitsValue(whole) * Pow10(|frac|) + DigitsValue(frac), -|frac|))
  {
    assert Exponent([]) == Some(0);
  }

  /** An exponent scales the digits: `1e1` is 10. */
  lemma NumberOfExponent(d: string, e: string)
    requires AllDigits(d) && d != [] && AllDigits(e) && e != []
    ensures NumberOf(d + "e" + e) == Some(Decimal(DigitsValue(d), DigitsValue(e)))
  {
    var t := d + ("e" + e);
    assert d + "e" + e == t;
    assert t[0] == d[0] && t[|t| - 1] == e[|e| - 1];
    assert !IsRadixPrefix(t) by {
      if |t| >= 2 {
        assert t[1] == (if |d| >= 2 then d[1] else 'e');
      }
    }
    UnsignedOf(t);
    ExponentLiteral(d, e);
  }

  lemma ExponentLiteral(d: string, e: string)
    requires AllDigits(d) && d != [] && AllDigits(e) && e != []
    ensures UnsignedDecimal(d + ("e" + e)) == Some(Decimal(DigitsValue(d), DigitsValue(e)))
  {
    var r := "e" + e;
    WholeOf(d, r);
    assert AfterWhole(d, r) == Literal(d, [], r);
    ExponentOfDigits(e);
    WholeWithExponent(d, r, DigitsValue(e));
  }

  lemma ExponentOfDigits(e: string)
    requires AllDigits(e) && e != []
    ensures Exponent("e" + e) == Some(DigitsValue(e) as int)
  {
    assert ("e" + e)[1..] == e;
  }

  lemma WholeWithExponent(d: string, r: string, x: int)
    requires AllDigits(d) && d != [] && Exponent(r) == Some(x)
    ensures Literal(d, [], r) == Some(Decimal(DigitsValue(d), x))
  {
    assert Pow10(0) == 1;
  }

  /** `0x`, `0o` and `0b` read the digits in their radix: `0x1f` is 31. */
  lemma NumberOfRadix(c: char, ds: string)
    requires c in "xXoObB"
    requires ds != [] && AllRadixDigits(ds, Radix(c))
    ensures NumberOf("0" + [c] + ds) == Some(Decimal(RadixValue(ds, Radix(c)), 0))
  {
    var t := "0" + [c] + ds;
    assert t[|t| - 1] == ds[|ds| - 1];
    assert !IsSpace(ds[|ds| - 1]) by {
      assert HexValue(ds[|ds| - 1]) < 16;
    }
    TrimOfUnspaced(t);
    assert t[2..] == ds;
  }

  /** A field with no decimal digit, other than blank text, is NaN: `Jan` and
      `Infinity` have no finite value. */
  lemma NoDigitIsNaN(s: string)
    requires Trim(s) != []
    requires forall i :: 0 <= i < |Trim(s)| ==> !IsDigit(Trim(s)[i])
    ensures NumberOf(s) == None
  {
    var t := Trim(s);
    assert !IsDigit(t[0]);
    DecimalOf(s, t);
    var u := if t[0] == '-' || t[0] == '+' then t[1..] else t;
    assert forall i :: 0 <= i < |u| ==> !IsDigit(u[i]) by {
      forall i | 0 <= i < |u|
        ensures !IsDigit(u[i])
      {
        if t[0] == '-' || t[0] == '+' {
          assert u[i] == t[i + 1];
        }
      }
    }
    assert LeadingDigits(u) == [];
    assert u[0..] == u;
    if u != [] && u[0] == '.' {
      assert |u| < 2 || !IsDigit(u[1]);
      assert LeadingDigits(u[1..]) == [];
    }
    assert UnsignedDecimal(u) == None;
  }

  /** Any text after the literal makes it NaN: `1a` is not a number. */
  lemma TrailingLetterIsNaN(d: string, c: char)
    requires AllDigits(d) && d != [] && ('a' <= c <= 'z' || 'A' <= c <= 'Z')
    requires c != 'e' && c != 'E' && (d != "0" || c !in "xXoObB")
    ensures NumberOf(d + [c]) == None
  {
    var t := d + [c];
    assert t[0] == d[0] && t[|t| - 1] == c;
    assert !IsRadixPrefix(t) by {
      if |d| >= 2 {
        assert t[1] == d[1];
      } else {
        assert d == [d[0]];
        if d[0] == '0' {
          assert d == "0";
        }
      }
    }
    UnsignedOf(t);
    WholeOf(d, [c]);
  }
}
