/** Character classes and string operations of the JavaScript runtime that the
    parsers rely on: `\s`, `\d`, `\w`, ASCII case mapping, `includes`, `trim`,
    `startsWith`/`endsWith`, `split` on line breaks, `join`, and the
    whitespace-collapsing `replace` calls of the interest filters. */
module Text {

  /** The members of JavaScript's `\s` class (and of `trim`'s whitespace set)
      that occur in statement text. */
  predicate IsSpace(c: char) {
    c == ' ' || c == '\t' || c == '\n' || c == '\r' || c == '\U{000B}' || c == '\U{000C}'
    || c == '\U{00A0}' || c == '\U{FEFF}' || c == '\U{2028}' || c == '\U{2029}'
  }

  /** The class `[\r\n]`. */
  predicate IsNewline(c: char) { c == '\n' || c == '\r' }

  /** The class `\d`. */
  predicate IsDigit(c: char) { '0' <= c <= '9' }

  /** The class `\w`. */
  predicate IsWordChar(c: char) {
    ('a' <= c <= 'z') || ('A' <= c <= 'Z') || IsDigit(c) || c == '_'
  }

  function DigitValue(c: char): nat
    requires IsDigit(c)
  {
    c as int - '0' as int
  }

  function DigitChar(d: nat): (c: char)
    requires d < 10
    ensures IsDigit(c) && DigitValue(c) == d
  {
    ('0' as int + d) as char
  }

  predicate AllDigits(s: string) {
    forall i :: 0 <= i < |s| ==> IsDigit(s[i])
  }

  /** Non-empty text without whitespace: one token of a line. */
  predicate IsWord(t: string) {
    |t| > 0 && forall k :: 0 <= k < |t| ==> !IsSpace(t[k])
  }

  predicate AllSpace(s: string) {
    forall i :: 0 <= i < |s| ==> IsSpace(s[i])
  }

  /** ASCII `toLowerCase` / `toUpperCase` of one character. */
  function LowerChar(c: char): char {
    if 'A' <= c <= 'Z' then (c as int + 32) as char else c
  }

  function UpperChar(c: char): char {
    if 'a' <= c <= 'z' then (c as int - 32) as char else c
  }

  function Lower(s: string): (r: string)
    ensures |r| == |s|
  {
    if s == [] then [] else [LowerChar(s[0])] + Lower(s[1..])
  }

  function Upper(s: string): (r: string)
    ensures |r| == |s|
  {
    if s == [] then [] else [UpperChar(s[0])] + Upper(s[1..])
  }

  predicate StartsWith(s: string, prefix: string) {
    |prefix| <= |s| && s[..|prefix|] == prefix
  }

  predicate EndsWith(s: string, suffix: string) {
    |suffix| <= |s| && s[|s| - |suffix|..] == suffix
  }

  /** `s.includes(p)`. */
  predicate Contains(s: string, p: string)
    decreases |s|
  {
    StartsWith(s, p) || (|s| > 0 && Contains(s[1..], p))
  }

  /** `s.includes(c)` for one character, and `s.includes(c)` is false. */
  predicate HasChar(s: string, c: char) {
    exists i :: 0 <= i < |s| && s[i] == c
  }

  /** Case-insensitive `includes` against a lower-case literal. */
  predicate ContainsIgnoreCase(s: string, lowerLiteral: string) {
    Contains(Lower(s), lowerLiteral)
  }

  function TrimStart(s: string): (r: string)
    ensures |r| <= |s| && r == s[|s| - |r|..]
    ensures r == [] || !IsSpace(r[0])
  {
    if s != [] && IsSpace(s[0]) then TrimStart(s[1..]) else s
  }

  function TrimEnd(s: string): (r: string)
    ensures |r| <= |s| && r == s[..|r|]
    ensures r == [] || !IsSpace(r[|r| - 1])
  {
    if s != [] && IsSpace(s[|s| - 1]) then TrimEnd(s[..|s| - 1]) else s
  }

  /** `s.trim()`. */
  function Trim(s: string): string {
    TrimEnd(TrimStart(s))
  }

  /** `s.replace(/,/g, "")`. */
  function RemoveCommas(s: string): (r: string)
    ensures forall i :: 0 <= i < |r| ==> r[i] != ','
  {
    if s == [] then [] else (if s[0] == ',' then [] else [s[0]]) + RemoveCommas(s[1..])
  }

  /** Drops a prefix of characters of `\s` (used for runs). */
  function DropSpaces(s: string): (r: string)
    ensures |r| <= |s| && r == s[|s| - |r|..]
    ensures r == [] || !IsSpace(r[0])
  {
    if s != [] && IsSpace(s[0]) then DropSpaces(s[1..]) else s
  }

  function DropNewlines(s: string): (r: string)
    ensures |r| <= |s| && r == s[|s| - |r|..]
    ensures r == [] || !IsNewline(r[0])
  {
    if s != [] && IsNewline(s[0]) then DropNewlines(s[1..]) else s
  }

  /** `s.replace(/[\r\n]+/g, " ")`. */
  function ReplaceNewlineRuns(s: string): (r: string)
    ensures |r| <= |s|
    decreases |s|
  {
    if s == [] then []
    else if IsNewline(s[0]) then [' '] + ReplaceNewlineRuns(DropNewlines(s[1..]))
    else [s[0]] + ReplaceNewlineRuns(s[1..])
  }

  /** `s.replace(/\s+/g, " ")`. */
  function CollapseSpaces(s: string): (r: string)
    ensures |r| <= |s|
    decreases |s|
  {
    if s == [] then []
    else if IsSpace(s[0]) then [' '] + CollapseSpaces(DropSpaces(s[1..]))
    else [s[0]] + CollapseSpaces(s[1..])
  }

  /** The normalisation both interest filters apply before matching:
      newline runs to a space, whitespace runs to a space, trim, lower case. */
  function NormalizeDescription(s: string): string {
    Lower(Trim(CollapseSpaces(ReplaceNewlineRuns(s))))
  }

  /** Index of the first `c` in `s`, or `|s|` when there is none. */
  function IndexOf(s: string, c: char): (k: nat)
    ensures k <= |s|
    ensures k < |s| ==> s[k] == c
    ensures forall i :: 0 <= i < k ==> s[i] != c
  {
    if s == [] then 0 else if s[0] == c then 0 else 1 + IndexOf(s[1..], c)
  }

  /** No `\n` in `t`. */
  predicate NoLineBreak(t: string) {
    t == [] || (t[0] != '\n' && NoLineBreak(t[1..]))
  }

  lemma {:induction false} NoLineBreakAt(t: string, i: nat)
    requires NoLineBreak(t) && i < |t|
    ensures t[i] != '\n'
    decreases i
  {
    if i > 0 {
      NoLineBreakAt(t[1..], i - 1);
    }
  }

  /** The text before the first `\n` has none. */
  lemma {:induction false} NoLineBreakBefore(s: string, j: nat)
    requires j <= IndexOf(s, '\n')
    ensures NoLineBreak(s[..j])
    decreases j
  {
    if j > 0 {
      assert s[..j][1..] == s[1..][..j - 1];
      NoLineBreakBefore(s[1..], j - 1);
    }
  }

  /** `s.split(/\r\n|\n/)`: a `\r` directly before `\n` belongs to the break. */
  /** No line of `ls` holds a `\n`. */
  predicate NoLineBreaks(ls: seq<string>) {
    ls == [] || (NoLineBreak(ls[0]) && NoLineBreaks(ls[1..]))
  }

  lemma {:induction false} NoLineBreaksAt(ls: seq<string>, k: nat)
    requires NoLineBreaks(ls) && k < |ls|
    ensures NoLineBreak(ls[k])
    decreases k
  {
    if k > 0 { NoLineBreaksAt(ls[1..], k - 1); }
  }

  function SplitLines(s: string): (lines: seq<string>)
    ensures |lines| >= 1
    ensures NoLineBreaks(lines)
    decreases |s|
  {
    var k := IndexOf(s, '\n');
    NoLineBreakBefore(s, k);
    if k == |s| then
      assert s[..k] == s;
      [s]
    else
      var head := if k > 0 && s[k - 1] == '\r' then s[..k - 1] else s[..k];
      NoLineBreakBefore(s, |head|);
      var rest := SplitLines(s[k + 1..]);
      assert ([head] + rest)[1..] == rest;
      [head] + rest
  }

  /** No line that `SplitLines` returns holds a line feed. */
  lemma SplitLinesHaveNoLineFeed(s: string, k: nat, i: nat)
    requires k < |SplitLines(s)| && i < |SplitLines(s)[k]|
    ensures SplitLines(s)[k][i] != '\n'
  {
    NoLineBreaksAt(SplitLines(s), k);
    NoLineBreakAt(SplitLines(s)[k], i);
  }

  /** `parts.join(sep)`. */
  function Join(parts: seq<string>, sep: string): string {
    if parts == [] then []
    else if |parts| == 1 then parts[0]
    else parts[0] + sep + Join(parts[1..], sep)
  }

  /** The first `c` of `s` is at `p` when `s[p]` is one and none comes before. */
  lemma IndexOfAt(s: string, c: char, p: nat)
    requires p < |s| && s[p] == c && forall i :: 0 <= i < p ==> s[i] != c
    ensures IndexOf(s, c) == p
  {
  }

  /** A line without `\n` followed by `\r\n` is split off whole. */
  lemma SplitCrLfCons(h: string, rest: string)
    requires NoLineBreak(h)
    ensures SplitLines(h + "\r\n" + rest) == [h] + SplitLines(rest)
  {
    var s := h + "\r\n" + rest;
    forall i | 0 <= i < |h| + 1 ensures s[i] != '\n' {
      if i < |h| { NoLineBreakAt(h, i); assert s[i] == h[i]; }
    }
    IndexOfAt(s, '\n', |h| + 1);
    assert s[..|h|] == h && s[|h|] == '\r' && s[|h| + 2..] == rest;
  }

  /** A line without `\n` and not ending in `\r`, followed by `\n`, is
      split off whole. */
  lemma SplitLfCons(h: string, rest: string)
    requires NoLineBreak(h) && (h == [] || h[|h| - 1] != '\r')
    ensures SplitLines(h + "\n" + rest) == [h] + SplitLines(rest)
  {
    var s := h + "\n" + rest;
    forall i | 0 <= i < |h| ensures s[i] != '\n' {
      NoLineBreakAt(h, i);
      assert s[i] == h[i];
    }
    IndexOfAt(s, '\n', |h|);
    assert s[..|h|] == h && s[|h| + 1..] == rest;
    assert h == [] || s[|h| - 1] == h[|h| - 1];
  }

  /** Lines without `\n` joined by `\r\n` split back into those lines. */
  lemma {:induction false} SplitJoinCrLf(ls: seq<string>)
    requires ls != [] && forall k :: 0 <= k < |ls| ==> NoLineBreak(ls[k])
    ensures SplitLines(Join(ls, "\r\n")) == ls
    decreases |ls|
  {
    if |ls| == 1 {
      NoLineBreakIndex(ls[0]);
    } else {
      SplitCrLfCons(ls[0], Join(ls[1..], "\r\n"));
      SplitJoinCrLf(ls[1..]);
      assert ls == [ls[0]] + ls[1..];
    }
  }

  /** Lines without `\n` joined by `\n` split back into those lines when no
      line before the last ends in `\r` (which would join the break). */
  lemma {:induction false} SplitJoinLf(ls: seq<string>)
    requires ls != [] && forall k :: 0 <= k < |ls| ==> NoLineBreak(ls[k])
    requires forall k :: 0 <= k < |ls| - 1 ==> ls[k] == [] || ls[k][|ls[k]| - 1] != '\r'
    ensures SplitLines(Join(ls, "\n")) == ls
    decreases |ls|
  {
    if |ls| == 1 {
      NoLineBreakIndex(ls[0]);
    } else {
      SplitLfCons(ls[0], Join(ls[1..], "\n"));
      SplitJoinLf(ls[1..]);
      assert ls == [ls[0]] + ls[1..];
    }
  }

  /** A text without `\n` has its first `\n` at the end. */
  lemma NoLineBreakIndex(s: string)
    requires NoLineBreak(s)
    ensures IndexOf(s, '\n') == |s|
  {
    var k := IndexOf(s, '\n');
    if k < |s| {
      NoLineBreakAt(s, k);
    }
  }

  /** Decimal digits of a natural number, as JavaScript prints it. */
  function NatText(n: nat): (s: string)
    ensures |s| >= 1 && AllDigits(s)
  {
    if n < 10 then [DigitChar(n)] else NatText(n / 10) + [DigitChar(n % 10)]
  }

  /** The value of a string of decimal digits (0 for the empty string). */
  function DigitsValue(s: string): nat
    requires AllDigits(s)
  {
    if s == [] then 0 else DigitsValue(s[..|s| - 1]) * 10 + DigitValue(s[|s| - 1])
  }

  /** The longest prefix of `s` made of decimal digits. */
  function LeadingDigits(s: string): (r: string)
    ensures |r| <= |s| && r == s[..|r|] && AllDigits(r)
    ensures |r| < |s| ==> !IsDigit(s[|r|])
  {
    if s != [] && IsDigit(s[0]) then [s[0]] + LeadingDigits(s[1..]) else []
  }

  // ---------------------------------------------------------------------------
  // Lemmas
  // ---------------------------------------------------------------------------

  /** Reading back printed digits gives the number. */
  lemma {:induction false} DigitsValueOfNatText(n: nat)
    ensures DigitsValue(NatText(n)) == n
  {
    if n >= 10 {
      DigitsValueOfNatText(n / 10);
      var s := NatText(n);
      assert s[..|s| - 1] == NatText(n / 10);
    }
  }

  lemma {:induction false} LeadingDigitsOfDigitsThen(d: string, rest: string)
    requires AllDigits(d)
    requires rest == [] || !IsDigit(rest[0])
    ensures LeadingDigits(d + rest) == d
    decreases |d|
  {
    if d != [] {
      TailOfAppend(d, rest);
      assert IsDigit(d[0]);
      assert LeadingDigits(d + rest) == [d[0]] + LeadingDigits(d[1..] + rest);
      LeadingDigitsOfDigitsThen(d[1..], rest);
      assert d == [d[0]] + d[1..];
    } else {
      assert d + rest == rest;
    }
  }

  lemma {:induction false} LowerAppend(a: string, b: string)
    ensures Lower(a + b) == Lower(a) + Lower(b)
    decreases |a|
  {
    if a != [] {
      assert (a + b)[1..] == a[1..] + b;
      LowerAppend(a[1..], b);
    } else {
      assert a + b == b;
    }
  }

  lemma {:induction false} LowerAt(s: string, k: nat)
    requires k < |s|
    ensures Lower(s)[k] == LowerChar(s[k])
    decreases k
  {
    if k > 0 {
      LowerAt(s[1..], k - 1);
    }
  }

  /** Text that neither starts nor ends with whitespace is its own trim. */
  lemma TrimOfUnpadded(s: string)
    requires s != [] && !IsSpace(s[0]) && !IsSpace(s[|s| - 1])
    ensures Trim(s) == s
  {
    assert TrimStart(s) == s;
  }

  lemma DropNewlinesThenSpaces(s: string)
    ensures DropSpaces(DropNewlines(s)) == DropSpaces(s)
    decreases |s|
  {
    if s != [] && IsNewline(s[0]) {
      DropNewlinesThenSpaces(s[1..]);
    }
  }

  /** Dropping a whitespace run commutes with the newline replacement. */
  lemma DropSpacesOfSpaceThen(c: char, r: string)
    requires IsSpace(c)
    ensures DropSpaces([c] + r) == DropSpaces(r)
  {
    assert ([c] + r)[1..] == r;
  }

  lemma {:induction false} DropSpacesOfReplaced(s: string)
    ensures DropSpaces(ReplaceNewlineRuns(s)) == ReplaceNewlineRuns(DropSpaces(s))
    decreases |s|
  {
    if s == [] {
    } else if IsNewline(s[0]) {
      DropSpacesOfReplaced(DropNewlines(s[1..]));
      DropSpacesOfReplacedNewline(s);
    } else if IsSpace(s[0]) {
      DropSpacesOfReplaced(s[1..]);
      DropSpacesOfReplacedSpace(s);
    } else {
      assert ReplaceNewlineRuns(s) == [s[0]] + ReplaceNewlineRuns(s[1..]);
      assert DropSpaces(s) == s;
    }
  }

  lemma DropSpacesOfReplacedNewline(s: string)
    requires s != [] && IsNewline(s[0])
    requires DropSpaces(ReplaceNewlineRuns(DropNewlines(s[1..]))) == ReplaceNewlineRuns(DropSpaces(DropNewlines(s[1..])))
    ensures DropSpaces(ReplaceNewlineRuns(s)) == ReplaceNewlineRuns(DropSpaces(s))
  {
    var t := DropNewlines(s[1..]);
    ReplacedNewlineHead(s);
    DropSpacesOfSpaceThen(' ', ReplaceNewlineRuns(t));
    DropNewlinesThenSpaces(s[1..]);
    DropSpacesOfSpace(s);
  }

  lemma ReplacedNewlineHead(s: string)
    requires s != [] && IsNewline(s[0])
    ensures ReplaceNewlineRuns(s) == [' '] + ReplaceNewlineRuns(DropNewlines(s[1..]))
  {
  }

  lemma DropSpacesOfSpace(s: string)
    requires s != [] && IsSpace(s[0])
    ensures DropSpaces(s) == DropSpaces(s[1..])
  {
  }

  lemma DropSpacesOfReplacedSpace(s: string)
    requires s != [] && IsSpace(s[0]) && !IsNewline(s[0])
    requires DropSpaces(ReplaceNewlineRuns(s[1..])) == ReplaceNewlineRuns(DropSpaces(s[1..]))
    ensures DropSpaces(ReplaceNewlineRuns(s)) == ReplaceNewlineRuns(DropSpaces(s))
  {
    assert ReplaceNewlineRuns(s) == [s[0]] + ReplaceNewlineRuns(s[1..]);
    DropSpacesOfSpaceThen(s[0], ReplaceNewlineRuns(s[1..]));
    assert DropSpaces(s) == DropSpaces(s[1..]);
  }

  /** The first replacement of the interest filters, `/[\r\n]+/g` to a space,
      changes nothing that the second, `/\s+/g` to a space, would not do
      anyway. */
  lemma {:induction false} NewlineStepIsSubsumed(s: string)
    ensures CollapseSpaces(ReplaceNewlineRuns(s)) == CollapseSpaces(s)
    decreases |s|
  {
    if s == [] {
    } else if IsSpace(s[0]) {
      var r := ReplaceNewlineRuns(s);
      assert r != [] && IsSpace(r[0]) && DropSpaces(r[1..]) == DropSpaces(r);
      assert DropSpaces(s[1..]) == DropSpaces(s);
      DropSpacesOfReplaced(s);
      NewlineStepIsSubsumed(DropSpaces(s));
    } else {
      NewlineStepIsSubsumed(s[1..]);
    }
  }

  lemma LowerUpperChar(c: char)
    ensures LowerChar(UpperChar(c)) == LowerChar(c)
    ensures IsSpace(UpperChar(c)) == IsSpace(c) && IsNewline(UpperChar(c)) == IsNewline(c)
  {
  }

  lemma {:induction false} UpperDropSpaces(s: string)
    ensures DropSpaces(Upper(s)) == Upper(DropSpaces(s))
    ensures DropNewlines(Upper(s)) == Upper(DropNewlines(s))
    decreases |s|
  {
    UpperDropSpacesOnly(s);
    UpperDropNewlinesOnly(s);
  }

  lemma {:induction false} UpperDropSpacesOnly(s: string)
    ensures DropSpaces(Upper(s)) == Upper(DropSpaces(s))
    decreases |s|
  {
    if s != [] {
      UpperOfCons(s);
      LowerUpperChar(s[0]);
      DropSpacesOfCons(s);
      DropSpacesOfCons(Upper(s));
      if IsSpace(s[0]) {
        UpperDropSpacesOnly(s[1..]);
      }
    }
  }

  lemma DropSpacesOfCons(s: string)
    requires s != []
    ensures DropSpaces(s) == if IsSpace(s[0]) then DropSpaces(s[1..]) else s
  {
  }



  lemma {:induction false} UpperDropNewlinesOnly(s: string)
    ensures DropNewlines(Upper(s)) == Upper(DropNewlines(s))
    decreases |s|
  {
    if s != [] {
      UpperOfCons(s);
      LowerUpperChar(s[0]);
      DropNewlinesOfCons(s);
      DropNewlinesOfCons(Upper(s));
      if IsNewline(s[0]) {
        UpperDropNewlinesOnly(s[1..]);
      }
    }
  }

  lemma DropNewlinesOfCons(s: string)
    requires s != []
    ensures DropNewlines(s) == if IsNewline(s[0]) then DropNewlines(s[1..]) else s
  {
  }



  lemma UpperOfCons(s: string)
    requires s != []
    ensures Upper(s)[0] == UpperChar(s[0]) && Upper(s)[1..] == Upper(s[1..])
  {
    assert Upper(s) == [UpperChar(s[0])] + Upper(s[1..]);
  }

  lemma {:induction false} UpperReplaceNewlineRuns(s: string)
    ensures ReplaceNewlineRuns(Upper(s)) == Upper(ReplaceNewlineRuns(s))
    decreases |s|
  {
    if s != [] {
      LowerUpperChar(s[0]);
      UpperDropSpaces(s[1..]);
      if IsNewline(s[0]) {
        UpperReplaceNewlineRuns(DropNewlines(s[1..]));
      } else {
        UpperReplaceNewlineRuns(s[1..]);
      }
      UpperAppend([if IsNewline(s[0]) then ' ' else s[0]],
                  ReplaceNewlineRuns(if IsNewline(s[0]) then DropNewlines(s[1..]) else s[1..]));
    }
  }

  lemma {:induction false} UpperCollapseSpaces(s: string)
    ensures CollapseSpaces(Upper(s)) == Upper(CollapseSpaces(s))
    decreases |s|
  {
    if s != [] {
      LowerUpperChar(s[0]);
      UpperDropSpaces(s[1..]);
      if IsSpace(s[0]) {
        UpperCollapseSpaces(DropSpaces(s[1..]));
      } else {
        UpperCollapseSpaces(s[1..]);
      }
      UpperAppend([if IsSpace(s[0]) then ' ' else s[0]],
                  CollapseSpaces(if IsSpace(s[0]) then DropSpaces(s[1..]) else s[1..]));
    }
  }

  lemma {:induction false} UpperAppend(a: string, b: string)
    ensures Upper(a + b) == Upper(a) + Upper(b)
    decreases |a|
  {
    if a != [] {
      assert (a + b)[1..] == a[1..] + b;
      UpperAppend(a[1..], b);
    } else {
      assert a + b == b;
    }
  }

  lemma {:induction false} UpperTrim(s: string)
    ensures Trim(Upper(s)) == Upper(Trim(s))
  {
    UpperDropSpaces(s);
    assert TrimStart(s) == DropSpaces(s) by { TrimStartIsDropSpaces(s); }
    assert TrimStart(Upper(s)) == DropSpaces(Upper(s)) by { TrimStartIsDropSpaces(Upper(s)); }
    UpperTrimEnd(TrimStart(s));
  }

  lemma TrimStartIsDropSpaces(s: string)
    ensures TrimStart(s) == DropSpaces(s)
    decreases |s|
  {
    if s != [] && IsSpace(s[0]) { TrimStartIsDropSpaces(s[1..]); }
  }

  lemma {:induction false} UpperTrimEnd(s: string)
    ensures TrimEnd(Upper(s)) == Upper(TrimEnd(s))
    decreases |s|
  {
    if s != [] {
      var n := |s| - 1;
      UpperAppend(s[..n], [s[n]]);
      assert s == s[..n] + [s[n]];
      assert Upper(s) == Upper(s[..n]) + [UpperChar(s[n])];
      assert Upper(s)[..n] == Upper(s[..n]);
      LowerUpperChar(s[n]);
      if IsSpace(s[n]) {
        UpperTrimEnd(s[..n]);
      }
    }
  }

  lemma {:induction false} LowerOfUpper(s: string)
    ensures Lower(Upper(s)) == Lower(s)
    decreases |s|
  {
    if s != [] {
      LowerUpperChar(s[0]);
      LowerOfUpper(s[1..]);
    }
  }

  /** Upper-casing a description does not change its normal form: the filters
      built on it are case-insensitive. */
  lemma NormalizeIgnoresCase(s: string)
    ensures NormalizeDescription(Upper(s)) == NormalizeDescription(s)
  {
    UpperReplaceNewlineRuns(s);
    UpperCollapseSpaces(ReplaceNewlineRuns(s));
    UpperTrim(CollapseSpaces(ReplaceNewlineRuns(s)));
    LowerOfUpper(Trim(CollapseSpaces(ReplaceNewlineRuns(s))));
  }

  /** A string without `c` does not contain any pattern that holds `c`. */
  lemma {:induction false} NoCharNoContains(s: string, p: string, k: nat)
    requires k < |p| && !HasChar(s, p[k])
    ensures !Contains(s, p)
    decreases |s|
  {
    if |p| <= |s| {
      assert s[..|p|][k] == s[k] && s[k] != p[k];
    }
    if |s| > 0 {
      assert !HasChar(s[1..], p[k]) by {
        forall i | 0 <= i < |s[1..]| ensures s[1..][i] != p[k] { assert s[1..][i] == s[i + 1]; }
      }
      NoCharNoContains(s[1..], p, k);
    }
  }

  /** Dropping leading whitespace from `p + q` stops inside `p` unless `p` is
      all whitespace. */
  lemma {:induction false} DropSpacesAppend(p: string, q: string)
    ensures DropSpaces(p + q) == if AllSpace(p) then DropSpaces(q) else DropSpaces(p) + q
    decreases |p|
  {
    if p == [] {
      assert p + q == q;
    } else {
      var s := p + q;
      assert s[0] == p[0] && s[1..] == p[1..] + q;
      DropSpacesOfCons(s);
      DropSpacesOfCons(p);
      if IsSpace(p[0]) {
        AllSpaceOfCons(p);
        DropSpacesAppend(p[1..], q);
      } else {
        assert !AllSpace(p);
      }
    }
  }

  lemma AllSpaceOfCons(p: string)
    requires p != []
    ensures AllSpace(p) <==> IsSpace(p[0]) && AllSpace(p[1..])
  {
    if IsSpace(p[0]) && AllSpace(p[1..]) {
      forall i | 0 <= i < |p| ensures IsSpace(p[i]) { if i > 0 { assert p[i] == p[1..][i - 1]; } }
    }
  }

  lemma CollapseSpacesOfCons(s: string)
    requires s != []
    ensures CollapseSpaces(s)
            == if IsSpace(s[0]) then [' '] + CollapseSpaces(DropSpaces(s[1..])) else [s[0]] + CollapseSpaces(s[1..])
  {
  }

  /** Two tails that both start with whitespace and agree once their leading
      whitespace is dropped collapse alike behind any prefix. */
  lemma {:induction false} CollapseOfSpaceTails(a: string, u: string, v: string)
    requires u != [] && v != [] && IsSpace(u[0]) && IsSpace(v[0])
    requires DropSpaces(u) == DropSpaces(v)
    ensures CollapseSpaces(a + u) == CollapseSpaces(a + v)
    decreases |a|
  {
    var s, t := a + u, a + v;
    CollapseSpacesOfCons(s);
    CollapseSpacesOfCons(t);
    if a == [] {
      assert s == u && t == v;
      DropSpacesOfCons(u);
      DropSpacesOfCons(v);
    } else {
      var rest := a[1..];
      TailOfAppend(a, u);
      TailOfAppend(a, v);
      if !IsSpace(a[0]) {
        CollapseOfSpaceTails(rest, u, v);
      } else {
        DropSpacesAppend(rest, u);
        DropSpacesAppend(rest, v);
        if !AllSpace(rest) {
          CollapseOfSpaceTails(DropSpaces(rest), u, v);
        }
      }
    }
  }

  /** `/\s+/g` to a space turns any whitespace run into one space, wherever it
      sits and whatever characters it is made of. */
  lemma CollapseRun(a: string, w: string, b: string)
    requires w != [] && AllSpace(w)
    ensures CollapseSpaces(a + w + b) == CollapseSpaces(a + " " + b)
  {
    var u, v := w + b, " " + b;
    assert u[0] == w[0] && v[0] == ' ';
    DropSpacesAppend(w, b);
    assert DropSpaces(v) == DropSpaces(b) by { DropSpacesOfCons(v); assert v[1..] == b; }
    CollapseOfSpaceTails(a, u, v);
    AppendAssoc(a, w, b);
    AppendAssoc(a, " ", b);
  }

  lemma TailOfAppend(a: string, u: string)
    requires a != []
    ensures (a + u)[0] == a[0] && (a + u)[1..] == a[1..] + u
  {
  }

  lemma AppendAssoc(a: string, b: string, c: string)
    ensures a + b + c == a + (b + c)
  {
  }

  /** The normal form of a description sees a whitespace run (spaces, tabs,
      line breaks, in any mix) as a single space. */
  lemma WhitespaceRunIsOneSpace(a: string, w: string, b: string)
    requires w != [] && AllSpace(w)
    ensures NormalizeDescription(a + w + b) == NormalizeDescription(a + " " + b)
  {
    NewlineStepIsSubsumed(a + w + b);
    NewlineStepIsSubsumed(a + " " + b);
    CollapseRun(a, w, b);
  }

  /** A pattern found at a position is contained. */
  lemma {:induction false} ContainsAt(s: string, p: string, i: nat)
    requires i + |p| <= |s| && s[i..i + |p|] == p
    ensures Contains(s, p)
    decreases i
  {
    if i > 0 {
      assert s[1..][i - 1..i - 1 + |p|] == s[i..i + |p|];
      ContainsAt(s[1..], p, i - 1);
    } else {
      assert StartsWith(s, p);
    }
  }

  lemma LowerSlice(s: string, i: nat, j: nat)
    requires i <= j <= |s|
    ensures Lower(s)[i..j] == Lower(s[i..j])
  {
    forall k | 0 <= k < j - i ensures Lower(s)[i + k] == Lower(s[i..j])[k] {
      LowerOfSliceAt(s, i, j, k);
    }
  }

  lemma LowerOfSliceAt(s: string, i: nat, j: nat, k: nat)
    requires i <= j <= |s| && k < j - i
    ensures Lower(s)[i + k] == Lower(s[i..j])[k]
  {
    LowerAt(s, i + k);
    LowerAt(s[i..j], k);
  }

  /** A case-insensitive occurrence at a position is found by the
      case-insensitive search. */
  lemma ContainsIgnoreCaseAt(s: string, p: string, i: nat)
    requires i + |p| <= |s| && Lower(s[i..i + |p|]) == p
    ensures ContainsIgnoreCase(s, p)
  {
    LowerSlice(s, i, i + |p|);
    ContainsAt(Lower(s), p, i);
  }

  /** Text already in the normal form of the interest filters: no line
      breaks, every whitespace character a single space between two other
      characters, no upper-case letters. */
  predicate IsNormalText(s: string) {
    (s == [] || (!IsSpace(s[0]) && !IsSpace(s[|s| - 1])))
    && (forall i :: 0 <= i < |s| ==> !IsNewline(s[i]) && (IsSpace(s[i]) ==> s[i] == ' ') && !('A' <= s[i] <= 'Z'))
    && (forall i :: 0 <= i < |s| - 1 ==> !IsSpace(s[i]) || !IsSpace(s[i + 1]))
  }

  lemma {:induction false} ReplaceOfNoNewline(s: string)
    requires forall i :: 0 <= i < |s| ==> !IsNewline(s[i])
    ensures ReplaceNewlineRuns(s) == s
    decreases |s|
  {
    if s != [] {
      ReplaceOfNoNewline(s[1..]);
    }
  }

  lemma {:induction false} CollapseOfSingleSpaces(s: string)
    requires forall i :: 0 <= i < |s| ==> IsSpace(s[i]) ==> s[i] == ' '
    requires forall i :: 0 <= i < |s| - 1 ==> !IsSpace(s[i]) || !IsSpace(s[i + 1])
    ensures CollapseSpaces(s) == s
    decreases |s|
  {
    if s != [] {
      CollapseSpacesOfCons(s);
      var t := s[1..];
      assert t != [] ==> t[0] == s[1];
      if IsSpace(s[0]) && t != [] {
        DropSpacesOfCons(t);
      }
      CollapseOfSingleSpaces(t);
    }
  }

  lemma {:induction false} LowerOfNoUpper(s: string)
    requires forall i :: 0 <= i < |s| ==> !('A' <= s[i] <= 'Z')
    ensures Lower(s) == s
    decreases |s|
  {
    if s != [] {
      LowerOfNoUpper(s[1..]);
    }
  }

  /** Normal text is its own normal form. */
  lemma NormalizeOfNormal(s: string)
    requires IsNormalText(s)
    ensures NormalizeDescription(s) == s
  {
    ReplaceOfNoNewline(s);
    CollapseOfSingleSpaces(s);
    if s != [] {
      TrimOfUnpadded(s);
    }
    LowerOfNoUpper(s);
  }

  /** A pattern longer than the text is not in it. */
  lemma {:induction false} ContainsNeedsRoom(s: string, p: string)
    requires Contains(s, p)
    ensures |p| <= |s|
    decreases |s|
  {
    if !StartsWith(s, p) {
      ContainsNeedsRoom(s[1..], p);
    }
  }

  /** Normalising never lengthens a description. */
  lemma NormalizeIsNoLonger(s: string)
    ensures |NormalizeDescription(s)| <= |s|
  {
  }

  lemma {:induction false} TrimStartKeepsNonSpace(s: string, k: nat)
    requires k < |s| && !IsSpace(s[k])
    ensures |TrimStart(s)| >= |s| - k
    decreases k
  {
    if k > 0 && IsSpace(s[0]) {
      assert s[1..][k - 1] == s[k];
      TrimStartKeepsNonSpace(s[1..], k - 1);
      assert TrimStart(s) == TrimStart(s[1..]);
    } else {
      assert !IsSpace(s[0]);
      assert TrimStart(s) == s;
    }
  }

  lemma {:induction false} TrimEndKeepsNonSpace(s: string, k: nat)
    requires k < |s| && !IsSpace(s[k])
    ensures |TrimEnd(s)| > k
    decreases |s|
  {
    if k < |s| - 1 && IsSpace(s[|s| - 1]) {
      TrimEndKeepsNonSpace(s[..|s| - 1], k);
    }
  }

  /** Text with a non-space character does not trim to nothing. */
  lemma TrimOfNonSpace(s: string, k: nat)
    requires k < |s| && !IsSpace(s[k])
    ensures Trim(s) != []
  {
    TrimStartKeepsNonSpace(s, k);
    var t := TrimStart(s);
    var d := |s| - |t|;
    assert t[k - d] == s[k];
    TrimEndKeepsNonSpace(t, k - d);
  }
}
