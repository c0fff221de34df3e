/** The Punjab National Bank CSV parser (`src/lib/banking/parsers/pnb.ts`):
    the description rewriter, the header search, and the row loop. */
module Pnb {
  import opened Wrappers
  import opened Text
  import opened Numbers
  import opened BankTypes
  import opened Utils
  import opened Seqs
  import opened Tokens

  // ---------------------------------------------------------------------------
  // The interest filter and the interest-range pattern
  // ---------------------------------------------------------------------------

  /** `/int\.pd|interest/i`. */
  predicate IsInterest(d: string) {
    ContainsIgnoreCase(d, "int.pd") || ContainsIgnoreCase(d, "interest")
  }

  /** The case-insensitive literal `word` (given in lower case) at `i`. */
  predicate WordAt(s: string, i: nat, word: string) {
    i + |word| <= |s| && Lower(s[i..i + |word|]) == word
  }

  /** The end of the run of `[:\s]` starting at `i`. */
  function SkipColonsAndSpaces(s: string, i: nat): (j: nat)
    requires i <= |s|
    ensures i <= j <= |s| && (j < |s| ==> s[j] != ':' && !IsSpace(s[j]))
    decreases |s| - i
  {
    if i < |s| && (s[i] == ':' || IsSpace(s[i])) then SkipColonsAndSpaces(s, i + 1) else i
  }

  predicate DigitsAt(s: string, i: nat, n: nat) {
    i + n <= |s| && forall k :: i <= k < i + n ==> IsDigit(s[k])
  }

  /** `[0-9]{2}-[0-9]{2}-[0-9]{4}` at `i`. */
  predicate RangeDateAt(s: string, i: nat) {
    i + 10 <= |s| && DigitsAt(s, i, 2) && s[i + 2] == '-' && DigitsAt(s, i + 3, 2)
    && s[i + 5] == '-' && DigitsAt(s, i + 6, 4)
  }

  /** The interest-range pattern
      `int\.\s*\.?pd[:\s]*(date)\s*(?:to|-)\s*(date)` (case-insensitive)
      anchored at `i`: the positions of its two captured dates. Each quantified
      run is followed by a character it cannot contain, so the greedy reading
      is the only one and no backtracking is needed. */
  function RangeDatePositions(s: string, i: nat): (r: Option<(nat, nat)>)
    requires i <= |s|
    ensures r.Some? ==> WordAt(s, i, "int.") && RangeDateAt(s, r.value.0) && RangeDateAt(s, r.value.1)
  {
    if !WordAt(s, i, "int.") then None
    else
      var a := SkipSpaces(s, i + 4);
      var b := if a < |s| && s[a] == '.' then a + 1 else a;
      if !WordAt(s, b, "pd") then None
      else
        var c := SkipColonsAndSpaces(s, b + 2);
        if !RangeDateAt(s, c) then None
        else
          var e := SkipSpaces(s, c + 10);
          var g: int :=
            if WordAt(s, e, "to") then e + 2
            else if e < |s| && s[e] == '-' then e + 1
            else -1;
          if g < 0 then None
          else
            var h := SkipSpaces(s, g);
            if RangeDateAt(s, h) then Some((c, h)) else None
  }

  /** The two captured date texts of a match at `i`. */
  function RangeAt(s: string, i: nat): (r: Option<(string, string)>)
    requires i <= |s|
  {
    match RangeDatePositions(s, i)
    case None => None
    case Some((c, h)) => Some((s[c..c + 10], s[h..h + 10]))
  }

  /** `description.match(INTEREST_RANGE_REGEX)`: the leftmost position at
      which the pattern matches. */
  function FindRange(s: string, i: nat): Option<(string, string)>
    requires i <= |s|
    decreases |s| - i
  {
    if RangeAt(s, i).Some? then RangeAt(s, i)
    else if i == |s| then None
    else FindRange(s, i + 1)
  }

  /** The rewritten description. */
  function RangeSentence(x: Externals, from: Date, to: Date): string {
    "Interest received from the bank from " + x.humanDate(from) + " to " + x.humanDate(to)
  }

  /** `formatPNBDescription`: a null or empty description is returned as is;
      a description holding an interest range whose two dates are valid
      becomes the range sentence; any other description is kept. */
  function FormatDescription(x: Externals, d: Option<string>): (r: Option<string>)
    ensures d.None? || d == Some("") ==> r == d
    ensures d.Some? ==> r.Some?
    ensures d.Some? && FindRange(d.value, 0).None? ==> r == d
  {
    if d.None? || d.value == "" then d
    else match FindRange(d.value, 0)
      case None => d
      case Some((from, to)) =>
        var fromDate, toDate := ParseDDMMYYYY(from), ParseDDMMYYYY(to);
        if fromDate.Some? && toDate.Some? then Some(RangeSentence(x, fromDate.value, toDate.value))
        else d
  }

  // ---------------------------------------------------------------------------
  // Properties of the rewriter
  // ---------------------------------------------------------------------------

  /** Both captured dates match `[0-9]{2}-[0-9]{2}-[0-9]{4}`, so they always
      parse: the "either date is invalid" fallback cannot be taken. */
  lemma {:induction false} RangeDatesAreValid(s: string, i: nat)
    requires i <= |s| && FindRange(s, i).Some?
    ensures ParseDDMMYYYY(FindRange(s, i).value.0).Some?
    ensures ParseDDMMYYYY(FindRange(s, i).value.1).Some?
    decreases |s| - i
  {
    if RangeAt(s, i).Some? {
      RangeAtDatesAreValid(s, i);
    } else {
      RangeDatesAreValid(s, i + 1);
    }
  }

  lemma RangeAtDatesAreValid(s: string, i: nat)
    requires i <= |s| && RangeAt(s, i).Some?
    ensures ParseDDMMYYYY(RangeAt(s, i).value.0).Some?
    ensures ParseDDMMYYYY(RangeAt(s, i).value.1).Some?
  {
    var pos := RangeDatePositions(s, i).value;
    var from, to := s[pos.0..pos.0 + 10], s[pos.1..pos.1 + 10];
    assert RangeAt(s, i).value == (from, to);
    DateTextIsValid(s, pos.0);
    DateTextIsValid(s, pos.1);
    assert ParseDDMMYYYY(from).Some?;
  }

  lemma DateTextIsValid(s: string, c: nat)
    requires RangeDateAt(s, c)
    ensures ParseDDMMYYYY(s[c..c + 10]).Some?
  {
    var d, m, y := s[c..c + 2], s[c + 3..c + 5], s[c + 6..c + 10];
    assert s[c..c + 10] == d + "-" + m + "-" + y;
    assert AllDigits(d) && AllDigits(m) && AllDigits(y) by {
      assert forall k :: 0 <= k < 2 ==> d[k] == s[c + k] && m[k] == s[c + 3 + k];
      assert forall k :: 0 <= k < 4 ==> y[k] == s[c + 6 + k];
    }
    DigitDateIsValid(d, m, y);
  }

  /** A description holding an interest range becomes the range sentence
      built from the two dates. */
  lemma FormatOfRange(x: Externals, s: string)
    requires s != "" && FindRange(s, 0).Some?
    ensures RangeDatesAreValidAt(s)
    ensures FormatDescription(x, Some(s))
            == Some(RangeSentence(x, ParseDDMMYYYY(FindRange(s, 0).value.0).value,
                                     ParseDDMMYYYY(FindRange(s, 0).value.1).value))
  {
    RangeDatesAreValid(s, 0);
  }

  predicate RangeDatesAreValidAt(s: string)
    requires FindRange(s, 0).Some?
  {
    ParseDDMMYYYY(FindRange(s, 0).value.0).Some? && ParseDDMMYYYY(FindRange(s, 0).value.1).Some?
  }

  lemma DotOfRangeAt(s: string, i: nat)
    requires i <= |s| && RangeAt(s, i).Some?
    ensures i + 3 < |s| && s[i + 3] == '.'
  {
    assert WordAt(s, i, "int.");
    var w := s[i..i + 4];
    LowerAt(w, 3);
    assert w[3] == s[i + 3];
  }

  /** With no `.` in the text no interest range can start anywhere. */
  lemma {:induction false} NoDotNoRange(s: string, i: nat)
    requires i <= |s| && !HasChar(s, '.')
    ensures FindRange(s, i).None?
    decreases |s| - i
  {
    if RangeAt(s, i).Some? {
      DotOfRangeAt(s, i);
    }
    if i < |s| {
      NoDotNoRange(s, i + 1);
    }
  }

  /** The date formatter writes dates such as "Mar 31, 2025": no `.`. */
  ghost predicate DotFreeDates(x: Externals) {
    forall dt: Date :: !HasChar(x.humanDate(dt), '.')
  }

  lemma SentenceHasNoDot(x: Externals, from: Date, to: Date)
    requires DotFreeDates(x)
    ensures !HasChar(RangeSentence(x, from, to), '.')
  {
    var a, b := x.humanDate(from), x.humanDate(to);
    var p := "Interest received from the bank from ";
    var s := p + a + " to " + b;
    assert !HasChar(a, '.') && !HasChar(b, '.');
    forall k | 0 <= k < |s| ensures s[k] != '.' {
      if k < |p| {
        assert s[k] == p[k];
      } else if k < |p| + |a| {
        assert s[k] == a[k - |p|];
      } else if k < |p| + |a| + 4 {
        assert s[k] == " to "[k - |p| - |a|];
      } else {
        assert s[k] == b[k - |p| - |a| - 4];
      }
    }
  }

  /** Formatting is idempotent, so formatting the stored description again
      for display changes nothing. */
  lemma FormatIsIdempotent(x: Externals, d: Option<string>)
    requires DotFreeDates(x)
    ensures FormatDescription(x, FormatDescription(x, d)) == FormatDescription(x, d)
  {
    var r := FormatDescription(x, d);
    if d.Some? && d.value != "" && r != d {
      match FindRange(d.value, 0)
      case Some((from, to)) =>
        var f, t := ParseDDMMYYYY(from), ParseDDMMYYYY(to);
        assert r == Some(RangeSentence(x, f.value, t.value));
        SentenceHasNoDot(x, f.value, t.value);
        NoDotNoRange(r.value, 0);
    }
  }

  // ---------------------------------------------------------------------------
  // The parser
  // ---------------------------------------------------------------------------

  const HeaderError := "Could not find transaction header row (Txn No., Txn Date)"

  predicate IsHeaderLine(line: string) {
    Contains(line, "Txn No.") && Contains(line, "Txn Date")
  }

  /** `row[key] || fallback`: a missing or empty column gives the fallback. */
  function Column(row: map<string, string>, key: string, fallback: string): (v: string)
    ensures v == fallback || (key in row && v == row[key] && v != "")
  {
    if key in row && row[key] != "" then row[key] else fallback
  }

  /** `.replace(/ (Cr|Dr)\.$/, "")`. */
  function StripBalanceSuffix(b: string): string {
    if EndsWith(b, " Cr.") || EndsWith(b, " Dr.") then b[..|b| - 4] else b
  }

  /** The balance column: the suffix stripped, trimmed, and parsed. */
  function Balance(raw: string): Num {
    ParseFloat(Trim(StripBalanceSuffix(raw)))
  }

  /** `amount = Cr Amount - Dr Amount`, each defaulting to "0". */
  function Amount(row: map<string, string>): Num {
    Sub(ParseFloat(Column(row, "Cr Amount", "0")), ParseFloat(Column(row, "Dr Amount", "0")))
  }

  /** `row["Txn No."] || undefined`. */
  function TransactionId(row: map<string, string>): (r: Option<string>)
    ensures r.None? <==> ("Txn No." !in row || row["Txn No."] == "")
    ensures r.Some? ==> r.value == row["Txn No."]
  {
    if "Txn No." in row && row["Txn No."] != "" then Some(row["Txn No."]) else None
  }

  /** The hash input `date|description|amount|balance|user|txnId`, from the raw
      column texts. */
  function HashInput(row: map<string, string>, user: Option<string>): string {
    Piped([Column(row, "Txn Date", ""), Column(row, "Description", ""),
           NumText(Amount(row)), NumText(Balance(Column(row, "Balance", "0"))),
           UserPart(user), TransactionId(row).GetOr("")])
  }

  /** One loop iteration: the transaction a CSV record yields, or None when it
      is skipped. */
  function RowTransaction(x: Externals, user: Option<string>, row: map<string, string>): (r: Option<Transaction>)
    ensures r.Some? <==> IsInterest(Column(row, "Description", ""))
                         && ParseDDMMYYYY(Column(row, "Txn Date", "")).Some?
    ensures r.Some? ==> r.value.date == ParseDDMMYYYY(Column(row, "Txn Date", "")).value
    ensures r.Some? ==> r.value.txType == TypeOf(r.value.amount)
    ensures r.Some? ==> r.value.transactionHash == x.hash(HashInput(row, user))
    ensures r.Some? ==> Some(r.value.description) == FormatDescription(x, Some(Column(row, "Description", "")))
  {
    var description := Column(row, "Description", "");
    if !IsInterest(description) then None
    else
      var date := ParseDDMMYYYY(Column(row, "Txn Date", ""));
      if date.None? then None
      else
        var amount := Amount(row);
        Some(Transaction(
          TransactionId(row),
          x.hash(HashInput(row, user)),
          date.value,
          FormatDescription(x, Some(description)).value,
          amount,
          TypeOf(amount),
          Balance(Column(row, "Balance", "0"))))
  }

  /** The CSV records the parser loops over. */
  function Records(x: Externals, lines: seq<string>): seq<map<string, string>>
    requires FirstIndex(IsHeaderLine, lines) < |lines|
  {
    x.csvRecords(Join(lines[FirstIndex(IsHeaderLine, lines)..], "\n"))
  }

  /** `PNBParser.parse`. */
  method Parse(x: Externals, file: Content, user: Option<string>) returns (r: Result<seq<Transaction>>)
    ensures var lines := SplitLines(x.fileText(file));
            && (r.Failure? <==> FirstIndex(IsHeaderLine, lines) == |lines|)
            && (r.Failure? ==> r.error == HeaderError)
            && (r.Success? ==> r.value == FilterMap((row: map<string, string>) => RowTransaction(x, user, row), Records(x, lines)))
  {
    var lines := SplitLines(x.fileText(file));
    var header := FirstIndex(IsHeaderLine, lines);
    if header == |lines| {
      return Failure(HeaderError);
    }
    var rows := Records(x, lines);
    var keep := (row: map<string, string>) => RowTransaction(x, user, row);
    var transactions: seq<Transaction> := [];
    var k := 0;
    while k < |rows|
      invariant k <= |rows|
      invariant transactions == FilterMap(keep, rows[..k])
    {
      FilterMapStep(keep, rows, k);
      var t := keep(rows[k]);
      if t.Some? {
        transactions := transactions + [t.value];
      }
      k := k + 1;
    }
    assert rows[..k] == rows;
    return Success(transactions);
  }

  /** Every parsed transaction comes from one record that passes the filter,
      has the type its amount's sign gives, and carries the hash of its raw
      fields. */
  lemma ParsedTransactionsComeFromRecords(x: Externals, user: Option<string>, rows: seq<map<string, string>>, k: nat)
    requires k < |FilterMap((row: map<string, string>) => RowTransaction(x, user, row), rows)|
    ensures var t := FilterMap((row: map<string, string>) => RowTransaction(x, user, row), rows)[k];
            exists i :: 0 <= i < |rows| && IsInterest(Column(rows[i], "Description", ""))
              && ParseDDMMYYYY(Column(rows[i], "Txn Date", "")).Some?
              && t.date == ParseDDMMYYYY(Column(rows[i], "Txn Date", "")).value
              && t.amount == Amount(rows[i])
              && t.transactionHash == x.hash(HashInput(rows[i], user))
    ensures var t := FilterMap((row: map<string, string>) => RowTransaction(x, user, row), rows)[k];
            t.txType == Credit <==> AtLeastZero(t.amount)
  {
    var keep := (row: map<string, string>) => RowTransaction(x, user, row);
    FilterMapSource(keep, rows, k);
  }

  /** A balance printed with the statement's ` Cr.` or ` Dr.` marker reads
      back as the printed value. */
  lemma BalanceWithMarker(p: int, marker: string)
    requires marker == " Cr." || marker == " Dr."
    ensures Balance(PaiseText(p) + marker) == Finite(p)
  {
    TrimOfPaiseText(p);
    BalanceOfMarkedText(PaiseText(p), marker);
    ParseFloatOfPaiseText(p);
  }

  lemma BalanceOfMarkedText(t: string, marker: string)
    requires marker == " Cr." || marker == " Dr."
    requires Trim(t) == t
    ensures Balance(t + marker) == ParseFloat(t)
  {
    StripOfMarked(t, marker);
  }

  lemma StripOfMarked(t: string, marker: string)
    requires marker == " Cr." || marker == " Dr."
    ensures StripBalanceSuffix(t + marker) == t
  {
    assert (t + marker)[|t + marker| - 4..] == marker;
    assert (t + marker)[..|t + marker| - 4] == t;
  }

  lemma TrimOfPaiseText(p: int)
    ensures Trim(PaiseText(p)) == PaiseText(p)
  {
    var m := if p < 0 then -p else p;
    var whole := NatText(m / 100);
    var fd := FractionDigits(m % 100);
    var tail: string := if fd == [] then [] else "." + fd;
    var sign: string := if p < 0 then "-" else "";
    var t := sign + (whole + tail);
    assert PaiseText(p) == t;
    assert t[0] == '-' || t[0] == whole[0];
    assert t[|t| - 1] == (if fd == [] then whole[|whole| - 1] else fd[|fd| - 1]);
    TrimOfUnpadded(t);
  }
}
