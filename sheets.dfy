/** The spreadsheet path shared by the SBI parser (`sbi.ts`) and the IDFC
    XLSX parser (`idfc.ts`): find the header row, read every later row
    through the schema, and keep the interest rows. The two banks differ only
    in the words that identify the header, its error message, two column
    titles, how a date written as text is read, and the phrase the interest
    filter looks for; a `Layout` holds those. */
module Sheets {
  import opened Wrappers
  import opened Text
  import opened Numbers
  import opened BankTypes
  import opened Seqs

  datatype Layout = Layout(
    /** The two words (lower case) that some text cells of the header row
        must contain. */
    headerWord1: string,
    headerWord2: string,
    headerError: string,
    dateTitle: string,
    textTitle: string,
    /** How the date column's coercer reads a text cell. */
    dateText: string -> Option<Date>,
    /** What the normalised description must contain. */
    phrase: string)

  /** A row after the schema is applied: `date` is None when the field is
      `undefined` and Some(None) for an Invalid Date. The numeric fields are
      already `|| 0`-defaulted. */
  datatype SheetRow = SheetRow(date: DateField, text: Option<string>, debit: int, credit: int, balance: int)

  predicate IsHeader(l: Layout, row: seq<Cell>) {
    SomeCellContains(row, l.headerWord1) && SomeCellContains(row, l.headerWord2)
  }

  /** `findHeaderAndSlice`, the `transformData` hook: the rows from the first
      header row on, or the error it throws. */
  function FindHeaderAndSlice(l: Layout, data: seq<seq<Cell>>): (r: Result<seq<seq<Cell>>>)
    ensures r.Failure? <==> forall i :: 0 <= i < |data| ==> !IsHeader(l, data[i])
    ensures r.Failure? ==> r.error == l.headerError
    ensures r.Success? ==> 1 <= |r.value| <= |data| && IsHeader(l, r.value[0])
                           && r.value == data[|data| - |r.value|..]
                           && forall i :: 0 <= i < |data| - |r.value| ==> !IsHeader(l, data[i])
  {
    var k := FirstIndex((row: seq<Cell>) => IsHeader(l, row), data);
    if k == |data| then Failure(l.headerError) else Success(data[k..])
  }

  /** The date column's coercer: a date cell passes through, a text cell is
      read by the layout, anything else leaves the field `undefined`. */
  function DateCell(l: Layout, c: Cell): (r: DateField)
    ensures c.When? ==> r == Some(Some(c.date))
    ensures c.Text? ==> r == Some(l.dateText(c.text))
    ensures r.Some? <==> c.When? || c.Text?
  {
    match c
    case When(d) => Some(Some(d))
    case Text(s) => Some(l.dateText(s))
    case _ => None
  }

  /** The schema applied to one data row, under the header row. */
  function ReadRow(l: Layout, header: seq<Cell>, cells: seq<Cell>): SheetRow {
    SheetRow(
      DateCell(l, CellUnder(header, cells, l.dateTitle)),
      TextCell(CellUnder(header, cells, l.textTitle)),
      NumberCell(CellUnder(header, cells, "Debit")),
      NumberCell(CellUnder(header, cells, "Credit")),
      NumberCell(CellUnder(header, cells, "Balance")))
  }

  /** The reader takes the first row of what `transformData` returns as the
      header and maps every later row through the schema. */
  function Rows(l: Layout, sliced: seq<seq<Cell>>): (rows: seq<SheetRow>)
    ensures |rows| == if sliced == [] then 0 else |sliced| - 1
    ensures forall k :: 0 <= k < |rows| ==> rows[k] == ReadRow(l, sliced[0], sliced[k + 1])
  {
    if |sliced| == 0 then []
    else seq(|sliced| - 1, k requires 0 <= k < |sliced| - 1 => ReadRow(l, sliced[0], sliced[k + 1]))
  }

  /** The interest filter: newline runs and whitespace runs to one space,
      trimmed, lower-cased, then searched for the phrase. */
  predicate IsInterest(l: Layout, description: string) {
    Contains(NormalizeDescription(description), l.phrase)
  }

  /** The hash input `iso date|description|amount|balance|user`. */
  function HashInput(x: Externals, date: Date, text: string, amount: int, balance: int, user: Option<string>): string {
    Piped([x.isoString(date), text, PaiseText(amount), PaiseText(balance), UserPart(user)])
  }

  /** One loop iteration: the transaction a row yields, or None when it is
      skipped (no date, no or empty description, Invalid Date, not
      interest). */
  function RowTransaction(x: Externals, l: Layout, user: Option<string>, row: SheetRow): (r: Option<Transaction>)
    ensures r.Some? <==> row.date.Some? && row.date.value.Some?
                         && row.text.Some? && |row.text.value| > 0
                         && IsInterest(l, row.text.value)
    ensures r.Some? ==> r.value.date == row.date.value.value
                        && r.value.description == row.text.value
                        && r.value.amount == Finite(row.credit - row.debit)
                        && r.value.balance == Finite(row.balance)
                        && r.value.transactionId.None?
    ensures r.Some? ==> (r.value.txType == Credit <==> row.credit >= row.debit)
    ensures r.Some? ==> r.value.transactionHash
                        == x.hash(HashInput(x, r.value.date, r.value.description, row.credit - row.debit, row.balance, user))
  {
    if row.date.None? || row.text.None? || |row.text.value| == 0 then None
    else if row.date.value.None? then None
    else if !IsInterest(l, row.text.value) then None
    else
      var date := row.date.value.value;
      var amount := row.credit - row.debit;
      Some(Transaction(
        None,
        x.hash(HashInput(x, date, row.text.value, amount, row.balance, user)),
        date,
        row.text.value,
        Finite(amount),
        TypeOf(Finite(amount)),
        Finite(row.balance)))
  }

  /** `parse` of the SBI parser and `parseXlsx` of the IDFC parser. */
  method Parse(x: Externals, l: Layout, file: Content, user: Option<string>) returns (r: Result<seq<Transaction>>)
    ensures var sliced := FindHeaderAndSlice(l, x.sheetRows(file));
            && (r.Failure? <==> sliced.Failure?)
            && (r.Failure? ==> r.error == l.headerError)
            && (r.Success? ==> r.value == FilterMap((row: SheetRow) => RowTransaction(x, l, user, row), Rows(l, sliced.value)))
  {
    var sliced := FindHeaderAndSlice(l, x.sheetRows(file));
    if sliced.Failure? {
      return Failure(sliced.error);
    }
    var rows := Rows(l, sliced.value);
    var keep := (row: SheetRow) => RowTransaction(x, l, user, row);
    var transactions: seq<Transaction> := [];
    var k := 0;
    while k < |rows|
      invariant k <= |rows|
      invariant transactions == FilterMap(keep, rows[..k])
    {
      FilterMapStep(keep, rows, k);
      var t := keep(rows[k]);
      if t.Some? {
        transactions := transactions + [t.value];
      }
      k := k + 1;
    }
    assert rows[..k] == rows;
    return Success(transactions);
  }

  /** `t` is what `row` yields: its date, its non-empty interest
      description, and credit minus debit as its amount. */
  predicate Yields(l: Layout, row: SheetRow, t: Transaction) {
    row.date == Some(Some(t.date))
    && row.text == Some(t.description) && |t.description| > 0
    && IsInterest(l, t.description)
    && t.amount == Finite(row.credit - row.debit)
  }

  /** Every parsed transaction comes from one data row under the header. */
  lemma ParsedTransactionsComeFromRows(x: Externals, l: Layout, user: Option<string>, sliced: seq<seq<Cell>>, k: nat)
    requires k < |FilterMap((row: SheetRow) => RowTransaction(x, l, user, row), Rows(l, sliced))|
    ensures exists i :: 1 <= i < |sliced|
              && Yields(l, ReadRow(l, sliced[0], sliced[i]),
                        FilterMap((row: SheetRow) => RowTransaction(x, l, user, row), Rows(l, sliced))[k])
  {
    var keep := (row: SheetRow) => RowTransaction(x, l, user, row);
    var rows := Rows(l, sliced);
    var t := FilterMap(keep, rows)[k];
    FilterMapSource(keep, rows, k);
    var i :| 0 <= i < |rows| && keep(rows[i]) == Some(t);
    RowTransactionYields(x, l, user, rows[i]);
    assert rows[i] == ReadRow(l, sliced[0], sliced[i + 1]);
  }

  /** A kept row's record is one the row `Yields`. This moves from the
      definition of `RowTransaction` to the `Yields` predicate, which is
      what `ParsedTransactionsComeFromRows` speaks of; it holds by unfolding. */
  lemma RowTransactionYields(x: Externals, l: Layout, user: Option<string>, row: SheetRow)
    ensures RowTransaction(x, l, user, row).Some? ==> Yields(l, row, RowTransaction(x, l, user, row).value)
  {
  }

  /** The filter does not care about letter case or about how whitespace is
      laid out: upper-casing the description, or writing any whitespace run
      as a single space, keeps or drops the same rows. */
  lemma InterestIgnoresCaseAndSpacing(l: Layout, a: string, w: string, b: string)
    requires w != [] && AllSpace(w)
    ensures IsInterest(l, Upper(a + w + b)) <==> IsInterest(l, a + " " + b)
  {
    NormalizeIgnoresCase(a + w + b);
    WhitespaceRunIsOneSpace(a, w, b);
  }

  /** The phrase itself, in any letter case, passes the filter. */
  lemma PhraseIsInterest(l: Layout)
    requires IsNormalText(l.phrase)
    ensures IsInterest(l, l.phrase) && IsInterest(l, Upper(l.phrase))
  {
    NormalizeOfNormal(l.phrase);
    assert StartsWith(l.phrase, l.phrase);
    NormalizeIgnoresCase(l.phrase);
  }

  /** A description shorter than the phrase never passes. */
  lemma ShortTextIsNotInterest(l: Layout, d: string)
    requires |d| < |l.phrase|
    ensures !IsInterest(l, d)
  {
    NormalizeIsNoLonger(d);
    if IsInterest(l, d) {
      ContainsNeedsRoom(NormalizeDescription(d), l.phrase);
    }
  }

  /** Commas in a text cell are ignored: `1,234.50` reads as `1234.50`. */
  lemma {:induction false} NumberCellIgnoresCommas(a: string, b: string)
    ensures NumberCell(Text(a + "," + b)) == NumberCell(Text(a + b))
  {
    RemoveCommasAppend(a, "," + b);
    RemoveCommasAppend(",", b);
    RemoveCommasAppend(a, b);
    assert RemoveCommas(",") == [];
    assert a + "," + b == a + ("," + b);
    assert RemoveCommas(a + "," + b) == RemoveCommas(a + b);
  }

  /** A value written into a text cell as JavaScript prints it reads back as
      that value. */
  lemma PrintedNumberCell(p: int)
    ensures NumberCell(Text(PaiseText(p))) == p
  {
    var m := if p < 0 then -p else p;
    var w := NatText(m / 100);
    var fd := FractionDigits(m % 100);
    var sign: string := if p < 0 then "-" else "";
    var frac: string := if fd == [] then [] else "." + fd;
    assert PaiseText(p) == sign + (w + frac);
    forall i | 0 <= i < |PaiseText(p)|
      ensures PaiseText(p)[i] != ','
    {
      if i < |sign| {
        assert PaiseText(p)[i] == sign[i];
      } else if i < |sign| + |w| {
        assert PaiseText(p)[i] == w[i - |sign|];
      } else {
        assert PaiseText(p)[i] == frac[i - |sign| - |w|];
        if fd != [] && i > |sign| + |w| {
          assert frac[i - |sign| - |w|] == fd[i - |sign| - |w| - 1];
        }
      }
    }
    RemoveCommasWithoutCommas(PaiseText(p));
    ParseFloatOfPaiseText(p);
  }
}
