/** The parsed-transaction record, the banks, the raw inputs a parser reads,
    and the library and runtime functions the parsers call but whose code is
    not part of this model (`src/lib/banking/types.ts`). */
module BankTypes {
  import opened Wrappers
  import opened Numbers
  import opened Text

  /** A calendar date as the arguments of `new Date(year, monthIndex, day)`:
      the month is 0-based. */
  datatype Date = Date(year: int, monthIndex: int, day: int)

  /** Strictly earlier, by year, then month, then day. */
  predicate Before(a: Date, b: Date) {
    a.year < b.year
    || (a.year == b.year && a.monthIndex < b.monthIndex)
    || (a.year == b.year && a.monthIndex == b.monthIndex && a.day < b.day)
  }

  predicate NotAfter(a: Date, b: Date) {
    Before(a, b) || a == b
  }

  datatype TxType = Credit | Debit

  /** The parser output record: `transactionId` is `undefined` (None) when the
      statement has none. */
  datatype Transaction = Transaction(
    transactionId: Option<string>,
    transactionHash: string,
    date: Date,
    description: string,
    amount: Num,
    txType: TxType,
    balance: Num)

  /** `amount >= 0 ? "credit" : "debit"`. */
  function TypeOf(amount: Num): (t: TxType)
    ensures t == Credit <==> AtLeastZero(amount)
  {
    if AtLeastZero(amount) then Credit else Debit
  }

  datatype Bank = PNB | Kotak | SBI | IDFC

  /** A spreadsheet cell as the spreadsheet reader hands it over. */
  datatype Cell = Blank | Text(text: string) | Number(paise: int) | When(date: Date)

  /** A browser `File`: its name, its media type, and an identity for its bytes. */
  datatype Upload = Upload(name: string, mediaType: string, id: nat)

  /** What a parser is handed: the file itself, or text read from it. */
  datatype Content = TextContent(text: string) | FileContent(file: Upload)

  /** The functions the parsers call whose code is not part of this model. */
  datatype Externals = Externals(
    /** `generateHash`: the SHA-256 digest of the hash input, in hex. */
    hash: string -> string,
    /** `new Date(text)`: None for an Invalid Date. */
    parseDate: string -> Option<Date>,
    /** `date.toISOString()`. */
    isoString: Date -> string,
    /** The en-US "Mar 31, 2025" formatter of the PNB description rewriter. */
    humanDate: Date -> string,
    /** `file.text()` (a string is its own text). */
    fileText: Content -> string,
    /** `pdf2md(await file.arrayBuffer())`. */
    pdfMarkdown: Content -> string,
    /** The rows of the first sheet, before any schema is applied. */
    sheetRows: Content -> seq<seq<Cell>>,
    /** `Papa.parse(text, {header: true, skipEmptyLines: true}).data`. */
    csvRecords: string -> seq<map<string, string>>,
    /** The `canParse` a parser must have; the registered parsers define none. */
    canParse: (Bank, Content) -> bool)

  /** `${userID || ""}`. */
  function UserPart(userId: Option<string>): string {
    match userId
    case Some(u) => u
    case None => ""
  }

  /** A template string of the form `${a}|${b}|...`. */
  function Piped(fields: seq<string>): string {
    Join(fields, "|")
  }

  /** The column selector of the spreadsheet schemas: the first header cell
      that is exactly the title. */
  function ColumnIndex(header: seq<Cell>, title: string): (k: nat)
    ensures k <= |header|
    ensures k < |header| ==> header[k] == Text(title)
    ensures forall i :: 0 <= i < k ==> header[i] != Text(title)
  {
    if header == [] then 0
    else if header[0] == Text(title) then 0
    else 1 + ColumnIndex(header[1..], title)
  }

  /** The cell a schema column reads from a data row (Blank past its end or
      when the header has no such column). */
  function CellUnder(header: seq<Cell>, row: seq<Cell>, title: string): Cell {
    var k := ColumnIndex(header, title);
    if k < |header| && k < |row| then row[k] else Blank
  }

  /** `typeof cell === "string" && cell.toLowerCase().includes(word)`. */
  predicate TextCellContains(c: Cell, lowerWord: string) {
    c.Text? && ContainsIgnoreCase(c.text, lowerWord)
  }

  /** `row.some(cell => ...)` of the header searches. */
  predicate SomeCellContains(row: seq<Cell>, lowerWord: string) {
    exists i :: 0 <= i < |row| && TextCellContains(row[i], lowerWord)
  }

  /** The number coercer of both spreadsheet schemas: a number passes through,
      text is comma-stripped and parsed with NaN (and 0) becoming 0, anything
      else is 0. A blank cell is never coerced: the field is then `undefined`,
      which `|| 0` turns into 0 as well. */
  function NumberCell(c: Cell): int {
    match c
    case Number(p) => p
    case Text(s) => ParseFloatOrZero(RemoveCommas(s))
    case _ => 0
  }

  /** `type: String`: the text of a text or number cell; a blank cell leaves the
      field `undefined`. */
  function TextCell(c: Cell): Option<string> {
    match c
    case Text(s) => Some(s)
    case Number(p) => Some(PaiseText(p))
    case _ => None
  }

  /** A row date field: None when `undefined`, Some(None) for an Invalid Date. */
  type DateField = Option<Option<Date>>
}
