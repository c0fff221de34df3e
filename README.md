# Interest tracker: a verified model of its core

Interest tracker lets a user upload bank statements. It pulls the interest
credits out of them, stores them, and lets the user record donations. The
donations are allocated first in, first out against the interest received,
so that each interest entry shows how much of it has been given away.

This project models the core of that system in Dafny and proves properties
of the model:

- **The statement parsers.** PNB (CSV), Kotak (PDF converted to text), SBI
  (spreadsheet) and IDFC (PDF or spreadsheet) are modelled, together with the
  date reader `parseDDMMYYYY` they share and the parser registry.
- **The statement analyzer.** It reads every uploaded file with the detected
  parser, fails the batch on the first file it cannot read, and collapses the
  records to one per transaction hash. It then sorts them newest first.
- **The server actions.**
  - The insert-or-skip sync of transactions.
  - The donation insert with its positivity check.
  - The FIFO donation waterfall of `reconcileUserInterests`, with the upsert
    of its rows keyed by transaction hash.
  - The keyset pagination of the interest listing.
- **Two pieces of client logic.** The status-filter toggle and sort direction
  of the interest table, and the amount check of the donation dialog.

Money is an integer number of paise. The database columns are
`numeric(12,2)`, so two decimals are exact. A JavaScript number that may be
`NaN` is `Numbers.Num`. Dates are the `(year, monthIndex, day)` triple given
to `new Date`, ordered lexicographically.

The outside world is passed in as one `Externals` value of functions:
`generateHash`, `new Date(text)`, `toISOString`, the PDF to text converter,
the CSV reader, the spreadsheet reader and each bank's `canParse`. The
session is an `Option` of the user id, and the clock is a parameter.

Loops in the source are methods with loops, proved equal to the functions
that specify them. Examples are the parser loops, the IDFC PDF lookahead,
the waterfall, `detectParser` and the analyzer's deduplication map.
Stateful objects are classes whose methods state their whole new state:
the two keyed tables, the donation table, the analyzer component and the
donation dialog.

Modules, one file each:

| module | file | models |
|---|---|---|
| `Wrappers`, `Seqs`, `Text`, `Tokens`, `Numbers` | `wrappers.dfy`, `seqs.dfy`, `text.dfy`, `tokens.dfy`, `numbers.dfy` | Option/Result, `filter`/`findIndex`, the string and regex helpers, `parseFloat` and number printing |
| `BankTypes` | `types.dfy` | the parser-facing records (`src/lib/banking/types.ts`) and the spreadsheet cells |
| `NumberCoercion` | `number_coercion.dfy` | `Number(text)` and the `Date` constructor's truncation of its arguments |
| `Utils` | `utils.dfy` | `parseDDMMYYYY` (`src/lib/utils.ts`) |
| `Pnb`, `Kotak`, `Sheets`, `Sbi`, `Idfc` | `pnb.dfy`, `kotak.dfy`, `sheets.dfy`, `sbi.dfy`, `idfc.dfy` | the four statement parsers |
| `Registry` | `registry.dfy` | `detectParser` |
| `Waterfall`, `Actions` | `waterfall.dfy`, `actions.dfy` | `src/server/action.ts` |
| `Projections` | `projection.dfy` | `src/server/projection-action.ts` |
| `Analyzer` | `analyzer.dfy` | `handleProcessFiles` of `src/components/statement-analyzer.tsx` |
| `StatusFilter` | `status_filter.dfy` | the status filter and sort direction of `src/components/interest-transaction-table.tsx` |
| `DonationCard` | `donation_card.dfy` | `handleDonate` of `src/components/donation-card.tsx` |

Three behaviours of the code that are easy to overlook:

- A transaction of amount zero is `fully_donated` even when there are no
  donations, because its remaining amount is 0 (`src/server/action.ts:229-234`).
  `Waterfall.NoDonations` states that only non-zero amounts are
  `not_donated` then.
- Donations are pooled across transactions: donations of 50 and 50 against
  three transactions of 30 cover all three in full, 90 in total, as
  `Waterfall.PooledExample` states.
- The registered parsers define no `canParse`, so acceptance is an input.
  The IDFC parser is not in the registry.

## Model

| member | source | states |
|---|---|---|
| Utils.SeparatorIndex | src/lib/utils.ts:9 | the split point is the first `-` or `/`, and no separator comes before it |
| Utils.SplitOfThreeFields | src/lib/utils.ts:9 | splitting `d<sep>m<sep>y` on `[-/]` gives exactly the three fields back, with either separator at either place |
| Utils.ParseDDMMYYYYFields | src/lib/utils.ts:8-11 | the first field is the day, the second the 1-based month, the third the year, each as `Number` reads it; the constructor truncates each toward zero, the month after one is subtracted; a field `Number` reads as NaN gives an Invalid Date (None) |
| Utils.SeparatorsAreInterchangeable | src/lib/utils.ts:9 | `d-m-y` and `d/m/y` give the same date |
| Utils.NonNumericFieldIsInvalid | src/lib/utils.ts:9-10 | a field that `Number` reads as NaN makes the date invalid |
| Utils.MonthNameIsInvalid | src/lib/utils.ts:9-10 | a month written as a name, or any field text without a digit, makes the date invalid |
| Utils.DayFieldReads | src/lib/utils.ts:8-10 | a day field that `Number` reads as v, with a digit month and year, gives the day `v` truncated toward zero |
| Utils.MonthFieldReads | src/lib/utils.ts:8-10 | a month field that `Number` reads as v gives the month index `v - 1` truncated toward zero |
| Utils.PlusSignedDay | src/lib/utils.ts:9-10 | a day written `+d` is day d |
| Utils.FractionalDayIsTruncated | src/lib/utils.ts:9-10 | a day written `w.f` is day w |
| Utils.ExponentDay | src/lib/utils.ts:9-10 | a day written `d e x` is day d times ten to the x |
| Utils.RadixDay | src/lib/utils.ts:9-10 | a day written `0x…`, `0o…` or `0b…` is the integer those digits spell in that radix |
| Utils.FractionalMonthBelowOne | src/lib/utils.ts:10 | a month written `0.f`, f not all zeros, is month index 0 (January of that year), because truncation comes after the subtraction |
| Utils.TooFewFieldsIsInvalid | src/lib/utils.ts:9-10 | with only two fields the year is missing and the date is invalid |
| Utils.DigitDateIsValid | src/lib/utils.ts:8-11 | a date text made of three digit fields always gives a valid date |
| Numbers.Sub | src/lib/banking/parsers/pnb.ts:68 | `cr - dr` is a number exactly when both are, and then it is their difference |
| NumberCoercion.NumberOfDigits | src/lib/utils.ts:9 | a field of decimal digits reads as their decimal value, and a blank field as 0 |
| NumberCoercion.NumberOfSigned | src/lib/utils.ts:9 | a leading `+` or `-` is read: `-d` is the negated value of d |
| NumberCoercion.NumberOfFraction | src/lib/utils.ts:9 | `w.f` reads as the exact value w + f / 10^\|f\|, either part possibly empty but not both |
| NumberCoercion.NumberOfExponent | src/lib/utils.ts:9 | digits d, `e` and digits x read as d times ten to the x |
| NumberCoercion.NumberOfRadix | src/lib/utils.ts:9 | `0x`, `0o` or `0b` (either case) and digits of that radix read as the integer they spell |
| NumberCoercion.NoDigitIsNaN | src/lib/utils.ts:9 | a non-blank field without any decimal digit (a month name, `Infinity`) has no finite value |
| NumberCoercion.TrailingLetterIsNaN | src/lib/utils.ts:9 | digits followed by a letter that starts neither an exponent nor a radix prefix are NaN |
| NumberCoercion.TruncDivBounds | src/lib/utils.ts:10 | the quotient truncated toward zero is the multiple of the divisor nearest to the dividend on the side of zero |
| Numbers.ParseFloatOfParts | src/lib/banking/parsers/pnb.ts:66-67 | `parseFloat` of `[-]digits[.digits]` reads the whole part and the first two fraction digits |
| Numbers.ParseFloatOfPaiseText | src/lib/banking/parsers/pnb.ts:71 | printing an amount as the hash input does and parsing it back gives the amount |
| Numbers.AmountTokenParses | src/lib/banking/parsers/kotak.ts:13-15 | an amount matched by `[\d,]+\.\d{2}` parses after comma removal and is never negative |
| Text.SplitLines | src/lib/banking/parsers/kotak.ts:5 | splitting on `\r\n` or `\n` gives at least one line, and no line holds a `\n` |
| Text.SplitLinesHaveNoLineFeed | src/lib/banking/parsers/kotak.ts:5 | no character of any line that the split returns is a `\n` |
| Text.SplitJoinCrLf | src/lib/banking/parsers/kotak.ts:5 | lines without `\n` joined by `\r\n` split back into exactly those lines |
| Text.SplitJoinLf | src/lib/banking/parsers/kotak.ts:5 | lines without `\n` joined by `\n` split back into exactly those lines when no line before the last ends in `\r` |
| Text.NewlineStepIsSubsumed | src/lib/banking/parsers/sbi.ts:57-58 | replacing newline runs by a space and then whitespace runs by a space is the same as the second step alone |
| Text.WhitespaceRunIsOneSpace | src/lib/banking/parsers/sbi.ts:56-60 | the interest-filter normal form sees any whitespace run as one space |
| Text.NormalizeIgnoresCase | src/lib/banking/parsers/sbi.ts:56-60 | upper-casing a description does not change its normal form |
| Text.NormalizeOfNormal | src/lib/banking/parsers/sbi.ts:56-60 | text already in normal form is its own normal form |
| Text.NormalizeIsNoLonger | src/lib/banking/parsers/sbi.ts:56-60 | normalising never lengthens a description |
| Seqs.FirstIndex | src/lib/banking/parsers/pnb.ts:40-42 | `findIndex`: the first index satisfying the test, with no earlier one, or the length when none does |
| BankTypes.TypeOf | src/lib/banking/parsers/sbi.ts:110 | the type is credit exactly when the amount is a number at least zero |
| BankTypes.ColumnIndex | src/lib/banking/parsers/sbi.ts:15-52 | a schema column is the first header cell whose text is exactly the column title |
| Pnb.RangeDatePositions | src/lib/banking/parsers/pnb.ts:7-8 | a match of the range pattern starts with `int.` and captures two `dd-dd-dddd` dates |
| Pnb.FormatDescription | src/lib/banking/parsers/pnb.ts:16-30 | a null or empty description is returned as is; without a range the description is kept |
| Pnb.RangeDatesAreValid | src/lib/banking/parsers/pnb.ts:21-24 | both captured dates always parse, so the "invalid date" fallback is never taken |
| Pnb.FormatOfRange | src/lib/banking/parsers/pnb.ts:18-26 | a description holding a range becomes "Interest received from the bank from <from> to <to>" |
| Pnb.NoDotNoRange | src/lib/banking/parsers/pnb.ts:8 | text without a `.` holds no range anywhere |
| Pnb.SentenceHasNoDot | src/lib/banking/parsers/pnb.ts:25 | the rewritten sentence has no `.` when the date formatter writes none |
| Pnb.FormatIsIdempotent | src/lib/banking/parsers/pnb.ts:16-30 | formatting a formatted description again changes nothing |
| Pnb.Column | src/lib/banking/parsers/pnb.ts:56-69 | `row[key] \|\| fallback`: a missing or empty column gives the fallback, otherwise the column's text |
| Pnb.TransactionId | src/lib/banking/parsers/pnb.ts:65 | an empty or missing `Txn No.` gives no transaction id, otherwise its text |
| Pnb.RowTransaction | src/lib/banking/parsers/pnb.ts:55-84 | a record is kept exactly when its description is interest and its date parses; then date, type by sign, hash of the raw fields, formatted description |
| Pnb.Parse | src/lib/banking/parsers/pnb.ts:36-88 | no header line is the header error; otherwise the kept records from the header line on, in order |
| Pnb.ParsedTransactionsComeFromRecords | src/lib/banking/parsers/pnb.ts:55-84 | every output comes from one interest record with a valid date, with its amount and hash; credit exactly when the amount is at least zero |
| Pnb.BalanceWithMarker | src/lib/banking/parsers/pnb.ts:69 | a balance printed with ` Cr.` or ` Dr.` reads back as the printed value |
| Pnb.BalanceOfMarkedText | src/lib/banking/parsers/pnb.ts:69 | the suffix is removed before the balance is parsed |
| Pnb.StripOfMarked | src/lib/banking/parsers/pnb.ts:69 | stripping removes exactly a trailing ` Cr.` or ` Dr.` |
| Kotak.MatchLine | src/lib/banking/parsers/kotak.ts:10-11 | a matching line captures two amount tokens and an already trimmed description |
| Kotak.PlainLineMatches | src/lib/banking/parsers/kotak.ts:7-11 | serial, day, month, year, `Int.Pd:` token, amount and balance joined by single spaces match, capturing the date as written, the `Int.Pd:` token and the two amounts |
| Kotak.RangeLineMatches | src/lib/banking/parsers/kotak.ts:7-11 | the same line with `to dd-mm-yyyy` after the `Int.Pd:` token matches, and the description runs from that token to the end of the range |
| Kotak.LineTransaction | src/lib/banking/parsers/kotak.ts:28-54 | a line yields a transaction exactly when it matches and its date parses; fields and hash input from the groups |
| Kotak.Parse | src/lib/banking/parsers/kotak.ts:21-58 | the output is what each line of the converted text yields, in line order |
| Kotak.MatchImpliesMarker | src/lib/banking/parsers/kotak.ts:30-33 | the `Int.Pd:` prefilter never drops a line the pattern accepts |
| Kotak.LineTransactionIsCredit | src/lib/banking/parsers/kotak.ts:40-54 | every entry is a credit with non-negative amount and balance, hashed with the untrimmed description, which equals the stored one |
| Kotak.ParsedLinesInOrder | src/lib/banking/parsers/kotak.ts:28-55 | each accepted line gives one entry, in line order |
| Sheets.FindHeaderAndSlice | src/lib/banking/parsers/sbi.ts:66-78 | the rows from the first header row on, with no header row before it; the header error when no row qualifies |
| Sheets.DateCell | src/lib/banking/parsers/sbi.ts:18-22 | a date cell passes through, a text cell is read by the bank's date reader, anything else leaves the date undefined |
| Sheets.Rows | src/lib/banking/parsers/sbi.ts:88-91 | the first sliced row is the header and every later row is read through the schema under it |
| Sheets.RowTransaction | src/lib/banking/parsers/sbi.ts:94-112 | a row is kept exactly when its date is present and valid and its details are non-empty interest text; amount credit minus debit, credit exactly when credit ≥ debit, hash input ISO date, details, amount, balance, user |
| Sheets.Parse | src/lib/banking/parsers/sbi.ts:84-116 | the header error, or the kept rows under the header in order |
| Sheets.ParsedTransactionsComeFromRows | src/lib/banking/parsers/sbi.ts:94-112 | every output comes from one data row below the header that yields it |
| Sheets.RowTransactionYields | src/lib/banking/parsers/sbi.ts:95-109 | a kept row's record has the row's date, details and credit minus debit |
| Sheets.NumberCellIgnoresCommas | src/lib/banking/parsers/sbi.ts:32 | commas in a text cell are ignored |
| Sheets.PrintedNumberCell | src/lib/banking/parsers/sbi.ts:32 | a value written as text reads back as that value |
| Sheets.InterestIgnoresCaseAndSpacing | src/lib/banking/parsers/sbi.ts:55-63 | the filter ignores letter case and how whitespace runs are written |
| Sheets.PhraseIsInterest | src/lib/banking/parsers/sbi.ts:55-63 | the phrase itself passes the filter in any case |
| Sheets.ShortTextIsNotInterest | src/lib/banking/parsers/sbi.ts:62 | a description shorter than the phrase never passes |
| Sbi.TextDateIsDayFirst | src/lib/banking/parsers/sbi.ts:18-22 | a text date is read day first, and both separators give the same date |
| Sbi.AcceptsWrappedPhrase | src/lib/banking/parsers/sbi.ts:62 | the export's spelling "interes t credit" passes in any case |
| Sbi.RejectsUnwrappedPhrase | src/lib/banking/parsers/sbi.ts:62 | "INTEREST CREDIT" does not pass |
| Idfc.MatchDateLine | src/lib/banking/parsers/idfc.ts:133-134 | a date line captures the phrase, which is the interest phrase in some letter case |
| Idfc.MatchAmountLine | src/lib/banking/parsers/idfc.ts:135 | an amount line starts with `#` and captures two amount tokens |
| Idfc.DocumentedDateLineMatches | src/lib/banking/parsers/idfc.ts:130-134 | two `dd-Mon-yyyy` dates and the interest phrase in any letter case, one space apart, match, capturing the first date and the phrase as written |
| Idfc.DocumentedAmountLineMatches | src/lib/banking/parsers/idfc.ts:130-135 | `###` and two amount tokens, one space apart, match, capturing the two amounts |
| Idfc.WindowEnd | src/lib/banking/parsers/idfc.ts:158 | the lookahead ends at `min(i + 5, lines.length)` |
| Idfc.FirstAmountLine | src/lib/banking/parsers/idfc.ts:158-167 | the line found lies in the window and matches the amount pattern |
| Idfc.FirstAmountLineIsFirst | src/lib/banking/parsers/idfc.ts:158-167 | no earlier line of the window matches, and when none is found, none in the window matches |
| Idfc.BlankLineHasNoAmount | src/lib/banking/parsers/idfc.ts:160 | a blank line never matches, so skipping blank lines loses nothing |
| Idfc.Lookahead | src/lib/banking/parsers/idfc.ts:156-169 | the inner loop finds exactly `FirstAmountLine`, or reports -1 |
| Idfc.PairTransaction | src/lib/banking/parsers/idfc.ts:171-189 | a pair yields a credit exactly when the date parses, with the trimmed phrase, comma-stripped amounts and the hash input |
| Idfc.PdfStep | src/lib/banking/parsers/idfc.ts:144-192 | a match pairs line `i` with an amount line at most four lines later |
| Idfc.PdfStepIsPair | src/lib/banking/parsers/idfc.ts:148-174 | one iteration records a match exactly when the line is a date line, the lookahead finds an amount line and the date parses |
| Idfc.StepsAdvance | src/lib/banking/parsers/idfc.ts:158-192 | every line's step pairs that line with an amount line at most four lines later |
| Idfc.ScanLine | src/lib/banking/parsers/idfc.ts:145-192 | one iteration of the outer loop computes that line's step |
| Idfc.ParsePdf | src/lib/banking/parsers/idfc.ts:137-196 | the output is the transactions of the matches the scan records, resuming after each amount line |
| Idfc.PdfMatchesArePairs | src/lib/banking/parsers/idfc.ts:144-192 | every recorded match is a date line paired with a later amount line |
| Idfc.PdfMatchesAreOrdered | src/lib/banking/parsers/idfc.ts:158-192 | pairs lie within four lines and never overlap or come out of order |
| Idfc.PairIsNonNegativeCredit | src/lib/banking/parsers/idfc.ts:176-187 | every PDF transaction is a credit with non-negative amount and balance |
| Idfc.DateLineIsTrimmed | src/lib/banking/parsers/idfc.ts:179-185 | the captured phrase is already trimmed, so the stored description is the hashed one |
| Idfc.PhraseAt | src/lib/banking/parsers/idfc.ts:148 | a date line contains the phrase, so the prefilter never drops it |
| Idfc.Parse | src/lib/banking/parsers/idfc.ts:206-214 | a PDF by media type or `.pdf` name goes to the PDF scan, anything else to the spreadsheet path with the IDFC header words and phrase |
| Registry.DetectParser | src/lib/banking/registry.ts:8-15 | the result is the first parser in list order that accepts, and None exactly when none does |
| Registry.FirstAcceptingIsUnique | src/lib/banking/registry.ts:9-13 | only one position can be the first accepting one |
| Registry.PriorityOrder | src/lib/banking/registry.ts:6 | PNB wins every tie; SBI is chosen only when PNB and Kotak decline |
| Waterfall.Reconcile | src/server/action.ts:196-249 | the loop's rows are the waterfall's rows |
| Waterfall.Consume | src/server/action.ts:208-225 | the inner loop for one transaction leaves the cursor, the amount covered and the last donation date that the draining specification gives |
| Waterfall.Next | src/server/action.ts:218-224 | the cursor moves to the next donation or the transaction is covered |
| Waterfall.DrainTakes | src/server/action.ts:208-225 | the inner loop takes the smaller of what is needed and what is left of the pool, and consumes exactly that |
| Waterfall.DrainLast | src/server/action.ts:205-216 | the date recorded is that of the donation holding the last unit taken, and nothing is recorded when nothing is taken |
| Waterfall.PoolAtUsed | src/server/action.ts:198-225 | before each transaction the pool has given out exactly what the earlier positive amounts asked for, or all of it |
| Waterfall.RowCopies | src/server/action.ts:236-248 | one row per transaction, in order, carrying its user, hash, id, amount, description and date |
| Waterfall.RowCover | src/server/action.ts:201-227 | the closed form: donated is min(positive amount, pool left after earlier needs); the donation date is that of the donation holding the last unit |
| Waterfall.RowBalance | src/server/action.ts:203-213 | donated plus remaining is the amount; donated lies between 0 and max(amount, 0) and within the pool |
| Waterfall.StatusMeaning | src/server/action.ts:229-234 | fully donated exactly when nothing remains, partially when some but not all is covered, not donated otherwise |
| Waterfall.FifoOrder | src/server/action.ts:189-225 | a transaction receives something only when every earlier one is fully covered |
| Waterfall.DonatedTotal | src/server/action.ts:198-225 | all rows together draw the smaller of the total need and the total donated |
| Waterfall.Shortfall | src/server/action.ts:198-234 | with enough donations every positive amount is fully donated; an uncovered one means the whole pool was handed out |
| Waterfall.NoDonations | src/server/action.ts:199-208 | without donations nothing is covered, no date is recorded and non-zero amounts are not donated |
| Waterfall.SplitExample | src/server/action.ts:201-234 | 120 against 100 and 50 covers the first and gives the second 20 |
| Waterfall.PooledExample | src/server/action.ts:198-225 | 50 and 50 against three of 30 cover all three, 90 in total |
| Actions.DatePart | src/server/action.ts:19 | `iso.split("T")[0]`: the text before the first `T` |
| Actions.OrNull | src/server/action.ts:64-65 | an empty or missing text becomes null |
| Actions.InterestTable.Sync | src/server/action.ts:26-77 | no session, a batch failing the schema (an empty hash or a NaN amount or balance) and an empty batch change nothing, each with its message; otherwise the batch is inserted, skipping stored hashes |
| Actions.InsertSkipKeeps | src/server/action.ts:55-68 | after the insert the keys are the stored keys plus the batch's, and stored rows are unchanged |
| Actions.InsertSkipFirst | src/server/action.ts:68 | a new hash gets the first batch row carrying it |
| Actions.InsertSkipStored | src/server/action.ts:68 | a batch whose hashes are all stored changes nothing |
| Actions.ResyncIsIdempotent | src/server/action.ts:55-68 | syncing the same batch twice leaves the table as the first sync did |
| Actions.MergeKeepsUserAndAmount | src/server/action.ts:256-267 | on conflict the stored row takes the incoming columns except user and amount |
| Actions.UpsertKeys | src/server/action.ts:252-268 | the upsert adds exactly the batch's keys and leaves other rows unchanged |
| Actions.UpsertRow | src/server/action.ts:256-267 | a batch row is inserted under a new key, or merged into the stored row |
| Actions.WaterfallHashesDistinct | src/server/action.ts:236-238 | the waterfall's rows carry distinct hashes when the transactions do |
| Actions.ProjectionTable.ReconcileUser | src/server/action.ts:182-270 | the table is upserted with the waterfall's rows, and is unchanged when there are no transactions |
| Actions.UserDonationsArePositive | src/server/action.ts:143-145 | stored donations are positive, so the waterfall's closed form applies |
| Actions.DonationTable.AddDonation | src/server/action.ts:147-180 | no session is "Unauthorized" and an amount not above zero "Invalid amount", both storing nothing; otherwise one row with today's date |
| Projections.SplitOn | src/server/projection-action.ts:43 | `split("_")`: no part holds the separator |
| Projections.JoinSplitOn | src/server/projection-action.ts:43 | joining the parts with the separator gives the text back |
| Projections.ActiveCursor | src/server/projection-action.ts:42-48 | the cursor is applied only when it splits into two non-empty parts |
| Projections.CursorRoundTrip | src/server/projection-action.ts:43-47 | a cursor built from a date and an id without `_` splits back into them |
| Projections.CursorIsFormatted | src/server/projection-action.ts:43-47 | a cursor that splits in two is exactly its two parts joined by `_` |
| Projections.PageSize | src/server/projection-action.ts:36 | `min(limit, 100)`, 50 by default |
| Projections.WhereSound | src/server/projection-action.ts:53-69 | every selected row is a row of the table that passes the WHERE |
| Projections.WhereComplete | src/server/projection-action.ts:53-69 | every row that passes the WHERE is selected |
| Projections.PageShape | src/server/projection-action.ts:27-89 | no session gives an empty failure; otherwise the first `min(n, size)` rows, a next page exactly when more came back, and a cursor for the last row |
| Projections.DescendingAsWritten | src/server/projection-action.ts:59-67 | for the descending listing the keyset test as written is the right one |
| Projections.AscendingPageSkipsRow | src/server/projection-action.ts:59-67 | ascending, the cursor as written selects no later row, while the corrected test selects the next one |
| Projections.AscendingFirstPage | src/server/projection-action.ts:70-89 | the first ascending page of one row holds the earlier row, says a next page exists and carries that row's cursor |
| Projections.AscendingSecondPageAsWritten | src/server/projection-action.ts:59-67 | as written, the ascending page after the earlier row's cursor is empty |
| Projections.AscendingSecondPageFixed | src/server/projection-action.ts:59-67 | with the corrected test, the ascending page after the earlier row's cursor holds the later row |
| Projections.ContinuesAfter | src/server/projection-action.ts:59-75 | with the corrected test the rows after a row's cursor are exactly the rows after it, in either direction |
| Analyzer.ContentFor | src/components/statement-analyzer.tsx:102-108 | a name ending in `.xlsx` in lower case passes the file itself, any other file its text |
| Analyzer.XlsxInAnyCase | src/components/statement-analyzer.tsx:102 | the extension test ignores letter case |
| Analyzer.DetectParserIsDetected | src/lib/banking/registry.ts:8-15 | what `detectParser` returns is the first of PNB, Kotak and SBI that accepts |
| Analyzer.ParseWith | src/components/statement-analyzer.tsx:114 | the detected parser's `parse` is called on the content |
| Analyzer.ReadFile | src/components/statement-analyzer.tsx:97-115 | an undetected file fails with its name; otherwise the parser's result |
| Analyzer.Results | src/components/statement-analyzer.tsx:96-116 | one result per file |
| Analyzer.ReadAll | src/components/statement-analyzer.tsx:96-116 | every file's result, in file order |
| Analyzer.ReadNext | src/components/statement-analyzer.tsx:97 | the next file's result is appended |
| Analyzer.FailureStays | src/components/statement-analyzer.tsx:96 | once a file has failed, later files change nothing |
| Analyzer.AllSucceed | src/components/statement-analyzer.tsx:96-118 | when every file succeeds, the batch succeeds with every file's records concatenated in file order (`flat()`) |
| Analyzer.FirstFailureDecides | src/components/statement-analyzer.tsx:96 | the batch fails with the first failing file's error |
| Analyzer.UndetectedFileIsNamed | src/components/statement-analyzer.tsx:110-112 | a file no parser accepts fails with the message naming it |
| Analyzer.Latest | src/components/statement-analyzer.tsx:121-123 | after the first n records the map holds each hash under itself |
| Analyzer.LatestKeys | src/components/statement-analyzer.tsx:122 | the map's keys are exactly the hashes of the records folded in |
| Analyzer.LatestIsLast | src/components/statement-analyzer.tsx:122 | a hash maps to its last occurrence so far: a later `set` overwrites |
| Analyzer.Order | src/components/statement-analyzer.tsx:121-123 | the map's key order holds each key once, exactly the map's keys |
| Analyzer.OrderIsFirstOccurrence | src/components/statement-analyzer.tsx:122 | keys are ordered by their first insertion, which `set` of an existing key keeps |
| Analyzer.Dedup | src/components/statement-analyzer.tsx:121-123 | the map fold and its values in key order are `Unique` |
| Analyzer.OnePerHash | src/components/statement-analyzer.tsx:118-123 | exactly one record per hash of the input, and no other hash |
| Analyzer.KeepsLastOccurrence | src/components/statement-analyzer.tsx:121-123 | the kept record for a hash is its last occurrence in file order |
| Analyzer.FirstAppearanceOrder | src/components/statement-analyzer.tsx:121-123 | records come in the order their hashes first appeared |
| Analyzer.InsertAdds | src/components/statement-analyzer.tsx:131 | one step of the sort adds exactly the record inserted |
| Analyzer.InsertKeepsOrder | src/components/statement-analyzer.tsx:131 | inserting into a newest-first list keeps it newest first |
| Analyzer.OnDateInsert | src/components/statement-analyzer.tsx:131 | an inserted record goes before the records of its date already in the list, so earlier records stay ahead |
| Analyzer.SortPermutes | src/components/statement-analyzer.tsx:131 | the sort only reorders |
| Analyzer.SortIsNewestFirst | src/components/statement-analyzer.tsx:131 | after the sort no record is older than a later one |
| Analyzer.SortIsStable | src/components/statement-analyzer.tsx:131 | records of the same date keep their order |
| Analyzer.FailedFileFailsBatch | src/components/statement-analyzer.tsx:137-141 | the first failing file decides the message, "Failed to process files" for an empty one, and nothing is shown |
| Analyzer.UndetectedFileFailsBatch | src/components/statement-analyzer.tsx:110-112 | an undetected file first among the failures fails the batch with its name |
| Analyzer.NothingFoundIsReported | src/components/statement-analyzer.tsx:125-129 | an empty merge is reported with its message instead of an empty list |
| Analyzer.ShownTransactions | src/components/statement-analyzer.tsx:118-135 | what is shown is non-empty, one record per parsed hash, newest first, ties in first-appearance order |
| Analyzer.StatementAnalyzer.ProcessFiles | src/components/statement-analyzer.tsx:83-142 | no files changes nothing; otherwise the list and open dialog, or the error with the list unchanged; never left processing |
| StatusFilter.Without | src/components/interest-transaction-table.tsx:240 | the status is gone and every other status keeps its membership |
| StatusFilter.WithoutKeepsOrder | src/components/interest-transaction-table.tsx:240 | removal keeps the others in order |
| StatusFilter.WithoutAbsent | src/components/interest-transaction-table.tsx:240 | removing an unlisted status changes nothing |
| StatusFilter.ToggleFlips | src/components/interest-transaction-table.tsx:236-245 | the toggled status flips membership and no other status changes |
| StatusFilter.ToggleTwiceRestores | src/components/interest-transaction-table.tsx:236-245 | toggling twice restores every status's membership |
| StatusFilter.ToggleIsNeverEmpty | src/components/interest-transaction-table.tsx:241 | the filter is never an empty list after a toggle |
| StatusFilter.WithoutKeepsDistinct | src/components/interest-transaction-table.tsx:240 | removing a status from a list without duplicates leaves none |
| StatusFilter.ToggleKeepsDistinct | src/components/interest-transaction-table.tsx:236-245 | a filter without duplicates stays without duplicates |
| StatusFilter.ActiveMeansSomeSelected | src/components/interest-transaction-table.tsx:247-250 | `hasActiveFilter` holds exactly when some status is selected |
| StatusFilter.QueryKeepsSelected | src/server/projection-action.ts:56-58 | with an active filter the listing keeps exactly the selected statuses; without one, everything |
| StatusFilter.SortDirection | src/components/interest-transaction-table.tsx:327 | "desc" exactly when the first entry is descending; an empty state gives "asc" |
| StatusFilter.InitialIsDescending | src/components/interest-transaction-table.tsx:312 | the table opens sorted by transaction date, descending |
| DonationCard.SendsExactlyTheAllowedAmounts | src/components/donation-card.tsx:40-56 | the amount is sent exactly when it is a number with 0 < value ≤ amountLeft, and as typed |
| DonationCard.ValidityBeforeBalance | src/components/donation-card.tsx:45-53 | a value that is NaN or not above zero gets "Please enter a valid amount" whatever the balance |
| DonationCard.BalanceMessageWhenAbove | src/components/donation-card.tsx:50-53 | "Amount cannot exceed available balance" exactly for valid values above the balance |
| DonationCard.EmptyFieldIsInvalid | src/components/donation-card.tsx:40 | an empty field or a missing input is an invalid amount |
| DonationCard.WholeBalanceIsAccepted | src/components/donation-card.tsx:50 | the whole balance is accepted and one paisa more is refused |
| DonationCard.LargerBalanceStillSends | src/components/donation-card.tsx:50-56 | an amount sent against one balance is sent unchanged against any larger one |
| DonationCard.SentAmountPassesServer | src/server/action.ts:143-145 | every amount the dialog sends passes the server's positivity check |
| DonationCard.DonationDialog.HandleDonate | src/components/donation-card.tsx:39-64 | the error is cleared; a refused value shows its message and sends nothing; a sent value raises the server's toast, and success closes the dialog, clears the field and stores the donation |

## Left out

- Date rollover and years 0-99: `new Date(y, m, d)` normalises out-of-range days and months and maps years 0-99 to 1900-1999. The model keeps the truncated constructor triple as it is, and so also leaves out the time-value range beyond which a date is invalid.
- NumberCoercion.NumberOf: values are exact decimals. Rounding to the nearest double and the overflow of a long literal or a large exponent to `Infinity` (which would make the date invalid) are not modelled. `Infinity` spelled out has no value in the model; in the source it gives an invalid date, as NaN does.
- Time zones and `toISOString` are inputs (`Externals.isoString`). The text date reader of the Kotak and IDFC parsers is the input `Externals.parseDate`.
- `\s` in the regular expressions is tab, line feed, vertical tab, form feed, carriage return, space, no-break space, U+FEFF and the line and paragraph separators. The other Unicode space separators (U+1680, U+2000-U+200A, U+202F, U+205F, U+3000) are not classed as whitespace.
- Letter case: `toLowerCase` is modelled for ASCII letters only.
- A date cell under a text column: the source prints the `Date` with JavaScript's own format. That printed form is left out, and the model reads such a cell as no text.
- `canParse` is not defined by any registered parser, so acceptance is an abstract input. Calling the missing method would throw; the model does not capture that.
- The analyzer calls `parse` without a user id, so every hash input ends with an empty user part. It also passes a string to parsers that read it as a `File`. The PNB and Kotak parsers get its text back through `Externals.fileText` and `Externals.pdfMarkdown`, and no failure is modelled.
- `Promise.all` rejects with the first failure in time. The model reads every file and reports the first failure in file order.
- `validFiles` keeps `File` instances only. Every upload here is a file.
- The analyzer's sort compares `getTime()`. The model compares the date triples, which agrees for valid dates.
- JavaScript number arithmetic is integer paise throughout: the `=== 0` test of the waterfall, `toFixed(2)`, floating-point sums, and amounts with more than two decimals.
- The database: connection failures and every `catch` branch are out, as are `revalidatePath` and `after()`. The reconcile triggered by a write and `getDashboardStats` are out too.
- The two queries of `reconcileUserInterests` return rows in date order. That order is taken as given in the inputs.
- The sync insert omits the `bankId` column that the schema marks `NOT NULL`. The model does not model that constraint.
- Actions.InterestTable.Sync: an empty batch is taken to make the query builder throw, and the catch returns that error's message.
- Actions.ProjectionTable.ReconcileUser: a batch with duplicate hashes would be rejected by the database. The model applies it row by row. `WaterfallHashesDistinct` shows this cannot arise when the stored hashes are unique.
- Projections: `limit` is a natural number. A negative or fractional limit is not modelled.
- Projections: text comparison in the database is taken as lexicographic character order.
- The waterfall's closed-form lemmas assume positive donations, matching what `addDonation` admits.
- The React state hooks, `startTransition`, toasts and rendering are outside the model. The donation dialog's server call is modelled as completing before the handler returns.
- `parseFloat` of exponent notation and `Infinity` is not modelled. Only digits with an optional sign and fraction are read, so a `0x` prefix reads as 0, as it does in `parseFloat`.

## Findings

| source | as written | input that shows it | evidently intended | confidence | as-written member | corrected member |
|---|---|---|---|---|---|---|
| src/server/projection-action.ts:59-67 | the keyset condition uses `lt` on the date for both sort directions | ascending order, limit 1, rows dated "2024-01-01" (id "b") and "2024-02-01" (id "a"): the second page is empty and the later row is never listed | ascending pages continue with rows after the cursor date (`gt` on the date) | not executed | Projections.AscendingPageSkipsRow | Projections.ContinuesAfter |
