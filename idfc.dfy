/** The IDFC First Bank parser (`src/lib/banking/parsers/idfc.ts`): the
    shared spreadsheet path with the IDFC layout for `.xlsx` statements, and
    for PDF statements a scan that pairs each interest line with the amount
    line that follows it within four lines. */
module Idfc {
  import opened Wrappers
  import opened Text
  import opened Numbers
  import opened BankTypes
  import opened Seqs
  import opened Tokens
  import opened Sheets

  /** `INTEREST_DESCRIPTION`. */
  const Phrase := "monthly savings interest credit"

  /** The XLSX schema: dates written as text are read by `new Date(value)`. */
  function IdfcLayout(x: Externals): Layout {
    Layout(
      "transaction date", "particulars",
      "Could not find transaction header row in IDFC Statement",
      "Transaction Date", "Particulars",
      x.parseDate,
      Phrase)
  }

  // ---------------------------------------------------------------------------
  // The PDF line patterns
  // ---------------------------------------------------------------------------

  /** `\d{2}-\w{3}-\d{4}` as a whole token. */
  predicate IsStatementDate(t: string) {
    |t| == 11 && DigitsOf(t, 0, 2) && t[2] == '-' && WordCharsOf(t, 3, 6) && t[6] == '-' && DigitsOf(t, 7, 11)
  }

  /** The groups of `DATE_LINE_REGEX`: the first date and the phrase as
      written. */
  datatype DateLine = DateLine(dateText: string, description: string)

  /** `DATE_LINE_REGEX` (case-insensitive): two date tokens, then the phrase,
      then only whitespace. */
  function MatchDateLine(s: string): (r: Option<DateLine>)
    ensures r.Some? ==> Lower(r.value.description) == Phrase
    ensures r.Some? ==> ContainsIgnoreCase(s, Phrase)
  {
    MatchDateTokens(s, Spans(s))
  }

  function MatchDateTokens(s: string, sp: seq<Span>): (r: Option<DateLine>)
    requires WellSpaced(s, sp)
    ensures r.Some? ==> Lower(r.value.description) == Phrase
    ensures r.Some? ==> ContainsIgnoreCase(s, Phrase)
  {
    if |sp| >= 3 && IsStatementDate(Token(s, sp[0])) && IsStatementDate(Token(s, sp[1]))
       && Lower(TrimEnd(s[sp[2].start..])) == Phrase then
      PhraseAt(s, sp[2].start);
      Some(DateLine(Token(s, sp[0]), TrimEnd(s[sp[2].start..])))
    else None
  }

  /** `AMOUNT_LINE_REGEX`: `###` at the very start, then two amount tokens,
      then only whitespace. The first token is `###` when it is the first
      three characters and they are `#`. */
  function MatchAmountLine(s: string): (r: Option<(string, string)>)
    ensures r.Some? ==> IsAmountToken(r.value.0) && IsAmountToken(r.value.1)
    ensures r.Some? ==> |s| > 0 && s[0] == '#'
  {
    MatchAmountTokens(s, Spans(s))
  }

  function MatchAmountTokens(s: string, sp: seq<Span>): (r: Option<(string, string)>)
    requires WellSpaced(s, sp)
    ensures r.Some? ==> IsAmountToken(r.value.0) && IsAmountToken(r.value.1)
    ensures r.Some? ==> |s| > 0 && s[0] == '#'
  {
    if |sp| == 3 && sp[0].start == 0 && sp[0].end == 3 && s[0] == '#' && s[1] == '#' && s[2] == '#'
       && IsAmountToken(Token(s, sp[1])) && IsAmountToken(Token(s, sp[2])) then
      Some((Token(s, sp[1]), Token(s, sp[2])))
    else None
  }

  /** `!candidateLine || candidateLine.trim() === ""`. */
  predicate IsBlank(line: string) { Trim(line) == [] }

  // ---------------------------------------------------------------------------
  // The PDF scan
  // ---------------------------------------------------------------------------

  /** `Math.min(i + 5, lines.length)`: the end of the lookahead window. */
  function WindowEnd(i: nat, n: nat): (e: nat)
    ensures e <= n && e <= i + 5 && (e == n || e == i + 5)
  {
    if i + 5 <= n then i + 5 else n
  }

  /** The lookahead: the first line in `[j, end)` that is not blank and
      matches the amount pattern. */
  function FirstAmountLine(lines: seq<string>, j: nat, end: nat): (r: Option<nat>)
    requires end <= |lines|
    ensures r.Some? ==> j <= r.value < end && MatchAmountLine(lines[r.value]).Some?
  {
    FirstWhere(IsBlank, IsAmountLine, lines, j, end)
  }

  predicate IsAmountLine(line: string) { MatchAmountLine(line).Some? }

  /** No line the lookahead passes over or runs out on matches the amount
      pattern: skipping blank lines loses no amount line. */
  lemma FirstAmountLineIsFirst(lines: seq<string>, j: nat, end: nat)
    requires end <= |lines|
    ensures FirstAmountLine(lines, j, end).Some? ==>
              forall k :: j <= k < FirstAmountLine(lines, j, end).value ==> MatchAmountLine(lines[k]).None?
    ensures FirstAmountLine(lines, j, end).None? ==> forall k :: j <= k < end ==> MatchAmountLine(lines[k]).None?
  {
    forall t | IsBlank(t) ensures !IsAmountLine(t) {
      BlankLineHasNoAmount(t);
    }
    FirstWhereIsFirst(IsBlank, IsAmountLine, lines, j, end);
  }

  /** A date line and the amount line paired with it, and the transaction
      they make. */
  datatype PdfMatch = PdfMatch(dateLine: nat, amountLine: nat, tx: Transaction)

  /** The hash input `iso date|description|amount|balance|user`, with the
      description as captured. */
  function PdfHashInput(x: Externals, date: Date, description: string, amount: Num, balance: Num, user: Option<string>): string {
    Piped([x.isoString(date), description, NumText(amount), NumText(balance), UserPart(user)])
  }

  /** `m` pairs an interest date line with an amount line after it, and
      its transaction is the one the two lines make. */
  predicate IsPair(x: Externals, lines: seq<string>, user: Option<string>, m: PdfMatch) {
    m.dateLine < m.amountLine < |lines|
    && MatchDateLine(lines[m.dateLine]).Some?
    && AmountPair(x, lines, user, MatchDateLine(lines[m.dateLine]).value, m)
  }

  /** `m`'s amount line matches the amount pattern, and `m`'s transaction
      is the one it makes with the date line `dl`. */
  predicate AmountPair(x: Externals, lines: seq<string>, user: Option<string>, dl: DateLine, m: PdfMatch) {
    m.amountLine < |lines|
    && MatchAmountLine(lines[m.amountLine]).Some?
    && PairTransaction(x, dl, MatchAmountLine(lines[m.amountLine]).value, user).Some?
    && PairTransaction(x, dl, MatchAmountLine(lines[m.amountLine]).value, user).value == m.tx
  }

  /** The transaction a date line and an amount line make, or None when the
      date does not parse. */
  function PairTransaction(x: Externals, dl: DateLine, amounts: (string, string), user: Option<string>): (r: Option<Transaction>)
    ensures r.Some? <==> x.parseDate(dl.dateText).Some?
    ensures r.Some? ==> && r.value.date == x.parseDate(dl.dateText).value
                        && r.value.description == Trim(dl.description)
                        && r.value.amount == ParseAmount(amounts.0)
                        && r.value.balance == ParseAmount(amounts.1)
                        && r.value.txType == Credit
                        && r.value.transactionHash
                           == x.hash(PdfHashInput(x, r.value.date, dl.description, r.value.amount, r.value.balance, user))
  {
    match x.parseDate(dl.dateText)
    case None => None
    case Some(date) =>
      var amount := ParseAmount(amounts.0);
      var balance := ParseAmount(amounts.1);
      Some(Transaction(
        None,
        x.hash(PdfHashInput(x, date, dl.description, amount, balance, user)),
        date,
        Trim(dl.description),
        amount,
        Credit,
        balance))
  }

  /** One iteration of the outer loop at line `i`: the match it records, or
      None when it moves on to the next line. `PdfStepIsPair` states what a
      match is. */
  function PdfStep(x: Externals, lines: seq<string>, i: nat, user: Option<string>): (r: Option<PdfMatch>)
    requires i < |lines|
    ensures r.Some? ==> r.value.dateLine == i < r.value.amountLine <= i + 4 && r.value.amountLine < |lines|
  {
    if !ContainsIgnoreCase(lines[i], Phrase) then None
    else
      var dl := MatchDateLine(lines[i]);
      if dl.None? then None else PairFrom(x, lines, i, dl.value, user)
  }

  /** The rest of the iteration once line `i` matched the date pattern with
      `dl`: the lookahead, then the date. */
  function PairFrom(x: Externals, lines: seq<string>, i: nat, dl: DateLine, user: Option<string>): (r: Option<PdfMatch>)
    requires i < |lines|
    ensures r.Some? ==> r.value.dateLine == i < r.value.amountLine <= i + 4 && r.value.amountLine < |lines|
  {
    var j := FirstAmountLine(lines, i + 1, WindowEnd(i, |lines|));
    if j.None? then None
    else
      var amounts := MatchAmountLine(lines[j.value]);
      if amounts.None? then None
      else
        var t := PairTransaction(x, dl, amounts.value, user);
        if t.None? then None
        else Some(PdfMatch(i, j.value, t.value))
  }

  /** Matches at or after line `i`, each with its amount line at most four
      lines after its date line and before line `n`, and each starting after
      the previous one's amount line. */
  predicate Chained(ms: seq<PdfMatch>, i: nat, n: nat)
    decreases |ms|
  {
    ms == []
    || (i <= ms[0].dateLine < ms[0].amountLine <= ms[0].dateLine + 4 && ms[0].amountLine < n
        && Chained(ms[1..], ms[0].amountLine + 1, n))
  }

  /** What one iteration of the outer loop does at each line. */
  function Steps(x: Externals, lines: seq<string>, user: Option<string>): (steps: seq<Option<PdfMatch>>)
    ensures |steps| == |lines|
  {
    Tabulate((k: nat) => if k < |lines| then PdfStep(x, lines, k, user) else None, 0, |lines|)
  }

  /** The table holds each line's step. */
  lemma StepAt(x: Externals, lines: seq<string>, user: Option<string>, i: nat)
    requires i < |lines|
    ensures Steps(x, lines, user)[i] == PdfStep(x, lines, i, user)
  {
    TabulateAt((k: nat) => if k < |lines| then PdfStep(x, lines, k, user) else None, 0, |lines|, i);
  }

  /** A step at line `k` pairs line `k` with one of the next four lines. */
  predicate Advances(steps: seq<Option<PdfMatch>>) {
    forall k :: 0 <= k < |steps| && steps[k].Some? ==>
      steps[k].value.dateLine == k < steps[k].value.amountLine <= k + 4 && steps[k].value.amountLine < |steps|
  }

  /** The matches the outer loop records from line `i` on, in order, given
      what an iteration does at each line: after a match the loop resumes
      after its amount line, otherwise at the next line. */
  function Matches(steps: seq<Option<PdfMatch>>, i: nat): (ms: seq<PdfMatch>)
    requires i <= |steps| && Advances(steps)
    decreases |steps| - i
  {
    if i == |steps| then []
    else if steps[i].Some? then [steps[i].value] + Matches(steps, steps[i].value.amountLine + 1)
    else Matches(steps, i + 1)
  }

  /** Every match `parsePdf` records, in statement order. */
  function PdfMatches(x: Externals, lines: seq<string>, user: Option<string>): seq<PdfMatch> {
    StepsAdvance(x, lines, user);
    Matches(Steps(x, lines, user), 0)
  }

  function Transactions(ms: seq<PdfMatch>): (ts: seq<Transaction>)
  {
    if ms == [] then [] else [ms[0].tx] + Transactions(ms[1..])
  }

  /** `parsePdf`. */
  method ParsePdf(x: Externals, file: Content, user: Option<string>) returns (txs: seq<Transaction>)
    ensures txs == Transactions(PdfMatches(x, SplitLines(x.pdfMarkdown(file)), user))
  {
    var lines := SplitLines(x.pdfMarkdown(file));
    ghost var steps := Steps(x, lines, user);
    StepsAdvance(x, lines, user);
    txs := [];
    EmptyAppend(Transactions(Matches(steps, 0)));
    var i := 0;
    while i < |lines|
      invariant i <= |lines|
      invariant Transactions(Matches(steps, 0)) == txs + Transactions(Matches(steps, i))
      decreases |lines| - i
    {
      var step := ScanLine(x, lines, i, user, steps);
      ScanAdvances(steps, i, step, txs, Transactions(Matches(steps, 0)));
      if step.None? {
        i := i + 1;
        continue;
      }
      txs := txs + [step.value.tx];
      // Skip to after the amount line just processed.
      i := step.value.amountLine;
      i := i + 1;
    }
  }

  /** One iteration of the loop of `parsePdf` at line `i`: the match it
      records, or None when the loop moves on to line `i + 1`. */
  method ScanLine(x: Externals, lines: seq<string>, i: nat, user: Option<string>, ghost steps: seq<Option<PdfMatch>>)
    returns (step: Option<PdfMatch>)
    requires i < |lines| && steps == Steps(x, lines, user)
    ensures step == steps[i]
  {
    StepAt(x, lines, user, i);
    PdfStepIsPair(x, lines, i, user);
    var line := lines[i];
    if !ContainsIgnoreCase(line, Phrase) {
      return None;
    }
    var dateMatch := MatchDateLine(line);
    if dateMatch.None? {
      return None;
    }
    var amountMatch, amountLineIndex := Lookahead(lines, i, WindowEnd(i, |lines|));
    if amountMatch.None? || amountLineIndex == -1 {
      return None;
    }
    var date := x.parseDate(dateMatch.value.dateText);
    if date.None? {
      return None;
    }
    var amount := ParseAmount(amountMatch.value.0);
    var balance := ParseAmount(amountMatch.value.1);
    var description := dateMatch.value.description;
    var hash := x.hash(PdfHashInput(x, date.value, description, amount, balance, user));
    var t := Transaction(None, hash, date.value, Trim(description), amount, Credit, balance);
    return Some(PdfMatch(i, amountLineIndex, t));
  }

  /** The lookahead loop of `parsePdf`: the lines after line `i` up to
      `end`, blank lines skipped, until one matches the amount pattern. */
  method Lookahead(lines: seq<string>, i: nat, end: nat) returns (amountMatch: Option<(string, string)>, amountLine: int)
    requires end <= |lines|
    ensures FirstAmountLine(lines, i + 1, end).None? ==> amountMatch.None? && amountLine == -1
    ensures FirstAmountLine(lines, i + 1, end).Some? ==>
              amountLine == FirstAmountLine(lines, i + 1, end).value
              && amountMatch == MatchAmountLine(lines[amountLine]) && amountMatch.Some?
  {
    amountMatch := None;
    amountLine := -1;
    var j := i + 1;
    while j < end
      invariant i + 1 <= j
      invariant amountMatch.None? && amountLine == -1
      invariant FirstAmountLine(lines, i + 1, end) == FirstAmountLine(lines, j, end)
      decreases end - j
    {
      var candidate := lines[j];
      if IsBlank(candidate) {
        j := j + 1;
        continue;
      }
      amountMatch := MatchAmountLine(candidate);
      if amountMatch.Some? {
        amountLine := j;
        return;
      }
      j := j + 1;
    }
  }

  /** The file-type dispatch of `IDFCParser.parse`: a PDF by media type or by
      a `.pdf` name (any case) goes to the PDF scan, anything else to the
      spreadsheet path. Text content has no name, so reading it fails. */
  method Parse(x: Externals, content: Content, user: Option<string>) returns (r: Result<seq<Transaction>>)
    ensures content.TextContent? ==> r == Failure(NoNameError)
    ensures content.FileContent? && IsPdf(content.file) ==>
              r == Success(Transactions(PdfMatches(x, SplitLines(x.pdfMarkdown(content)), user)))
    ensures content.FileContent? && !IsPdf(content.file) ==>
              var sliced := FindHeaderAndSlice(IdfcLayout(x), x.sheetRows(content));
              && (r.Failure? <==> sliced.Failure?)
              && (r.Failure? ==> r.error == IdfcLayout(x).headerError)
              && (r.Success? ==> r.value == FilterMap((row: SheetRow) => RowTransaction(x, IdfcLayout(x), user, row),
                                                     Rows(IdfcLayout(x), sliced.value)))
  {
    if content.TextContent? {
      return Failure(NoNameError);
    }
    if IsPdf(content.file) {
      var txs := ParsePdf(x, content, user);
      return Success(txs);
    }
    r := Sheets.Parse(x, IdfcLayout(x), content, user);
  }

  const NoNameError := "Cannot read properties of undefined (reading 'toLowerCase')"

  predicate IsPdf(f: Upload) {
    f.mediaType == "application/pdf" || EndsWith(Lower(f.name), ".pdf")
  }

  // ---------------------------------------------------------------------------
  // Lemmas
  // ---------------------------------------------------------------------------

  /** The phrase captured after trailing whitespace is removed neither starts
      nor ends with whitespace. */
  lemma DescriptionIsTrimmed(s: string, st: nat)
    requires st < |s| && !IsSpace(s[st]) && Lower(TrimEnd(s[st..])) == Phrase
    ensures Trim(TrimEnd(s[st..])) == TrimEnd(s[st..])
  {
    var d := TrimEnd(s[st..]);
    assert |d| == |Phrase|;
    assert d[0] == s[st];
    TrimOfUnpadded(d);
  }

  /** The captured phrase is already trimmed, so the stored description
      is the one that was hashed. */
  lemma DateLineIsTrimmed(s: string)
    requires MatchDateLine(s).Some?
    ensures Trim(MatchDateLine(s).value.description) == MatchDateLine(s).value.description
  {
    DateTokensAreTrimmed(s, Spans(s));
  }

  lemma DateTokensAreTrimmed(s: string, sp: seq<Span>)
    requires WellSpaced(s, sp) && MatchDateTokens(s, sp).Some?
    ensures Trim(MatchDateTokens(s, sp).value.description) == MatchDateTokens(s, sp).value.description
  {
    DescriptionIsTrimmed(s, sp[2].start);
  }

  /** A blank line never matches the amount pattern, so skipping blank lines
      in the lookahead changes nothing: the lookahead finds the first amount
      line of the window. */
  lemma BlankLineHasNoAmount(line: string)
    requires IsBlank(line)
    ensures MatchAmountLine(line).None?
  {
    if MatchAmountLine(line).Some? {
      TrimOfNonSpace(line, 0);
    }
  }

  /** A step records a match exactly when line `i` matches the date
      pattern (the prefilter is implied by it), the lookahead finds an amount
      line, and the date parses; the match pairs line `i` with that amount
      line and carries the transaction the two make. */
  lemma PdfStepIsPair(x: Externals, lines: seq<string>, i: nat, user: Option<string>)
    requires i < |lines|
    ensures PdfStep(x, lines, i, user).Some? <==>
              MatchDateLine(lines[i]).Some?
              && FirstAmountLine(lines, i + 1, WindowEnd(i, |lines|)).Some?
              && x.parseDate(MatchDateLine(lines[i]).value.dateText).Some?
    ensures PdfStep(x, lines, i, user).Some? ==>
              FirstAmountLine(lines, i + 1, WindowEnd(i, |lines|)).Some?
              && PdfStep(x, lines, i, user).value.amountLine == FirstAmountLine(lines, i + 1, WindowEnd(i, |lines|)).value
              && IsPair(x, lines, user, PdfStep(x, lines, i, user).value)
  {
    if MatchDateLine(lines[i]).Some? {
      PairFromIsPair(x, lines, i, MatchDateLine(lines[i]).value, user);
    }
  }

  lemma PairFromIsPair(x: Externals, lines: seq<string>, i: nat, dl: DateLine, user: Option<string>)
    requires i < |lines|
    ensures PairFrom(x, lines, i, dl, user).Some? <==>
              FirstAmountLine(lines, i + 1, WindowEnd(i, |lines|)).Some? && x.parseDate(dl.dateText).Some?
    ensures PairFrom(x, lines, i, dl, user).Some? ==>
              FirstAmountLine(lines, i + 1, WindowEnd(i, |lines|)).Some?
              && PairFrom(x, lines, i, dl, user).value.amountLine == FirstAmountLine(lines, i + 1, WindowEnd(i, |lines|)).value
              && AmountPair(x, lines, user, dl, PairFrom(x, lines, i, dl, user).value)
  {
  }

  /** The outer loop's step on the transactions it outputs. */
  lemma TransactionsStep(steps: seq<Option<PdfMatch>>, i: nat)
    requires i < |steps| && Advances(steps)
    ensures steps[i].None? ==> Transactions(Matches(steps, i)) == Transactions(Matches(steps, i + 1))
    ensures steps[i].Some? ==>
              Transactions(Matches(steps, i))
              == [steps[i].value.tx] + Transactions(Matches(steps, steps[i].value.amountLine + 1))
  {
    if steps[i].Some? {
      TransactionsCons(steps[i].value, Matches(steps, steps[i].value.amountLine + 1));
    }
  }

  /** Each line's step pairs that line with one of the next four. */
  lemma StepsAdvance(x: Externals, lines: seq<string>, user: Option<string>)
    ensures Advances(Steps(x, lines, user))
  {
    forall k | 0 <= k < |lines| ensures Steps(x, lines, user)[k] == PdfStep(x, lines, k, user) {
      StepAt(x, lines, user, k);
    }
  }

  /** The loop invariant of `parsePdf` survives one iteration. */
  lemma ScanAdvances(steps: seq<Option<PdfMatch>>, i: nat, step: Option<PdfMatch>, txs: seq<Transaction>, total: seq<Transaction>)
    requires i < |steps| && Advances(steps) && step == steps[i] && total == txs + Transactions(Matches(steps, i))
    ensures step.None? ==> total == txs + Transactions(Matches(steps, i + 1))
    ensures step.Some? ==>
              i < step.value.amountLine < |steps|
              && total == (txs + [step.value.tx]) + Transactions(Matches(steps, step.value.amountLine + 1))
  {
    TransactionsStep(steps, i);
    if steps[i].Some? {
      AppendConsAssoc(txs, steps[i].value.tx, Transactions(Matches(steps, steps[i].value.amountLine + 1)));
    }
  }

  lemma TransactionsCons(m: PdfMatch, ms: seq<PdfMatch>)
    ensures Transactions([m] + ms) == [m.tx] + Transactions(ms)
  {
    assert ([m] + ms)[1..] == ms;
  }

  /** Every match the loop records is the one an iteration records at its
      date line. */
  lemma {:induction false} MatchesAreSteps(steps: seq<Option<PdfMatch>>, i: nat)
    requires i <= |steps| && Advances(steps)
    ensures forall k :: 0 <= k < |Matches(steps, i)| ==> IsStep(steps, Matches(steps, i)[k])
    decreases |steps| - i
  {
    if i < |steps| {
      if steps[i].Some? {
        MatchesAreSteps(steps, steps[i].value.amountLine + 1);
        AllCons((m: PdfMatch) => IsStep(steps, m), steps[i].value, Matches(steps, steps[i].value.amountLine + 1));
      } else {
        MatchesAreSteps(steps, i + 1);
      }
    }
  }

  predicate IsStep(steps: seq<Option<PdfMatch>>, m: PdfMatch) {
    m.dateLine < |steps| && steps[m.dateLine].Some? && steps[m.dateLine].value == m
  }

  /** Every match the scan records is a date line paired with a later
      amount line, and carries the transaction the two make. */
  lemma PdfMatchesArePairs(x: Externals, lines: seq<string>, user: Option<string>)
    ensures forall k :: 0 <= k < |PdfMatches(x, lines, user)| ==> IsPair(x, lines, user, PdfMatches(x, lines, user)[k])
  {
    var steps := Steps(x, lines, user);
    StepsAdvance(x, lines, user);
    var ms := Matches(steps, 0);
    MatchesAreSteps(steps, 0);
    forall k | 0 <= k < |ms| ensures IsPair(x, lines, user, ms[k]) {
      assert IsStep(steps, ms[k]);
      StepAt(x, lines, user, ms[k].dateLine);
      PdfStepIsPair(x, lines, ms[k].dateLine, user);
    }
  }

  /** Every PDF transaction is a credit of a non-negative amount with a
      non-negative balance, described by the phrase in the statement's
      letter case. */
  lemma PairIsNonNegativeCredit(x: Externals, lines: seq<string>, user: Option<string>, m: PdfMatch)
    requires IsPair(x, lines, user, m)
    ensures m.tx.txType == Credit && AtLeastZero(m.tx.amount) && AtLeastZero(m.tx.balance)
    ensures Lower(m.tx.description) == Phrase
  {
    var amounts := MatchAmountLine(lines[m.amountLine]).value;
    AmountTokenParses(amounts.0);
    AmountTokenParses(amounts.1);
  }

  /** The matches follow each other down the statement. */
  lemma {:induction false} MatchesAreChained(steps: seq<Option<PdfMatch>>, i: nat)
    requires i <= |steps| && Advances(steps)
    ensures Chained(Matches(steps, i), i, |steps|)
    decreases |steps| - i
  {
    if i < |steps| {
      if steps[i].Some? {
        var rest := Matches(steps, steps[i].value.amountLine + 1);
        MatchesAreChained(steps, steps[i].value.amountLine + 1);
        assert ([steps[i].value] + rest)[1..] == rest;
      } else {
        MatchesAreChained(steps, i + 1);
      }
    }
  }

  /** The scan's line pairs: each amount line follows its date line within
      four lines, and no two pairs overlap or come out of order. */
  lemma PdfMatchesAreOrdered(x: Externals, lines: seq<string>, user: Option<string>)
    ensures var ms := PdfMatches(x, lines, user);
            && (forall k :: 0 <= k < |ms| ==> ms[k].dateLine < ms[k].amountLine <= ms[k].dateLine + 4 && ms[k].amountLine < |lines|)
            && (forall k :: 0 <= k < |ms| - 1 ==> ms[k].amountLine < ms[k + 1].dateLine)
  {
    StepsAdvance(x, lines, user);
    MatchesAreChained(Steps(x, lines, user), 0);
    ChainedIsOrdered(PdfMatches(x, lines, user), 0, |lines|);
  }

  lemma {:induction false} ChainedIsOrdered(ms: seq<PdfMatch>, i: nat, n: nat)
    requires Chained(ms, i, n)
    ensures forall k :: 0 <= k < |ms| ==>
              i <= ms[k].dateLine < ms[k].amountLine <= ms[k].dateLine + 4 && ms[k].amountLine < n
    ensures forall k :: 0 <= k < |ms| - 1 ==> ms[k].amountLine < ms[k + 1].dateLine
    decreases |ms|
  {
    if ms != [] {
      ChainedIsOrdered(ms[1..], ms[0].amountLine + 1, n);
      forall k | 0 < k < |ms| ensures ms[k] == ms[1..][k - 1] {}
    }
  }

  /** A date line is an interest line, so the prefilter never drops a line
      the date pattern would accept. */
  lemma PhraseAt(s: string, st: nat)
    requires st <= |s| && Lower(TrimEnd(s[st..])) == Phrase
    ensures ContainsIgnoreCase(s, Phrase)
  {
    var d := TrimEnd(s[st..]);
    assert |d| == |Phrase|;
    assert s[st..st + |Phrase|] == d;
    ContainsIgnoreCaseAt(s, Phrase, st);
  }

  /** `\d{2}-\w{3}-\d{4}` holds no whitespace. */
  lemma StatementDateIsWord(t: string)
    requires IsStatementDate(t)
    ensures IsWord(t)
  {
  }

  /** A date line laid out as documented (two dates, then the phrase in any
      case, one space apart) matches, with the first date and the phrase as
      written. */
  lemma DocumentedDateLineMatches(d1: string, d2: string, p: string)
    requires IsStatementDate(d1) && IsStatementDate(d2) && Lower(p) == Phrase
    ensures MatchDateLine(d1 + " " + d2 + " " + p) == Some(DateLine(d1, p))
  {
    var s := d1 + " " + d2 + " " + p;
    StatementDateIsWord(d1);
    StatementDateIsWord(d2);
    assert |p| == |Phrase|;
    LowerAt(p, 0);
    LowerAt(p, |p| - 1);
    assert TrimEnd(p) == p;
    assert s[0..11] == d1 && s[11] == ' ' && s[12..23] == d2 && s[23] == ' ' && s[24..] == p;
    DateLineOfParts(s, d1, d2, p);
  }

  lemma DateLineOfParts(s: string, d1: string, d2: string, p: string)
    requires |s| > 24 && IsStatementDate(d1) && IsWord(d1) && IsWord(d2) && IsStatementDate(d2)
    requires s[0..11] == d1 && s[11] == ' ' && s[12..23] == d2 && s[23] == ' ' && s[24..] == p
    requires !IsSpace(p[0]) && TrimEnd(p) == p && Lower(p) == Phrase
    ensures MatchDateLine(s) == Some(DateLine(d1, p))
  {
    WordThenSpace(s, 0, d1);
    WordThenSpace(s, 12, d2);
    SpansFromNonSpace(s, 24);
  }

  /** An amount line laid out as documented (`###`, then the amount and the
      balance, one space apart) matches, with the two amounts. */
  lemma DocumentedAmountLineMatches(a: string, b: string)
    requires IsAmountToken(a) && IsAmountToken(b)
    ensures MatchAmountLine("###" + " " + a + " " + b) == Some((a, b))
  {
    var s := "###" + " " + a + " " + b;
    var ws := ["###", a, b];
    AmountTokenIsWord(a);
    AmountTokenIsWord(b);
    assert IsWord(ws[0]);
    assert s == Join(ws, " ") by {
      assert ws[1..][1..] == [b];
      assert Join(ws[1..], " ") == a + " " + b;
      assert s == "###" + " " + (a + " " + b);
    }
    var sp := JoinedTokens(s, ws);
    assert s[0] == '#' && s[1] == '#' && s[2] == '#';
  }
}
