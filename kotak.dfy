/** The Kotak Mahindra Bank PDF parser (`src/lib/banking/parsers/kotak.ts`):
    every line of the converted statement that carries an `Int.Pd:` interest
    entry of the form
      `serial day month year Int.Pd:... [to dd-mm-yyyy] amount balance`
    yields one credit. */
module Kotak {
  import opened Wrappers
  import opened Text
  import opened Numbers
  import opened BankTypes
  import opened Seqs
  import opened Tokens

  /** The prefilter `/Int\.Pd:/i`, in lower case. */
  const Marker := "int.pd:"

  predicate IsDayToken(t: string) { 1 <= |t| <= 2 && AllDigits(t) }

  predicate IsMonthToken(t: string) { |t| == 3 && WordCharsOf(t, 0, 3) }

  predicate IsYearToken(t: string) { |t| == 4 && AllDigits(t) }

  /** `Int\.Pd:[^\s]+`, case-insensitive, as a whole token. */
  predicate IsMarkerToken(t: string) { |t| > |Marker| && Lower(t[..|Marker|]) == Marker }

  /** `to`, case-insensitive. */
  predicate IsToToken(t: string) { Lower(t) == "to" }

  /** `\d{2}-\d{2}-\d{4}`. */
  predicate IsRangeEndToken(t: string) {
    |t| == 10 && DigitsOf(t, 0, 2) && t[2] == '-' && DigitsOf(t, 3, 5) && t[5] == '-' && DigitsOf(t, 6, 10)
  }

  /** The groups the parser reads from a matching line. */
  datatype LineMatch = LineMatch(dateText: string, description: string, amountText: string, balanceText: string)

  /** The first five tokens: `(\d+)`, then the date `\d{1,2}\s+\w{3}\s+\d{4}`,
      then the `Int.Pd:` token. */
  predicate LeadingTokens(s: string, sp: seq<Span>)
    requires WellSpaced(s, sp)
  {
    |sp| >= 5
    && NumberToken(Token(s, sp[0])) && IsDayToken(Token(s, sp[1])) && IsMonthToken(Token(s, sp[2]))
    && IsYearToken(Token(s, sp[3])) && IsMarkerToken(Token(s, sp[4]))
  }

  /** `TRANSACTION_LINE_REGEX` (case-insensitive) on one line. Every element
      of the pattern is a whole token, so the line matches when its tokens
      are the seven elements without the optional `to dd-mm-yyyy` part or
      the nine elements with it. The date group is the text from the day to
      the year, the description group the text from the `Int.Pd:` token to
      its last token. */
  function MatchLine(s: string): (r: Option<LineMatch>)
    ensures r.Some? ==> IsAmountToken(r.value.amountText) && IsAmountToken(r.value.balanceText)
    ensures r.Some? ==> Trim(r.value.description) == r.value.description
  {
    MatchTokens(s, Spans(s))
  }

  /** The match on a line's token list. */
  function MatchTokens(s: string, sp: seq<Span>): (r: Option<LineMatch>)
    requires WellSpaced(s, sp)
    ensures r.Some? ==> IsAmountToken(r.value.amountText) && IsAmountToken(r.value.balanceText)
    ensures r.Some? ==> Trim(r.value.description) == r.value.description
  {
    if |sp| == 7 && LeadingTokens(s, sp)
       && IsAmountToken(Token(s, sp[5])) && IsAmountToken(Token(s, sp[6])) then
      TrimOfBetween(s, sp[4], sp[4]);
      Some(LineMatch(Between(s, sp[1], sp[3]), Between(s, sp[4], sp[4]), Token(s, sp[5]), Token(s, sp[6])))
    else if |sp| == 9 && LeadingTokens(s, sp)
       && IsToToken(Token(s, sp[5])) && IsRangeEndToken(Token(s, sp[6]))
       && IsAmountToken(Token(s, sp[7])) && IsAmountToken(Token(s, sp[8])) then
      TrimOfBetween(s, sp[4], sp[6]);
      Some(LineMatch(Between(s, sp[1], sp[3]), Between(s, sp[4], sp[6]), Token(s, sp[7]), Token(s, sp[8])))
    else None
  }

  /** The hash input `dateStr|description|amount|balance|user`, from the raw
      date text and the untrimmed description. */
  function HashInput(m: LineMatch, user: Option<string>): string {
    Piped([m.dateText, m.description, NumText(ParseAmount(m.amountText)), NumText(ParseAmount(m.balanceText)), UserPart(user)])
  }

  /** One loop iteration: the transaction a line yields, or None when it is
      skipped. */
  function LineTransaction(x: Externals, user: Option<string>, line: string): (r: Option<Transaction>)
    ensures r.Some? <==> MatchLine(line).Some? && x.parseDate(MatchLine(line).value.dateText).Some?
    ensures r.Some? ==> var m := MatchLine(line).value;
                        && r.value.date == x.parseDate(m.dateText).value
                        && r.value.description == m.description
                        && r.value.amount == ParseAmount(m.amountText)
                        && r.value.balance == ParseAmount(m.balanceText)
                        && r.value.transactionHash == x.hash(HashInput(m, user))
  {
    if !ContainsIgnoreCase(line, Marker) then
      MatchImpliesMarker(line);
      None
    else
      match MatchLine(line)
      case None => None
      case Some(m) =>
        match x.parseDate(m.dateText)
        case None => None
        case Some(date) =>
          Some(Transaction(
            None,
            x.hash(HashInput(m, user)),
            date,
            Trim(m.description),
            ParseAmount(m.amountText),
            Credit,
            ParseAmount(m.balanceText)))
  }

  /** `KotakParser.parse`. */
  method Parse(x: Externals, file: Content, user: Option<string>) returns (transactions: seq<Transaction>)
    ensures transactions
            == FilterMap((line: string) => LineTransaction(x, user, line), SplitLines(x.pdfMarkdown(file)))
  {
    var lines := SplitLines(x.pdfMarkdown(file));
    var keep := (line: string) => LineTransaction(x, user, line);
    transactions := [];
    var k := 0;
    while k < |lines|
      invariant k <= |lines|
      invariant transactions == FilterMap(keep, lines[..k])
    {
      FilterMapPush(keep, lines, k, transactions);
      var t := keep(lines[k]);
      if t.Some? {
        transactions := transactions + [t.value];
      }
      k := k + 1;
    }
    assert lines[..k] == lines;
  }

  // ---------------------------------------------------------------------------
  // Lemmas
  // ---------------------------------------------------------------------------

  /** A matching line contains `Int.Pd:`, so the prefilter never drops a line
      the pattern would accept. */
  lemma MatchImpliesMarker(line: string)
    ensures MatchLine(line).Some? ==> ContainsIgnoreCase(line, Marker)
  {
    if MatchLine(line).Some? {
      MarkerOfTokens(line, Spans(line));
    }
  }

  lemma MarkerOfTokens(s: string, sp: seq<Span>)
    requires WellSpaced(s, sp) && LeadingTokens(s, sp)
    ensures ContainsIgnoreCase(s, Marker)
  {
    var st := sp[4].start;
    var t := Token(s, sp[4]);
    assert s[st..st + |Marker|] == t[..|Marker|];
    ContainsIgnoreCaseAt(s, Marker, st);
  }

  /** Every parsed entry is a credit of a non-negative amount, with a
      non-negative balance and a description that is already trimmed (so the
      stored description is the one that was hashed). */
  lemma LineTransactionIsCredit(x: Externals, user: Option<string>, line: string)
    requires LineTransaction(x, user, line).Some?
    ensures var t := LineTransaction(x, user, line).value;
            && t.txType == Credit && AtLeastZero(t.amount) && AtLeastZero(t.balance)
            && t.transactionHash == x.hash(HashInput(MatchLine(line).value, user))
            && t.description == MatchLine(line).value.description
  {
    var m := MatchLine(line).value;
    AmountTokenParses(m.amountText);
    AmountTokenParses(m.balanceText);
  }

  /** The parser's output is, line by line, what each line yields: one entry
      per accepted line, in statement order. */
  lemma ParsedLinesInOrder(x: Externals, user: Option<string>, a: seq<string>, b: seq<string>)
    ensures FilterMap((line: string) => LineTransaction(x, user, line), a + b)
            == FilterMap((line: string) => LineTransaction(x, user, line), a)
               + FilterMap((line: string) => LineTransaction(x, user, line), b)
  {
    FilterMapAppend((line: string) => LineTransaction(x, user, line), a, b);
  }

  /** Digits, `\w{3}`, `to` and `dd-mm-yyyy` hold no whitespace. */
  lemma ShapeIsWord(t: string)
    requires NumberToken(t) || IsMonthToken(t) || IsToToken(t) || IsRangeEndToken(t)
    ensures IsWord(t)
  {
    if IsToToken(t) {
      LowerAt(t, 0);
      LowerAt(t, 1);
    }
  }

  /** A line laid out as documented, without the `to` part (serial, day,
      month, year, the `Int.Pd:` token, amount and balance, one space
      apart), matches; the date group is the day, month and year as
      written, the description the `Int.Pd:` token. */
  lemma PlainLineMatches(ts: seq<string>)
    requires |ts| == 7 && NumberToken(ts[0]) && IsDayToken(ts[1]) && IsMonthToken(ts[2]) && IsYearToken(ts[3])
    requires IsMarkerToken(ts[4]) && IsWord(ts[4]) && IsAmountToken(ts[5]) && IsAmountToken(ts[6])
    ensures MatchLine(Join(ts, " ")) == Some(LineMatch(ts[1] + " " + ts[2] + " " + ts[3], ts[4], ts[5], ts[6]))
  {
    var s := Join(ts, " ");
    forall k | 0 <= k < 7 ensures IsWord(ts[k]) {
      if k == 5 || k == 6 { AmountTokenIsWord(ts[k]); } else if k != 4 { ShapeIsWord(ts[k]); }
    }
    var sp := JoinedTokens(s, ts);
    TokensMatch(s, sp, ts);
  }

  /** The same with the `to dd-mm-yyyy` part: the description is the
      `Int.Pd:` token through the end of the range, as written. */
  lemma RangeLineMatches(ts: seq<string>)
    requires |ts| == 9 && NumberToken(ts[0]) && IsDayToken(ts[1]) && IsMonthToken(ts[2]) && IsYearToken(ts[3])
    requires IsMarkerToken(ts[4]) && IsWord(ts[4]) && IsToToken(ts[5]) && IsRangeEndToken(ts[6])
    requires IsAmountToken(ts[7]) && IsAmountToken(ts[8])
    ensures MatchLine(Join(ts, " "))
            == Some(LineMatch(ts[1] + " " + ts[2] + " " + ts[3], ts[4] + " " + ts[5] + " " + ts[6], ts[7], ts[8]))
  {
    var s := Join(ts, " ");
    forall k | 0 <= k < 9 ensures IsWord(ts[k]) {
      if k == 7 || k == 8 { AmountTokenIsWord(ts[k]); } else if k != 4 { ShapeIsWord(ts[k]); }
    }
    var sp := JoinedTokens(s, ts);
    TokensMatch(s, sp, ts);
  }

  /** Both layouts on a line's tokens, read off position by position. */
  lemma TokensMatch(s: string, sp: seq<Span>, ts: seq<string>)
    requires WellSpaced(s, sp) && sp == Spans(s) && |sp| == |ts| && (|ts| == 7 || |ts| == 9)
    requires forall k :: 0 <= k < |ts| ==> Token(s, sp[k]) == ts[k]
    requires forall k :: 0 <= k < |ts| - 1 ==>
               sp[k].end < |s| && s[sp[k].end] == ' ' && sp[k + 1].start == sp[k].end + 1
    requires NumberToken(ts[0]) && IsDayToken(ts[1]) && IsMonthToken(ts[2]) && IsYearToken(ts[3])
    requires IsMarkerToken(ts[4])
    requires |ts| == 7 ==> IsAmountToken(ts[5]) && IsAmountToken(ts[6])
    requires |ts| == 9 ==> IsToToken(ts[5]) && IsRangeEndToken(ts[6]) && IsAmountToken(ts[7]) && IsAmountToken(ts[8])
    ensures |ts| == 7 ==> MatchLine(s) == Some(LineMatch(ts[1] + " " + ts[2] + " " + ts[3], ts[4], ts[5], ts[6]))
    ensures |ts| == 9 ==>
              MatchLine(s) == Some(LineMatch(ts[1] + " " + ts[2] + " " + ts[3], ts[4] + " " + ts[5] + " " + ts[6], ts[7], ts[8]))
  {
    BetweenOfThree(s, sp[1], sp[2], sp[3]);
    if |ts| == 9 {
      BetweenOfThree(s, sp[4], sp[5], sp[6]);
    }
  }
}
