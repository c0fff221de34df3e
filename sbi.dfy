/** The State Bank of India spreadsheet parser (`src/lib/banking/parsers/sbi.ts`):
    the shared spreadsheet path with the SBI header words, column titles,
    `parseDDMMYYYY` for dates written as text, and the interest phrase as the
    statement exports wrap it, `interes t credit`. */
module Sbi {
  import opened Wrappers
  import opened Text
  import opened BankTypes
  import opened Utils
  import opened Sheets

  const SbiLayout := Layout(
    "debit", "credit",
    "Could not find transaction header row in SBI Statement",
    "Date", "Details",
    ParseDDMMYYYY,
    "interes t credit")

  /** A row dated by text reads the text day first, either separator
      accepted. */
  lemma TextDateIsDayFirst(d: string, m: string, y: string)
    requires NoSeparator(d) && NoSeparator(m) && NoSeparator(y)
    ensures DateCell(SbiLayout, Text(d + "/" + m + "/" + y))
            == DateCell(SbiLayout, Text(d + "-" + m + "-" + y))
            == Some(ParseDDMMYYYY(d + "-" + m + "-" + y))
  {
    SeparatorsAreInterchangeable(d, m, y);
  }

  /** The filter accepts the export's wrapped spelling of the phrase, in
      any letter case... */
  lemma AcceptsWrappedPhrase()
    ensures IsInterest(SbiLayout, "interes t credit") && IsInterest(SbiLayout, Upper("interes t credit"))
  {
    PhraseIsInterest(SbiLayout);
  }

  /** ...but not the unwrapped phrase, which is one character shorter. */
  lemma RejectsUnwrappedPhrase()
    ensures !IsInterest(SbiLayout, "INTEREST CREDIT")
  {
    ShortTextIsNotInterest(SbiLayout, "INTEREST CREDIT");
  }
}
