/** The donation dialog (`src/components/donation-card.tsx`): the amount
    typed into the field is read with `parseFloat`, checked on the client
    against zero and against the balance still to be donated, and only then
    sent to `addDonation`. */
module DonationCard {
  import opened Wrappers
  import opened Numbers
  import opened Text
  import A = Actions

  const EnterValidAmount := "Please enter a valid amount"
  const ExceedsBalance := "Amount cannot exceed available balance"
  const DonationSucceeded := "Donation added successfully"

  /** `inputRef.current?.value || ""`: the field's text, or the empty text
      when the input is not mounted. */
  function FieldText(field: Option<string>): string {
    if field.Some? then field.value else ""
  }

  /** `parseFloat` of the field's text. */
  function FieldValue(field: Option<string>): Num {
    ParseFloat(FieldText(field))
  }

  /** What `handleDonate` does with the typed amount. */
  datatype Decision = Reject(message: string) | Donate(amount: Num)

  /** The two client-side checks, in their order: NaN or not above zero,
      then above the balance left. */
  function Decide(field: Option<string>, amountLeft: int): Decision {
    var v := FieldValue(field);
    if v.NaN? || v.paise <= 0 then Reject(EnterValidAmount)
    else if v.paise > amountLeft then Reject(ExceedsBalance)
    else Donate(v)
  }

  // ---------------------------------------------------------------------------
  // What the decision means
  // ---------------------------------------------------------------------------

  /** The dialog sends exactly the amounts above zero and within the balance,
      and sends the amount as typed. It holds by unfolding `Decide`, and it
      is the one statement of the dialog's acceptance that does not depend on
      the order of the two checks. */
  lemma SendsExactlyTheAllowedAmounts(field: Option<string>, amountLeft: int)
    ensures Decide(field, amountLeft).Donate? <==>
              FieldValue(field).Finite? && 0 < FieldValue(field).paise <= amountLeft
    ensures Decide(field, amountLeft).Donate? ==> Decide(field, amountLeft).amount == FieldValue(field)
  {
  }

  /** The validity check comes first: an amount that is not a number above
      zero is reported as invalid whatever the balance. This pins down the
      order of the two checks, which `SendsExactlyTheAllowedAmounts` leaves
      open; it holds by unfolding `Decide`. */
  lemma ValidityBeforeBalance(field: Option<string>, amountLeft: int)
    requires !A.PositiveAmount(FieldValue(field))
    ensures Decide(field, amountLeft) == Reject(EnterValidAmount)
  {
  }

  /** The balance message is given exactly for valid amounts above the
      balance left: with `ValidityBeforeBalance`, it fixes which message each
      refused value gets. It holds by unfolding `Decide`. */
  lemma BalanceMessageWhenAbove(field: Option<string>, amountLeft: int)
    ensures Decide(field, amountLeft) == Reject(ExceedsBalance) <==>
              A.PositiveAmount(FieldValue(field)) && FieldValue(field).paise > amountLeft
  {
  }

  /** Every amount the dialog sends passes the server's own schema, so the
      server's "Invalid amount" reply cannot follow a send from the dialog. */
  lemma SentAmountPassesServer(field: Option<string>, amountLeft: int)
    requires Decide(field, amountLeft).Donate?
    ensures A.PositiveAmount(Decide(field, amountLeft).amount)
  {
  }

  /** An empty field, and a missing input, are invalid amounts. */
  lemma EmptyFieldIsInvalid(amountLeft: int)
    ensures Decide(None, amountLeft) == Reject(EnterValidAmount)
    ensures Decide(Some(""), amountLeft) == Reject(EnterValidAmount)
  {
    assert FieldText(None) == "" && FieldText(Some("")) == "";
    assert ParseFloat("") == NaN by {
      assert TrimStart("") == "";
      assert LeadingDigits("") == [];
    }
  }

  /** Typing the whole balance left is accepted (the check is `>`, not `>=`),
      and one paisa more is refused. */
  lemma {:induction false} WholeBalanceIsAccepted(amountLeft: int)
    requires amountLeft > 0
    ensures Decide(Some(PaiseText(amountLeft)), amountLeft) == Donate(Finite(amountLeft))
    ensures Decide(Some(PaiseText(amountLeft + 1)), amountLeft) == Reject(ExceedsBalance)
  {
    ParseFloatOfPaiseText(amountLeft);
    ParseFloatOfPaiseText(amountLeft + 1);
  }

  /** An amount sent against one balance is sent, unchanged, against any
      larger balance. */
  lemma LargerBalanceStillSends(field: Option<string>, amountLeft: int, more: int)
    requires Decide(field, amountLeft).Donate? && amountLeft <= more
    ensures Decide(field, more) == Decide(field, amountLeft)
  {
  }

  // ---------------------------------------------------------------------------
  // The dialog
  // ---------------------------------------------------------------------------

  /** A toast: success or error, with its text. */
  datatype Toast = Toast(success: bool, message: string)

  /** The dialog's state: the field's text (None when the input is not
      mounted), whether the dialog is open, and the error shown under the
      field. */
  class DonationDialog {
    var field: Option<string>
    var open: bool
    var error: Option<string>

    constructor()
      ensures field == Some("") && !open && error == None
    {
      field := Some("");
      open := false;
      error := None;
    }

    /** `handleDonate`, with the server call run to completion: the error is
        cleared, a refused amount shows its message and nothing is sent; a
        sent amount raises a toast with the server's reply, and a success
        closes the dialog and clears the field. */
    method HandleDonate(amountLeft: int, table: A.DonationTable, session: Option<string>, clock: string)
      returns (toast: Option<Toast>)
      requires table.Valid()
      modifies this, table
      ensures table.Valid()
      ensures Decide(old(field), amountLeft).Reject? ==>
                error == Some(Decide(old(field), amountLeft).message) && toast == None
                && open == old(open) && field == old(field) && table.rows == old(table.rows)
      ensures Decide(old(field), amountLeft).Donate? && session.None? ==>
                error == None && toast == Some(Toast(false, A.Unauthorized))
                && open == old(open) && field == old(field) && table.rows == old(table.rows)
      ensures Decide(old(field), amountLeft).Donate? && session.Some? ==>
                error == None && toast == Some(Toast(true, DonationSucceeded))
                && !open && field == Some("")
                && table.rows == old(table.rows)
                   + [A.StoredDonation(session.value, FieldValue(old(field)).paise, A.DatePart(clock))]
    {
      var value := FieldValue(field);
      error := None;
      if value.NaN? || value.paise <= 0 {
        error := Some(EnterValidAmount);
        return None;
      }
      if value.paise > amountLeft {
        error := Some(ExceedsBalance);
        return None;
      }
      var result := table.AddDonation(session, value, clock);
      if result.success {
        open := false;
        field := Some("");
        toast := Some(Toast(true, DonationSucceeded));
      } else {
        toast := Some(Toast(false, result.message));
      }
    }
  }
}
