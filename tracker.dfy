/** The tracker's state, the list of loans and the cursor on the current
    one, with one method per event handler that changes it. */
module Tracker {
  import opened Text
  import opened Wrappers
  import opened Amount
  import opened Currency
  import opened Loans
  import opened Navigation

  /** Every row in `editors` exists and its date cell's text is empty. */
  ghost predicate EditorsInEmptyCells(editors: set<nat>, table: seq<Row>) {
    forall r :: r in editors ==> r < |table| && table[r].dateCell == []
  }

  /** A rejected date edit leaves its input in a cell it has emptied. */
  lemma {:induction false} RejectKeepsEditorsInEmptyCells(editors: set<nat>, table: seq<Row>, row: nat)
    requires EditorsInEmptyCells(editors, table) && row < |table|
    ensures EditorsInEmptyCells(editors + {row}, table[row := table[row].(dateCell := [])])
  {
  }

  /** An accepted date closes its row's input; the other inputs stay in
      their empty cells. */
  lemma {:induction false} DateKeepsEditorsInEmptyCells(editors: set<nat>, table: seq<Row>, row: nat, d: string)
    requires EditorsInEmptyCells(editors, table) && row < |table|
    ensures EditorsInEmptyCells(editors - {row}, table[row := table[row].(dateCell := d)])
  {
  }

  /** An amount edit leaves every date cell's text as it was. */
  lemma {:induction false} AmountKeepsEditorsInEmptyCells(editors: set<nat>, table: seq<Row>, row: nat, cell: string)
    requires EditorsInEmptyCells(editors, table) && row < |table|
    ensures EditorsInEmptyCells(editors, table[row := table[row].(amountCell := cell)])
  {
  }

  class LoanTracker {
    var loans: seq<Loan>
    /** `currentLoanIndex`: every edit applies to `loans[current]`. */
    var current: nat
    /** The payment table's rows, as their cells' text; it shows the current
        loan's payments, and `updateLoanPayments` reads them back from it. */
    var table: seq<Row>
    /** Rows whose date cell still holds the input of a rejected date edit:
        the cell's text is empty, but the input can be confirmed again.
        Redrawing the table removes every such input. */
    var dateEditors: set<nat>

    /** The list is never empty (it starts with two loans and nothing removes
        one), the cursor is on a loan, ids follow positions, the table
        shows the current loan's payments, and a leftover date input sits
        only in an emptied date cell. */
    ghost predicate Valid()
      reads this
    {
      && 0 < |loans|
      && current < |loans|
      && IdsArePositions(loans)
      && TableShows(table, loans[current].payments)
      && EditorsInEmptyCells(dateEditors, table)
    }

    /** Whether a date edit of row `row` can be confirmed. A click on the cell
        first parses its text as a date, and throws on an empty text, so an
        emptied cell is editable only through the input a rejected edit left
        in it. Every non-empty date text the tracker produces (the sample
        dates, `formatDate` output, the add-payment date) is taken to parse. */
    predicate DateEditorOpens(row: nat)
      reads this
    {
      row < |table| && (table[row].dateCell != [] || row in dateEditors)
    }

    function CurrentLoan(): Loan
      reads this
      requires Valid()
    {
      loans[current]
    }

    /** The start-up: the sample loans, the first one shown. */
    constructor ()
      ensures Valid()
      ensures loans == SampleLoans() && current == 0
      ensures table == Render(SampleLoans()[0].payments) && dateEditors == {}
    {
      loans := SampleLoans();
      current := 0;
      new;
      UpdatePaymentTable();
      RenderShows(loans[current].payments);
    }

    /** `updatePaymentTable` for the current loan: empty the table, then
        append one row per payment. */
    method UpdatePaymentTable()
      requires current < |loans|
      modifies this
      ensures loans == old(loans) && current == old(current)
      ensures table == Render(loans[current].payments) && dateEditors == {}
    {
      var ps := loans[current].payments;
      table := [];
      dateEditors := {};
      var i := 0;
      while i < |ps|
        invariant 0 <= i <= |ps|
        invariant loans == old(loans) && current == old(current)
        invariant table == Render(ps[..i]) && dateEditors == {}
      {
        assert ps[..i + 1][..i] == ps[..i];
        table := table + [RenderRow(ps[i])];
        i := i + 1;
      }
      assert ps[..|ps|] == ps;
    }

    /** `updateLoanPayments`: the current loan's payments become what the
        table's rows read back as. */
    method UpdateLoanPayments()
      requires current < |loans|
      modifies this
      ensures current == old(current) && table == old(table) && dateEditors == old(dateEditors)
      ensures loans == old(loans)[current := old(loans)[current].(payments := ReadTable(table))]
    {
      loans := loans[current := loans[current].(payments := ReadTable(table))];
    }

    method ShowNextLoan()
      requires Valid()
      modifies this
      ensures Valid()
      ensures loans == old(loans)
      ensures current == NextIndex(old(current), |loans|)
      ensures table == Render(CurrentLoan().payments) && dateEditors == {}
    {
      current := (current + 1) % |loans|;
      UpdatePaymentTable();
      RenderShows(loans[current].payments);
    }

    method ShowPreviousLoan()
      requires Valid()
      modifies this
      ensures Valid()
      ensures loans == old(loans)
      ensures current == PreviousIndex(old(current), |loans|)
      ensures table == Render(CurrentLoan().payments) && dateEditors == {}
    {
      current := (current - 1 + |loans|) % |loans|;
      UpdatePaymentTable();
      RenderShows(loans[current].payments);
    }

    /** The end of a drag (touch or mouse) over the loan card. */
    method HandleSwipe(startX: real, startY: real, endX: real, endY: real)
      requires Valid()
      modifies this
      ensures Valid()
      ensures loans == old(loans)
      ensures current == match SwipeAction(startX, startY, endX, endY)
                         case ShowPrevious => PreviousIndex(old(current), |loans|)
                         case ShowNext => NextIndex(old(current), |loans|)
                         case Stay => old(current)
      ensures table == if SwipeAction(startX, startY, endX, endY) == Stay then old(table)
                       else Render(CurrentLoan().payments)
      ensures dateEditors == if SwipeAction(startX, startY, endX, endY) == Stay then old(dateEditors) else {}
    {
      match SwipeAction(startX, startY, endX, endY)
      case ShowPrevious => ShowPreviousLoan();
      case ShowNext => ShowNextLoan();
      case Stay =>
    }

    /** The add-loan button: append a blank loan and make it current. */
    method AddLoan()
      requires Valid()
      modifies this
      ensures Valid()
      ensures loans == old(loans) + [NewLoan(|old(loans)|)]
      ensures current == |loans| - 1
      ensures table == [] && dateEditors == {}
    {
      NewLoanKeepsIds(loans);
      loans := loans + [NewLoan(|loans|)];
      current := |loans| - 1;
      UpdatePaymentTable();
      RenderShows(loans[current].payments);
    }

    /** The add-payment button: put a payment dated `today` with the
        sanitised monthly-payment field in front of the current loan's
        payments, and show them. */
    method AddPayment(monthlyInput: string, today: string)
      requires Valid()
      modifies this
      ensures Valid()
      ensures current == old(current)
      ensures loans == old(loans)[current := old(CurrentLoan()).(payments := [Payment(today, Sanitize(monthlyInput))] + old(CurrentLoan()).payments)]
      ensures table == Render(CurrentLoan().payments) && dateEditors == {}
    {
      var loan := loans[current];
      var payment := Payment(today, Sanitize(monthlyInput));
      loans := loans[current := loan.(payments := [payment] + loan.payments)];
      UpdatePaymentTable();
      RenderShows(loans[current].payments);
    }

    /** The remove button of table row `row`: `payments.splice(row, 1)`, and
        show the payments. */
    method RemovePayment(row: int)
      requires Valid()
      modifies this
      ensures Valid()
      ensures current == old(current)
      ensures loans == old(loans)[current := old(CurrentLoan()).(payments := SpliceOne(old(CurrentLoan()).payments, row))]
      ensures table == Render(CurrentLoan().payments) && dateEditors == {}
    {
      var loan := loans[current];
      loans := loans[current := loan.(payments := SpliceOne(loan.payments, row))];
      UpdatePaymentTable();
      RenderShows(loans[current].payments);
    }

    /** Confirming the title editor: the trimmed text replaces the title
        unless it is empty. */
    method SetTitle(input: string)
      requires Valid()
      modifies this
      ensures Valid()
      ensures current == old(current) && table == old(table) && dateEditors == old(dateEditors)
      ensures Trim(input) == [] ==> loans == old(loans)
      ensures Trim(input) != [] ==> loans == old(loans)[current := old(CurrentLoan()).(title := Trim(input))]
    {
      var title := Trim(input);
      if title != [] {
        loans := loans[current := loans[current].(title := title)];
      }
    }

    /** Confirming the loan-amount editor: the sanitised text becomes the amount. */
    method SetLoanAmount(input: string)
      requires Valid()
      modifies this
      ensures Valid()
      ensures current == old(current) && table == old(table) && dateEditors == old(dateEditors)
      ensures loans == old(loans)[current := old(CurrentLoan()).(loanAmount := Sanitize(input))]
    {
      loans := loans[current := loans[current].(loanAmount := Sanitize(input))];
    }

    /** Confirming the amount editor of table row `row`: the cell shows the
        sanitised text as currency, and the current loan's payments are
        rebuilt from the table, so every amount, the edited one included, is
        rounded to cents. */
    method EditPaymentAmount(row: nat, input: string)
      requires Valid()
      modifies this
      ensures Valid()
      ensures current == old(current) && dateEditors == old(dateEditors)
      ensures row >= |old(table)| ==> loans == old(loans) && table == old(table)
      ensures row < |old(table)| ==>
                table == old(table)[row := old(table)[row].(amountCell := AmountCell(Sanitize(input)))]
      ensures row < |old(table)| ==>
                loans == old(loans)[current := old(CurrentLoan()).(payments := ReadTable(table))]
      ensures row < |old(table)| ==> CurrentLoan().payments[row].amount == RoundToCents(Sanitize(input))
      ensures row < |old(table)| && old(table) == Render(old(CurrentLoan()).payments) ==>
                var ps := old(CurrentLoan()).payments;
                CurrentLoan().payments == Redisplayed(ps[row := ps[row].(amount := Sanitize(input))])
    {
      if row < |table| {
        EditAmountCell(table, loans[current].payments, row, Sanitize(input));
        AmountKeepsEditorsInEmptyCells(dateEditors, table, row, AmountCell(Sanitize(input)));
        table := table[row := table[row].(amountCell := AmountCell(Sanitize(input)))];
        IdsKeptByPayments(loans, current, ReadTable(table));
        UpdateLoanPayments();
      }
    }

    /** Confirming the date editor of table row `row`; `date` is the
        formatted date, or None when the input is not a valid date. A valid
        date is written into the cell, which drops any leftover input, and
        the payments are rebuilt from the table; an invalid one leaves the
        cell empty with its input still in it, and the payments as they are.
        A row whose editor cannot open is left alone. */
    method EditPaymentDate(row: nat, date: Option<string>)
      requires Valid()
      modifies this
      ensures Valid()
      ensures current == old(current)
      ensures !old(DateEditorOpens(row)) ==>
                loans == old(loans) && table == old(table) && dateEditors == old(dateEditors)
      ensures old(DateEditorOpens(row)) && date.None? ==>
                && loans == old(loans)
                && table == old(table)[row := old(table)[row].(dateCell := [])]
                && dateEditors == old(dateEditors) + {row}
      ensures old(DateEditorOpens(row)) && date.Some? ==>
                && table == old(table)[row := old(table)[row].(dateCell := date.value)]
                && dateEditors == old(dateEditors) - {row}
                && loans == old(loans)[current := old(CurrentLoan()).(payments := ReadTable(table))]
      ensures old(DateEditorOpens(row)) && date.Some? && old(table) == Render(old(CurrentLoan()).payments) ==>
                var ps := old(CurrentLoan()).payments;
                CurrentLoan().payments == Redisplayed(ps[row := ps[row].(dueDate := date.value)])
    {
      if DateEditorOpens(row) {
        match date
        case None =>
          RejectKeepsEditorsInEmptyCells(dateEditors, table, row);
          table := table[row := table[row].(dateCell := [])];
          dateEditors := dateEditors + {row};
        case Some(d) =>
          EditDateCell(table, loans[current].payments, row, d);
          DateKeepsEditorsInEmptyCells(dateEditors, table, row, d);
          table := table[row := table[row].(dateCell := d)];
          dateEditors := dateEditors - {row};
          IdsKeptByPayments(loans, current, ReadTable(table));
          UpdateLoanPayments();
      }
    }

    /** The figures `updateSummaryAndChart` shows for the current loan. */
    method Summary() returns (totalPaid: real, balance: real, percentage: Option<real>)
      requires Valid()
      ensures totalPaid == TotalPaid(CurrentLoan().payments)
      ensures balance + totalPaid == CurrentLoan().loanAmount
      ensures percentage == PaidPercentage(CurrentLoan())
    {
      var loan := loans[current];
      totalPaid := TotalPaid(loan.payments);
      balance := OutstandingBalance(loan);
      percentage := PaidPercentage(loan);
    }
  }

  /** Adding a payment and then removing the first row restores the loans. */
  method AddThenRemovePayment(t: LoanTracker, monthlyInput: string, today: string)
    requires t.Valid()
    modifies t
    ensures t.Valid()
    ensures t.loans == old(t.loans) && t.current == old(t.current)
  {
    ghost var before := t.loans;
    t.AddPayment(monthlyInput, today);
    SpliceOneUndoesPrepend(Payment(today, Sanitize(monthlyInput)), before[t.current].payments);
    t.RemovePayment(0);
    assert t.loans[t.current] == before[t.current];
  }

  /** Adding a loan to the two sample loans gives a third, blank one, current. */
  method AddLoanToSample() returns (count: nat, cursor: nat, added: Loan)
    ensures count == 3 && cursor == 2
    ensures added == Loan(3, "New Loan 3", 0.0, [])
  {
    var t := new LoanTracker();
    t.AddLoan();
    count, cursor, added := |t.loans|, t.current, t.loans[t.current];
    assert NatToDecimal(3) == "3";
  }

  /** A blank title is rejected; a padded one is stored trimmed. */
  method RetitleSample() returns (afterBlank: string, afterPadded: string)
    ensures afterBlank == "LANDBANK"
    ensures afterPadded == "Car"
  {
    var t := new LoanTracker();
    t.SetTitle("   ");
    afterBlank := t.CurrentLoan().title;
    TrimBlank();
    TrimPadded();
    t.SetTitle(" Car  ");
    afterPadded := t.CurrentLoan().title;
  }

  /** Removing a row past the end of the table leaves the payments alone. */
  method RemoveMissingRow() returns (before: seq<Payment>, after: seq<Payment>)
    ensures after == before && |after| == 3
  {
    var t := new LoanTracker();
    before := t.CurrentLoan().payments;
    t.RemovePayment(5);
    after := t.CurrentLoan().payments;
  }

  /** Typing "1.234" into the first payment's amount cell stores 1.23; the
      other rows, already whole cents, keep their amounts. */
  method EditSampleAmount() returns (edited: real, others: seq<Payment>)
    ensures edited == 1.23
    ensures others == SampleLoans()[0].payments[1..]
  {
    var t := new LoanTracker();
    SanitizeThreeDecimals();
    assert Cents(1.234) == 123;
    SampleRedisplayed();
    t.EditPaymentAmount(0, "1.234");
    edited := t.CurrentLoan().payments[0].amount;
    others := t.CurrentLoan().payments[1..];
  }

  /** A rejected date edit empties its cell; the next rebuild, here from an
      amount edit on another row, stores that row's due date as empty. */
  method RejectedDateThenAmountEdit() returns (first: string, second: string)
    ensures first == [] && second == "February 25, 2025"
  {
    var t := new LoanTracker();
    t.EditPaymentDate(0, None);
    t.EditPaymentAmount(1, "5");
    first := t.CurrentLoan().payments[0].dueDate;
    second := t.CurrentLoan().payments[1].dueDate;
  }

  /** A rejected date edit leaves its input in the cell, so the same row can
      still be re-dated through it. */
  method RetryRejectedDate() returns (first: string)
    ensures first == "March 1, 2025"
  {
    var t := new LoanTracker();
    t.EditPaymentDate(0, None);
    t.EditPaymentDate(0, Some("March 1, 2025"));
    first := t.CurrentLoan().payments[0].dueDate;
  }

  /** Once a row's due date is stored empty, redrawing the table (here by
      paging away and back) leaves its date cell empty with no input in it,
      so no date edit of that row changes anything. */
  method RedateAfterRedraw(t: LoanTracker, row: nat, date: Option<string>)
    requires t.Valid()
    requires row < |t.CurrentLoan().payments| && t.CurrentLoan().payments[row].dueDate == []
    modifies t
    ensures t.Valid()
    ensures t.loans == old(t.loans) && t.current == old(t.current)
  {
    PreviousUndoesNext(t.current, |t.loans|);
    t.ShowNextLoan();
    t.ShowPreviousLoan();
    assert t.table[row].dateCell == [] && t.dateEditors == {};
    t.EditPaymentDate(row, date);
  }

  /** The rejected-date scenario continued: after the empty due date is
      stored, a redraw locks row 0's date for good. */
  method RedrawnEmptyDateStaysEmpty() returns (first: string)
    ensures first == []
  {
    var t := new LoanTracker();
    t.EditPaymentDate(0, None);
    t.EditPaymentAmount(1, "5");
    assert t.CurrentLoan().payments[0].dueDate == [];
    RedateAfterRedraw(t, 0, Some("March 1, 2025"));
    first := t.CurrentLoan().payments[0].dueDate;
  }
}
