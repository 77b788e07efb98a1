/** Loans and their payments, the summary the tracker derives from a loan,
    and the list surgery its handlers apply to a loan's payments. */
module Loans {
  import opened Text
  import opened Wrappers
  import opened Amount
  import opened Currency

  /** A payment: its due date as displayed, and its amount. */
  datatype Payment = Payment(dueDate: string, amount: real)

  datatype Loan = Loan(id: int, title: string, loanAmount: real, payments: seq<Payment>)

  /** The two loans the tracker starts with. */
  function SampleLoans(): seq<Loan> {
    [ Loan(1, "LANDBANK", 311000.0,
           [ Payment("January 25, 2025", 9838.02),
             Payment("February 25, 2025", 9838.02),
             Payment("March 25, 2025", 9838.02) ]),
      Loan(2, "Personal Loan", 50000.0, []) ]
  }

  /** The loan the add-loan handler creates when the list holds `count` loans. */
  function NewLoan(count: nat): Loan {
    Loan(count + 1, "New Loan " + NatToDecimal(count + 1), 0.0, [])
  }

  /** Every loan's id is its position in the list plus one. */
  ghost predicate IdsArePositions(loans: seq<Loan>) {
    forall i :: 0 <= i < |loans| ==> loans[i].id == i + 1
  }

  lemma SampleLoansIds()
    ensures IdsArePositions(SampleLoans())
  {
  }

  /** Ids that follow positions are distinct. */
  lemma IdsDistinct(loans: seq<Loan>)
    requires IdsArePositions(loans)
    ensures forall i, j :: 0 <= i < |loans| && 0 <= j < |loans| && i != j ==> loans[i].id != loans[j].id
  {
  }

  /** Appending the loan the add-loan handler builds keeps ids equal to
      positions, so the new id is fresh. */
  lemma NewLoanKeepsIds(loans: seq<Loan>)
    requires IdsArePositions(loans)
    ensures IdsArePositions(loans + [NewLoan(|loans|)])
    ensures forall i :: 0 <= i < |loans| ==> loans[i].id != NewLoan(|loans|).id
  {
  }

  /** Editing a loan's payments leaves every id where it was. */
  lemma {:induction false} IdsKeptByPayments(loans: seq<Loan>, k: nat, ps: seq<Payment>)
    requires IdsArePositions(loans) && k < |loans|
    ensures IdsArePositions(loans[k := loans[k].(payments := ps)])
  {
    var loans' := loans[k := loans[k].(payments := ps)];
    forall i | 0 <= i < |loans'|
      ensures loans'[i].id == i + 1
    {
      assert loans'[i].id == loans[i].id;
    }
  }

  // ----- summary -----

  /** `payments.reduce((sum, payment) => sum + payment.amount, 0)`: a sum
      taken from the first payment to the last. */
  function TotalPaid(payments: seq<Payment>): real {
    if payments == [] then 0.0
    else TotalPaid(payments[..|payments| - 1]) + payments[|payments| - 1].amount
  }

  lemma {:induction false} TotalPaidConcat(a: seq<Payment>, b: seq<Payment>)
    ensures TotalPaid(a + b) == TotalPaid(a) + TotalPaid(b)
    decreases |b|
  {
    if b == [] {
      assert a + b == a;
    } else {
      var b' := b[..|b| - 1];
      assert (a + b)[..|a + b| - 1] == a + b';
      TotalPaidConcat(a, b');
    }
  }

  /** A payment put in front adds its amount to the total. */
  lemma {:induction false} TotalPaidPrepend(p: Payment, ps: seq<Payment>)
    ensures TotalPaid([p] + ps) == p.amount + TotalPaid(ps)
  {
    TotalPaidConcat([p], ps);
    assert [p][..0] == [];
  }

  /** The total does not depend on the order of the payments. */
  lemma {:induction false} TotalPaidPermutation(a: seq<Payment>, b: seq<Payment>)
    requires multiset(a) == multiset(b)
    ensures TotalPaid(a) == TotalPaid(b)
    decreases |a|
  {
    if a == [] {
      assert |b| == |multiset(b)| == 0;
    } else {
      var x := a[|a| - 1];
      var a' := a[..|a| - 1];
      assert a == a' + [x];
      assert multiset(a) == multiset(a') + multiset{x};
      assert x in multiset(b);
      var j :| 0 <= j < |b| && b[j] == x;
      var b' := SpliceOne(b, j);
      SpliceOneMultiset(b, j);
      TotalPaidPermutation(a', b');
      TotalPaidSpliceOne(b, j);
    }
  }

  /** With no negative amount, nothing is owed back. */
  lemma {:induction false} TotalPaidNonnegative(ps: seq<Payment>)
    requires forall i :: 0 <= i < |ps| ==> ps[i].amount >= 0.0
    ensures TotalPaid(ps) >= 0.0
    decreases |ps|
  {
    if ps != [] {
      TotalPaidNonnegative(ps[..|ps| - 1]);
    }
  }

  /** Replacing one payment changes the total by the difference of amounts. */
  lemma {:induction false} TotalPaidReplace(ps: seq<Payment>, k: nat, p: Payment)
    requires k < |ps|
    ensures TotalPaid(ps[k := p]) == TotalPaid(ps) - ps[k].amount + p.amount
  {
    assert ps == ps[..k] + ([ps[k]] + ps[k + 1..]);
    assert ps[k := p] == ps[..k] + ([p] + ps[k + 1..]);
    TotalPaidConcat(ps[..k], [ps[k]] + ps[k + 1..]);
    TotalPaidConcat(ps[..k], [p] + ps[k + 1..]);
    TotalPaidPrepend(ps[k], ps[k + 1..]);
    TotalPaidPrepend(p, ps[k + 1..]);
  }

  /** What is left to pay; not clamped, so an overpaid loan has a negative
      balance. */
  function OutstandingBalance(loan: Loan): real {
    loan.loanAmount - TotalPaid(loan.payments)
  }

  /** Recording a payment lowers the balance by exactly its amount. */
  lemma {:induction false} BalanceAfterPayment(loan: Loan, p: Payment)
    ensures OutstandingBalance(loan.(payments := [p] + loan.payments)) == OutstandingBalance(loan) - p.amount
  {
    TotalPaidPrepend(p, loan.payments);
  }

  /** `totalPaid / loanAmount * 100` before rounding; None where the source
      divides by a zero amount and gets NaN or Infinity. */
  function PaidPercentage(loan: Loan): Option<real> {
    if loan.loanAmount == 0.0 then None
    else Some(TotalPaid(loan.payments) / loan.loanAmount * 100.0)
  }

  /** A loan paid partly, with a positive amount, is between 0 and 100 percent paid. */
  lemma {:induction false} PaidPercentageBounds(loan: Loan)
    requires loan.loanAmount > 0.0
    requires 0.0 <= TotalPaid(loan.payments) <= loan.loanAmount
    ensures PaidPercentage(loan).Some?
    ensures 0.0 <= PaidPercentage(loan).value <= 100.0
  {
    var t, a := TotalPaid(loan.payments), loan.loanAmount;
    assert t / a <= 1.0 by {
      assert t / a * a == t;
    }
  }

  /** The first sample loan: three payments of 9838.02 on 311000. */
  lemma {:induction false} SampleSummary()
    ensures TotalPaid(SampleLoans()[0].payments) == 29514.06
    ensures OutstandingBalance(SampleLoans()[0]) == 281485.94
    ensures PaidPercentage(SampleLoans()[0]).Some?
    ensures 9.0 <= PaidPercentage(SampleLoans()[0]).value < 9.5
  {
    var ps := SampleLoans()[0].payments;
    assert ps[..2][..1][..0] == [];
    assert TotalPaid(ps[..2][..1]) == 9838.02;
    assert TotalPaid(ps[..2]) == 19676.04;
    assert TotalPaid(ps) == 29514.06;
  }

  // ----- payment list surgery -----

  /** JavaScript's `splice(k, 1)`: a negative `k` counts from the end (and
      stops at the first element), a `k` at or past the end removes nothing. */
  function SpliceOne<T>(s: seq<T>, k: int): (r: seq<T>)
    ensures 0 <= k < |s| ==>
              && |r| == |s| - 1
              && (forall i :: 0 <= i < k ==> r[i] == s[i])
              && (forall i :: k <= i < |r| ==> r[i] == s[i + 1])
    ensures k >= |s| ==> r == s
  {
    var start := if k < 0 then (if |s| + k < 0 then 0 else |s| + k) else k;
    if start < |s| then s[..start] + s[start + 1..] else s
  }

  /** A negative index counts back from the end; one before the start means
      the first element. */
  lemma {:induction false} SpliceOneNegative<T>(s: seq<T>, k: int)
    requires k < 0
    ensures SpliceOne(s, k) == SpliceOne(s, if |s| + k < 0 then 0 else |s| + k)
  {
  }

  /** Removing the first payment undoes putting one in front. */
  lemma {:induction false} SpliceOneUndoesPrepend<T>(x: T, s: seq<T>)
    ensures SpliceOne([x] + s, 0) == s
  {
    assert ([x] + s)[1..] == s;
  }

  lemma {:induction false} SpliceOneMultiset<T>(s: seq<T>, k: nat)
    requires k < |s|
    ensures multiset(SpliceOne(s, k)) == multiset(s) - multiset{s[k]}
  {
    assert s == s[..k] + ([s[k]] + s[k + 1..]);
    assert SpliceOne(s, k) == s[..k] + s[k + 1..];
  }

  /** Removing a payment takes its amount out of the total. */
  lemma {:induction false} TotalPaidSpliceOne(ps: seq<Payment>, k: nat)
    requires k < |ps|
    ensures TotalPaid(SpliceOne(ps, k)) == TotalPaid(ps) - ps[k].amount
  {
    assert ps == ps[..k] + ([ps[k]] + ps[k + 1..]);
    assert SpliceOne(ps, k) == ps[..k] + ps[k + 1..];
    TotalPaidConcat(ps[..k], [ps[k]] + ps[k + 1..]);
    TotalPaidPrepend(ps[k], ps[k + 1..]);
    TotalPaidConcat(ps[..k], ps[k + 1..]);
  }

  // ----- the payment table -----

  /** A row of the payment table: the text of its date cell and of its
      amount cell. */
  datatype Row = Row(dateCell: string, amountCell: string)

  /** What an amount cell shows: `₱` followed by `formatCurrency(amount)`. */
  function AmountCell(amount: real): string {
    "\U{20B1}" + FormatCurrency(amount)
  }

  /** The row `updatePaymentTable` writes for a payment. */
  function RenderRow(p: Payment): Row {
    Row(p.dueDate, AmountCell(p.amount))
  }

  /** `updatePaymentTable`: one row per payment, appended in order. */
  function Render(ps: seq<Payment>): (rows: seq<Row>)
    ensures |rows| == |ps|
    ensures forall i :: 0 <= i < |ps| ==> rows[i] == RenderRow(ps[i])
  {
    if ps == [] then [] else Render(ps[..|ps| - 1]) + [RenderRow(ps[|ps| - 1])]
  }

  /** A row as `updateLoanPayments` reads it: the date cell's text as the due
      date, and the sanitised amount cell as the amount. */
  function ReadRow(row: Row): Payment {
    Payment(row.dateCell, Sanitize(row.amountCell))
  }

  /** `updateLoanPayments`: the payments rebuilt from the table, row by row. */
  function ReadTable(rows: seq<Row>): (ps: seq<Payment>)
    ensures |ps| == |rows|
    ensures forall i :: 0 <= i < |rows| ==> ps[i] == ReadRow(rows[i])
  {
    if rows == [] then [] else [ReadRow(rows[0])] + ReadTable(rows[1..])
  }

  /** A rendered row reads back as its payment with the amount rounded to
      cents. */
  lemma {:induction false} ReadRenderedRow(p: Payment)
    ensures ReadRow(RenderRow(p)) == Payment(p.dueDate, RoundToCents(p.amount))
  {
    SanitizeDisplayed(p.amount);
  }

  /** An amount and its rounding to cents are shown the same. */
  lemma {:induction false} AmountCellRounded(x: real)
    ensures AmountCell(RoundToCents(x)) == AmountCell(x)
  {
    CentsOfWholeCents(Cents(x));
  }

  /** The payments rebuilt from a table that shows `ps`: same length, same
      dates, every amount rounded to cents. */
  function Redisplayed(ps: seq<Payment>): (r: seq<Payment>)
    ensures |r| == |ps|
    ensures forall i :: 0 <= i < |ps| ==> r[i].dueDate == ps[i].dueDate
    ensures forall i :: 0 <= i < |ps| ==> r[i].amount == RoundToCents(ps[i].amount)
  {
    var r := ReadTable(Render(ps));
    assert forall i :: 0 <= i < |ps| ==> r[i] == Payment(ps[i].dueDate, RoundToCents(ps[i].amount)) by {
      forall i | 0 <= i < |ps|
        ensures r[i] == Payment(ps[i].dueDate, RoundToCents(ps[i].amount))
      {
        ReadRenderedRow(ps[i]);
      }
    }
    r
  }

  /** The table shows the payments `ps`, except that a date cell may be
      empty: every amount cell shows its payment's amount, and every date
      cell its due date or nothing, after a rejected date edit. */
  ghost predicate TableShows(rows: seq<Row>, ps: seq<Payment>) {
    && |rows| == |ps|
    && (forall i :: 0 <= i < |ps| ==> rows[i].amountCell == AmountCell(ps[i].amount))
    && (forall i :: 0 <= i < |ps| ==> rows[i].dateCell == ps[i].dueDate || rows[i].dateCell == [])
  }

  lemma {:induction false} RenderShows(ps: seq<Payment>)
    ensures TableShows(Render(ps), ps)
  {
  }

  /** After a rebuild, the table still shows the payments, now the rebuilt
      ones. */
  lemma {:induction false} ReadShows(rows: seq<Row>, ps: seq<Payment>)
    requires TableShows(rows, ps)
    ensures TableShows(rows, ReadTable(rows))
  {
    var r := ReadTable(rows);
    forall i | 0 <= i < |rows|
      ensures rows[i].amountCell == AmountCell(r[i].amount)
    {
      SanitizeDisplayed(ps[i].amount);
      AmountCellRounded(ps[i].amount);
    }
  }

  /** An amount cell confirmed with `v`: the table shows the payments with
      that amount, the rebuild stores `v` rounded to cents, and the table
      then shows the rebuilt payments. */
  lemma {:induction false} EditAmountCell(rows: seq<Row>, ps: seq<Payment>, row: nat, v: real)
    requires TableShows(rows, ps) && row < |rows|
    ensures var rows' := rows[row := rows[row].(amountCell := AmountCell(v))];
            && TableShows(rows', ps[row := ps[row].(amount := v)])
            && TableShows(rows', ReadTable(rows'))
            && ReadTable(rows')[row].amount == RoundToCents(v)
            && (rows == Render(ps) ==> ReadTable(rows') == Redisplayed(ps[row := ps[row].(amount := v)]))
  {
    var rows' := rows[row := rows[row].(amountCell := AmountCell(v))];
    var ps' := ps[row := ps[row].(amount := v)];
    assert TableShows(rows', ps');
    ReadShows(rows', ps');
    SanitizeDisplayed(v);
    if rows == Render(ps) {
      assert rows' == Render(ps');
    }
  }

  /** A date cell confirmed with the date text `d`, likewise. */
  lemma {:induction false} EditDateCell(rows: seq<Row>, ps: seq<Payment>, row: nat, d: string)
    requires TableShows(rows, ps) && row < |rows|
    ensures var rows' := rows[row := rows[row].(dateCell := d)];
            && TableShows(rows', ReadTable(rows'))
            && (rows == Render(ps) ==> ReadTable(rows') == Redisplayed(ps[row := ps[row].(dueDate := d)]))
  {
    var rows' := rows[row := rows[row].(dateCell := d)];
    var ps' := ps[row := ps[row].(dueDate := d)];
    assert TableShows(rows', ps');
    ReadShows(rows', ps');
    if rows == Render(ps) {
      assert rows' == Render(ps');
    }
  }

  /** Without an emptied date cell, the rebuild is `Redisplayed`. */
  lemma {:induction false} ReadTableKeepsDates(rows: seq<Row>, ps: seq<Payment>)
    requires TableShows(rows, ps)
    requires forall i :: 0 <= i < |ps| ==> rows[i].dateCell == ps[i].dueDate
    ensures ReadTable(rows) == Redisplayed(ps)
  {
    assert rows == Render(ps);
  }

  /** An emptied date cell is read back as an empty due date. */
  lemma {:induction false} ReadTableEmptiedDate(rows: seq<Row>, ps: seq<Payment>, k: nat)
    requires TableShows(rows, ps)
    requires k < |rows| && rows[k].dateCell == []
    ensures ReadTable(rows)[k] == Payment([], RoundToCents(ps[k].amount))
  {
    SanitizeDisplayed(ps[k].amount);
  }

  /** The table shows the rebuilt payments exactly as before, so rebuilding
      again changes nothing. */
  lemma {:induction false} RedisplayedIdempotent(ps: seq<Payment>)
    ensures Redisplayed(Redisplayed(ps)) == Redisplayed(ps)
  {
    var r := Redisplayed(ps);
    forall i | 0 <= i < |r|
      ensures Redisplayed(r)[i] == r[i]
    {
      RoundToCentsIdempotent(ps[i].amount);
    }
  }

  /** Payments already in whole cents survive the rebuild unchanged. */
  lemma {:induction false} RedisplayedWholeCents(ps: seq<Payment>, cents: seq<int>)
    requires |cents| == |ps|
    requires forall i :: 0 <= i < |ps| ==> ps[i].amount == cents[i] as real / 100.0
    ensures Redisplayed(ps) == ps
  {
    var r := Redisplayed(ps);
    forall i | 0 <= i < |ps|
      ensures r[i] == ps[i]
    {
      RereadWholeCents(ps[i], cents[i]);
    }
  }

  lemma {:induction false} RereadWholeCents(p: Payment, c: int)
    requires p.amount == c as real / 100.0
    ensures Payment(p.dueDate, RoundToCents(p.amount)) == p
  {
    RoundToCentsWholeCents(c);
  }

  /** The rebuild moves the total by at most half a cent per payment. */
  lemma {:induction false} TotalPaidRedisplayed(ps: seq<Payment>)
    ensures -0.005 * |ps| as real <= TotalPaid(Redisplayed(ps)) - TotalPaid(ps) <= 0.005 * |ps| as real
    decreases |ps|
  {
    if ps != [] {
      var n := |ps|;
      var r := Redisplayed(ps);
      assert r[..n - 1] == Redisplayed(ps[..n - 1]);
      TotalPaidRedisplayed(ps[..n - 1]);
      assert TotalPaid(r) == TotalPaid(r[..n - 1]) + RoundToCents(ps[n - 1].amount);
    }
  }

  /** The sample loan's payments are whole cents, so a rebuild keeps them. */
  lemma {:induction false} SampleRedisplayed()
    ensures Redisplayed(SampleLoans()[0].payments) == SampleLoans()[0].payments
  {
    assert 983802 as real / 100.0 == 9838.02;
    RedisplayedWholeCents(SampleLoans()[0].payments, [983802, 983802, 983802]);
  }
}
