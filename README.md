# Loan tracker state model

A Dafny model of the in-memory core of the LoanTrackerApp browser widget
(`script.js`). The widget keeps a list of loans and a cursor
(`currentLoanIndex`) on the one being shown. Its event handlers page through
the list with wrap-around, add a loan, and edit the current loan: its title,
its amount, and its payment rows (add, remove, change a date or an amount).
After each edit it shows the total paid, the outstanding balance and the
percentage paid.

Layout, one module per file:

- `text.dfy` (`Text`): digits, decimal rendering of naturals, and JavaScript's
  `String.prototype.trim` with the full ECMAScript whitespace set.
- `wrappers.dfy` (`Wrappers`): `Option`. It stands for NaN results and for
  invalid dates.
- `amount.dfy` (`Amount`): `sanitizeAmountInput`. This is the `[^0-9.-]`
  filter, then `parseFloat` restricted to that alphabet, then `|| 0`. It
  also holds `toFixed(2)` over whole cents, which the amount editors use to
  pre-fill their input.
- `currency.dfy` (`Currency`): `formatCurrency`. This is rounding to cents
  (ties away from zero) and `en-US` digit grouping. It also proves what the
  sanitiser reads back from a `₱`-prefixed display.
- `loans.dfy` (`Loans`): the `Payment` and `Loan` records, the two sample
  loans, the blank loan that add-loan creates, the `reduce` total, the
  balance, the percentage, and `splice(k, 1)`. It also holds the payment
  table as rows of cell text, with what `updatePaymentTable` writes there and
  what `updateLoanPayments` reads back.
- `navigation.dfy` (`Navigation`): the next/previous index arithmetic and
  the `handleSwipe` rule.
- `tracker.dfy` (`Tracker`): class `LoanTracker`. It has four fields:
  `loans: seq<Loan>`, `current: nat`, `table: seq<Row>`, which holds the
  payment table's cell text, and `dateEditors: set<nat>`, the rows whose
  date cell still holds the input of a rejected date edit. It has one method
  per handler that changes them. Its invariant `Valid()` says five things:
  - the list is non-empty;
  - the cursor is in range;
  - every id equals its position plus one;
  - the table shows the current loan's payments, though a date cell may be
    empty;
  - a leftover date input sits only in an emptied date cell.

  The module ends with client methods that replay the source's scenarios.

Amounts are exact `real`s. Each handler is an instantaneous method. The
current date, the parsed date of a date edit, and the drag coordinates are
parameters.

Behaviour of `script.js` that the model keeps, though a reader might expect
otherwise:

- A new title is stored trimmed, not verbatim.
- `splice(k, 1)` with a negative `k` removes from the end. It is not a no-op.
  The handler never produces a negative row, but `SpliceOne` models every `k`.
- A zero loan amount gives NaN or Infinity as the percentage. The code has no
  0% policy for it, except that add-loan forces the chart to 0 after its
  update.
- Nothing stops a loan amount or a payment from being negative.
- A new loan's id is the list length plus one. Ids stay unique only because
  no loan is ever removed.
- A payment's amount is stored exactly only until the next confirmed amount
  edit or accepted date edit on any row of its loan. Each such edit rebuilds
  the current loan's payments from the table's text, so every amount of that
  loan is rounded to cents. A rejected date edit does not rebuild. A loan
  amount is stored as typed.
- A rejected date edit (an invalid or cleared date) leaves its cell empty,
  with the date input still in it, and the payment keeps its date for now.
  The next rebuild before the table is redrawn, from an edit on any row,
  stores an empty due date for that row. A redraw first (adding or removing
  a payment, or paging away and back) restores the cell from the stored
  date.
- A row whose due date is stored empty can never be re-dated once the table
  is redrawn. Opening the date editor parses the cell's text as a date, and
  that throws on an empty text (script.js:216). Until the redraw, the input
  left by the rejected edit can still be confirmed.

## Model

| member | source | states |
|---|---|---|
| Text.Trim | script.js:343-344 | The trimmed title neither starts nor ends with whitespace. It is empty exactly when every character of the input is whitespace, which is when the edit is rejected. |
| Text.TrimStripsSurrounding | script.js:343 | Trim removes exactly the whitespace around a core that does not start or end with whitespace, and nothing else. |
| Text.TrimIdempotent | script.js:343 | Trimming an already trimmed title changes nothing. |
| Text.NatToDecimal | script.js:316 | The number in "New Loan k" is written as a non-empty digit string with no leading zero. `DecimalRoundTrip` proves that it denotes k. |
| Text.DecimalRoundTrip | script.js:316 | The loan number written into "New Loan k" is a digit string that denotes k. |
| Amount.KeepAmountChars | script.js:398 | The filter's output holds only characters in `[0-9.-]` and is never longer than its input. |
| Amount.KeepAmountCharsCounts | script.js:398 | Every character outside `[0-9.-]` is dropped. Every character inside it is kept as often as it occurs. |
| Amount.KeepAmountCharsConcat | script.js:398 | The filter works character by character, so the kept characters stay in their original order. |
| Amount.KeepAmountCharsIdempotent | script.js:398 | Filtering twice is filtering once. |
| Amount.ParseDecimal | script.js:398 | `parseFloat` on the filtered text: an optional minus, digits, an optional point and digits, with None for NaN. It is checked by `ParseUnsignedPoint`, `ParseUnsignedLeadingPoint`, `ParseDecimalNegative`, `SanitizeStopsAtSecondPoint`, `SanitizeLoneMinus`, `SanitizeNegativeFraction` and `SanitizeWithoutDigits`. |
| Amount.Sanitize | script.js:397-399 | `sanitizeAmountInput`: filter, parse, and NaN becomes 0. The lemmas `KeepAmountCharsCounts`/`KeepAmountCharsConcat` (the filter), `SanitizeWithoutDigits`, `SanitizeIgnoresForeignChars` and `SanitizeFixedTwo` check it. |
| Amount.FixedTwo | script.js:247 | `toFixed(2)` of a whole number of cents. Its output lies in the filter's alphabet, and `SanitizeFixedTwo` proves it parses back to the same amount. |
| Amount.ParseUnsignedPoint | script.js:398 | `parseFloat` reads `digits.digits` as whole part plus fraction and ignores a tail that does not start with a digit. |
| Amount.ParseUnsignedLeadingPoint | script.js:398 | With no whole part, `parseFloat` reads `.digits` as the fraction alone, and ignores a tail that does not start with a digit. |
| Amount.ParseDecimalNegative | script.js:398 | `parseFloat` reads `-digits.digits` as the negated whole part plus fraction. |
| Amount.SanitizeWithoutDigits | script.js:398 | Input with no digit cannot be parsed (NaN), so it sanitises to 0. |
| Amount.SanitizeIgnoresForeignChars | script.js:397-399 | The sanitised value depends only on the characters the filter keeps. |
| Amount.SanitizeFixedTwo | script.js:365-372 | Sanitising `toFixed(2)` of any whole number of cents gives that amount back, sign included. So confirming the pre-filled editor unchanged keeps an amount that is already in whole cents. |
| Amount.SanitizeThreeDecimals | script.js:397-399 | A typed "1.234" sanitises to 1.234. The sanitiser itself does not round. |
| Amount.SanitizeStopsAtSecondPoint | script.js:398 | "12.3.4" sanitises to 12.3 because `parseFloat` stops at the second point. |
| Amount.SanitizeLoneMinus | script.js:398 | "-" is NaN for `parseFloat`, so it sanitises to 0. |
| Amount.SanitizeNegativeFraction | script.js:397-399 | "-.5" sanitises to -0.5: a minus sign before a fraction with no whole part. |
| Currency.RoundHalfAway | script.js:393-395 | The nearest integer, with ties going away from zero. The ensures bounds y within half a unit on each side, which fixes the result. |
| Currency.RoundToCents | script.js:393-395 | The amount a display stands for is within half a cent of the amount. |
| Currency.RoundToCentsWholeCents | script.js:393-395 | An amount already in whole cents is displayed exactly. |
| Currency.RoundToCentsIdempotent | script.js:393-395 | Rounding a rounded amount again changes nothing. |
| Currency.FormatCurrency | script.js:393-395 | `formatCurrency`: the amount rounded to cents, then shown with a sign, `en-US` thousands separators, a point and two digits. `SanitizeDisplayed` states what the sanitiser reads back from it, `GroupThousandsCommas` and `KeepAmountCharsUngroups` fix the grouping, and `SanitizeDisplayedAmount` shows a worked example. |
| Currency.GroupThousandsCommas | script.js:393-395 | For every digit string, counting from the right, every fourth character of its grouping is a comma and every other character is a digit. This is where `en-US` puts the thousands separators. |
| Currency.KeepAmountCharsUngroups | script.js:398 | The sanitiser's filter removes every thousands separator that the grouping inserts, and leaves the digit string unchanged. |
| Currency.SanitizeDisplayed | script.js:272-275 | Sanitising `₱` + `formatCurrency(x)`, as the table rebuild does for each amount cell, gives x rounded to cents, for every x. |
| Currency.ConfirmUnchangedRoundsToCents | script.js:365-376 | The loan-amount editor pre-fills `toFixed(2)` of the sanitised display. Confirming it unchanged stores the amount rounded to cents. So a typed 100.555 becomes 100.56 on its next confirm. |
| Currency.SanitizeDisplayedAmount | script.js:397-399 | The display of 9838.02 is "₱9,838.02", and it sanitises back to 9838.02: the peso sign and the comma are dropped. |
| Loans.SampleLoans | script.js:3-20 | The two initial loans: LANDBANK, 311000 with three payments of 9838.02, and Personal Loan, 50000 with none. `SampleLoansIds`, `SampleSummary` and `SampleRedisplayed` state their properties. |
| Loans.NewLoan | script.js:314-319 | The add-loan record: id count+1, title "New Loan count+1", amount 0, no payments. `NewLoanKeepsIds` proves its id is fresh, and `Tracker.AddLoanToSample` shows it on the samples. |
| Loans.TotalPaid | script.js:282 | The `reduce` total, summed from the first payment to the last. `TotalPaidConcat`, `TotalPaidPermutation`, `TotalPaidPrepend`, `TotalPaidSpliceOne` and `TotalPaidReplace` state its properties. |
| Loans.OutstandingBalance | script.js:286 | The amount minus the total, not clamped. `BalanceAfterPayment` and `Tracker.LoanTracker.Summary` state its properties. |
| Loans.PaidPercentage | script.js:283 | The total over the amount, times 100, or None for a zero amount. `PaidPercentageBounds` and `SampleSummary` state its properties. |
| Loans.SampleLoansIds | script.js:3-20 | The initial loans have ids 1 and 2, each its position plus one. |
| Loans.IdsDistinct | script.js:315 | When ids equal positions plus one, no two loans share an id. |
| Loans.NewLoanKeepsIds | script.js:314-320 | Appending the add-loan record keeps ids equal to positions plus one. The new id is not used by any existing loan. |
| Loans.TotalPaidConcat | script.js:282 | The `reduce` total of two payment lists put together is the sum of their totals. |
| Loans.TotalPaidPrepend | script.js:282 | A payment put in front (`unshift`) adds exactly its amount to the total. |
| Loans.TotalPaidPermutation | script.js:282 | Any two payment lists with the same payments in any order have the same total. |
| Loans.TotalPaidNonnegative | script.js:282 | With no negative amounts, the total paid is at least 0. |
| Loans.TotalPaidReplace | script.js:270-276 | Changing one payment changes the total by the new amount minus the old amount. |
| Loans.TotalPaidSpliceOne | script.js:306 | Removing the payment at row k takes exactly its amount out of the total. |
| Loans.BalanceAfterPayment | script.js:286 | The outstanding balance (amount minus total, not clamped) drops by exactly the amount of a newly added payment. |
| Loans.PaidPercentageBounds | script.js:283 | For a positive amount with 0 ≤ total paid ≤ amount, the percentage is defined and lies in [0, 100]. |
| Loans.SampleSummary | script.js:282-286 | The first sample loan's total is 29514.06 and its balance is 281485.94. Its percentage lies in [9, 9.5), so it shows as 9. |
| Loans.SpliceOne | script.js:306 | For a row k inside the list, the result is one shorter, keeps the elements before k, and shifts the ones after k down by one. For k at or past the end, nothing changes. |
| Loans.SpliceOneNegative | script.js:306 | A negative k counts back from the end. Any k before the start removes the first element. |
| Loans.SpliceOneUndoesPrepend | script.js:295-306 | Removing row 0 undoes putting a payment in front. |
| Loans.IdsKeptByPayments | script.js:272 | Replacing one loan's payments, as the rebuild does, keeps every id equal to its position plus one. |
| Loans.Render | script.js:185-198 | `updatePaymentTable` writes one row per payment, in order. Each row's date cell holds the due date, and its amount cell holds `₱` + `formatCurrency(amount)`. |
| Loans.ReadTable | script.js:270-277 | `updateLoanPayments` reads one payment per row, in order. The due date is the date cell's text, and the amount is the sanitised amount cell. |
| Loans.ReadRenderedRow | script.js:270-277 | A rendered row reads back as its payment, with the amount rounded to cents. |
| Loans.AmountCellRounded | script.js:192 | An amount and its rounding to cents show the same cell text. So a table that showed the payments still shows them after a rebuild. |
| Loans.Redisplayed | script.js:270-277 | Reading back the table that shows `ps` gives payments of the same length and with the same dates. Every amount is rounded to cents. |
| Loans.RenderShows | script.js:185-198 | A freshly rendered table shows its payments. |
| Loans.ReadShows | script.js:270-277 | After a rebuild, the table shows the rebuilt payments, and any emptied date cell stays empty. |
| Loans.EditAmountCell | script.js:252-275 | An amount cell confirmed with v: the rebuild stores v rounded to cents, the table then shows the rebuilt payments, and from a fully rendered table the result is `Redisplayed` of the edited payments. |
| Loans.EditDateCell | script.js:222-277 | A date cell confirmed with a valid date: the table then shows the rebuilt payments, and from a fully rendered table the result is `Redisplayed` of the payments with the new date. |
| Loans.ReadTableKeepsDates | script.js:270-277 | When no date cell has been emptied, the rebuild is exactly `Redisplayed` of the payments. |
| Loans.ReadTableEmptiedDate | script.js:222-237 | A date cell emptied by a rejected edit is read back as an empty due date. The amount is still rounded to cents. |
| Loans.RedisplayedIdempotent | script.js:270-277 | A second rebuild right after the first changes nothing, because the table already shows the rounded amounts. This covers Enter followed by blur, which rebuilds twice. |
| Loans.RedisplayedWholeCents | script.js:270-277 | Payments whose amounts are all whole cents survive a rebuild unchanged. |
| Loans.TotalPaidRedisplayed | script.js:270-282 | A rebuild moves the total paid by at most half a cent per payment. |
| Loans.SampleRedisplayed | script.js:3-20 | The sample loan's payments survive a rebuild unchanged. |
| Navigation.NextIndex | script.js:158 | Next stays in [0, n). It moves one place right, and wraps from the last loan to the first. |
| Navigation.PreviousIndex | script.js:168 | Previous stays in [0, n). It moves one place left, and wraps from the first loan to the last. |
| Navigation.PreviousUndoesNext | script.js:158-168 | Previous after next restores the cursor. |
| Navigation.NextUndoesPrevious | script.js:158-168 | Next after previous restores the cursor. |
| Navigation.NextTimesCycle | script.js:158 | n presses of next on an n-loan list bring the cursor back to where it started. |
| Navigation.SwipeAction | script.js:137-148 | A drag pages back exactly when it is horizontally dominant with dx > 50. It pages forward exactly when it is horizontally dominant with dx < -50. |
| Navigation.SwipeMirror | script.js:141-147 | Mirroring a drag left-to-right swaps back and forward and keeps "no navigation". |
| Navigation.SwipeNeedsHorizontalDistance | script.js:141-147 | A drag of at most 50 px horizontally, or one that is not mostly horizontal, never pages. |
| Tracker.LoanTracker.constructor | script.js:3-21 | The tracker starts valid, with the two sample loans, the cursor on the first, and the first loan's payments rendered with no date input left open (script.js:403). |
| Tracker.LoanTracker.UpdatePaymentTable | script.js:185-198 | The loop empties the table, which removes any leftover date input, and appends one row per payment of the current loan, so the table becomes `Render` of those payments. The loans and the cursor are unchanged. |
| Tracker.LoanTracker.UpdateLoanPayments | script.js:270-277 | Only the current loan changes. Its payments become `ReadTable` of the table. |
| Tracker.LoanTracker.ShowNextLoan | script.js:154-162 | The cursor becomes `NextIndex` of the old cursor. The loans are unchanged, the new current loan is rendered, and the invariant is kept. |
| Tracker.LoanTracker.ShowPreviousLoan | script.js:164-172 | The cursor becomes `PreviousIndex` of the old cursor. The loans are unchanged, the new current loan is rendered, and the invariant is kept. |
| Tracker.LoanTracker.HandleSwipe | script.js:137-148 | The loans are unchanged. The cursor moves as `SwipeAction` decides: previous, next, or stay. The table is re-rendered exactly when the cursor moves. |
| Tracker.LoanTracker.AddLoan | script.js:313-325 | The list is the old list plus `NewLoan(old length)`, with id length+1, title "New Loan length+1", amount 0 and no payments. The cursor is on the new last loan, and the table is empty. The invariant is kept. |
| Tracker.LoanTracker.AddPayment | script.js:291-297 | Only the current loan changes. Its payments become [Payment(today, sanitised monthly field)] + the old payments, and the table is re-rendered. |
| Tracker.LoanTracker.RemovePayment | script.js:300-310 | Only the current loan changes. Its payments become `SpliceOne(old payments, row)`, and the table is re-rendered. |
| Tracker.LoanTracker.SetTitle | script.js:342-348 | Blank input leaves every loan unchanged. Otherwise only the current loan's title changes, and it becomes the trimmed input. The table is untouched. |
| Tracker.LoanTracker.SetLoanAmount | script.js:371-376 | Only the current loan's amount changes, and it becomes the sanitised input. The table is untouched. |
| Tracker.LoanTracker.EditPaymentAmount | script.js:252-275 | Row `row`'s amount cell shows the sanitised input as currency. The current loan's payments become `ReadTable` of the table, so the edited amount is stored rounded to cents. From a fully rendered table the result is `Redisplayed` of the edited payments. A missing row changes nothing. |
| Tracker.LoanTracker.EditPaymentDate | script.js:212-237 | The edit happens only when `DateEditorOpens`: the row exists, and its date cell has text or still holds the input of a rejected edit. Otherwise nothing changes, as when `new Date('')` throws on the click. An invalid date empties the date cell, leaves its input open, and leaves the loans unchanged. A valid date is written into the cell, closes the input, and the current loan's payments become `ReadTable` of the table. From a fully rendered table that is `Redisplayed` of the payments with the new date. |
| Tracker.LoanTracker.Summary | script.js:280-288 | The shown total is the `reduce` total of the current loan. Balance plus total equals the loan amount. The percentage is `PaidPercentage`. |
| Tracker.AddThenRemovePayment | script.js:291-310 | Adding a payment and then removing row 0 restores the loans and the cursor. |
| Tracker.AddLoanToSample | script.js:313-321 | On the two sample loans, add-loan gives 3 loans with the cursor at 2. The new loan is (3, "New Loan 3", 0, []). |
| Tracker.RetitleSample | script.js:342-347 | Setting the title "   " leaves "LANDBANK". Setting " Car  " stores "Car". |
| Tracker.EditSampleAmount | script.js:252-275 | Typing "1.234" into the first sample payment's amount cell stores 1.23. The other two rows keep 9838.02. |
| Tracker.RejectedDateThenAmountEdit | script.js:222-275 | On the sample tracker, a rejected date edit on row 0 followed by an amount edit on row 1 stores an empty due date for row 0. Row 1 keeps "February 25, 2025". |
| Tracker.RetryRejectedDate | script.js:212-237 | On the sample tracker, a rejected date edit on row 0 followed by a valid date through the input left in the cell stores that date. |
| Tracker.RedateAfterRedraw | script.js:212-237 | On every valid tracker whose current loan has a payment stored with an empty due date, paging away and back and then editing that row's date leaves the loans and the cursor unchanged. |
| Tracker.RedrawnEmptyDateStaysEmpty | script.js:212-237 | After an empty due date is stored for row 0 and the table is redrawn by paging away and back, a date edit on row 0 changes nothing, because the editor cannot open on the empty cell. |
| Tracker.RemoveMissingRow | script.js:304-306 | Removing row 5 from a loan with 3 payments leaves its payments unchanged. |

## Left out

- Chart.js construction, update and colours, and the theme toggle (script.js:43-108). These are rendering through a foreign library.
- The 300 ms `setTimeout` and the swipe CSS classes around navigation (script.js:155-171). Navigation is modelled as instantaneous.
- `formatDate`, `new Date`, `toISOString` and `toLocaleString` (script.js:216-237, 389-391). These are host-library calls. The add-payment date is the parameter `today`. A date edit receives the formatted date, or None when the date is invalid. Opening the date editor is modelled only as failing on an empty cell: every non-empty date text the tracker produces is taken to parse.
- Currency.FormatCurrency: models only the `en-US` form that the source asks for. An amount that is negative but rounds to zero cents is shown without the minus sign that `toLocaleString` prints ("-0.00"). It sanitises to 0 either way.
- `toFixed(2)` (script.js:247, 365) is modelled as `FixedTwo` over whole cents, in plain (non-exponent) notation.
- IEEE-754 arithmetic. Amounts, sums and the percentage are exact reals, so the model ignores rounding in `reduce` and in `parseFloat`, and it has no -0.
- Amount.ParseDecimal: models `parseFloat` only on strings over `[0-9.-]`. These are the only strings the source passes to it. Leading whitespace, `+`, exponents and `Infinity` cannot reach it.
- Loans.PaidPercentage: the `toFixed(0)` rounding and the text form of the percentage are not modelled. NaN and Infinity are both None. The forced `updateChart(0)` after add-loan (script.js:324) is not modelled.
- The table is modelled as the text of its date and amount cells only. Each cell edit is modelled as one open-and-confirm step, whether confirmed by blur or by Enter (script.js:255, 262). Clicks inside an open editor bubble to the cell. There they re-open the amount editor, which is not modelled. In a date cell they throw on `new Date('')` and change nothing, which the model agrees with.
- Tracker.LoanTracker.HandleSwipe: takes the four drag coordinates as parameters. The case where no move event set `endX`/`endY` (stale or undefined coordinates, so NaN deltas) is not modelled.
- View code: the index and remove-button cells of each table row, the title, loan-amount and monthly-field text that `updateUIForCurrentLoan` writes (including pre-filling the monthly-payment field with the first payment), `updateLoanCount`, and the listener wiring of `makeTableEditable` and `addEventListener`.
- Loans are values in a sequence, not shared objects. The source never aliases a loan, so no behaviour is lost.
