# Loan ledger: a Dafny model of the accrual engine and its detail page

This project models the core of a small loan-tracking web application. The
core is the interest engine that rebuilds a borrower's running balance from
their loans and payments, and the borrower detail page that presents the
result.

- **The two running-balance loops** (`calculate_running_simple_balance` and
  `calculate_running_compound_balance`). They sort the transactions by
  timestamp and walk them. Before each transaction, interest accrues over
  the gap in calendar days, but only on a positive carried balance. Then
  the loan is added or the payment subtracted, and a row is emitted with
  the interest and balance rounded to paise. A trailing `accrual` row
  covers the time up to today.
  - The simple variant always appends this row.
  - The compound variant appends it only after a positive gap on a
    positive balance.

  Each loop is a `method` with a `for` loop. It is proved to compute the
  specification function `Accrual.RunningLedger`, a left fold `Walk`
  followed by `Close`. The properties are lemmas about that function.
- **The table variant** (`borrower_ledger_df`). It builds the same balance
  as a table sorted by calendar date: a `days` column, then `interest` and
  `balance` columns filled by a loop. The mode string selects compound
  interest only when it is exactly `"compound"`. The loop is
  `Table.BorrowerLedgerTable`, proved to compute `Table.LedgerTable`. On
  transactions already in timestamp order, the table is proved equal row
  for row to the loop variants' ledger without its id column. In any
  order, the "compound" table ends on the compound loop's final balance:
  entries of one date are separated by zero-day gaps, so their order does
  not change the balance.
- **The detail page** (`borrower_detail`).
  - The mode comes from the query string when it names a mode. It is then
    remembered on the borrower, modelled as a `class` whose method updates
    the field.
  - Otherwise the stored mode is used, falling back to `"simple"`.
  - The ledger is cut into pages of twenty rows with Python's slice rules.
- **The `inr` filter** (`format_inr`). It renders an amount with the rupee
  sign, an integer part with commas and two decimals. The commas are meant
  to follow the Indian grouping (the last three digits, then pairs), but
  the code slices the pairs one pair too early. It is modelled as written;
  the two defects are recorded under Findings, next to a corrected
  version.

Amounts are mathematical reals. Python's `round(x, 2)` becomes rounding half
to even on the exact value (`Numbers.Round2`). Python's slice
`s[a:b]`, including negative bounds, becomes `Slices.Slice`. `sorted` is a
stable insertion sort by an integer key (`Sorting.SortBy`). A timestamp is
a day number plus the second of the day (`Dates.DateTime`), and "today" is
a parameter `asOf`.

Some behaviours of the code that the model keeps:
- Rounding happens only in the emitted rows. The carried balance is never
  rounded.
- The simple variant appends the accrual row even when no day has passed,
  or when the balance is not positive. So a single loan dated today gives
  two rows in simple mode and one in compound mode.
- The simple variant's interest does not guard the sign of the gap, so a
  transaction dated after today makes the final accrual negative
  (`LedgerFacts.FutureDatedAccrualShrinks`).
- The loops sort by full timestamp, and the table sorts by calendar date.

## Model

| member | source | states |
|---|---|---|
| Accrual.RunningSimpleBalance | utils.py:5-49 | the loop returns exactly the simple ledger `RunningLedger(Simple, …)`: empty input gives balance 0 and no rows; otherwise the sorted walk followed by the accrual row |
| Accrual.RunningCompoundBalance | utils.py:52-99 | the loop returns exactly the compound ledger `RunningLedger(Compound, …)` |
| Accrual.SimpleEntry | utils.py:15-34 | one iteration of the simple loop advances the state (balance, last day, rows) by one `Walk` step |
| Accrual.CompoundEntry | utils.py:62-83 | one iteration of the compound loop advances the state by one `Walk` step |
| Accrual.SimpleClose | utils.py:36-49 | the final accrual always appends the accrual row and returns the rounded balance (`Close(Simple, …)`) |
| Accrual.CompoundClose | utils.py:85-99 | the final accrual appends a row only after a positive gap on a positive balance (`Close(Compound, …)`) |
| Sorting.SortCorrect | utils.py:6 | the sort yields a sequence ordered by the key that is a permutation of the input |
| Sorting.SortSorted | utils.py:6 | an already sorted input is returned unchanged |
| Sorting.InsertPermutes | utils.py:6 | inserting into the sorted prefix adds exactly that element |
| Sorting.InsertSorted | utils.py:6 | inserting into a sorted sequence keeps it sorted |
| Dates.InstantOrdersDays | utils.py:16 | an earlier timestamp never falls on a later calendar day |
| Numbers.Round2Cents | utils.py:31-32 | `round(x, 2)` is a whole number of paise within half a paisa of `x` |
| Numbers.Round2Monotone | utils.py:49 | rounding to paise preserves order |
| Numbers.Bernoulli | utils.py:66 | `(1 + d) ** n >= 1 + n * d` for a non-negative daily rate |
| Numbers.Trunc | app.py:189 | `int(x)` truncates toward zero, for both signs |
| AccrualFacts.WalkPrefix | utils.py:15-34 | the rows emitted for a prefix of the transactions are a prefix of the rows: later transactions never rewrite earlier rows |
| AccrualFacts.StepBalance | utils.py:16-23 | balance after transaction k = balance before + interest over its gap + the loan amount (or minus the payment, or nothing for another type) |
| AccrualFacts.WalkRow | utils.py:15-34 | row k holds transaction k's id, date, type and amount, the day gap, and that step's interest and running balance rounded to paise |
| AccrualFacts.WalkRowFields | utils.py:25-30 | row k carries the id, date, type and amount of transaction k unchanged and the gap since the previous one |
| AccrualFacts.NoInterestUnlessPositive | utils.py:17 | a gap accrues no interest, and its row shows none, when the carried balance is not positive |
| AccrualFacts.ZeroRateBalance | utils.py:15-23 | at a zero rate the running balance is loans minus payments |
| LedgerFacts.ReplayShape | utils.py:6-34 | the loop emits one row per transaction and ends on the day of the latest one |
| LedgerFacts.SimpleShape | utils.py:36-49 | the simple ledger is the n transaction rows followed by one accrual row: no id, type `accrual`, amount 0, dated `asOf`, with the gap and the rounded simple interest; the returned balance is that row's |
| LedgerFacts.CompoundShape | utils.py:85-99 | the compound ledger has n+1 rows exactly when the gap to `asOf` is positive and the carried balance is positive, otherwise n; the returned balance is the last row's |
| LedgerFacts.RowsFollowChronology | utils.py:6-34 | the rows follow a timestamp-sorted permutation of the transactions, row k taking the k-th one's id, date, type and amount |
| LedgerFacts.LedgerKeepsRows | utils.py:36-47 | in either mode the ledger starts with the loop's rows unchanged |
| LedgerFacts.GapsNonNegative | utils.py:11-16 | the first row's gap is 0 and no gap is negative |
| LedgerFacts.FinalAccrualNeedsPositiveBalance | utils.py:36-49 | with a non-positive carried balance the simple accrual row shows zero interest and the compound ledger has no accrual row; the returned balance is the rounded carried one |
| LedgerFacts.FutureDatedAccrualShrinks | utils.py:37-39 | a transaction dated after `asOf` on a positive balance makes the simple final interest negative and the returned balance no larger |
| LedgerFacts.CompoundDominatesSimple | utils.py:65-66 | over the same gap and balance compound interest is at least simple interest, and equal to it for a gap of at most one day |
| Table.FillRow | utils.py:115-131 | one iteration of the table loop appends the rounded interest and balance of one `Accrue` step |
| Table.CloseTable | utils.py:136-152 | the accrual row is appended only after a positive gap on a positive balance |
| Table.BorrowerLedgerTable | utils.py:103-154 | the loop builds exactly `LedgerTable`: empty for no transactions, otherwise the date-sorted entries with their gaps, interest and balance columns and the conditional accrual row |
| TableFacts.TableShape | utils.py:103-154 | one row per transaction in date order with its date, type, amount and gap, plus the accrual row exactly when a positive balance is carried over a positive gap |
| TableFacts.TableGaps | utils.py:108-109 | the `days` column is 0 on the first row and never negative |
| TableFacts.InterestAgrees | utils.py:116-123 | on a gap that is not negative the table's interest rule equals the loop variant's of the same mode |
| TableFacts.EntriesSorted | utils.py:104-108 | transactions in timestamp order give entries in date order |
| TableFacts.FillMatchesWalk | utils.py:115-131 | on sorted input the table loop's balance and columns equal the loop variant's balance and rows' figures |
| TableFacts.TableMatchesLoop | utils.py:103-154 | on timestamp-sorted input each table row is the loop ledger's row without the id; in "compound" mode the lengths and final balances agree; in any other mode the accrual row is present iff the gap and carried balance are positive |
| TableOrder.FillRun | utils.py:115-131 | after a prefix, a run of entries of one date accrues interest only before its first entry; the balance is then the prefix's plus that interest plus the run's loans minus payments |
| TableOrder.MoveToEnd | utils.py:115-131 | moving an entry to the end of the run of entries of its own date leaves the balance unchanged |
| TableOrder.FillOrderFree | utils.py:108-131 | any two date-sorted orders of the same entries end on the same balance |
| TableOrder.EntriesPermute | utils.py:104 | reordering the transactions reorders their entries, as multisets |
| TableOrder.CarriedAgrees | utils.py:103-131 | in any input order the table loop carries the compound loop's balance up to the same last day |
| TableOrder.CompoundBalanceAgrees | utils.py:103-154 | in any input order the "compound" table's last balance is the compound ledger's returned balance |
| TableOrder.FillPrefix | utils.py:115-131 | the columns filled over a prefix of the entries are the prefix of the columns |
| TableOrder.InterestNeedsCarriedBalance | utils.py:116-123 | in any input order, a row shows interest only when a positive balance is carried into it over a positive gap |
| Slices.SliceInRange | app.py:65 | within bounds a Python slice is the plain subsequence |
| Slices.SliceWidth | app.py:63-65 | a slice of width k holds at most k elements wherever it starts |
| Slices.SliceAdjacent | app.py:63-65 | adjacent non-negative slices concatenate |
| Detail.TotalPagesCeiling | app.py:59-62 | `total_pages` is the ceiling of total / 20, zero exactly when there are no rows |
| Detail.PageBounded | app.py:63-65 | any page holds at most 20 rows |
| Detail.PageInRange | app.py:63-65 | a page between 1 and `total_pages` is the non-empty run of rows from `(page - 1) * 20` |
| Detail.PageOutOfRange | app.py:63-65 | page 0 and pages after the last are empty |
| Detail.NegativePageFromEnd | app.py:63-65 | a negative page number selects rows counted from the end |
| Detail.PagedPrefix | app.py:63-65 | the first n pages are the first 20·n rows |
| Detail.PagesCoverLedger | app.py:58-65 | pages 1 to `total_pages` concatenated give back the whole ledger |
| Detail.CompoundWhenAsked | app.py:44-56 | the compound engine runs iff the query says "compound", or names no mode and "compound" is stored |
| Detail.ChoiceSticks | app.py:44-50 | a later visit without a mode in the query uses the mode this visit used |
| Detail.Borrower.constructor | models.py:6-12 | a borrower holds its rate, transactions and stored mode |
| Detail.Borrower.SelectMode | app.py:44-50 | a named query mode is returned and stored; otherwise the stored mode, or "simple" when none or empty, is returned and nothing changes |
| Detail.DetailPaging | app.py:52-65 | the page shows at most 20 rows, enough pages are counted for all rows, and the simple engine's ledger has one row per transaction plus the accrual row |
| Detail.BorrowerDetail | app.py:39-76 | the page renders the chosen mode, the balance of the matching engine, the requested page of its ledger and the page count, and stores the mode as `SelectMode` does |
| Inr.DigitsAreDigits | app.py:189 | `str` of a natural number consists of decimal digits |
| Inr.ShortUngrouped | app.py:189-196 | an integer part of at most three characters gets no comma |
| Inr.GroupIntegerShape | app.py:189-196 | as written, for more than three characters the last three stay last after a comma, and the result starts with a comma |
| Inr.GroupsFromShow | app.py:193 | as written, the slices from position i on show `rest` from i - 2 up to but not including its last two characters |
| Inr.GroupsShow | app.py:192-193 | as written, the pairs show `rest` without its last two characters, and without its first one when its length is odd |
| Inr.GroupIntegerShows | app.py:189-196 | as written, with the commas removed the text is the last three digits preceded by the part before them less its last pair, and less its first digit when that part has odd length |
| Inr.FormatInrShape | app.py:182-200 | a value that does not convert is returned unchanged; otherwise the text starts with ₹ and ends with "." and two decimals |
| Inr.ReadDigitsOf | app.py:189 | reading back the decimal digits of n gives n |
| Inr.AsWrittenDropsDigits | app.py:189-196 | 1234 renders as "₹,234.00", which reads back as 234 rather than 1234 |
| Inr.AsWrittenDropsPairs | app.py:189-196 | 1234567 renders as "₹,12,567.00": the pair 34 before the last three digits is lost |
| Inr.AsWrittenTruncates | app.py:189-200 | 9.999 renders as "₹9.00", which reads back as 9 while it rounds to 10 |
| Inr.GroupIndianCorrect | app.py:192-194 | the intended grouping only inserts commas, never leads with one, and keeps the last three digits after a comma |
| Inr.PaiseTextReadsBack | app.py:189-200 | the intended text for a number of paise reads back as exactly that amount |
| Inr.IntendedReadsBack | app.py:182-200 | the intended rendering reads back as the value rounded to paise, within half a paisa of it |
| Inr.IntendedThousands | app.py:182-200 | intended rendering of 1234 is "₹1,234.00" |
| Inr.IntendedLakhs | app.py:182-200 | intended rendering of 1234567 is "₹12,34,567.00" |
| Inr.IntendedRoundsUp | app.py:182-200 | intended rendering of 9.999 is "₹10.00" |

## Left out

- Floating point: amounts, rates and `round` work on exact reals. Binary rounding error, and the effect of `round` on a float that is not exactly a tie, are not modelled.
- `date.today()` is the parameter `asOf`, a day number. The clock is not modelled.
- Timestamps keep the day and the second of the day. Sub-second parts of a `datetime` are not modelled, so two transactions within the same second compare equal and keep their input order.
- The database, the SQLAlchemy session and its commit, `get_or_404`, Flask request parsing and template rendering are not modelled. `Detail.Borrower` holds the fields the page reads, and `SelectMode` updates the field in place of the commit.
- Detail.BorrowerDetail: `page` is the already converted integer. A `page` value that `int()` cannot convert raises in the source; that path is not modelled.
- Inr.FormatInr: the outcome of `float(value)` is a parameter (`None` when it raises). Infinities and NaN, for which `int()` raises outside the `try`, are not modelled.
- Inr.Decimals: `f"{value:.2f}"` rounds the binary float; the model rounds the exact value half to even.
- Table.Arrange: `sort_values` defaults to an unstable sort. The model sorts stably, so the order among entries of the same date may differ from pandas. `TableOrder.FillOrderFree` shows that this order does not change the balance.
- TableFacts.TableMatchesLoop: the row-for-row equality is proved only for transactions already in timestamp order. On other input, the table keeps input order among entries of one date while the loops order them by time, so their rows can differ in order. The final "compound" balance is proved equal for any order (`TableOrder.CompoundBalanceAgrees`).
- The table is a sequence of rows, not a pandas DataFrame. Its empty case is the empty sequence.
- The dashboard, CSV export, borrower and transaction creation, and bulk import are not part of this model.

## Findings

| source | as written | input that shows it | evidently intended | confidence | as-written member | corrected member |
|---|---|---|---|---|---|---|
| app.py:189-196 | the pairs before the last three digits are sliced as `rest[i - 2:i]` from `i = len(rest) % 2`. Each slice ends where its pair should start, so the first slice is always empty and the text starts with a comma. The last pair of `rest` is never shown, and when `rest` has odd length its first digit is not shown either | 1234 renders "₹,234.00" (the 1 is lost); 1234567 renders "₹,12,567.00" (the 34 is lost) | "₹1,234.00" and "₹12,34,567.00": pairs taken from the right, no leading comma | high (not executed) | Inr.AsWrittenDropsDigits | Inr.IntendedReadsBack |
| app.py:189-199 | the integer part is `int(value)`, which truncates, while the decimals come from `f"{value:.2f}"`, which rounds | 9.999 renders "₹9.00" | "₹10.00": round to paise first, then split into rupees and paise | high (not executed) | Inr.AsWrittenTruncates | Inr.IntendedReadsBack |
