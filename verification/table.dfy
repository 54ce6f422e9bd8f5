/**
 * `borrower_ledger_df` (utils.py): the same running balance, built as a
 * table. The transactions become (date, type, amount) entries sorted by
 * calendar date, a `days` column holds the gap to the previous entry, and
 * a loop fills the `interest` and `balance` columns. Interest accrues only
 * over a positive gap on a positive balance, compounded daily when the mode
 * is exactly "compound" and simple otherwise; a trailing accrual row is
 * added under the same guard.
 */
module Table {
  import opened Numbers
  import opened Sorting
  import opened Accrual

  /** A transaction reduced to what the table keeps: no id, and the date
      without its time of day. */
  datatype Entry = Entry(day: int, kind: string, amount: real)

  datatype TableRow = TableRow(day: int, kind: string, amount: real,
                               days: int, interest: real, balance: real)

  /** What the loop builds: the unrounded running balance and the two
      columns of rounded figures. */
  datatype Columns = Columns(balance: real, interests: seq<real>, balances: seq<real>)

  function Entries(ts: seq<Transaction>): (es: seq<Entry>)
    ensures |es| == |ts|
    ensures forall i :: 0 <= i < |ts| ==> es[i] == Entry(ts[i].at.day, ts[i].kind, ts[i].amount)
  {
    seq(|ts|, i requires 0 <= i < |ts| => Entry(ts[i].at.day, ts[i].kind, ts[i].amount))
  }

  function EntryDay(e: Entry): int
  {
    e.day
  }

  /** The entries in the order of `sort_values("date")`. */
  function Arrange(ts: seq<Transaction>): seq<Entry>
  {
    SortBy(Entries(ts), EntryDay)
  }

  /** The `days` value of entry `i`: the gap to the previous entry, 0 for
      the first. */
  function DayGap(es: seq<Entry>, i: nat): int
    requires i < |es|
  {
    if i == 0 then 0 else es[i].day - es[i - 1].day
  }

  /** The `days` column. */
  function Gaps(es: seq<Entry>): (g: seq<int>)
    ensures |g| == |es|
  {
    seq(|es|, i requires 0 <= i < |es| => DayGap(es, i))
  }

  /** The interest over a gap: none unless the gap is positive and the
      balance is positive, then compound or simple by the mode. */
  function TableInterest(compound: bool, balance: real, dailyRate: real, days: int): real
  {
    if days > 0 && balance > 0.0 then
      if compound then balance * (Pow(1.0 + dailyRate, days) - 1.0)
      else balance * dailyRate * days as real
    else 0.0
  }

  /** One iteration of the loop over the table's rows. */
  function Accrue(compound: bool, dailyRate: real, c: Columns, e: Entry, days: int): Columns
  {
    var interest := TableInterest(compound, c.balance, dailyRate, days);
    var balance := c.balance + interest + Delta(e.kind, e.amount);
    Columns(balance, c.interests + [Round2(interest)], c.balances + [Round2(balance)])
  }

  /** The loop run over the sorted entries. */
  function Fill(compound: bool, dailyRate: real, es: seq<Entry>): (c: Columns)
    ensures |c.interests| == |es| && |c.balances| == |es|
  {
    if es == [] then Columns(0.0, [], [])
    else
      var n := |es| - 1;
      Accrue(compound, dailyRate, Fill(compound, dailyRate, es[..n]), es[n], DayGap(es, n))
  }

  /** The frame once the two columns are attached. */
  function Frame(es: seq<Entry>, gaps: seq<int>, c: Columns): (rows: seq<TableRow>)
    requires |gaps| == |es| && |c.interests| == |es| && |c.balances| == |es|
    ensures |rows| == |es|
  {
    seq(|es|, i requires 0 <= i < |es| =>
      TableRow(es[i].day, es[i].kind, es[i].amount, gaps[i], c.interests[i], c.balances[i]))
  }

  /** The table after the final accrual over the gap from the latest entry
      to `asOf`. */
  function Closed(compound: bool, dailyRate: real, rows: seq<TableRow>, balance: real, lastDay: int, asOf: int): seq<TableRow>
  {
    var days := asOf - lastDay;
    if days > 0 && balance > 0.0 then
      var interest := TableInterest(compound, balance, dailyRate, days);
      rows + [TableRow(asOf, AccrualKind, 0.0, days, Round2(interest), Round2(balance + interest))]
    else rows
  }

  /** What `borrower_ledger_df(borrower, mode)` returns. */
  function LedgerTable(ts: seq<Transaction>, rate: real, asOf: int, mode: string): seq<TableRow>
  {
    if ts == [] then []
    else
      var es := Arrange(ts);
      var compound := mode == "compound";
      var d := DailyRate(rate);
      var c := Fill(compound, d, es);
      Closed(compound, d, Frame(es, Gaps(es), c), c.balance, es[|es| - 1].day, asOf)
  }

  /** The body of the loop over the rows. */
  method FillRow(balance: real, interests: seq<real>, balances: seq<real>,
                 entry: Entry, days: int, mode: string, dailyRate: real)
    returns (newBalance: real, newInterests: seq<real>, newBalances: seq<real>)
    ensures Columns(newBalance, newInterests, newBalances)
         == Accrue(mode == "compound", dailyRate, Columns(balance, interests, balances), entry, days)
  {
    var interest := 0.0;
    newBalance := balance;
    if days > 0 && balance > 0.0 {
      if mode == "compound" {
        interest := balance * (Pow(1.0 + dailyRate, days) - 1.0);
      } else {
        interest := balance * dailyRate * days as real;
      }
      newBalance := newBalance + interest;
    }
    assert interest == TableInterest(mode == "compound", balance, dailyRate, days);
    if entry.kind == "loan" {
      newBalance := newBalance + entry.amount;
    } else if entry.kind == "payment" {
      newBalance := newBalance - entry.amount;
    }
    assert newBalance == balance + interest + Delta(entry.kind, entry.amount);
    newInterests := interests + [Round2(interest)];
    newBalances := balances + [Round2(newBalance)];
  }

  /** The final accrual: a row is added only after a positive gap on a
      positive balance. */
  method CloseTable(table: seq<TableRow>, balance: real, lastDay: int, asOf: int, mode: string, dailyRate: real)
    returns (result: seq<TableRow>)
    ensures result == Closed(mode == "compound", dailyRate, table, balance, lastDay, asOf)
  {
    result := table;
    var days := asOf - lastDay;
    if days > 0 && balance > 0.0 {
      var interest;
      if mode == "compound" {
        interest := balance * (Pow(1.0 + dailyRate, days) - 1.0);
      } else {
        interest := balance * dailyRate * days as real;
      }
      assert interest == TableInterest(mode == "compound", balance, dailyRate, days);
      var total := balance + interest;
      result := result + [TableRow(asOf, AccrualKind, 0.0, days, Round2(interest), Round2(total))];
    }
  }

  method BorrowerLedgerTable(transactions: seq<Transaction>, rate: real, asOf: int, mode: string)
    returns (table: seq<TableRow>)
    ensures table == LedgerTable(transactions, rate, asOf, mode)
  {
    if transactions == [] {
      return [];
    }
    var entries := Arrange(transactions);
    var days := Gaps(entries);
    var balance := 0.0;
    var interests: seq<real> := [];
    var balances: seq<real> := [];
    var dailyRate := DailyRate(rate);
    for i := 0 to |entries|
      invariant Fill(mode == "compound", dailyRate, entries[..i]) == Columns(balance, interests, balances)
    {
      balance, interests, balances := FillRow(balance, interests, balances, entries[i], days[i], mode, dailyRate);
      assert entries[..i + 1][..i] == entries[..i];
    }
    assert entries[..|entries|] == entries;
    table := Frame(entries, days, Columns(balance, interests, balances));
    table := CloseTable(table, balance, entries[|entries| - 1].day, asOf, mode, dailyRate);
  }
}
