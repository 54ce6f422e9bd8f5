/**
 * The running-balance loops `calculate_running_simple_balance` and
 * `calculate_running_compound_balance` (utils.py).
 *
 * A borrower's transactions are sorted by timestamp and walked with a
 * running balance. Over the gap since the previous transaction interest
 * accrues on the carried balance, but only while that balance is positive;
 * then the loan or payment is applied and a row is emitted. A trailing
 * `accrual` row covers the time from the last transaction up to `asOf`
 * (the caller's "today"). Rows hold rounded figures; the carried balance is
 * never rounded.
 */
module Accrual {
  import opened Wrappers
  import opened Numbers
  import opened Dates
  import opened Sorting

  /** A stored transaction: `kind` is the free-text type column. */
  datatype Transaction = Transaction(id: int, at: DateTime, kind: string, amount: real)

  /** A ledger row; `id` is absent on the synthetic accrual row. `day` is
      the row's calendar date. */
  datatype Row = Row(id: Option<int>, day: int, kind: string, amount: real,
                     days: int, interest: real, balance: real)

  datatype Mode = Simple | Compound

  /** The loop state after some transactions: the unrounded running
      balance, the day of the last transaction and the rows so far. */
  datatype Carry = Carry(balance: real, lastDay: int, rows: seq<Row>)

  /** What the functions return: the rounded final balance and the rows. */
  datatype Ledger = Ledger(balance: real, rows: seq<Row>)

  const AccrualKind: string := "accrual"

  function DailyRate(rate: real): real
  {
    rate / 100.0 / 365.0
  }

  /** The change a transaction makes to the balance: a loan adds its
      amount, a payment subtracts it, any other type is ignored. */
  function Delta(kind: string, amount: real): real
  {
    if kind == "loan" then amount
    else if kind == "payment" then -amount
    else 0.0
  }

  /** Simple interest over a gap of `days` days. There is no guard on the
      sign of `days`. */
  function SimpleInterest(balance: real, dailyRate: real, days: int): real
  {
    if balance > 0.0 then balance * dailyRate * days as real else 0.0
  }

  /** Daily-compounded interest over a gap; none unless the gap is at least
      a day and the balance is positive. */
  function CompoundInterest(balance: real, dailyRate: real, days: int): real
  {
    if days > 0 && balance > 0.0 then balance * (Pow(1.0 + dailyRate, days) - 1.0) else 0.0
  }

  function Interest(mode: Mode, balance: real, dailyRate: real, days: int): real
  {
    match mode
    case Simple => SimpleInterest(balance, dailyRate, days)
    case Compound => CompoundInterest(balance, dailyRate, days)
  }

  /** The sort key of `sorted(borrower.transactions, key=lambda t: t.date)`. */
  function ByInstant(t: Transaction): int
  {
    Instant(t.at)
  }

  function ByDay(t: Transaction): int
  {
    t.at.day
  }

  function Chronological(ts: seq<Transaction>): seq<Transaction>
  {
    SortBy(ts, ByInstant)
  }

  /** The row emitted for a transaction: its own id, date, type and amount,
      the gap, and the interest and balance rounded to cents. */
  function EntryRow(t: Transaction, days: int, interest: real, balance: real): Row
  {
    Row(Some(t.id), t.at.day, t.kind, t.amount, days, Round2(interest), Round2(balance))
  }

  /** One iteration of the loop body. */
  function Advance(mode: Mode, dailyRate: real, c: Carry, t: Transaction): Carry
  {
    var days := t.at.day - c.lastDay;
    var interest := Interest(mode, c.balance, dailyRate, days);
    var balance := c.balance + interest + Delta(t.kind, t.amount);
    Carry(balance, t.at.day, c.rows + [EntryRow(t, days, interest, balance)])
  }

  /** The loop run over `ts`, starting from balance 0 and last day `start`. */
  function Walk(mode: Mode, dailyRate: real, ts: seq<Transaction>, start: int): (c: Carry)
    ensures |c.rows| == |ts|
    ensures c.lastDay == if ts == [] then start else ts[|ts| - 1].at.day
  {
    if ts == [] then Carry(0.0, start, [])
    else Advance(mode, dailyRate, Walk(mode, dailyRate, ts[..|ts| - 1], start), ts[|ts| - 1])
  }

  /** The carried (unrounded) balance before the `k`-th transaction. */
  function Carried(mode: Mode, dailyRate: real, ts: seq<Transaction>, start: int, k: nat): real
    requires k <= |ts|
  {
    Walk(mode, dailyRate, ts[..k], start).balance
  }

  /** The calendar-day gap before the `k`-th transaction. */
  function Gap(ts: seq<Transaction>, start: int, k: nat): int
    requires k < |ts|
  {
    ts[k].at.day - (if k == 0 then start else ts[k - 1].at.day)
  }

  /** The unrounded interest accrued before the `k`-th transaction. */
  function StepInterest(mode: Mode, dailyRate: real, ts: seq<Transaction>, start: int, k: nat): real
    requires k < |ts|
  {
    Interest(mode, Carried(mode, dailyRate, ts, start, k), dailyRate, Gap(ts, start, k))
  }

  /** The trailing row for interest from the last transaction up to `asOf`. */
  function AccrualRow(asOf: int, days: int, interest: real, balance: real): Row
  {
    Row(None, asOf, AccrualKind, 0.0, days, Round2(interest), Round2(balance))
  }

  /** The code after the loop. The simple variant always appends the
      accrual row, with interest over the gap to `asOf` whatever its sign;
      the compound variant appends it only when at least a day has passed
      and the balance is positive. */
  function Close(mode: Mode, dailyRate: real, c: Carry, asOf: int): Ledger
  {
    var days := asOf - c.lastDay;
    match mode
    case Simple =>
      var interest := SimpleInterest(c.balance, dailyRate, days);
      var balance := c.balance + interest;
      Ledger(Round2(balance), c.rows + [AccrualRow(asOf, days, interest, balance)])
    case Compound =>
      if days > 0 && c.balance > 0.0 then
        var interest := CompoundInterest(c.balance, dailyRate, days);
        var balance := c.balance + interest;
        Ledger(Round2(balance), c.rows + [AccrualRow(asOf, days, interest, balance)])
      else
        Ledger(Round2(c.balance), c.rows)
  }

  /** The loop over the sorted transactions of a non-empty ledger. */
  function Replay(mode: Mode, ts: seq<Transaction>, rate: real): Carry
    requires ts != []
  {
    var s := Chronological(ts);
    Walk(mode, DailyRate(rate), s, s[0].at.day)
  }

  /** What `calculate_running_simple_balance` (mode Simple) and
      `calculate_running_compound_balance` (mode Compound) return. */
  function RunningLedger(mode: Mode, ts: seq<Transaction>, rate: real, asOf: int): Ledger
  {
    if ts == [] then Ledger(0.0, [])
    else Close(mode, DailyRate(rate), Replay(mode, ts, rate), asOf)
  }

  /** The loop body of the simple variant: accrue over the gap, apply the
      transaction, emit its row. */
  method SimpleEntry(balance: real, lastDay: int, ledger: seq<Row>, txn: Transaction, dailyRate: real)
    returns (newBalance: real, newLedger: seq<Row>)
    ensures Carry(newBalance, txn.at.day, newLedger)
         == Advance(Simple, dailyRate, Carry(balance, lastDay, ledger), txn)
  {
    var days := txn.at.day - lastDay;
    var interest := if balance > 0.0 then balance * dailyRate * days as real else 0.0;
    assert interest == SimpleInterest(balance, dailyRate, days);
    newBalance := balance + interest;
    if txn.kind == "loan" {
      newBalance := newBalance + txn.amount;
    } else if txn.kind == "payment" {
      newBalance := newBalance - txn.amount;
    }
    assert newBalance == balance + interest + Delta(txn.kind, txn.amount);
    newLedger := ledger + [Row(Some(txn.id), txn.at.day, txn.kind, txn.amount, days, Round2(interest), Round2(newBalance))];
  }

  /** The loop body of the compound variant. */
  method CompoundEntry(balance: real, lastDay: int, ledger: seq<Row>, txn: Transaction, dailyRate: real)
    returns (newBalance: real, newLedger: seq<Row>)
    ensures Carry(newBalance, txn.at.day, newLedger)
         == Advance(Compound, dailyRate, Carry(balance, lastDay, ledger), txn)
  {
    var days := txn.at.day - lastDay;
    var interest := 0.0;
    newBalance := balance;
    if days > 0 && balance > 0.0 {
      interest := balance * (Pow(1.0 + dailyRate, days) - 1.0);
      newBalance := newBalance + interest;
    }
    assert interest == CompoundInterest(balance, dailyRate, days);
    if txn.kind == "loan" {
      newBalance := newBalance + txn.amount;
    } else if txn.kind == "payment" {
      newBalance := newBalance - txn.amount;
    }
    assert newBalance == balance + interest + Delta(txn.kind, txn.amount);
    newLedger := ledger + [Row(Some(txn.id), txn.at.day, txn.kind, txn.amount, days, Round2(interest), Round2(newBalance))];
  }

  /** The simple variant's final accrual, always appended. */
  method SimpleClose(balance: real, lastDay: int, ledger: seq<Row>, asOf: int, dailyRate: real)
    returns (finalBalance: real, newLedger: seq<Row>)
    ensures Ledger(finalBalance, newLedger) == Close(Simple, dailyRate, Carry(balance, lastDay, ledger), asOf)
  {
    var days := asOf - lastDay;
    var interest := if balance > 0.0 then balance * dailyRate * days as real else 0.0;
    assert interest == SimpleInterest(balance, dailyRate, days);
    var total := balance + interest;
    newLedger := ledger + [Row(None, asOf, AccrualKind, 0.0, days, Round2(interest), Round2(total))];
    finalBalance := Round2(total);
  }

  /** The compound variant's final accrual, appended only after a positive
      gap on a positive balance. */
  method CompoundClose(balance: real, lastDay: int, ledger: seq<Row>, asOf: int, dailyRate: real)
    returns (finalBalance: real, newLedger: seq<Row>)
    ensures Ledger(finalBalance, newLedger) == Close(Compound, dailyRate, Carry(balance, lastDay, ledger), asOf)
  {
    var days := asOf - lastDay;
    var total := balance;
    newLedger := ledger;
    if days > 0 && balance > 0.0 {
      var interest := balance * (Pow(1.0 + dailyRate, days) - 1.0);
      assert interest == CompoundInterest(balance, dailyRate, days);
      total := total + interest;
      newLedger := newLedger + [Row(None, asOf, AccrualKind, 0.0, days, Round2(interest), Round2(total))];
    }
    finalBalance := Round2(total);
  }

  method RunningSimpleBalance(transactions: seq<Transaction>, rate: real, asOf: int)
    returns (balance: real, ledger: seq<Row>)
    ensures Ledger(balance, ledger) == RunningLedger(Simple, transactions, rate, asOf)
  {
    var txns := Chronological(transactions);
    if txns == [] {
      return 0.0, [];
    }
    balance := 0.0;
    var lastDay := txns[0].at.day;
    ledger := [];
    var dailyRate := DailyRate(rate);
    for k := 0 to |txns|
      invariant Walk(Simple, dailyRate, txns[..k], txns[0].at.day) == Carry(balance, lastDay, ledger)
    {
      var txn := txns[k];
      balance, ledger := SimpleEntry(balance, lastDay, ledger, txn, dailyRate);
      lastDay := txn.at.day;
      assert txns[..k + 1][..k] == txns[..k];
    }
    assert txns[..|txns|] == txns;
    balance, ledger := SimpleClose(balance, lastDay, ledger, asOf, dailyRate);
  }

  method RunningCompoundBalance(transactions: seq<Transaction>, rate: real, asOf: int)
    returns (balance: real, ledger: seq<Row>)
    ensures Ledger(balance, ledger) == RunningLedger(Compound, transactions, rate, asOf)
  {
    var txns := Chronological(transactions);
    if txns == [] {
      return 0.0, [];
    }
    balance := 0.0;
    var lastDay := txns[0].at.day;
    ledger := [];
    var dailyRate := DailyRate(rate);
    for k := 0 to |txns|
      invariant Walk(Compound, dailyRate, txns[..k], txns[0].at.day) == Carry(balance, lastDay, ledger)
    {
      var txn := txns[k];
      balance, ledger := CompoundEntry(balance, lastDay, ledger, txn, dailyRate);
      lastDay := txn.at.day;
      assert txns[..k + 1][..k] == txns[..k];
    }
    assert txns[..|txns|] == txns;
    balance, ledger := CompoundClose(balance, lastDay, ledger, asOf, dailyRate);
  }
}
