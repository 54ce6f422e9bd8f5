/**
 * Properties of the running-balance loops of utils.py, proved about the
 * specification functions in module Accrual (which the two methods there
 * are proved to compute).
 */
module AccrualFacts {
  import opened Wrappers
  import opened Numbers
  import opened Accrual

  /** Loans minus payments: the balance the loop reaches when no interest
      accrues. */
  function NetPrincipal(ts: seq<Transaction>): real
  {
    if ts == [] then 0.0
    else NetPrincipal(ts[..|ts| - 1]) + Delta(ts[|ts| - 1].kind, ts[|ts| - 1].amount)
  }

  lemma WalkSnoc(mode: Mode, d: real, ts: seq<Transaction>, start: int, k: nat)
    requires k < |ts|
    ensures Walk(mode, d, ts[..k + 1], start) == Advance(mode, d, Walk(mode, d, ts[..k], start), ts[k])
  {
    assert ts[..k + 1][..k] == ts[..k];
  }

  /** One step appends exactly the row of the transaction it applies. */
  lemma AdvanceAppends(mode: Mode, d: real, c: Carry, t: Transaction)
    ensures var days := t.at.day - c.lastDay;
            var next := Advance(mode, d, c, t);
            next.rows[..|c.rows|] == c.rows &&
            next.rows[|c.rows|] == EntryRow(t, days, Interest(mode, c.balance, d, days), next.balance)
  {
  }

  /** The rows emitted for a prefix of the transactions are a prefix of
      the rows: later transactions never rewrite earlier rows. */
  lemma {:induction false} WalkPrefix(mode: Mode, d: real, ts: seq<Transaction>, start: int, j: nat)
    requires j <= |ts|
    ensures Walk(mode, d, ts[..j], start).rows == Walk(mode, d, ts, start).rows[..j]
  {
    if j < |ts| {
      var n := |ts| - 1;
      WalkPrefix(mode, d, ts[..n], start, j);
      assert ts[..n][..j] == ts[..j];
      var rows := Walk(mode, d, ts, start).rows;
      var prev := Walk(mode, d, ts[..n], start).rows;
      assert rows[..n] == prev;
      assert rows[..j] == prev[..j];
    } else {
      assert ts[..j] == ts;
    }
  }

  /** The step from the `k`-th transaction: the state reached is the one
      before it advanced by it. */
  lemma WalkStep(mode: Mode, d: real, ts: seq<Transaction>, start: int, k: nat)
    requires k < |ts|
    ensures Walk(mode, d, ts[..k + 1], start) == Advance(mode, d, Walk(mode, d, ts[..k], start), ts[k])
    ensures Walk(mode, d, ts[..k], start).lastDay == if k == 0 then start else ts[k - 1].at.day
  {
    WalkSnoc(mode, d, ts, start, k);
  }

  /** The balance carried past the `k`-th transaction is the balance
      carried into it plus the interest over its gap plus its own effect:
      a loan adds its amount, a payment subtracts it, any other type adds
      nothing. Nothing is rounded on the way. */
  lemma StepBalance(mode: Mode, d: real, ts: seq<Transaction>, start: int, k: nat)
    requires k < |ts|
    ensures Carried(mode, d, ts, start, k + 1)
         == Carried(mode, d, ts, start, k) + StepInterest(mode, d, ts, start, k) + Delta(ts[k].kind, ts[k].amount)
  {
    WalkStep(mode, d, ts, start, k);
  }

  /** The last row of a prefix is the row of the transaction that ends
      it, computed from the state the rest of the prefix carried. */
  lemma StepRow(mode: Mode, d: real, ts: seq<Transaction>, start: int, k: nat)
    requires k < |ts|
    ensures Walk(mode, d, ts[..k + 1], start).rows[k]
         == EntryRow(ts[k], Gap(ts, start, k), StepInterest(mode, d, ts, start, k), Carried(mode, d, ts, start, k + 1))
  {
    WalkStep(mode, d, ts, start, k);
    var before := Walk(mode, d, ts[..k], start);
    AdvanceAppends(mode, d, before, ts[k]);
    assert Gap(ts, start, k) == ts[k].at.day - before.lastDay;
    assert Carried(mode, d, ts, start, k) == before.balance;
  }

  /** The row emitted for the `k`-th transaction: it carries the
      transaction's id, type and amount unchanged, the calendar-day gap to
      the previous transaction, and the interest and balance of that step
      rounded to cents (the carried balance itself stays unrounded). */
  lemma WalkRow(mode: Mode, d: real, ts: seq<Transaction>, start: int, k: nat)
    requires k < |ts|
    ensures Walk(mode, d, ts, start).rows[k]
         == EntryRow(ts[k], Gap(ts, start, k), StepInterest(mode, d, ts, start, k), Carried(mode, d, ts, start, k + 1))
  {
    WalkPrefix(mode, d, ts, start, k + 1);
    StepRow(mode, d, ts, start, k);
    assert Walk(mode, d, ts, start).rows[k] == Walk(mode, d, ts[..k + 1], start).rows[k];
  }

  /** The bookkeeping fields of row `k`: the transaction's id, date, type
      and amount, and the gap before it. */
  lemma WalkRowFields(mode: Mode, d: real, ts: seq<Transaction>, start: int, k: nat)
    requires k < |ts|
    ensures var r := Walk(mode, d, ts, start).rows[k];
            r.id == Some(ts[k].id) && r.day == ts[k].at.day && r.kind == ts[k].kind &&
            r.amount == ts[k].amount && r.days == Gap(ts, start, k)
  {
    WalkRow(mode, d, ts, start, k);
  }

  /** No interest accrues over a gap unless the balance carried into it is
      positive. */
  lemma NoInterestUnlessPositive(mode: Mode, d: real, ts: seq<Transaction>, start: int, k: nat)
    requires k < |ts|
    requires Carried(mode, d, ts, start, k) <= 0.0
    ensures StepInterest(mode, d, ts, start, k) == 0.0
    ensures Walk(mode, d, ts, start).rows[k].interest == 0.0
  {
    WalkRow(mode, d, ts, start, k);
  }

  /** With a zero rate the balance is the net principal. */
  lemma {:induction false} ZeroRateBalance(mode: Mode, ts: seq<Transaction>, start: int)
    ensures Walk(mode, 0.0, ts, start).balance == NetPrincipal(ts)
  {
    if ts != [] {
      var n := |ts| - 1;
      ZeroRateBalance(mode, ts[..n], start);
      var c := Walk(mode, 0.0, ts[..n], start);
      var days := ts[n].at.day - c.lastDay;
      if days > 0 {
        PowOfOne(days);
      }
      assert Interest(mode, c.balance, 0.0, days) == 0.0;
    }
  }
}
