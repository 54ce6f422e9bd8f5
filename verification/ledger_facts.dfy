/**
 * Properties of the ledgers `calculate_running_simple_balance` and
 * `calculate_running_compound_balance` return (utils.py): their shape, the
 * order of their rows, the trailing accrual row and how the two interest
 * rules compare.
 */
module LedgerFacts {
  import opened Wrappers
  import opened Numbers
  import opened Dates
  import opened Sorting
  import opened Accrual
  import opened AccrualFacts

  /** The loop visits every transaction once, in timestamp order, and ends
      on the day of the latest one. */
  lemma ReplayShape(mode: Mode, ts: seq<Transaction>, rate: real)
    requires ts != []
    ensures var s := Chronological(ts);
            var c := Replay(mode, ts, rate);
            |s| == |ts| && |c.rows| == |ts| && c.lastDay == s[|ts| - 1].at.day
  {
  }

  /** The simple variant returns one row per transaction followed by the
      accrual row: no id, type `accrual`, amount 0, dated `asOf`, with the
      interest on the positive carried balance over the (possibly negative)
      gap since the latest transaction. The returned balance is that row's
      balance. */
  lemma SimpleShape(ts: seq<Transaction>, rate: real, asOf: int)
    requires ts != []
    ensures var l := RunningLedger(Simple, ts, rate, asOf);
            var c := Replay(Simple, ts, rate);
            var days := asOf - c.lastDay;
            |l.rows| == |ts| + 1 &&
            l.rows[..|ts|] == c.rows &&
            l.rows[|ts|].id == None && l.rows[|ts|].kind == AccrualKind &&
            l.rows[|ts|].amount == 0.0 && l.rows[|ts|].day == asOf &&
            l.rows[|ts|].days == days &&
            l.rows[|ts|].interest == Round2(SimpleInterest(c.balance, DailyRate(rate), days)) &&
            l.balance == l.rows[|ts|].balance
  {
    ReplayShape(Simple, ts, rate);
  }

  /** The compound variant appends the accrual row exactly when at least a
      day has passed since the latest transaction and the carried balance
      is positive; either way the returned balance is the last row's. */
  lemma CompoundShape(ts: seq<Transaction>, rate: real, asOf: int)
    requires ts != []
    ensures var l := RunningLedger(Compound, ts, rate, asOf);
            var c := Replay(Compound, ts, rate);
            var days := asOf - c.lastDay;
            |l.rows| == (if days > 0 && c.balance > 0.0 then |ts| + 1 else |ts|) &&
            l.rows[..|ts|] == c.rows &&
            (|l.rows| > |ts| ==> l.rows[|ts|].id == None && l.rows[|ts|].kind == AccrualKind &&
                                 l.rows[|ts|].amount == 0.0 && l.rows[|ts|].day == asOf &&
                                 l.rows[|ts|].days == days) &&
            l.balance == l.rows[|l.rows| - 1].balance
  {
    ReplayShape(Compound, ts, rate);
    var s := Chronological(ts);
    var c := Replay(Compound, ts, rate);
    var n := |ts| - 1;
    WalkRow(Compound, DailyRate(rate), s, s[0].at.day, n);
    assert s[..n + 1] == s;
  }

  /** Row `k` (before the accrual row) belongs to the `k`-th transaction in
      timestamp order: same id, date, type and amount. That order is sorted
      by timestamp and holds exactly the borrower's transactions. */
  lemma RowsFollowChronology(mode: Mode, ts: seq<Transaction>, rate: real, asOf: int, k: nat)
    requires k < |ts|
    ensures var s := Chronological(ts);
            var r := RunningLedger(mode, ts, rate, asOf).rows[k];
            SortedBy(s, ByInstant) && multiset(s) == multiset(ts) &&
            r.id == Some(s[k].id) && r.day == s[k].at.day && r.kind == s[k].kind && r.amount == s[k].amount
  {
    var s := Chronological(ts);
    SortCorrect(ts, ByInstant);
    ReplayShape(mode, ts, rate);
    var d := DailyRate(rate);
    LedgerKeepsRows(mode, ts, rate, asOf);
    WalkRow(mode, d, s, s[0].at.day, k);
  }

  /** Whatever the mode, the ledger starts with the loop's rows. */
  lemma LedgerKeepsRows(mode: Mode, ts: seq<Transaction>, rate: real, asOf: int)
    requires ts != []
    ensures var l := RunningLedger(mode, ts, rate, asOf);
            var c := Replay(mode, ts, rate);
            |ts| <= |l.rows| && l.rows[..|ts|] == c.rows
  {
    ReplayShape(mode, ts, rate);
    match mode
    case Simple => SimpleShape(ts, rate, asOf);
    case Compound => CompoundShape(ts, rate, asOf);
  }

  /** Because the loop starts on the earliest day and walks in timestamp
      order, the first row's gap is zero and no gap is negative. */
  lemma GapsNonNegative(mode: Mode, ts: seq<Transaction>, rate: real, asOf: int, k: nat)
    requires k < |ts|
    ensures RunningLedger(mode, ts, rate, asOf).rows[k].days >= 0
    ensures k == 0 ==> RunningLedger(mode, ts, rate, asOf).rows[k].days == 0
  {
    var s := Chronological(ts);
    SortCorrect(ts, ByInstant);
    ReplayShape(mode, ts, rate);
    LedgerKeepsRows(mode, ts, rate, asOf);
    WalkRow(mode, DailyRate(rate), s, s[0].at.day, k);
    if k > 0 {
      assert ByInstant(s[k - 1]) <= ByInstant(s[k]);
      InstantOrdersDays(s[k - 1].at, s[k].at);
    }
  }

  /** No interest accrues after the latest transaction unless the carried
      balance is positive: the simple variant's accrual row shows zero
      interest and the compound variant adds no row. */
  lemma FinalAccrualNeedsPositiveBalance(mode: Mode, ts: seq<Transaction>, rate: real, asOf: int)
    requires ts != []
    requires Replay(mode, ts, rate).balance <= 0.0
    ensures var l := RunningLedger(mode, ts, rate, asOf);
            l.balance == Round2(Replay(mode, ts, rate).balance) &&
            (mode == Simple ==> |l.rows| == |ts| + 1 && l.rows[|ts|].interest == 0.0) &&
            (mode == Compound ==> |l.rows| == |ts|)
  {
    ReplayShape(mode, ts, rate);
    Round2Zero();
  }

  /** The simple variant's trailing accrual does not guard the sign of the
      gap: when the latest transaction is dated after `asOf` and the
      carried balance is positive, the interest is negative and the
      returned balance is no larger than the carried one. */
  lemma FutureDatedAccrualShrinks(ts: seq<Transaction>, rate: real, asOf: int)
    requires ts != []
    requires rate > 0.0
    requires asOf < Replay(Simple, ts, rate).lastDay
    requires Replay(Simple, ts, rate).balance > 0.0
    ensures var c := Replay(Simple, ts, rate);
            SimpleInterest(c.balance, DailyRate(rate), asOf - c.lastDay) < 0.0 &&
            RunningLedger(Simple, ts, rate, asOf).balance <= Round2(c.balance)
  {
    var c := Replay(Simple, ts, rate);
    var d := DailyRate(rate);
    var days := asOf - c.lastDay;
    assert c.balance * d > 0.0;
    assert c.balance * d * days as real < 0.0;
    Round2Monotone(c.balance + SimpleInterest(c.balance, d, days), c.balance);
  }

  /** Over the same gap on the same balance, daily compounding yields at
      least the simple interest, and exactly it when the gap is at most one
      day. */
  lemma CompoundDominatesSimple(balance: real, dailyRate: real, days: int)
    requires dailyRate >= 0.0 && days >= 0
    ensures CompoundInterest(balance, dailyRate, days) >= SimpleInterest(balance, dailyRate, days)
    ensures days <= 1 ==> CompoundInterest(balance, dailyRate, days) == SimpleInterest(balance, dailyRate, days)
  {
    if balance > 0.0 && days > 0 {
      Bernoulli(dailyRate, days);
      var p := Pow(1.0 + dailyRate, days);
      MulNonNegative(balance, p - (1.0 + days as real * dailyRate));
      assert balance * (p - 1.0) - balance * dailyRate * days as real
          == balance * (p - (1.0 + days as real * dailyRate));
    }
  }
}
