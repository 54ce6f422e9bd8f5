/**
 * Properties of `borrower_ledger_df` (utils.py): the shape of the table,
 * and how it compares with the two loop variants. On transactions already
 * in timestamp order, the "compound" table is the compound ledger without
 * the id column; the table in any other mode agrees row by row with the
 * simple ledger but omits the trailing accrual row unless a positive
 * balance is carried over a positive gap.
 */
module TableFacts {
  import opened Numbers
  import opened Dates
  import opened Sorting
  import opened Accrual
  import opened AccrualFacts
  import opened LedgerFacts
  import opened Table

  /** The interest rule of the loop variant the table's mode names. */
  function ModeOf(compound: bool): Mode
  {
    if compound then Compound else Simple
  }

  /** A ledger row without its id, as a table row. */
  function Strip(r: Row): TableRow
  {
    TableRow(r.day, r.kind, r.amount, r.days, r.interest, r.balance)
  }

  /** The table's interest rule is the loop variant's on a gap that is not
      negative (a zero gap gives no interest either way). */
  lemma InterestAgrees(compound: bool, balance: real, dailyRate: real, days: int)
    requires days >= 0
    ensures TableInterest(compound, balance, dailyRate, days) == Interest(ModeOf(compound), balance, dailyRate, days)
  {
    if days == 0 && balance > 0.0 {
      assert balance * dailyRate * days as real == 0.0;
    }
  }

  /** Transactions in timestamp order give entries in date order. */
  lemma EntriesSorted(ts: seq<Transaction>)
    requires SortedBy(ts, ByInstant)
    ensures SortedBy(Entries(ts), EntryDay)
  {
    forall i, j | 0 <= i < j < |ts|
      ensures EntryDay(Entries(ts)[i]) <= EntryDay(Entries(ts)[j])
    {
      InstantOrdersDays(ts[i].at, ts[j].at);
    }
  }

  /** The table's loop state matches the loop variant's: same unrounded
      balance, and the interest and balance columns are the rows' figures. */
  predicate Agrees(f: Columns, w: Carry)
  {
    f.balance == w.balance && |f.interests| == |w.rows| && |f.balances| == |w.rows| &&
    forall i :: 0 <= i < |w.rows| ==> f.interests[i] == w.rows[i].interest && f.balances[i] == w.rows[i].balance
  }

  /** One step of each loop, on the same transaction over the same
      non-negative gap, keeps the two states in agreement. */
  lemma AccrueAgrees(compound: bool, d: real, f: Columns, w: Carry, e: Entry, t: Transaction, days: int)
    requires Agrees(f, w)
    requires e.kind == t.kind && e.amount == t.amount
    requires days == t.at.day - w.lastDay && days >= 0
    ensures Agrees(Accrue(compound, d, f, e, days), Advance(ModeOf(compound), d, w, t))
  {
    InterestAgrees(compound, w.balance, d, days);
  }

  lemma FillSnoc(compound: bool, d: real, es: seq<Entry>, k: nat)
    requires 0 < k <= |es|
    ensures Fill(compound, d, es[..k]) == Accrue(compound, d, Fill(compound, d, es[..k - 1]), es[k - 1], DayGap(es, k - 1))
  {
    assert es[..k][..k - 1] == es[..k - 1];
  }

  /** On transactions in timestamp order, the table's loop over the first
      `k` entries agrees with the loop variant over the first `k`
      transactions. */
  lemma {:induction false} FillMatchesWalk(compound: bool, d: real, ts: seq<Transaction>, k: nat)
    requires SortedBy(ts, ByInstant)
    requires 0 < |ts| && k <= |ts|
    ensures Agrees(Fill(compound, d, Entries(ts)[..k]), Walk(ModeOf(compound), d, ts[..k], ts[0].at.day))
  {
    if k > 0 {
      var j := k - 1;
      var start := ts[0].at.day;
      FillMatchesWalk(compound, d, ts, j);
      FillSnoc(compound, d, Entries(ts), k);
      WalkStep(ModeOf(compound), d, ts, start, j);
      if j > 0 {
        InstantOrdersDays(ts[j - 1].at, ts[j].at);
      }
      var w := Walk(ModeOf(compound), d, ts[..j], start);
      var days := DayGap(Entries(ts), j);
      assert days == ts[j].at.day - w.lastDay;
      AccrueAgrees(compound, d, Fill(compound, d, Entries(ts)[..j]), w, Entries(ts)[j], ts[j], days);
    }
  }

  /** On transactions already in timestamp order neither sort moves
      anything, and the table's loop agrees with the loop variant's. */
  lemma SortedBody(ts: seq<Transaction>, rate: real, compound: bool)
    requires SortedBy(ts, ByInstant) && ts != []
    ensures Chronological(ts) == ts && Arrange(ts) == Entries(ts)
    ensures Agrees(Fill(compound, DailyRate(rate), Entries(ts)), Replay(ModeOf(compound), ts, rate))
  {
    SortSorted(ts, ByInstant);
    EntriesSorted(ts);
    SortSorted(Entries(ts), EntryDay);
    FillMatchesWalk(compound, DailyRate(rate), ts, |ts|);
    assert Entries(ts)[..|ts|] == Entries(ts) && ts[..|ts|] == ts;
  }

  /** The `days` column and the loop's gaps agree when the loop starts on
      the first transaction's day. */
  lemma GapsAgree(ts: seq<Transaction>, i: nat)
    requires i < |ts|
    ensures DayGap(Entries(ts), i) == Gap(ts, ts[0].at.day, i)
  {
    if i > 0 {
      assert Entries(ts)[i].day == ts[i].at.day && Entries(ts)[i - 1].day == ts[i - 1].at.day;
    }
  }

  /** Before the accrual row, the table is the frame the loop filled. */
  lemma TableRows(ts: seq<Transaction>, rate: real, asOf: int, mode: string)
    requires ts != []
    ensures var es := Arrange(ts);
            var c := Fill(mode == "compound", DailyRate(rate), es);
            var t := LedgerTable(ts, rate, asOf, mode);
            |ts| <= |t| &&
            forall i :: 0 <= i < |ts| ==>
              t[i] == TableRow(es[i].day, es[i].kind, es[i].amount, DayGap(es, i), c.interests[i], c.balances[i])
  {
  }

  /** On transactions in timestamp order, the frame row of the `i`-th
      entry is the loop variant's row of the `i`-th transaction without its
      id. */
  lemma RowMatches(ts: seq<Transaction>, rate: real, compound: bool, i: nat)
    requires SortedBy(ts, ByInstant) && i < |ts|
    ensures var es := Entries(ts);
            var c := Fill(compound, DailyRate(rate), es);
            var w := Replay(ModeOf(compound), ts, rate);
            |c.interests| == |ts| && |w.rows| == |ts| &&
            TableRow(es[i].day, es[i].kind, es[i].amount, DayGap(es, i), c.interests[i], c.balances[i])
              == Strip(w.rows[i])
  {
    SortedBody(ts, rate, compound);
    var w := Replay(ModeOf(compound), ts, rate);
    assert w == Walk(ModeOf(compound), DailyRate(rate), ts, ts[0].at.day);
    WalkRowFields(ModeOf(compound), DailyRate(rate), ts, ts[0].at.day, i);
    GapsAgree(ts, i);
  }

  /** The table is the frame the loop filled, closed by the final accrual. */
  lemma TableIsClosed(ts: seq<Transaction>, rate: real, asOf: int, mode: string)
    requires ts != []
    ensures var es := Arrange(ts);
            var c := Fill(mode == "compound", DailyRate(rate), es);
            |es| == |ts| &&
            LedgerTable(ts, rate, asOf, mode)
              == Closed(mode == "compound", DailyRate(rate), Frame(es, Gaps(es), c), c.balance, es[|ts| - 1].day, asOf)
  {
  }

  /** The final accrual adds one row exactly under its guard. */
  lemma ClosedShape(compound: bool, d: real, rows: seq<TableRow>, balance: real, lastDay: int, asOf: int)
    ensures var days := asOf - lastDay;
            var interest := TableInterest(compound, balance, d, days);
            var r := Closed(compound, d, rows, balance, lastDay, asOf);
            |r| == (if days > 0 && balance > 0.0 then |rows| + 1 else |rows|) &&
            r[..|rows|] == rows &&
            (|r| > |rows| ==> r[|rows|] == TableRow(asOf, AccrualKind, 0.0, days, Round2(interest), Round2(balance + interest)))
  {
  }

  /** The table has one row per transaction in date order, holding its
      date, type and amount and the gap to the previous one; then the
      accrual row, present exactly when a positive balance is carried over a
      positive gap from the latest date to `asOf`. */
  lemma TableShape(ts: seq<Transaction>, rate: real, asOf: int, mode: string)
    requires ts != []
    ensures var es := Arrange(ts);
            var c := Fill(mode == "compound", DailyRate(rate), es);
            var days := asOf - es[|ts| - 1].day;
            var t := LedgerTable(ts, rate, asOf, mode);
            |t| == (if days > 0 && c.balance > 0.0 then |ts| + 1 else |ts|) &&
            (forall i :: 0 <= i < |ts| ==>
               t[i].day == es[i].day && t[i].kind == es[i].kind && t[i].amount == es[i].amount &&
               t[i].days == DayGap(es, i)) &&
            (|t| > |ts| ==> t[|ts|].day == asOf && t[|ts|].kind == AccrualKind &&
                            t[|ts|].amount == 0.0 && t[|ts|].days == days)
  {
    var es := Arrange(ts);
    var c := Fill(mode == "compound", DailyRate(rate), es);
    TableRows(ts, rate, asOf, mode);
    TableIsClosed(ts, rate, asOf, mode);
    ClosedShape(mode == "compound", DailyRate(rate), Frame(es, Gaps(es), c), c.balance, es[|ts| - 1].day, asOf);
  }

  /** Because the entries are sorted by date, the `days` column is 0 on the
      first row and never negative. */
  lemma TableGaps(ts: seq<Transaction>, rate: real, asOf: int, mode: string, i: nat)
    requires i < |ts|
    ensures var t := LedgerTable(ts, rate, asOf, mode);
            |ts| <= |t| && t[i].days >= 0 && (i == 0 ==> t[i].days == 0)
  {
    var es := Arrange(ts);
    SortCorrect(Entries(ts), EntryDay);
    TableRows(ts, rate, asOf, mode);
    if i > 0 {
      assert EntryDay(es[i - 1]) <= EntryDay(es[i]);
    }
  }

  /** Under the table's guard both interest rules agree on the trailing
      accrual. */
  lemma TailAgrees(compound: bool, d: real, balance: real, days: int, asOf: int)
    requires days > 0 && balance > 0.0
    ensures var i := TableInterest(compound, balance, d, days);
            var j := Interest(ModeOf(compound), balance, d, days);
            TableRow(asOf, AccrualKind, 0.0, days, Round2(i), Round2(balance + i))
              == Strip(AccrualRow(asOf, days, j, balance + j))
  {
    InterestAgrees(compound, balance, d, days);
  }

  /** Closing the table and closing the ledger from the same balance and
      day: the ledger gets a trailing row whenever the table does (and in
      simple mode always), and the two rows match. */
  lemma TailMatches(compound: bool, d: real, rows: seq<TableRow>, c: Carry, asOf: int)
    ensures var r := Closed(compound, d, rows, c.balance, c.lastDay, asOf);
            var l := Close(ModeOf(compound), d, c, asOf);
            var guard := asOf - c.lastDay > 0 && c.balance > 0.0;
            |r| == (if guard then |rows| + 1 else |rows|) &&
            r[..|rows|] == rows &&
            |l.rows| == (if !compound || guard then |c.rows| + 1 else |c.rows|) &&
            l.rows[..|c.rows|] == c.rows &&
            (guard ==> r[|rows|] == Strip(l.rows[|c.rows|]))
  {
    var days := asOf - c.lastDay;
    ClosedShape(compound, d, rows, c.balance, c.lastDay, asOf);
    if days > 0 && c.balance > 0.0 {
      TailAgrees(compound, d, c.balance, days, asOf);
    }
  }

  /** On transactions already in timestamp order, the table is the loop
      variant's ledger without ids, except that outside "compound" mode it
      leaves out the trailing accrual row unless a positive balance is
      carried over a positive gap. In "compound" mode both report the same
      final balance. */
  lemma TableMatchesLoop(ts: seq<Transaction>, rate: real, asOf: int, mode: string)
    requires SortedBy(ts, ByInstant)
    ensures var t := LedgerTable(ts, rate, asOf, mode);
            var l := RunningLedger(ModeOf(mode == "compound"), ts, rate, asOf);
            |t| <= |l.rows| &&
            (forall i :: 0 <= i < |t| ==> t[i] == Strip(l.rows[i])) &&
            (mode == "compound" ==> |t| == |l.rows|) &&
            (mode == "compound" && ts != [] ==> l.balance == t[|t| - 1].balance) &&
            (mode != "compound" && ts != [] ==>
               (|t| == |l.rows| <==> asOf - ts[|ts| - 1].at.day > 0 && Replay(Simple, ts, rate).balance > 0.0))
  {
    if ts != [] {
      var t := LedgerTable(ts, rate, asOf, mode);
      var l := RunningLedger(ModeOf(mode == "compound"), ts, rate, asOf);
      SortedBody(ts, rate, mode == "compound");
      TableRows(ts, rate, asOf, mode);
      LedgerKeepsRows(ModeOf(mode == "compound"), ts, rate, asOf);
      ReplayShape(ModeOf(mode == "compound"), ts, rate);
      var es := Entries(ts);
      var c := Replay(ModeOf(mode == "compound"), ts, rate);
      TableIsClosed(ts, rate, asOf, mode);
      assert es[|ts| - 1].day == c.lastDay;
      TailMatches(mode == "compound", DailyRate(rate), Frame(es, Gaps(es), Fill(mode == "compound", DailyRate(rate), es)), c, asOf);
      forall i | 0 <= i < |t|
        ensures t[i] == Strip(l.rows[i])
      {
        if i < |ts| {
          RowMatches(ts, rate, mode == "compound", i);
        }
      }
      if mode == "compound" {
        CompoundShape(ts, rate, asOf);
      }
    }
  }
}
