/**
 * Properties of `borrower_ledger_df` (utils.py) that hold whatever order
 * the transactions come in. Entries on the same calendar day are separated
 * by a zero gap, so no interest accrues between them and the order among
 * them does not change the balance. Hence the "compound" table ends on the
 * compound ledger's final balance for any input, and a row accrues
 * interest only when a positive balance is carried over a positive gap.
 */
module TableOrder {
  import opened Numbers
  import opened Sorting
  import opened Accrual
  import opened Table
  import opened TableFacts

  /** The net effect of the entries' amounts on the balance. */
  function NetDelta(es: seq<Entry>): real
  {
    if es == [] then 0.0 else NetDelta(es[..|es| - 1]) + Delta(es[|es| - 1].kind, es[|es| - 1].amount)
  }

  lemma {:induction false} NetDeltaAppend(a: seq<Entry>, b: seq<Entry>)
    ensures NetDelta(a + b) == NetDelta(a) + NetDelta(b)
    decreases |b|
  {
    if b == [] {
      assert a + b == a;
    } else {
      var n := |b| - 1;
      assert (a + b)[..|a + b| - 1] == a + b[..n];
      NetDeltaAppend(a, b[..n]);
    }
  }

  /** The gap from the last of the entries `p` to `day`; none after no
      entries. */
  function LastGap(p: seq<Entry>, day: int): int
  {
    if p == [] then 0 else day - p[|p| - 1].day
  }

  /** A run of entries on one day after a prefix: only the first of them
      sees a gap, so the balance is the prefix's, plus the interest over that
      gap, plus the net of the run's amounts. */
  lemma {:induction false} FillRun(compound: bool, d: real, p: seq<Entry>, x: seq<Entry>, day: int)
    requires x != []
    requires forall i :: 0 <= i < |x| ==> x[i].day == day
    ensures Fill(compound, d, p + x).balance
              == Fill(compound, d, p).balance + TableInterest(compound, Fill(compound, d, p).balance, d, LastGap(p, day)) + NetDelta(x)
    decreases |x|
  {
    var n := |x| - 1;
    var q := p + x[..n];
    assert Fill(compound, d, p + x) == Fill(compound, d, q + [x[n]]) by {
      assert p + x == q + [x[n]];
    }
    FillAppend(compound, d, q, x[n]);
    assert NetDelta(x) == NetDelta(x[..n]) + Delta(x[n].kind, x[n].amount);
    if n == 0 {
      assert q == p;
    } else {
      var b := Fill(compound, d, p).balance;
      assert Fill(compound, d, q).balance
          == b + TableInterest(compound, b, d, LastGap(p, day)) + NetDelta(x[..n]) by {
        FillRun(compound, d, p, x[..n], day);
      }
      assert LastGap(q, day) == 0 by {
        assert q[|q| - 1] == x[n - 1];
      }
    }
  }

  /** The loop after one more entry. */
  lemma FillAppend(compound: bool, d: real, p: seq<Entry>, e: Entry)
    ensures Fill(compound, d, p + [e]) == Accrue(compound, d, Fill(compound, d, p), e, LastGap(p, e.day))
  {
    assert (p + [e])[..|p|] == p;
  }

  /** A step depends on the loop state only through its balance. */
  lemma AccrueSame(compound: bool, d: real, c: Columns, c': Columns, e: Entry, days: int)
    requires c.balance == c'.balance
    ensures Accrue(compound, d, c, e, days).balance == Accrue(compound, d, c', e, days).balance
  {
  }

  /** One more entry after two prefixes with the same balance and the same
      last day keeps the balances equal. */
  lemma AppendSame(compound: bool, d: real, p: seq<Entry>, q: seq<Entry>, e: Entry)
    requires Fill(compound, d, p).balance == Fill(compound, d, q).balance
    requires |p| == |q| && (p != [] ==> p[|p| - 1].day == q[|q| - 1].day)
    ensures Fill(compound, d, p + [e]).balance == Fill(compound, d, q + [e]).balance
  {
    FillAppend(compound, d, p, e);
    FillAppend(compound, d, q, e);
    AccrueSame(compound, d, Fill(compound, d, p), Fill(compound, d, q), e, LastGap(p, e.day));
  }

  /** In a sequence sorted by date no element is later than the last. */
  lemma LastIsLatest(es: seq<Entry>, e: Entry)
    requires SortedBy(es, EntryDay) && e in es
    ensures e.day <= es[|es| - 1].day
  {
    var i :| 0 <= i < |es| && es[i] == e;
    if i < |es| - 1 {
      assert EntryDay(es[i]) <= EntryDay(es[|es| - 1]);
    }
  }

  /** Two date orders of the same entries end on the same day. */
  lemma SameLastDay(es: seq<Entry>, fs: seq<Entry>)
    requires SortedBy(es, EntryDay) && SortedBy(fs, EntryDay)
    requires multiset(es) == multiset(fs) && es != []
    ensures fs != [] && es[|es| - 1].day == fs[|fs| - 1].day
  {
    assert es[|es| - 1] in multiset(fs);
    assert fs[|fs| - 1] in multiset(es);
    LastIsLatest(fs, es[|es| - 1]);
    LastIsLatest(es, fs[|fs| - 1]);
  }

  lemma RemoveAt<T>(s: seq<T>, j: nat)
    requires j < |s|
    ensures s == s[..j] + [s[j]] + s[j + 1..]
    ensures multiset(s[..j] + s[j + 1..]) == multiset(s) - multiset{s[j]}
  {
    assert s == s[..j] + [s[j]] + s[j + 1..];
  }

  /** Leaving one element out keeps a sequence sorted. */
  lemma SortedWithout(fs: seq<Entry>, j: nat)
    requires SortedBy(fs, EntryDay) && j < |fs|
    ensures SortedBy(fs[..j] + fs[j + 1..], EntryDay)
  {
    var rest := fs[..j] + fs[j + 1..];
    forall a, b | 0 <= a < b < |rest|
      ensures EntryDay(rest[a]) <= EntryDay(rest[b])
    {
      var a' := if a < j then a else a + 1;
      var b' := if b < j then b else b + 1;
      assert rest[a] == fs[a'] && rest[b] == fs[b'];
    }
  }

  lemma SortedPrefix(es: seq<Entry>, n: nat)
    requires SortedBy(es, EntryDay) && n <= |es|
    ensures SortedBy(es[..n], EntryDay)
  {
    forall a, b | 0 <= a < b < n
      ensures EntryDay(es[..n][a]) <= EntryDay(es[..n][b])
    {
      assert es[..n][a] == es[a] && es[..n][b] == es[b];
    }
  }

  /** In date order, everything after an entry of the latest date is of
      that date too. */
  lemma LatestRun(es: seq<Entry>, fs: seq<Entry>, j: nat)
    requires SortedBy(es, EntryDay) && SortedBy(fs, EntryDay)
    requires multiset(es) == multiset(fs) && es != []
    requires j < |fs| && fs[j] == es[|es| - 1]
    ensures forall i :: j < i < |fs| ==> fs[i].day == fs[j].day
  {
    forall i | j < i < |fs|
      ensures fs[i].day == fs[j].day
    {
      assert EntryDay(fs[j]) <= EntryDay(fs[i]);
      assert fs[i] in multiset(es);
      LastIsLatest(es, fs[i]);
    }
  }

  /** An entry followed by a run of its own date, after a prefix. */
  lemma RunFront(compound: bool, d: real, p: seq<Entry>, e: Entry, s: seq<Entry>)
    requires forall i :: 0 <= i < |s| ==> s[i].day == e.day
    ensures Fill(compound, d, p + ([e] + s)).balance
         == Fill(compound, d, p).balance + TableInterest(compound, Fill(compound, d, p).balance, d, LastGap(p, e.day)) + (NetDelta([e]) + NetDelta(s))
  {
    FillRun(compound, d, p, [e] + s, e.day);
    NetDeltaAppend([e], s);
  }

  /** The same entries with the one moved to the end of the run. */
  lemma RunBack(compound: bool, d: real, p: seq<Entry>, e: Entry, s: seq<Entry>)
    requires s != []
    requires forall i :: 0 <= i < |s| ==> s[i].day == e.day
    ensures Fill(compound, d, p + s + [e]).balance
         == Fill(compound, d, p).balance + TableInterest(compound, Fill(compound, d, p).balance, d, LastGap(p, e.day)) + (NetDelta([e]) + NetDelta(s))
  {
    var rest := p + s;
    FillRun(compound, d, p, s, e.day);
    FillRun(compound, d, rest, [e], e.day);
    assert LastGap(rest, e.day) == 0 by {
      assert rest[|rest| - 1] == s[|s| - 1];
    }
  }

  /** Moving an entry to the end past a run of its own date leaves the
      balance as it was. */
  lemma MoveToEnd(compound: bool, d: real, fs: seq<Entry>, j: nat)
    requires j < |fs|
    requires forall i :: j < i < |fs| ==> fs[i].day == fs[j].day
    ensures Fill(compound, d, fs).balance == Fill(compound, d, fs[..j] + fs[j + 1..] + [fs[j]]).balance
  {
    var e, p, s := fs[j], fs[..j], fs[j + 1..];
    forall i | 0 <= i < |s|
      ensures s[i].day == e.day
    {
      assert s[i] == fs[j + 1 + i];
    }
    if s == [] {
      assert fs == p + s + [e];
    } else {
      assert fs == p + ([e] + s);
      RunFront(compound, d, p, e, s);
      RunBack(compound, d, p, e, s);
    }
  }

  /** The balance the table's loop ends on is the same for any two date
      orders of the same entries. */
  lemma {:induction false} FillOrderFree(compound: bool, d: real, es: seq<Entry>, fs: seq<Entry>)
    requires SortedBy(es, EntryDay) && SortedBy(fs, EntryDay)
    requires multiset(es) == multiset(fs)
    ensures Fill(compound, d, es).balance == Fill(compound, d, fs).balance
    decreases |es|
  {
    if es == [] {
      assert |fs| == |multiset(fs)|;
      assert fs == [];
    } else {
      var n := |es| - 1;
      var e := es[n];
      assert e in multiset(fs);
      var j :| 0 <= j < |fs| && fs[j] == e;
      var rest := fs[..j] + fs[j + 1..];
      LatestRun(es, fs, j);
      SortedWithout(fs, j);
      SortedPrefix(es, n);
      RemoveAt(fs, j);
      RemoveAt(es, n);
      assert es[..n] + es[n + 1..] == es[..n];
      FillOrderFree(compound, d, es[..n], rest);
      MoveToEnd(compound, d, fs, j);
      assert es == es[..n] + [e];
      if n > 0 {
        SameLastDay(es[..n], rest);
      }
      AppendSame(compound, d, es[..n], rest, e);
    }
  }

  lemma EntriesAppend(a: seq<Transaction>, b: seq<Transaction>)
    ensures Entries(a + b) == Entries(a) + Entries(b)
  {
  }

  /** Taking a transaction out takes its entry out. */
  lemma EntriesRemove(b: seq<Transaction>, j: nat)
    requires j < |b|
    ensures multiset(Entries(b)) == multiset(Entries([b[j]])) + multiset(Entries(b[..j] + b[j + 1..]))
  {
    RemoveAt(b, j);
    var l, r := b[..j], b[j + 1..];
    EntriesAppend(l + [b[j]], r);
    EntriesAppend(l, [b[j]]);
    EntriesAppend(l, r);
    var el, ex, er := Entries(l), Entries([b[j]]), Entries(r);
    assert multiset(Entries(b)) == multiset(el) + multiset(ex) + multiset(er);
    assert multiset(Entries(l + r)) == multiset(el) + multiset(er);
  }

  /** Reordering the transactions reorders their entries. */
  lemma {:induction false} EntriesPermute(a: seq<Transaction>, b: seq<Transaction>)
    requires multiset(a) == multiset(b)
    ensures multiset(Entries(a)) == multiset(Entries(b))
    decreases |a|
  {
    if a == [] {
      assert |b| == |multiset(b)|;
      assert Entries(a) == Entries(b) == [];
    } else {
      var x := a[0];
      assert x in multiset(b);
      var j :| 0 <= j < |b| && b[j] == x;
      RemoveAt(b, j);
      assert a == [x] + a[1..];
      assert multiset(a[1..]) == multiset(b[..j] + b[j + 1..]);
      EntriesPermute(a[1..], b[..j] + b[j + 1..]);
      EntriesAppend([x], a[1..]);
      EntriesRemove(b, j);
    }
  }

  /** The loop's last balance cell is its unrounded balance, rounded. */
  lemma FillLastBalance(compound: bool, d: real, es: seq<Entry>)
    requires es != []
    ensures Fill(compound, d, es).balances[|es| - 1] == Round2(Fill(compound, d, es).balance)
  {
  }

  /** Whatever order the transactions come in, the table's loop and the
      compound loop variant carry the same balance up to the same last day. */
  lemma CarriedAgrees(ts: seq<Transaction>, rate: real)
    requires ts != []
    ensures var es := Arrange(ts);
            var c := Replay(Compound, ts, rate);
            |es| == |ts| &&
            Fill(true, DailyRate(rate), es).balance == c.balance &&
            es[|es| - 1].day == c.lastDay
  {
    var d := DailyRate(rate);
    var s := Chronological(ts);
    SortCorrect(ts, ByInstant);
    SortSorted(s, ByInstant);
    SortedBody(s, rate, true);
    assert Replay(Compound, s, rate) == Replay(Compound, ts, rate);
    var es := Arrange(ts);
    SortCorrect(Entries(ts), EntryDay);
    EntriesPermute(s, ts);
    EntriesSorted(s);
    FillOrderFree(true, d, es, Entries(s));
    SameLastDay(es, Entries(s));
  }

  /** In "compound" mode the table ends on the compound ledger's final
      balance, whatever order the transactions come in. */
  lemma CompoundBalanceAgrees(ts: seq<Transaction>, rate: real, asOf: int)
    ensures var t := LedgerTable(ts, rate, asOf, "compound");
            ts != [] ==>
              |t| > 0 && RunningLedger(Compound, ts, rate, asOf).balance == t[|t| - 1].balance
  {
    if ts != [] {
      var d := DailyRate(rate);
      var es := Arrange(ts);
      var f := Fill(true, d, es);
      var c := Replay(Compound, ts, rate);
      var days := asOf - c.lastDay;
      CarriedAgrees(ts, rate);
      TableIsClosed(ts, rate, asOf, "compound");
      ClosedShape(true, d, Frame(es, Gaps(es), f), f.balance, es[|es| - 1].day, asOf);
      if days > 0 && c.balance > 0.0 {
        InterestAgrees(true, c.balance, d, days);
      } else {
        FillLastBalance(true, d, es);
      }
    }
  }

  /** The loop's columns over a prefix are the prefix of its columns. */
  lemma {:induction false} FillPrefix(compound: bool, d: real, es: seq<Entry>, k: nat)
    requires k <= |es|
    ensures Fill(compound, d, es[..k]).interests == Fill(compound, d, es).interests[..k]
    ensures Fill(compound, d, es[..k]).balances == Fill(compound, d, es).balances[..k]
    decreases |es|
  {
    if k == |es| {
      assert es[..k] == es;
    } else {
      var n := |es| - 1;
      var prev := Fill(compound, d, es[..n]);
      var next := Accrue(compound, d, prev, es[n], DayGap(es, n));
      assert Fill(compound, d, es) == next;
      assert next.interests[..k] == prev.interests[..k] && next.balances[..k] == prev.balances[..k];
      FillPrefix(compound, d, es[..n], k);
      assert es[..n][..k] == es[..k];
    }
  }

  /** Whatever order the transactions come in, a row of the table shows
      interest only when a positive balance was carried into it over a
      positive gap. */
  lemma InterestNeedsCarriedBalance(ts: seq<Transaction>, rate: real, asOf: int, mode: string, k: nat)
    requires k < |ts|
    ensures var es := Arrange(ts);
            var t := LedgerTable(ts, rate, asOf, mode);
            var carried := Fill(mode == "compound", DailyRate(rate), es[..k]).balance;
            |es| == |ts| && |ts| <= |t| &&
            (carried <= 0.0 || t[k].days <= 0 ==> t[k].interest == 0.0)
  {
    var compound := mode == "compound";
    var d := DailyRate(rate);
    var es := Arrange(ts);
    var prev := Fill(compound, d, es[..k]);
    var i := TableInterest(compound, prev.balance, d, DayGap(es, k));
    TableRows(ts, rate, asOf, mode);
    FillPrefix(compound, d, es, k + 1);
    FillSnoc(compound, d, es, k + 1);
    assert Fill(compound, d, es).interests[k] == Fill(compound, d, es[..k + 1]).interests[k] == Round2(i);
    if prev.balance <= 0.0 || DayGap(es, k) <= 0 {
      assert i == 0.0;
      Round2Zero();
    }
  }
}
