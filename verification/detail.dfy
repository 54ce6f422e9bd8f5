/**
 * The borrower detail page (app.py, `borrower_detail`): the interest mode is
 * taken from the query string when it names one of the two modes, and is
 * then remembered on the borrower; otherwise the remembered mode is used,
 * with "simple" when none is stored. Only "compound" selects the compound
 * engine. The resulting ledger is shown twenty rows per page, the page
 * being cut with Python's slice rules.
 */
module Detail {
  import opened Wrappers
  import opened Slices
  import opened Accrual
  import opened LedgerFacts

  const PerPage: nat := 20

  /** `(total + per_page - 1) // per_page`. */
  function TotalPages(total: nat): nat
  {
    (total + PerPage - 1) / PerPage
  }

  /** `ledger[start:end]` for `start = (page - 1) * per_page` and
      `end = start + per_page`. */
  function Page<T>(ledger: seq<T>, page: int): seq<T>
  {
    var start := (page - 1) * PerPage;
    Slice(ledger, start, start + PerPage)
  }

  /** Pages `1..n` one after the other. */
  function Paged<T>(ledger: seq<T>, n: nat): seq<T>
  {
    if n == 0 then [] else Paged(ledger, n - 1) + Page(ledger, n)
  }

  /** The page count is the ceiling of `total / 20`: enough pages for every
      row, and no page wholly empty; it is zero exactly when there are no
      rows. */
  lemma TotalPagesCeiling(total: nat)
    ensures TotalPages(total) * PerPage >= total
    ensures TotalPages(total) > 0 ==> (TotalPages(total) - 1) * PerPage < total
    ensures TotalPages(total) == 0 <==> total == 0
  {
  }

  /** Whatever the page number, a page holds at most twenty rows. */
  lemma PageBounded<T>(ledger: seq<T>, page: int)
    ensures |Page(ledger, page)| <= PerPage
  {
    SliceWidth(ledger, (page - 1) * PerPage, PerPage);
  }

  /** A page within the count is the non-empty run of rows starting at
      `(page - 1) * 20`. */
  lemma PageInRange<T>(ledger: seq<T>, page: int)
    requires 1 <= page <= TotalPages(|ledger|)
    ensures var start := (page - 1) * PerPage;
            var stop := if page * PerPage <= |ledger| then page * PerPage else |ledger|;
            start < stop && Page(ledger, page) == ledger[start..stop]
  {
    TotalPagesCeiling(|ledger|);
  }

  /** Past the last page, and on page 0, nothing is shown. */
  lemma PageOutOfRange<T>(ledger: seq<T>, page: int)
    requires page == 0 || page > TotalPages(|ledger|)
    ensures Page(ledger, page) == []
  {
    TotalPagesCeiling(|ledger|);
  }

  /** A negative page number counts from the end, as Python's negative slice
      bounds do: page -1 shows the twenty rows before the last twenty. */
  lemma NegativePageFromEnd<T>(ledger: seq<T>, page: int)
    requires page < 0 && |ledger| >= (1 - page) * PerPage
    ensures Page(ledger, page) == ledger[|ledger| + (page - 1) * PerPage..|ledger| + page * PerPage]
  {
  }

  /** The first `n` pages are the first `20 * n` rows. */
  lemma {:induction false} PagedPrefix<T>(ledger: seq<T>, n: nat)
    ensures Paged(ledger, n) == Slice(ledger, 0, n * PerPage)
  {
    if n > 0 {
      PagedPrefix(ledger, n - 1);
      SliceAdjacent(ledger, 0, (n - 1) * PerPage, n * PerPage);
    }
  }

  /** Reading pages 1 to `total_pages` in turn shows the whole ledger, each
      row once and in order. */
  lemma PagesCoverLedger<T>(ledger: seq<T>)
    ensures Paged(ledger, TotalPages(|ledger|)) == ledger
  {
    PagedPrefix(ledger, TotalPages(|ledger|));
    TotalPagesCeiling(|ledger|);
  }

  /** A query value that is one of the two modes. */
  predicate Named(query: Option<string>)
  {
    query == Some("simple") || query == Some("compound")
  }

  /** The mode the page uses: a named query mode, else the stored one, with
      "simple" when the stored one is missing or empty. */
  function ChosenMode(query: Option<string>, saved: Option<string>): string
  {
    if Named(query) then query.value
    else if saved == None || saved == Some("") then "simple"
    else saved.value
  }

  /** The mode stored on the borrower afterwards. */
  function Stored(query: Option<string>, saved: Option<string>): Option<string>
  {
    if Named(query) then query else saved
  }

  /** The engine that computes the ledger: compound for "compound" only. */
  function EngineOf(mode: string): Mode
  {
    if mode == "compound" then Compound else Simple
  }

  /** The compound engine runs exactly when the query asks for it, or when
      the query names no mode and "compound" is stored. */
  lemma CompoundWhenAsked(query: Option<string>, saved: Option<string>)
    ensures EngineOf(ChosenMode(query, saved)) == Compound <==>
            (query == Some("compound") || (!Named(query) && saved == Some("compound")))
  {
  }

  /** A choice sticks: a later visit whose query names no mode uses the
      mode this visit used. */
  lemma ChoiceSticks(query: Option<string>, saved: Option<string>, later: Option<string>)
    requires !Named(later)
    ensures ChosenMode(later, Stored(query, saved)) == ChosenMode(query, saved)
  {
  }

  /** A borrower as the detail page sees it. */
  class Borrower {
    var rate: real
    var transactions: seq<Transaction>
    var preferredMode: Option<string>

    constructor (rate: real, transactions: seq<Transaction>, preferredMode: Option<string>)
      ensures this.rate == rate && this.transactions == transactions
      ensures this.preferredMode == preferredMode
    {
      this.rate := rate;
      this.transactions := transactions;
      this.preferredMode := preferredMode;
    }

    /** Picks the mode for this visit and remembers a named one. */
    method SelectMode(query: Option<string>) returns (mode: string)
      modifies this
      ensures mode == ChosenMode(query, old(preferredMode))
      ensures preferredMode == Stored(query, old(preferredMode))
      ensures rate == old(rate) && transactions == old(transactions)
    {
      if query == Some("simple") || query == Some("compound") {
        preferredMode := query;
        mode := query.value;
      } else if preferredMode == None || preferredMode == Some("") {
        mode := "simple";
      } else {
        mode := preferredMode.value;
      }
    }
  }

  /** What the page renders. */
  datatype View = View(mode: string, balance: real, rows: seq<Row>, page: int, totalPages: nat, total: nat)

  /** The page for a stored mode, a query, the borrower's data and a page
      number. */
  function DetailOf(query: Option<string>, saved: Option<string>, ts: seq<Transaction>,
                    rate: real, page: int, asOf: int): View
  {
    var mode := ChosenMode(query, saved);
    var l := RunningLedger(EngineOf(mode), ts, rate, asOf);
    View(mode, l.balance, Page(l.rows, page), page, TotalPages(|l.rows|), |l.rows|)
  }

  /** The page shows at most twenty rows, enough pages are counted for all
      of them, and with transactions present the simple engine's ledger
      has one row per transaction and the accrual row. */
  lemma DetailPaging(query: Option<string>, saved: Option<string>, ts: seq<Transaction>,
                     rate: real, page: int, asOf: int)
    ensures var v := DetailOf(query, saved, ts, rate, page, asOf);
            |v.rows| <= PerPage && v.totalPages * PerPage >= v.total &&
            (ts != [] && EngineOf(v.mode) == Simple ==> v.total == |ts| + 1) &&
            (ts != [] ==> v.total >= |ts|)
  {
    var mode := ChosenMode(query, saved);
    var l := RunningLedger(EngineOf(mode), ts, rate, asOf);
    PageBounded(l.rows, page);
    TotalPagesCeiling(|l.rows|);
    if ts != [] {
      LedgerKeepsRows(EngineOf(mode), ts, rate, asOf);
      if EngineOf(mode) == Simple {
        SimpleShape(ts, rate, asOf);
      }
    }
  }

  /** `borrower_detail`: selects and stores the mode, runs the matching
      engine and cuts out the requested page. */
  method BorrowerDetail(b: Borrower, query: Option<string>, page: int, asOf: int) returns (view: View)
    modifies b
    ensures view == DetailOf(query, old(b.preferredMode), b.transactions, b.rate, page, asOf)
    ensures b.preferredMode == Stored(query, old(b.preferredMode))
    ensures b.rate == old(b.rate) && b.transactions == old(b.transactions)
  {
    var mode := b.SelectMode(query);
    var balance, ledger;
    if mode == "compound" {
      balance, ledger := RunningCompoundBalance(b.transactions, b.rate, asOf);
    } else {
      balance, ledger := RunningSimpleBalance(b.transactions, b.rate, asOf);
    }
    var perPage := 20;
    var total := |ledger|;
    var totalPages := (total + perPage - 1) / perPage;
    var start := (page - 1) * perPage;
    var end := start + perPage;
    view := View(mode, balance, Slice(ledger, start, end), page, totalPages, total);
  }
}
