/**
 * Sales that each read the open lots again, as `src/features/ledger/service.ts` does
 * (lines 340-375): how much of the order of a listing a sale can see, and what any number
 * of such sales leave.
 */
module FifoReads {
  import opened Arith
  import opened Decimals
  import opened DecimalText
  import opened Sorting
  import opened Fifo
  import opened FifoLaws

  // ---------------------------------------------------- what the query for the lots returns

  /** `qty_remaining > 0`. */
  function OpenOnly(lots: seq<OpenLot>): seq<OpenLot> {
    Filter((lot: OpenLot) => Avail(lot) > 0, lots)
  }

  lemma {:induction false} EmptyLotsAreSkipped(lots: seq<OpenLot>, remaining: int, u: Decimal)
    ensures Walk(OpenOnly(lots), remaining, u) == Walk(lots, remaining, u)
  {
    hide Avail, Allocate;
    if lots == [] {
      assert OpenOnly(lots) == [];
    } else {
      var lot, rest := lots[0], lots[1..];
      var t := TakeFrom(Avail(lot), remaining);
      assert lots == [lot] + rest;
      FilterHead((l: OpenLot) => Avail(l) > 0, lot, rest);
      assert OpenOnly(lots) == (if Avail(lot) > 0 then [lot] else []) + OpenOnly(rest);
      EmptyLotsAreSkipped(rest, remaining - t, u);
      if Avail(lot) > 0 {
        assert ([lot] + OpenOnly(rest))[1..] == OpenOnly(rest);
      } else {
        assert [] + OpenOnly(rest) == OpenOnly(rest);
      }
    }
  }

  lemma SaleOfOpenLots(lots: seq<OpenLot>, qty: string, p: string)
    ensures FifoOf(OpenOnly(lots), qty, p) == FifoOf(lots, qty, p)
  {
    hide Sort, Walk, Filter, Avail, Summarise;
    OpenedByIsTotal();
    SortOfFilter((lot: OpenLot) => Avail(lot) > 0, lots, OPENED_BY);
    EmptyLotsAreSkipped(DateOrder(lots), Parse(qty).raw, UnitProceeds(Parse(qty), Parse(p)));
  }

  // -------------------------------------------------------- how much of the order a sale sees

  /** The listings agree on every lot that a sale of `q` reaches. */
  predicate AlikeUpTo(a: seq<OpenLot>, b: seq<OpenLot>, q: int) {
    |a| == |b| && forall k :: 0 <= k < |a| && PriorAvail(a, k) < q ==> a[k] == b[k]
  }

  predicate AllOpen(lots: seq<OpenLot>) {
    forall k :: 0 <= k < |lots| ==> Avail(lots[k]) > 0
  }

  predicate NamesAgree(a: seq<OpenLot>, b: seq<OpenLot>) {
    forall i, j :: 0 <= i < |a| && 0 <= j < |b| && a[i].id == b[j].id ==> a[i] == b[j]
  }

  lemma ReachesPast(lots: seq<OpenLot>, q: int, k: nat)
    requires q > 0 && k + 1 < |lots|
    ensures PriorAvail(lots, k + 1) < q <==> PriorAvail(lots[1..], k) < q - TakeFrom(Avail(lots[0]), q)
  {
    hide Avail;
    PriorAvailShift(lots, k);
    PriorAvailNonneg(lots[1..], k);
  }

  lemma AlikeStep(a: seq<OpenLot>, b: seq<OpenLot>, q: int)
    requires |a| == |b| && a != [] && q > 0
    ensures AlikeUpTo(a, b, q) <==> a[0] == b[0] && AlikeUpTo(a[1..], b[1..], q - TakeFrom(Avail(a[0]), q))
  {
    assert PriorAvail(a, 0) == 0;
    hide Avail, PriorAvail, TakeFrom;
    var left := q - TakeFrom(Avail(a[0]), q);
    forall k: nat | k + 1 < |a|
      ensures PriorAvail(a, k + 1) < q <==> PriorAvail(a[1..], k) < left
      ensures a[k + 1] == b[k + 1] <==> a[1..][k] == b[1..][k]
    {
      ReachesPast(a, q, k);
    }
    if a[0] == b[0] && AlikeUpTo(a[1..], b[1..], left) {
      forall k | 0 <= k < |a| && PriorAvail(a, k) < q ensures a[k] == b[k] {
        if k > 0 { assert PriorAvail(a, (k - 1) + 1) < q; }
      }
    }
  }

  lemma NothingReached(a: seq<OpenLot>, b: seq<OpenLot>, q: int)
    requires |a| == |b| && q <= 0
    ensures AlikeUpTo(a, b, q)
  {
    hide PriorAvail;
    forall k | 0 <= k < |a| ensures PriorAvail(a, k) >= 0 { PriorAvailNonneg(a, k); }
  }

  lemma WalkFromOpen(lots: seq<OpenLot>, q: int, u: Decimal)
    requires lots != [] && q > 0 && Avail(lots[0]) > 0
    ensures var t := TakeFrom(Avail(lots[0]), q);
      Walk(lots, q, u) == [Allocate(lots[0], t, u)] + Walk(lots[1..], q - t, u)
  {
    hide Avail, Allocate;
  }

  lemma OpenTail(a: seq<OpenLot>, b: seq<OpenLot>)
    requires a != [] && b != [] && AllOpen(a) && AllOpen(b) && NamesAgree(a, b)
    ensures AllOpen(a[1..]) && AllOpen(b[1..]) && NamesAgree(a[1..], b[1..])
    ensures Avail(a[0]) > 0 && Avail(b[0]) > 0 && (a[0].id == b[0].id ==> a[0] == b[0])
  {
    hide Avail;
  }

  lemma SameFirstLot(a: seq<OpenLot>, b: seq<OpenLot>, q: int, u: Decimal)
    requires |a| == |b| && a != [] && q > 0 && AllOpen(a) && AllOpen(b) && NamesAgree(a, b)
    requires Walk(a, q, u) == Walk(b, q, u)
    ensures a[0] == b[0] && AllOpen(a[1..]) && AllOpen(b[1..]) && NamesAgree(a[1..], b[1..])
    ensures Walk(a[1..], q - TakeFrom(Avail(a[0]), q), u) == Walk(b[1..], q - TakeFrom(Avail(b[0]), q), u)
  {
    hide Avail, Allocate, Walk, TakeFrom, AllOpen, NamesAgree;
    OpenTail(a, b);
    WalkFromOpen(a, q, u);
    WalkFromOpen(b, q, u);
    AllocateFields(a[0], TakeFrom(Avail(a[0]), q), u);
    AllocateFields(b[0], TakeFrom(Avail(b[0]), q), u);
    HeadsAndTails([Allocate(a[0], TakeFrom(Avail(a[0]), q), u)], [Allocate(b[0], TakeFrom(Avail(b[0]), q), u)],
                  Walk(a[1..], q - TakeFrom(Avail(a[0]), q), u), Walk(b[1..], q - TakeFrom(Avail(b[0]), q), u));
  }

  /** Two listings give a sale the same allocations exactly when they agree on the lots it reaches. */
  lemma {:induction false} SameWalkIff(a: seq<OpenLot>, b: seq<OpenLot>, q: int, u: Decimal)
    requires |a| == |b|
    ensures AlikeUpTo(a, b, q) ==> Walk(a, q, u) == Walk(b, q, u)
    ensures AllOpen(a) && AllOpen(b) && NamesAgree(a, b) && Walk(a, q, u) == Walk(b, q, u) ==> AlikeUpTo(a, b, q)
  {
    hide Avail, AlikeUpTo, Allocate;
    if a == [] || q <= 0 {
      WalkOfNothing(a, q, u);
      WalkOfNothing(b, q, u);
      if q <= 0 { NothingReached(a, b, q); } else { NoLotsAlike(q); }
    } else {
      AlikeStep(a, b, q);
      SameWalkIff(a[1..], b[1..], q - TakeFrom(Avail(a[0]), q), u);
      if AllOpen(a) && AllOpen(b) && NamesAgree(a, b) && Walk(a, q, u) == Walk(b, q, u) {
        SameFirstLot(a, b, q, u);
      }
    }
  }

  lemma NoLotsAlike(q: int)
    ensures AlikeUpTo([], [], q)
  {}

  lemma {:induction false} IdsNameLots(lots: seq<OpenLot>)
    ensures forall i :: 0 <= i < |lots| ==> lots[i].id in Ids(lots)
    ensures DistinctIds(lots) ==> NamesAgree(lots, lots)
  {
    if lots != [] {
      IdsNameLots(lots[1..]);
      forall i | 0 <= i < |lots| ensures i > 0 ==> lots[i].id in Ids(lots[1..]) {
        if i > 0 { assert lots[i] == lots[1..][i - 1]; }
      }
      if DistinctIds(lots) {
        forall i, j | 0 <= i < |lots| && 0 <= j < |lots| && lots[i].id == lots[j].id ensures lots[i] == lots[j] {
          if i > 0 && j > 0 { assert lots[i] == lots[1..][i - 1] && lots[j] == lots[1..][j - 1]; }
        }
      }
    }
  }

  lemma Shuffled(a: seq<OpenLot>, lots: seq<OpenLot>)
    requires multiset(a) == multiset(lots) && DistinctIds(lots) && AllOpen(lots)
    ensures |a| == |lots| && AllOpen(a) && NamesAgree(a, lots)
  {
    hide Avail, DistinctIds;
    IdsNameLots(lots);
    assert |a| == |multiset(a)| == |multiset(lots)| == |lots|;
    forall i | 0 <= i < |a| ensures exists j :: 0 <= j < |lots| && lots[j] == a[i] {
      assert a[i] in multiset(lots);
    }
  }

  lemma AlikeSale(reread: seq<OpenLot>, lots: seq<OpenLot>, qty: string, p: string)
    requires AlikeUpTo(DateOrder(reread), DateOrder(lots), Parse(qty).raw)
    ensures FifoOf(reread, qty, p) == FifoOf(lots, qty, p)
  {
    hide DateOrder, AlikeUpTo, Walk, Summarise, Parse;
    AlikeLengths(DateOrder(reread), DateOrder(lots), Parse(qty).raw);
    SameWalkIff(DateOrder(reread), DateOrder(lots), Parse(qty).raw, UnitProceeds(Parse(qty), Parse(p)));
  }

  lemma AlikeLengths(a: seq<OpenLot>, b: seq<OpenLot>, q: int)
    requires AlikeUpTo(a, b, q)
    ensures |a| == |b|
  {}

  /** A sale goes alike from any two listings of the open lots exactly when it reaches the same lots in both. */
  lemma SameSaleIff(reread: seq<OpenLot>, lots: seq<OpenLot>, qty: string, p: string)
    requires multiset(reread) == multiset(lots) && DistinctIds(lots) && AllOpen(lots)
    ensures FifoOf(reread, qty, p) == FifoOf(lots, qty, p)
       <==> AlikeUpTo(DateOrder(reread), DateOrder(lots), Parse(qty).raw)
  {
    hide AlikeUpTo, Walk, Parse, Avail, DistinctIds, Sort;
    var a, b, q, u := DateOrder(reread), DateOrder(lots), Parse(qty).raw, UnitProceeds(Parse(qty), Parse(p));
    OpenedByIsTotal();
    SortIsSortedPermutation(reread, OPENED_BY);
    SortIsSortedPermutation(lots, OPENED_BY);
    DateOrderKeepsIds(lots);
    Shuffled(b, lots);
    Shuffled(a, b);
    SameWalkIff(a, b, q, u);
    if FifoOf(reread, qty, p) == FifoOf(lots, qty, p) {
      assert Walk(a, q, u) == FifoOf(reread, qty, p).allocations == FifoOf(lots, qty, p).allocations == Walk(b, q, u);
    } else if AlikeUpTo(a, b, q) {
      AlikeSale(reread, lots, qty, p);
    }
  }

  lemma {:induction false} OneDateIsInOrder(lots: seq<OpenLot>)
    requires forall k :: 0 <= k < |lots| ==> lots[k].openedAt == lots[0].openedAt
    ensures DateOrder(lots) == lots
  {
    hide TextLeq;
    if lots != [] {
      TextLeqTotal(lots[0].openedAt, lots[0].openedAt);
      OneDateIsInOrder(lots[1..]);
      assert Sort(lots, OPENED_BY) == Insert(lots[0], Sort(lots[1..], OPENED_BY), OPENED_BY);
    }
  }

  /** Of lots of one date, exchanging any two changes a sale exactly when the sale reaches the earlier one. */
  lemma SameDateOrderMatters(lots: seq<OpenLot>, i: nat, j: nat, qty: string, p: string)
    requires i < j < |lots| && DistinctIds(lots) && AllOpen(lots)
    requires forall k :: 0 <= k < |lots| ==> lots[k].openedAt == lots[0].openedAt
    ensures FifoOf(lots[i := lots[j]][j := lots[i]], qty, p) != FifoOf(lots, qty, p)
       <==> PriorAvail(lots, i) < Parse(qty).raw
  {
    hide Avail, DistinctIds, Parse, FifoOf, DateOrder;
    var swapped, q := lots[i := lots[j]][j := lots[i]], Parse(qty).raw;
    SameSaleIff(swapped, lots, qty, p);
    OneDateIsInOrder(lots);
    OneDateIsInOrder(swapped);
    ExchangedAlike(lots, i, j, q);
  }

  lemma ExchangedAlike(lots: seq<OpenLot>, i: nat, j: nat, q: int)
    requires i < j < |lots| && DistinctIds(lots)
    ensures AlikeUpTo(lots[i := lots[j]][j := lots[i]], lots, q) <==> PriorAvail(lots, i) >= q
  {
    var swapped := lots[i := lots[j]][j := lots[i]];
    DistinctIdsApart(lots, i, j);
    hide Avail, PriorAvail, DistinctIds;
    SamePrior(swapped, lots, i);
    forall k | i <= k < |lots| ensures PriorAvail(swapped, k) >= PriorAvail(swapped, i) {
      PriorAvailMono(swapped, i, k);
    }
  }

  lemma {:induction false} SamePrior(a: seq<OpenLot>, b: seq<OpenLot>, i: nat)
    requires i <= |a| && i <= |b| && a[..i] == b[..i]
    ensures PriorAvail(a, i) == PriorAvail(b, i)
  {
    hide Avail;
    if i > 0 {
      assert a[..i - 1] == a[..i][..i - 1] == b[..i][..i - 1] == b[..i - 1];
      assert a[i - 1] == a[..i][i - 1] == b[..i][i - 1] == b[i - 1];
      SamePrior(a, b, i - 1);
    }
  }

  lemma {:induction false} DistinctIdsApart(lots: seq<OpenLot>, i: nat, j: nat)
    requires i < j < |lots| && DistinctIds(lots)
    ensures lots[i].id != lots[j].id
  {
    if i == 0 {
      IdsNameLots(lots[1..]);
      assert lots[j] == lots[1..][j - 1];
    } else {
      DistinctIdsApart(lots[1..], i - 1, j - 1);
    }
  }

  /** What a query returned agrees with the open lots of the table as far as a sale of `qty` reaches. */
  predicate ReadsLike(read: seq<OpenLot>, lots: seq<OpenLot>, qty: string) {
    AlikeUpTo(DateOrder(read), DateOrder(OpenOnly(lots)), Parse(qty).raw)
  }

  /** So it does for any quantity if it keeps lots of one date in table order. */
  lemma TableOrderReadsLike(read: seq<OpenLot>, lots: seq<OpenLot>, qty: string)
    requires SameTies(read, OpenOnly(lots), OPENED_BY)
    ensures ReadsLike(read, lots, qty)
  {
    hide Sort, SameTies, Parse, OpenOnly, PriorAvail;
    OpenedByIsTotal();
    SortsAlikeIff(read, OpenOnly(lots), OPENED_BY);
  }

  lemma ReadIsSale(read: seq<OpenLot>, lots: seq<OpenLot>, qty: string, p: string)
    requires ReadsLike(read, lots, qty)
    ensures FifoOf(read, qty, p) == FifoOf(lots, qty, p)
  {
    hide FifoOf, AlikeUpTo, OpenOnly, DateOrder;
    AlikeSale(read, OpenOnly(lots), qty, p);
    SaleOfOpenLots(lots, qty, p);
  }

  /**
   * The two-sale law for a second sale that reads the lots still open, in any order in
   * which it reaches the same lots: writing both sales back leaves what one sale leaves.
   */
  lemma TwoReadsAreOneSale(
      lots: seq<OpenLot>, reread: seq<OpenLot>, q1: string, p1: string, q2: string, p2: string, q: string, p: string)
    requires DistinctIds(lots) && ReadsLike(reread, Sell(lots, q1, p1), q2)
    requires Parse(q1).raw >= 0 && Parse(q2).raw >= 0 && Parse(q).raw == Parse(q1).raw + Parse(q2).raw
    ensures WriteBack(Sell(lots, q1, p1), FifoOf(reread, q2, p2).allocations) == Sell(lots, q, p)
    ensures Abs(SaleCost(lots, q1, p1) + SaleCost(reread, q2, p2) - SaleCost(lots, q, p)) <= 1
  {
    hide Parse, DateOrder, WriteBack, FifoOf, DistinctIds, ReadsLike;
    ReadIsSale(reread, Sell(lots, q1, p1), q2, p2);
    TwoSalesAreOneSale(lots, q1, p1, q2, p2, q, p);
  }

  // --------------------------------------------------------------------- any number of sales

  /** A sale together with the lots its query returned. */
  datatype ReadSale = ReadSale(read: seq<OpenLot>, sale: Sale)

  /** Every query agrees with the lots open at that time as far as its sale reaches. */
  ghost predicate ReadsAreCurrent(lots: seq<OpenLot>, sales: seq<ReadSale>)
    decreases |sales|
  {
    sales == []
    || (ReadsLike(sales[0].read, lots, sales[0].sale.qty) && ReadsAreCurrent(SellRead(lots, sales[0]), sales[1..]))
  }

  function SellRead(lots: seq<OpenLot>, s: ReadSale): seq<OpenLot> {
    WriteBack(lots, FifoOf(s.read, s.sale.qty, s.sale.proceeds).allocations)
  }

  function SellAllReads(lots: seq<OpenLot>, sales: seq<ReadSale>): seq<OpenLot>
    decreases |sales|
  {
    if sales == [] then lots else SellAllReads(SellRead(lots, sales[0]), sales[1..])
  }

  function TotalCostOfReads(sales: seq<ReadSale>): int {
    if sales == [] then 0
    else SaleCost(sales[0].read, sales[0].sale.qty, sales[0].sale.proceeds) + TotalCostOfReads(sales[1..])
  }

  function Sales(sales: seq<ReadSale>): (r: seq<Sale>)
    ensures |r| == |sales| && forall i :: 0 <= i < |sales| ==> r[i] == sales[i].sale
  {
    seq(|sales|, i requires 0 <= i < |sales| => sales[i].sale)
  }

  lemma {:induction false} ReadsAreSales(lots: seq<OpenLot>, sales: seq<ReadSale>)
    requires ReadsAreCurrent(lots, sales)
    ensures SellAllReads(lots, sales) == SellAll(lots, Sales(sales))
    ensures TotalCostOfReads(sales) == TotalCost(lots, Sales(sales))
    decreases |sales|
  {
    hide FifoOf, ReadsLike, WriteBack;
    if sales == [] {
    } else {
      ReadIsSale(sales[0].read, lots, sales[0].sale.qty, sales[0].sale.proceeds);
      ReadsAreSales(SellRead(lots, sales[0]), sales[1..]);
      assert Sales(sales)[1..] == Sales(sales[1..]);
    }
  }

  /** The same when each sale works on what its own query returned. */
  lemma ManyReadsAreOneSale(lots: seq<OpenLot>, sales: seq<ReadSale>, p: string)
    requires DistinctIds(lots) && sales != [] && ReadsAreCurrent(lots, sales)
    requires forall s :: s in sales ==> Parse(s.sale.qty).raw >= 0
    ensures var q := ToString(Decimal(TotalQty(Sales(sales))));
            && SellAllReads(lots, sales) == Sell(lots, q, p)
            && Abs(TotalCostOfReads(sales) - SaleCost(lots, q, p)) <= |sales| - 1
  {
    hide Parse, ToString, Sell, SaleCost, DistinctIds;
    hide ReadsAreCurrent, SellAllReads, SellAll, TotalCost, TotalCostOfReads;
    ReadsAreSales(lots, sales);
    forall s | s in Sales(sales) ensures Parse(s.qty).raw >= 0 {
      var i :| 0 <= i < |sales| && Sales(sales)[i] == s;
      assert sales[i] in sales;
    }
    ManySalesAreOneSale(lots, Sales(sales), p);
  }
}
