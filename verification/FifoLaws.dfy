/** What FIFO consumption guarantees over whole sales and runs of sales. */
module FifoLaws {
  import opened Arith
  import opened Decimals
  import opened DecimalText
  import opened Fifo
  import opened Options
  import opened Sorting

  // -------------------------------------------------- numeric view of one walk over lots

  function Taken(lots: seq<OpenLot>, remaining: int): int {
    if lots == [] then 0
    else
      var t := TakeFrom(Avail(lots[0]), remaining);
      t + Taken(lots[1..], remaining - t)
  }

  function LotCost(lot: OpenLot, take: int): int {
    Decimal(take).Mul(UnitCost(lot)).raw
  }

  function CostOf(lots: seq<OpenLot>, remaining: int): int {
    if lots == [] then 0
    else
      var t := TakeFrom(Avail(lots[0]), remaining);
      (if t == 0 then 0 else LotCost(lots[0], t)) + CostOf(lots[1..], remaining - t)
  }

  function Reduced(lot: OpenLot, take: int): OpenLot {
    if take == 0 then lot else lot.(qtyRemaining := ToString(Decimal(Avail(lot) - take)))
  }

  /** The lots after the sale, in the same order. */
  function After(lots: seq<OpenLot>, remaining: int): (r: seq<OpenLot>)
    ensures |r| == |lots|
  {
    if lots == [] then []
    else
      var t := TakeFrom(Avail(lots[0]), remaining);
      [Reduced(lots[0], t)] + After(lots[1..], remaining - t)
  }

  lemma SumsOfPrepend(a: Allocation, allocs: seq<Allocation>)
    ensures Sum(Quantities([a] + allocs)) == Parse(a.quantity).raw + Sum(Quantities(allocs))
    ensures Sum(Costs([a] + allocs)) == Parse(a.costBase).raw + Sum(Costs(allocs))
    ensures Sum(Proceeds([a] + allocs)) == Parse(a.proceedsBase).raw + Sum(Proceeds(allocs))
    ensures Sum(Pnls([a] + allocs)) == Parse(a.realizedPnl).raw + Sum(Pnls(allocs))
  {
    hide Parse;
    assert Quantities([a] + allocs)[1..] == Quantities(allocs);
    assert Costs([a] + allocs)[1..] == Costs(allocs);
    assert Proceeds([a] + allocs)[1..] == Proceeds(allocs);
    assert Pnls([a] + allocs)[1..] == Pnls(allocs);
  }

  lemma AllocationNumbers(lot: OpenLot, take: int, u: Decimal)
    ensures var a := Allocate(lot, take, u);
            && Parse(a.quantity).raw == take && Parse(a.costBase).raw == LotCost(lot, take)
            && Parse(a.proceedsBase) == Decimal(take).Mul(u)
            && Parse(a.realizedPnl).raw == Decimal(take).Mul(u).raw - LotCost(lot, take)
            && Parse(a.newQtyRemaining).raw == Avail(lot) - take
  {
    hide Parse, ToString, TruncDiv;
    RoundTripAll();
  }

  lemma {:induction false} WalkTotals(lots: seq<OpenLot>, remaining: int, u: Decimal)
    ensures var allocs := Walk(lots, remaining, u);
            && Sum(Quantities(allocs)) == Taken(lots, remaining)
            && Sum(Costs(allocs)) == CostOf(lots, remaining)
            && Sum(Pnls(allocs)) == Sum(Proceeds(allocs)) - Sum(Costs(allocs))
  {
    hide Parse, Allocate, Avail, LotCost, Quantities, Costs, Proceeds, Pnls, Sum, TruncDiv;
    if lots == [] {
      EmptySums();
    } else {
      var t := TakeFrom(Avail(lots[0]), remaining);
      WalkTotals(lots[1..], remaining - t, u);
      if t != 0 {
        AllocationNumbers(lots[0], t, u);
        SumsOfPrepend(Allocate(lots[0], t, u), Walk(lots[1..], remaining - t, u));
      } else {
        assert Walk(lots, remaining, u) == Walk(lots[1..], remaining - t, u);
      }
    }
  }

  // ------------------------------------------------------------- greedy closed form

  /** Positive availability in the first `i` lots. */
  function PriorAvail(lots: seq<OpenLot>, i: nat): int
    requires i <= |lots|
  {
    if i == 0 then 0 else PriorAvail(lots, i - 1) + Max(0, Avail(lots[i - 1]))
  }

  lemma {:induction false} PriorAvailShift(lots: seq<OpenLot>, i: nat)
    requires lots != [] && i < |lots|
    ensures PriorAvail(lots, i + 1) == Max(0, Avail(lots[0])) + PriorAvail(lots[1..], i)
  {
    if i > 0 {
      PriorAvailShift(lots, i - 1);
      assert lots[1..][i - 1] == lots[i];
    }
  }

  lemma AvailOfReduced(lot: OpenLot, take: int)
    ensures Avail(Reduced(lot, take)) == Avail(lot) - take
  {
    hide Parse, ToString;
    RoundTripAll();
  }

  lemma {:induction false} AfterIsGreedy(lots: seq<OpenLot>, q: int, i: nat)
    requires q >= 0 && i < |lots|
    ensures After(lots, q)[i]
         == Reduced(lots[i], Min(Max(0, Avail(lots[i])), Max(0, q - PriorAvail(lots, i))))
  {
    hide Avail, Reduced;
    var t := TakeFrom(Avail(lots[0]), q);
    if i > 0 {
      AfterIsGreedy(lots[1..], q - t, i - 1);
      PriorAvailShift(lots, i - 1);
      PriorAvailNonneg(lots[1..], i - 1);
    }
  }

  lemma {:induction false} PriorAvailNonneg(lots: seq<OpenLot>, i: nat)
    requires i <= |lots|
    ensures PriorAvail(lots, i) >= 0
  {
    hide Avail;
    if i > 0 { PriorAvailNonneg(lots, i - 1); }
  }

  lemma {:induction false} TakenIsCapped(lots: seq<OpenLot>, q: int)
    requires q >= 0
    ensures Taken(lots, q) == Min(q, PriorAvail(lots, |lots|))
  {
    hide Avail;
    if lots != [] {
      var t := TakeFrom(Avail(lots[0]), q);
      TakenIsCapped(lots[1..], q - t);
      PriorAvailShift(lots, |lots| - 1);
      PriorAvailNonneg(lots[1..], |lots| - 1);
    }
  }

  // ---------------------------------------------------------------------- writing back

  function FindAllocation(allocs: seq<Allocation>, id: string): Option<Allocation> {
    if allocs == [] then None
    else if allocs[0].lotId == id then Some(allocs[0])
    else FindAllocation(allocs[1..], id)
  }

  function Updated(lot: OpenLot, allocs: seq<Allocation>): OpenLot {
    match FindAllocation(allocs, lot.id)
    case None => lot
    case Some(a) => lot.(qtyRemaining := a.newQtyRemaining)
  }

  function WriteBack(lots: seq<OpenLot>, allocs: seq<Allocation>): (r: seq<OpenLot>)
    ensures |r| == |lots|
  {
    Map(lot => Updated(lot, allocs), lots)
  }

  /** Lot ids are a primary key. */
  predicate DistinctIds(lots: seq<OpenLot>) {
    lots == [] || (lots[0].id !in Ids(lots[1..]) && DistinctIds(lots[1..]))
  }

  function Ids(lots: seq<OpenLot>): set<string> {
    if lots == [] then {} else {lots[0].id} + Ids(lots[1..])
  }

  lemma {:induction false} InsertKeepsIds(x: OpenLot, lots: seq<OpenLot>)
    ensures Ids(Insert(x, lots, OPENED_BY)) == {x.id} + Ids(lots)
    ensures DistinctIds(lots) && x.id !in Ids(lots) ==> DistinctIds(Insert(x, lots, OPENED_BY))
  {
    hide TextLeq;
    if lots != [] && !OPENED_BY(x, lots[0]) {
      InsertKeepsIds(x, lots[1..]);
      var r := Insert(x, lots, OPENED_BY);
      assert r[0] == lots[0] && r[1..] == Insert(x, lots[1..], OPENED_BY);
    } else {
      assert ([x] + lots)[1..] == lots;
    }
  }

  lemma {:induction false} DateOrderKeepsIds(lots: seq<OpenLot>)
    ensures Ids(DateOrder(lots)) == Ids(lots)
    ensures DistinctIds(lots) ==> DistinctIds(DateOrder(lots))
  {
    if lots != [] {
      DateOrderKeepsIds(lots[1..]);
      InsertKeepsIds(lots[0], DateOrder(lots[1..]));
    }
  }

  lemma FindInCons(a: Allocation, allocs: seq<Allocation>, id: string)
    ensures FindAllocation([a] + allocs, id) == if a.lotId == id then Some(a) else FindAllocation(allocs, id)
  {
    assert ([a] + allocs)[1..] == allocs;
  }

  lemma AllocateFields(lot: OpenLot, take: int, u: Decimal)
    ensures Allocate(lot, take, u).lotId == lot.id
    ensures take != 0 ==> lot.(qtyRemaining := Allocate(lot, take, u).newQtyRemaining) == Reduced(lot, take)
  {}

  lemma {:induction false} NotAllocated(lots: seq<OpenLot>, q: int, u: Decimal, id: string)
    requires id !in Ids(lots)
    ensures FindAllocation(Walk(lots, q, u), id) == None
  {
    if lots != [] {
      hide Avail, TakeFrom, Allocate;
      var t := TakeFrom(Avail(lots[0]), q);
      var rest := Walk(lots[1..], q - t, u);
      NotAllocated(lots[1..], q - t, u, id);
      if t != 0 {
        AllocateFields(lots[0], t, u);
        FindInCons(Allocate(lots[0], t, u), rest, id);
      } else {
        assert Walk(lots, q, u) == rest;
      }
    }
  }

  /** Allocations to one lot never reach another, so writing back is positional. */
  lemma {:induction false} WriteBackIsAfter(lots: seq<OpenLot>, q: int, u: Decimal)
    requires DistinctIds(lots)
    ensures WriteBack(lots, Walk(lots, q, u)) == After(lots, q)
  {
    if lots != [] {
      hide Avail, TakeFrom, Allocate, Reduced, WriteBack, FindAllocation, Ids;
      var t := TakeFrom(Avail(lots[0]), q);
      var rest := Walk(lots[1..], q - t, u);
      calc {
        WriteBack(lots, Walk(lots, q, u));
        WriteBack(lots, (if t == 0 then [] else [Allocate(lots[0], t, u)]) + rest);
        { NotAllocated(lots[1..], q - t, u, lots[0].id); WriteBackSplits(lots, t, rest, u); }
        [Reduced(lots[0], t)] + WriteBack(lots[1..], rest);
        { WriteBackIsAfter(lots[1..], q - t, u); }
        [Reduced(lots[0], t)] + After(lots[1..], q - t);
        After(lots, q);
      }
    }
  }

  lemma WriteBackSplits(lots: seq<OpenLot>, t: int, allocs: seq<Allocation>, u: Decimal)
    requires lots != [] && DistinctIds(lots) && FindAllocation(allocs, lots[0].id) == None
    ensures WriteBack(lots, (if t == 0 then [] else [Allocate(lots[0], t, u)]) + allocs)
         == [Reduced(lots[0], t)] + WriteBack(lots[1..], allocs)
  {
    hide Allocate;
    var a := Allocate(lots[0], t, u);
    var all := (if t == 0 then [] else [a]) + allocs;
    AllocateFields(lots[0], t, u);
    forall i | 0 <= i < |lots|
      ensures WriteBack(lots, all)[i] == ([Reduced(lots[0], t)] + WriteBack(lots[1..], allocs))[i]
    {
      if t == 0 {
        assert all == allocs;
      } else {
        FindInCons(a, allocs, lots[i].id);
      }
      if i > 0 {
        IdAt(lots[1..], i - 1);
      }
    }
  }

  lemma {:induction false} IdAt(lots: seq<OpenLot>, i: nat)
    requires i < |lots|
    ensures lots[i].id in Ids(lots)
  {
    if i > 0 { IdAt(lots[1..], i - 1); }
  }

  lemma DateOrderAfterWriteBack(lots: seq<OpenLot>, allocs: seq<Allocation>)
    ensures DateOrder(WriteBack(lots, allocs)) == WriteBack(DateOrder(lots), allocs)
  {
    hide TextLeq;
    SortCommutesWithMap(lots, (lot: OpenLot) => Updated(lot, allocs), OPENED_BY);
  }

  lemma {:induction false} WriteBackKeepsIds(lots: seq<OpenLot>, allocs: seq<Allocation>)
    ensures Ids(WriteBack(lots, allocs)) == Ids(lots)
    ensures DistinctIds(lots) ==> DistinctIds(WriteBack(lots, allocs))
  {
    if lots != [] {
      WriteBackKeepsIds(lots[1..], allocs);
      assert WriteBack(lots, allocs)[1..] == WriteBack(lots[1..], allocs);
    }
  }

  // ------------------------------------------------------------------ sales compose

  lemma MulSplit(a: int, b: int, c: Decimal)
    requires a >= 0 && b >= 0
    ensures Abs(Decimal(a + b).Mul(c).raw - Decimal(a).Mul(c).raw - Decimal(b).Mul(c).raw) <= 1
  {
    Distribute(a, b, c.raw);
    if c.raw >= 0 {
      MulSign(a, c.raw);
      MulSign(b, c.raw);
      FloorSplit(a * c.raw, b * c.raw, ONE);
    } else {
      assert a * c.raw == -(a * (-c.raw)) && b * c.raw == -(b * (-c.raw));
      MulSign(a, -c.raw);
      MulSign(b, -c.raw);
      FloorSplit(a * (-c.raw), b * (-c.raw), ONE);
    }
  }

  lemma {:induction false} NothingSold(lots: seq<OpenLot>, q: int)
    requires lots == [] || q <= 0
    ensures After(lots, q) == lots && CostOf(lots, q) == 0
  {
    if lots != [] {
      NothingSold(lots[1..], q);
    }
  }

  lemma ReducedTwice(lot: OpenLot, a: int, b: int)
    requires a >= 0 && b >= 0
    ensures Reduced(Reduced(lot, a), b) == Reduced(lot, a + b)
    ensures LotCost(Reduced(lot, a), b) == LotCost(lot, b)
  {
    AvailOfReduced(lot, a);
    hide Avail, ToString, Parse, Decimal.Mul;
  }

  /** Only the lot where the first sale stops is cut twice, so at most one unit is lost. */
  lemma {:induction false} WalksCompose(lots: seq<OpenLot>, q1: int, q2: int)
    requires q1 >= 0 && q2 >= 0
    ensures After(After(lots, q1), q2) == After(lots, q1 + q2)
    ensures Abs(CostOf(lots, q1) + CostOf(After(lots, q1), q2) - CostOf(lots, q1 + q2)) <= 1
  {
    hide Avail, Reduced, LotCost, TakeFrom, After, CostOf;
    if lots == [] || q1 == 0 {
      NothingSold(lots, q1);
      if lots == [] {
        NothingSold(lots, q2);
        NothingSold(lots, q1 + q2);
      }
    } else {
      var lot, rest := lots[0], lots[1..];
      var t1 := TakeFrom(Avail(lot), q1);
      var t2 := TakeFrom(Avail(lot) - t1, q2);
      StepsCompose(lot, rest, q1, q2);
      assert lots == [lot] + rest;
      if t1 == q1 {
        NothingSold(rest, 0);
      } else {
        WalksCompose(rest, q1 - t1, q2);
      }
    }
  }

  lemma AfterCons(lot: OpenLot, rest: seq<OpenLot>, q: int)
    ensures var t := TakeFrom(Avail(lot), q);
            && After([lot] + rest, q) == [Reduced(lot, t)] + After(rest, q - t)
            && CostOf([lot] + rest, q) == LotCost(lot, t) + CostOf(rest, q - t)
  {
    hide Avail, Reduced, TakeFrom;
    assert ([lot] + rest)[1..] == rest;
    assert LotCost(lot, 0) == 0;
  }

  /** One lot seen by both sales, and by the sale of their sum. */
  lemma StepsCompose(lot: OpenLot, rest: seq<OpenLot>, q1: int, q2: int)
    requires q1 > 0 && q2 >= 0
    ensures var t1 := TakeFrom(Avail(lot), q1);
            var t2 := TakeFrom(Avail(lot) - t1, q2);
            && t1 <= q1 && (t1 < q1 ==> t2 == 0)
            && After(After([lot] + rest, q1), q2) == [Reduced(lot, t1 + t2)] + After(After(rest, q1 - t1), q2 - t2)
            && After([lot] + rest, q1 + q2) == [Reduced(lot, t1 + t2)] + After(rest, q1 + q2 - t1 - t2)
            && CostOf([lot] + rest, q1) == LotCost(lot, t1) + CostOf(rest, q1 - t1)
            && CostOf(After([lot] + rest, q1), q2) == LotCost(lot, t2) + CostOf(After(rest, q1 - t1), q2 - t2)
            && CostOf([lot] + rest, q1 + q2) == LotCost(lot, t1 + t2) + CostOf(rest, q1 + q2 - t1 - t2)
            && Abs(LotCost(lot, t1) + LotCost(lot, t2) - LotCost(lot, t1 + t2)) <= (if t1 == q1 then 1 else 0)
  {
    hide Avail, Reduced, LotCost, After, CostOf;
    var t1 := TakeFrom(Avail(lot), q1);
    var t2 := TakeFrom(Avail(lot) - t1, q2);
    AvailOfReduced(lot, t1);
    ReducedTwice(lot, t1, t2);
    assert TakeFrom(Avail(lot), q1 + q2) == t1 + t2;
    AfterCons(lot, rest, q1);
    AfterCons(Reduced(lot, t1), After(rest, q1 - t1), q2);
    AfterCons(lot, rest, q1 + q2);
    LotCostSplit(lot, t1, t2);
  }

  lemma LotCostSplit(lot: OpenLot, a: int, b: int)
    requires a >= 0 && b >= 0
    ensures Abs(LotCost(lot, a) + LotCost(lot, b) - LotCost(lot, a + b)) <= 1
    ensures LotCost(lot, 0) == 0
  {
    MulSplit(a, b, UnitCost(lot));
  }

  function Sell(lots: seq<OpenLot>, qty: string, proceeds: string): seq<OpenLot> {
    WriteBack(lots, FifoOf(lots, qty, proceeds).allocations)
  }

  function SaleCost(lots: seq<OpenLot>, qty: string, proceeds: string): int {
    Parse(FifoOf(lots, qty, proceeds).totalCost).raw
  }

  lemma SellInDateOrder(lots: seq<OpenLot>, qty: string, proceeds: string)
    requires DistinctIds(lots)
    ensures DateOrder(Sell(lots, qty, proceeds)) == After(DateOrder(lots), Parse(qty).raw)
    ensures SaleCost(lots, qty, proceeds) == CostOf(DateOrder(lots), Parse(qty).raw)
    ensures DistinctIds(Sell(lots, qty, proceeds))
  {
    hide Parse, DateOrder, ToString, UnitProceeds, Walk, After, CostOf, Sum, WriteBack, DistinctIds;
    var q, u := Parse(qty).raw, UnitProceeds(Parse(qty), Parse(proceeds));
    var allocs := Walk(DateOrder(lots), q, u);
    DateOrderAfterWriteBack(lots, allocs);
    DateOrderKeepsIds(lots);
    WriteBackIsAfter(DateOrder(lots), q, u);
    WalkTotals(DateOrder(lots), q, u);
    WriteBackKeepsIds(lots, allocs);
    RoundTripAll();
  }

  /** Two per-lot updates that agree on the sorted lots agree on the lots themselves. */
  lemma AgreeInDateOrder(lots: seq<OpenLot>, a1: seq<Allocation>, a2: seq<Allocation>, a: seq<Allocation>)
    requires WriteBack(WriteBack(DateOrder(lots), a1), a2) == WriteBack(DateOrder(lots), a)
    ensures WriteBack(WriteBack(lots, a1), a2) == WriteBack(lots, a)
  {
    hide Updated, TextLeq;
    var sorted := DateOrder(lots);
    OpenedByIsTotal();
    SortIsSortedPermutation(lots, OPENED_BY);
    forall i | 0 <= i < |lots| ensures WriteBack(WriteBack(lots, a1), a2)[i] == WriteBack(lots, a)[i] {
      assert lots[i] in multiset(sorted);
      var j :| 0 <= j < |sorted| && sorted[j] == lots[i];
      assert WriteBack(WriteBack(sorted, a1), a2)[j] == WriteBack(sorted, a)[j];
    }
  }

  /**
   * Selling q1 and then q2 from the written-back lots leaves every lot, as
   * text, exactly as selling q1 + q2 at once does, and books a cost that
   * differs by at most one unit of 10^-18.
   */
  lemma TwoSalesAreOneSale(lots: seq<OpenLot>, q1: string, p1: string, q2: string, p2: string, q: string, p: string)
    requires DistinctIds(lots)
    requires Parse(q1).raw >= 0 && Parse(q2).raw >= 0 && Parse(q).raw == Parse(q1).raw + Parse(q2).raw
    ensures Sell(Sell(lots, q1, p1), q2, p2) == Sell(lots, q, p)
    ensures Abs(SaleCost(lots, q1, p1) + SaleCost(Sell(lots, q1, p1), q2, p2) - SaleCost(lots, q, p)) <= 1
  {
    hide Parse, DateOrder, WriteBack, After, CostOf, SaleCost, FifoOf, DistinctIds;
    var sorted, once := DateOrder(lots), Sell(lots, q1, p1);
    SellInDateOrder(lots, q1, p1);
    SellInDateOrder(once, q2, p2);
    SellInDateOrder(lots, q, p);
    WalksCompose(sorted, Parse(q1).raw, Parse(q2).raw);
    var a1, a2, a := FifoOf(lots, q1, p1).allocations, FifoOf(once, q2, p2).allocations, FifoOf(lots, q, p).allocations;
    DateOrderAfterWriteBack(lots, a1);
    DateOrderAfterWriteBack(once, a2);
    DateOrderAfterWriteBack(lots, a);
    AgreeInDateOrder(lots, a1, a2, a);
  }

  datatype Sale = Sale(qty: string, proceeds: string)

  function SellAll(lots: seq<OpenLot>, sales: seq<Sale>): seq<OpenLot>
    decreases |sales|
  {
    if sales == [] then lots else SellAll(Sell(lots, sales[0].qty, sales[0].proceeds), sales[1..])
  }

  function TotalCost(lots: seq<OpenLot>, sales: seq<Sale>): int
    decreases |sales|
  {
    if sales == [] then 0
    else
      SaleCost(lots, sales[0].qty, sales[0].proceeds)
      + TotalCost(Sell(lots, sales[0].qty, sales[0].proceeds), sales[1..])
  }

  function TotalQty(sales: seq<Sale>): int {
    if sales == [] then 0 else Parse(sales[0].qty).raw + TotalQty(sales[1..])
  }

  /** k partial sales end in the one-shot lots and stay within k - 1 units of its cost. */
  lemma {:induction false} ManySalesAreOneSale(lots: seq<OpenLot>, sales: seq<Sale>, p: string)
    requires DistinctIds(lots) && sales != []
    requires forall s :: s in sales ==> Parse(s.qty).raw >= 0
    ensures var q := ToString(Decimal(TotalQty(sales)));
            && SellAll(lots, sales) == Sell(lots, q, p)
            && Abs(TotalCost(lots, sales) - SaleCost(lots, q, p)) <= |sales| - 1
    decreases |sales|
  {
    hide Parse, ToString, Sell, SaleCost, DistinctIds;
    RoundTripAll();
    var q := ToString(Decimal(TotalQty(sales)));
    var first, rest := sales[0], sales[1..];
    var once := Sell(lots, first.qty, first.proceeds);
    SellInDateOrder(lots, first.qty, first.proceeds);
    if rest == [] {
      assert TotalQty(rest) == 0;
      TwoSalesAreOneSale(lots, first.qty, first.proceeds, ToString(ZERO), p, q, p);
      SellNothing(once, p);
      SellInDateOrder(lots, q, p);
    } else {
      NonnegTotal(rest);
      ManySalesAreOneSale(once, rest, p);
      TwoSalesAreOneSale(lots, first.qty, first.proceeds, ToString(Decimal(TotalQty(rest))), p, q, p);
    }
  }

  lemma SellNothing(lots: seq<OpenLot>, p: string)
    ensures Sell(lots, ToString(ZERO), p) == lots && SaleCost(lots, ToString(ZERO), p) == 0
  {
    hide Parse, ToString, DateOrder;
    RoundTripAll();
    WalkOfNothing(DateOrder(lots), 0, UnitProceeds(ZERO, Parse(p)));
    EmptySums();
  }

  lemma {:induction false} NonnegTotal(sales: seq<Sale>)
    requires forall s :: s in sales ==> Parse(s.qty).raw >= 0
    ensures TotalQty(sales) >= 0
  {
    hide Parse;
    if sales != [] {
      NonnegTotal(sales[1..]);
    }
  }

  // ------------------------------------------------------------ conservation and greed

  lemma {:induction false} PriorAvailMono(lots: seq<OpenLot>, i: nat, j: nat)
    requires i <= j <= |lots|
    ensures PriorAvail(lots, i) <= PriorAvail(lots, j)
  {
    hide Avail;
    if i < j { PriorAvailMono(lots, i, j - 1); }
  }

  /**
   * The i-th lot in stable date order gives up min(available, what earlier lots
   * left wanting) and nothing else about it changes; quantities allocated and
   * unmatched add up to the sale; a sale goes unmatched only when it has
   * emptied every lot, and never drives a lot below zero.
   */
  lemma SaleIsGreedy(lots: seq<OpenLot>, qty: string, p: string)
    requires DistinctIds(lots) && Parse(qty).raw >= 0
    ensures var r, q := FifoOf(lots, qty, p), Parse(qty).raw;
            var sorted, after := DateOrder(lots), DateOrder(Sell(lots, qty, p));
            && (forall i :: 0 <= i < |sorted| ==>
                  after[i] == Reduced(sorted[i],
                                Min(Max(0, Avail(sorted[i])), Max(0, q - PriorAvail(sorted, i)))))
            && Sum(Quantities(r.allocations)) + Parse(r.unmatchedQty).raw == q
            && Parse(r.unmatchedQty).raw == Max(0, q - PriorAvail(sorted, |sorted|))
            && (forall i :: 0 <= i < |sorted| && Avail(sorted[i]) >= 0 ==> Avail(after[i]) >= 0)
            && (Parse(r.unmatchedQty).raw > 0 ==> forall i :: 0 <= i < |after| ==> Avail(after[i]) <= 0)
  {
    hide Parse, ToString, DateOrder, Sell, Walk, Avail, Reduced, Sum, UnitProceeds, Quantities, PriorAvail;
    var q, sorted := Parse(qty).raw, DateOrder(lots);
    RoundTripAll();
    SellInDateOrder(lots, qty, p);
    WalkTotals(sorted, q, UnitProceeds(Parse(qty), Parse(p)));
    TakenIsCapped(sorted, q);
    hide After, Taken;
    forall i | 0 <= i < |sorted|
      ensures After(sorted, q)[i]
           == Reduced(sorted[i], Min(Max(0, Avail(sorted[i])), Max(0, q - PriorAvail(sorted, i))))
      ensures Avail(sorted[i]) >= 0 ==> Avail(After(sorted, q)[i]) >= 0
      ensures q > PriorAvail(sorted, |sorted|) ==> Avail(After(sorted, q)[i]) <= 0
    {
      GreedyAtLot(sorted, q, i);
    }
  }

  lemma GreedyAtLot(lots: seq<OpenLot>, q: int, i: nat)
    requires q >= 0 && i < |lots|
    ensures After(lots, q)[i]
         == Reduced(lots[i], Min(Max(0, Avail(lots[i])), Max(0, q - PriorAvail(lots, i))))
    ensures Avail(lots[i]) >= 0 ==> Avail(After(lots, q)[i]) >= 0
    ensures q > PriorAvail(lots, |lots|) ==> Avail(After(lots, q)[i]) <= 0
  {
    hide Avail, Reduced, PriorAvail, After;
    AfterIsGreedy(lots, q, i);
    AvailOfReduced(lots[i], Min(Max(0, Avail(lots[i])), Max(0, q - PriorAvail(lots, i))));
    PriorAvailMono(lots, i + 1, |lots|);
    PriorStep(lots, i);
  }

  lemma PriorStep(lots: seq<OpenLot>, i: nat)
    requires i < |lots|
    ensures PriorAvail(lots, i + 1) == PriorAvail(lots, i) + Max(0, Avail(lots[i]))
  {}

  /** A sale of nothing, or of less than nothing, allocates nothing. */
  lemma NonPositiveSale(lots: seq<OpenLot>, qty: string, p: string)
    requires Parse(qty).raw <= 0
    ensures var r := FifoOf(lots, qty, p);
            r.allocations == [] && Parse(r.unmatchedQty) == Parse(qty) && Sell(lots, qty, p) == lots
  {
    hide Parse, ToString, DateOrder;
    RoundTripAll();
    WalkOfNothing(DateOrder(lots), Parse(qty).raw, UnitProceeds(Parse(qty), Parse(p)));
    EmptySums();
  }

  /** Realized profit is the sum of the per-lot profits, to the last unit. */
  lemma PnlIsExact(lots: seq<OpenLot>, qty: string, p: string)
    ensures var r := FifoOf(lots, qty, p);
            && Parse(r.realizedPnl).raw == Sum(Pnls(r.allocations))
            && Parse(r.realizedPnl).raw == Parse(r.totalProceeds).raw - Parse(r.totalCost).raw
  {
    hide Parse, ToString, DateOrder, Walk, Sum, UnitProceeds, Costs, Proceeds, Pnls, Quantities;
    RoundTripAll();
    WalkTotals(DateOrder(lots), Parse(qty).raw, UnitProceeds(Parse(qty), Parse(p)));
  }

  // ----------------------------------------------------------------- rounding of proceeds

  lemma FloorProduct(t: int, u: int)
    requires t >= 0 && u >= 0
    ensures var p := Decimal(t).Mul(Decimal(u)).raw;
            0 <= p && p * ONE <= t * u <= p * ONE + ONE - 1
  {
    MulSign(t, u);
    FloorBounds(t * u, ONE);
    FloorNonneg(t * u, ONE);
  }

  lemma {:induction false} ProceedsOfWalk(lots: seq<OpenLot>, remaining: int, u: Decimal)
    requires u.raw >= 0
    ensures var allocs := Walk(lots, remaining, u);
            var s := Sum(Proceeds(allocs));
            && 0 <= s && 0 <= Taken(lots, remaining)
            && s * ONE <= Taken(lots, remaining) * u.raw <= s * ONE + |allocs| * (ONE - 1)
  {
    hide Parse, Allocate, Avail, LotCost, Quantities, Costs, Proceeds, Pnls, Sum, TruncDiv;
    if lots == [] {
      EmptySums();
    } else {
      var t := TakeFrom(Avail(lots[0]), remaining);
      var rest := Walk(lots[1..], remaining - t, u);
      ProceedsOfWalk(lots[1..], remaining - t, u);
      Distribute(t, Taken(lots[1..], remaining - t), u.raw);
      if t != 0 {
        var a := Allocate(lots[0], t, u);
        AllocationNumbers(lots[0], t, u);
        SumsOfPrepend(a, rest);
        FloorProduct(t, u.raw);
        assert Walk(lots, remaining, u) == [a] + rest;
      } else {
        assert Walk(lots, remaining, u) == rest;
      }
    }
  }

  lemma UnitProceedsBounds(q: Decimal, p: Decimal)
    requires q.raw > 0 && p.raw >= 0
    ensures var u := UnitProceeds(q, p).raw;
            0 <= u && q.raw * u <= p.raw * ONE < q.raw * u + q.raw
  {
    FloorBounds(p.raw * ONE, q.raw);
    FloorNonneg(p.raw * ONE, q.raw);
  }

  /**
   * Pro-rata proceeds never exceed what the sale brought in; when the sale is
   * fully matched over n allocations they fall short by less than n + Q / ONE
   * raw units.
   */
  lemma ProceedsBounds(lots: seq<OpenLot>, qty: string, p: string)
    requires Parse(qty).raw > 0 && Parse(p).raw >= 0
    ensures var r := FifoOf(lots, qty, p);
            var given, booked, q := Parse(p).raw, Parse(r.totalProceeds).raw, Parse(qty).raw;
            && 0 <= booked <= given
            && (Parse(r.unmatchedQty).raw == 0 ==>
                  (given - booked) * ONE < |r.allocations| * ONE + q)
  {
    hide Parse, ToString, DateOrder, Walk, Sum, UnitProceeds, Costs, Proceeds, Pnls, Quantities, Taken;
    var q, given, sorted := Parse(qty).raw, Parse(p).raw, DateOrder(lots);
    var u := UnitProceeds(Parse(qty), Parse(p));
    var allocs := Walk(sorted, q, u);
    RoundTripAll();
    UnitProceedsBounds(Parse(qty), Parse(p));
    ProceedsOfWalk(sorted, q, u);
    WalkTotals(sorted, q, u);
    TakenIsCapped(sorted, q);
    var s, taken := Sum(Proceeds(allocs)), Taken(sorted, q);
    MulMono(taken, q, u.raw);
    MulCancelLe(s, given, ONE);
  }

  // ------------------------------------------------------------------------- averageCost

  function OpenQty(lots: seq<OpenLot>): int {
    if lots == [] then 0 else OpenQty(lots[..|lots| - 1]) + Max(0, Avail(lots[|lots| - 1]))
  }

  function OpenCost(lots: seq<OpenLot>): int {
    if lots == [] then 0
    else
      var lot := lots[|lots| - 1];
      OpenCost(lots[..|lots| - 1]) + if Avail(lot) <= 0 then 0 else LotCost(lot, Avail(lot))
  }

  function AverageOf(lots: seq<OpenLot>): string {
    if OpenQty(lots) == 0 then "0" else ToString(Decimal(OpenCost(lots)).Div(Decimal(OpenQty(lots))))
  }

  lemma {:induction false} NothingOpen(lots: seq<OpenLot>)
    requires forall l :: l in lots ==> Parse(l.qtyRemaining).raw <= 0
    ensures OpenQty(lots) == 0
  {
    hide Parse;
    if lots != [] { NothingOpen(lots[..|lots| - 1]); }
  }

  method AverageCost(lotsIn: seq<OpenLot>) returns (average: string)
    ensures average == AverageOf(lotsIn)
    ensures (forall l :: l in lotsIn ==> Parse(l.qtyRemaining).raw <= 0) ==> average == "0"
  {
    hide Parse, ToString, TruncDiv;
    var qty, cost := ZERO, ZERO;
    for i := 0 to |lotsIn|
      invariant qty.raw == OpenQty(lotsIn[..i])
      invariant cost.raw == OpenCost(lotsIn[..i])
    {
      var l := lotsIn[i];
      assert lotsIn[..i + 1][..i] == lotsIn[..i];
      var q := Parse(l.qtyRemaining);
      if q.raw <= 0 {
        continue;
      }
      qty := qty.Add(q);
      cost := cost.Add(q.Mul(Parse(l.unitCostBase)));
    }
    assert lotsIn[..|lotsIn|] == lotsIn;
    if forall l :: l in lotsIn ==> Parse(l.qtyRemaining).raw <= 0 { NothingOpen(lotsIn); }
    return if qty.raw == 0 then "0" else ToString(cost.Div(qty));
  }

  /** How many lots still hold something. */
  function OpenCount(lots: seq<OpenLot>): nat {
    if lots == [] then 0
    else OpenCount(lots[..|lots| - 1]) + if Avail(lots[|lots| - 1]) > 0 then 1 else 0
  }

  /** Truncated costs of n lots against their exact value at any unit cost in between. */
  ghost predicate CostWithin(low: int, high: int, qty: int, cost: int, n: int) {
    low * qty <= cost * ONE + n * (ONE - 1) && cost * ONE <= high * qty
  }

  lemma {:induction false} OpenCostBounds(lots: seq<OpenLot>, low: int, high: int)
    requires 0 <= low
    requires forall l :: l in lots && Avail(l) > 0 ==> low <= UnitCost(l).raw <= high
    ensures OpenQty(lots) >= 0 && OpenCost(lots) >= 0
    ensures CostWithin(low, high, OpenQty(lots), OpenCost(lots), OpenCount(lots))
  {
    hide Avail, UnitCost, OpenQty, OpenCost, OpenCount, TruncDiv, CostWithin;
    if lots == [] {
      NoLots(low, high);
    } else {
      var lot, front := lots[|lots| - 1], lots[..|lots| - 1];
      OpenCostBounds(front, low, high);
      OpenStep(lots);
      if Avail(lot) > 0 {
        OneMoreLot(low, high, UnitCost(lot), Avail(lot), OpenQty(front), OpenCost(front), OpenCount(front));
      }
    }
  }

  lemma NoLots(low: int, high: int)
    ensures OpenQty([]) == 0 && OpenCost([]) == 0 && CostWithin(low, high, OpenQty([]), OpenCost([]), OpenCount([]))
  {}

  lemma OpenStep(lots: seq<OpenLot>)
    requires lots != []
    ensures var lot, front := lots[|lots| - 1], lots[..|lots| - 1];
            if Avail(lot) > 0 then
              && OpenQty(lots) == OpenQty(front) + Avail(lot)
              && OpenCost(lots) == OpenCost(front) + Decimal(Avail(lot)).Mul(UnitCost(lot)).raw
              && OpenCount(lots) == OpenCount(front) + 1
            else
              && OpenQty(lots) == OpenQty(front) && OpenCost(lots) == OpenCost(front)
              && OpenCount(lots) == OpenCount(front)
  {}

  lemma OneMoreLot(low: int, high: int, c: Decimal, a: int, qty: int, cost: int, n: nat)
    requires 0 <= low <= c.raw <= high && a > 0
    requires CostWithin(low, high, qty, cost, n)
    ensures var more := Decimal(a).Mul(c).raw;
            more >= 0 && CostWithin(low, high, qty + a, cost + more, n + 1)
  {
    hide TruncDiv;
    FloorProduct(a, c.raw);
    MulMono(low, c.raw, a);
    MulMono(c.raw, high, a);
    assert a * c.raw == c.raw * a;
    assert low * (qty + a) == low * qty + low * a && high * (qty + a) == high * qty + high * a;
  }

  /**
   * Over lots with unit costs between `low` and `high`, the average is at most
   * `high`, and below `low` only by the truncation of n lots and one division.
   */
  lemma AverageCostBounds(lots: seq<OpenLot>, low: int, high: int)
    requires 0 <= low && OpenQty(lots) > 0
    requires forall l :: l in lots && Avail(l) > 0 ==> low <= UnitCost(l).raw <= high
    ensures var average := Parse(AverageOf(lots)).raw;
            average <= high && (low - average) * OpenQty(lots) < OpenCount(lots) * ONE + OpenQty(lots)
  {
    hide Parse, ToString, Avail, UnitCost, OpenQty, OpenCost, OpenCount;
    RoundTripAll();
    OpenCostBounds(lots, low, high);
    var q, c := OpenQty(lots), OpenCost(lots);
    FloorBounds(c * ONE, q);
    var average := Parse(AverageOf(lots)).raw;
    assert average == c * ONE / q;
    MulCancelLe(average, high, q);
    Distribute(low, average, q);
  }
}
