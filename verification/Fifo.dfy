/**
 * First-in-first-out lot consumption (`src/domain/fifo.ts`). Lots and
 * allocations hold their numbers as text, as the original and its database do;
 * `WriteBack` is the update its only writer performs with the allocations
 * (`src/features/ledger/service.ts`, lines 371-375).
 */
module Fifo {
  import opened Arith
  import opened Decimals
  import opened DecimalText
  import opened Sorting

  datatype OpenLot = OpenLot(id: string, openedAt: string, qtyRemaining: string, unitCostBase: string)

  datatype Allocation = Allocation(
    lotId: string, quantity: string, costBase: string, proceedsBase: string,
    realizedPnl: string, newQtyRemaining: string)

  datatype FifoResult = FifoResult(
    allocations: seq<Allocation>, totalCost: string, totalProceeds: string,
    realizedPnl: string, unmatchedQty: string)

  // ------------------------------------------------------------------------- ordering

  /** Text order; opening dates are ISO strings. */
  predicate TextLeq(a: string, b: string) {
    a == "" || (b != "" && (a[0] < b[0] || (a[0] == b[0] && TextLeq(a[1..], b[1..]))))
  }

  lemma {:induction false} TextLeqTotal(a: string, b: string)
    ensures TextLeq(a, b) || TextLeq(b, a)
  {
    if a != "" && b != "" && a[0] == b[0] {
      TextLeqTotal(a[1..], b[1..]);
    }
  }

  lemma {:induction false} TextLeqTransitive(a: string, b: string, c: string)
    requires TextLeq(a, b) && TextLeq(b, c)
    ensures TextLeq(a, c)
  {
    if a != "" && a[0] == b[0] == c[0] {
      TextLeqTransitive(a[1..], b[1..], c[1..]);
    }
  }

  const OPENED_BY: (OpenLot, OpenLot) -> bool := (a: OpenLot, b: OpenLot) => TextLeq(a.openedAt, b.openedAt)

  lemma OpenedByIsTotal()
    ensures TotalPreorder(OPENED_BY)
  {
    forall a: OpenLot, b: OpenLot ensures OPENED_BY(a, b) || OPENED_BY(b, a) {
      TextLeqTotal(a.openedAt, b.openedAt);
    }
    forall a: OpenLot, b: OpenLot, c: OpenLot | OPENED_BY(a, b) && OPENED_BY(b, c) ensures OPENED_BY(a, c) {
      TextLeqTransitive(a.openedAt, b.openedAt, c.openedAt);
    }
  }

  function DateOrder(lots: seq<OpenLot>): (r: seq<OpenLot>)
    ensures |r| == |lots|
  {
    Sort(lots, OPENED_BY)
  }

  // ------------------------------------------------------------------ what a sale does

  function Avail(lot: OpenLot): int {
    Parse(lot.qtyRemaining).raw
  }

  function UnitCost(lot: OpenLot): Decimal {
    Parse(lot.unitCostBase)
  }

  function TakeFrom(avail: int, remaining: int): (t: int)
    ensures 0 <= t && (t > 0 <==> avail > 0 && remaining > 0)
    ensures t > 0 ==> t <= avail && t <= remaining && (t == avail || t == remaining)
  {
    if remaining <= 0 || avail <= 0 then 0 else Min(remaining, avail)
  }

  function Allocate(lot: OpenLot, take: int, unitProceeds: Decimal): Allocation {
    var cost := Decimal(take).Mul(UnitCost(lot));
    var proceeds := Decimal(take).Mul(unitProceeds);
    Allocation(lot.id, ToString(Decimal(take)), ToString(cost), ToString(proceeds),
               ToString(proceeds.Sub(cost)), ToString(Decimal(Avail(lot) - take)))
  }

  /** Allocations of a sale of `remaining` raw units over lots already in date order. */
  function Walk(lots: seq<OpenLot>, remaining: int, unitProceeds: Decimal): seq<Allocation> {
    if lots == [] then []
    else
      var t := TakeFrom(Avail(lots[0]), remaining);
      (if t == 0 then [] else [Allocate(lots[0], t, unitProceeds)])
      + Walk(lots[1..], remaining - t, unitProceeds)
  }

  function UnitProceeds(qty: Decimal, proceeds: Decimal): Decimal {
    if qty.raw == 0 then ZERO else proceeds.Div(qty)
  }

  function Quantities(allocs: seq<Allocation>): seq<int> {
    Map((a: Allocation) => Parse(a.quantity).raw, allocs)
  }

  function Costs(allocs: seq<Allocation>): seq<int> {
    Map((a: Allocation) => Parse(a.costBase).raw, allocs)
  }

  function Proceeds(allocs: seq<Allocation>): seq<int> {
    Map((a: Allocation) => Parse(a.proceedsBase).raw, allocs)
  }

  function Pnls(allocs: seq<Allocation>): seq<int> {
    Map((a: Allocation) => Parse(a.realizedPnl).raw, allocs)
  }

  function Summarise(allocs: seq<Allocation>, qty: Decimal): FifoResult {
    var cost, proceeds := Decimal(Sum(Costs(allocs))), Decimal(Sum(Proceeds(allocs)));
    FifoResult(allocs, ToString(cost), ToString(proceeds), ToString(proceeds.Sub(cost)),
               ToString(Decimal(qty.raw - Sum(Quantities(allocs)))))
  }

  function FifoOf(lots: seq<OpenLot>, qty: string, proceedsBase: string): FifoResult {
    Summarise(Walk(DateOrder(lots), Parse(qty).raw, UnitProceeds(Parse(qty), Parse(proceedsBase))), Parse(qty))
  }

  lemma SumsOfAppend(allocs: seq<Allocation>, a: Allocation)
    ensures Sum(Quantities(allocs + [a])) == Sum(Quantities(allocs)) + Parse(a.quantity).raw
    ensures Sum(Costs(allocs + [a])) == Sum(Costs(allocs)) + Parse(a.costBase).raw
    ensures Sum(Proceeds(allocs + [a])) == Sum(Proceeds(allocs)) + Parse(a.proceedsBase).raw
    ensures Sum(Pnls(allocs + [a])) == Sum(Pnls(allocs)) + Parse(a.realizedPnl).raw
  {
    hide Parse;
    var q, c, p, n := Parse(a.quantity).raw, Parse(a.costBase).raw, Parse(a.proceedsBase).raw, Parse(a.realizedPnl).raw;
    assert Quantities(allocs + [a]) == Quantities(allocs) + [q];
    assert Costs(allocs + [a]) == Costs(allocs) + [c];
    assert Proceeds(allocs + [a]) == Proceeds(allocs) + [p];
    assert Pnls(allocs + [a]) == Pnls(allocs) + [n];
    SumAppend(Quantities(allocs), [q]);
    SumAppend(Costs(allocs), [c]);
    SumAppend(Proceeds(allocs), [p]);
    SumAppend(Pnls(allocs), [n]);
  }

  method ConsumeFifo(lotsIn: seq<OpenLot>, qty: string, proceedsBase: string) returns (result: FifoResult)
    ensures result == FifoOf(lotsIn, qty, proceedsBase)
  {
    hide Parse, ToString, TruncDiv, Sum, Walk, Costs, Proceeds, Quantities;
    var sorted := DateOrder(lotsIn);
    var totalQty := Parse(qty);
    var remaining := totalQty;
    var unitProceeds := if totalQty.raw == 0 then ZERO else Parse(proceedsBase).Div(totalQty);
    var allocations: seq<Allocation> := [];
    var totalCost, totalProceeds := ZERO, ZERO;
    var i := 0;
    assert sorted[0..] == sorted;
    EmptySums();
    while i < |sorted|
      invariant 0 <= i <= |sorted|
      invariant Walk(sorted, totalQty.raw, unitProceeds)
             == allocations + Walk(sorted[i..], remaining.raw, unitProceeds)
      invariant totalCost.raw == Sum(Costs(allocations))
      invariant totalProceeds.raw == Sum(Proceeds(allocations))
      invariant remaining.raw == totalQty.raw - Sum(Quantities(allocations))
    {
      if remaining.raw <= 0 {
        break;
      }
      var lot := sorted[i];
      WalkStep(sorted, i, remaining.raw, unitProceeds);
      i := i + 1;
      var avail := Parse(lot.qtyRemaining);
      if avail.raw <= 0 {
        continue;
      }
      var take := remaining.MinWith(avail);
      var cost := take.Mul(Parse(lot.unitCostBase));
      var proceeds := take.Mul(unitProceeds);
      var allocation := Allocation(lot.id, ToString(take), ToString(cost), ToString(proceeds),
                                   ToString(proceeds.Sub(cost)), ToString(avail.Sub(take)));
      RoundTripAll();
      SumsOfAppend(allocations, allocation);
      assert allocation == Allocate(lot, take.raw, unitProceeds);
      allocations := allocations + [allocation];
      totalCost := totalCost.Add(cost);
      totalProceeds := totalProceeds.Add(proceeds);
      remaining := remaining.Sub(take);
    }
    WalkOfNothing(sorted[i..], remaining.raw, unitProceeds);
    assert Walk(sorted, totalQty.raw, unitProceeds) == allocations;
    result := FifoResult(allocations, ToString(totalCost), ToString(totalProceeds),
                         ToString(totalProceeds.Sub(totalCost)), ToString(remaining));
  }

  lemma {:induction false} WalkOfNothing(lots: seq<OpenLot>, remaining: int, unitProceeds: Decimal)
    requires lots == [] || remaining <= 0
    ensures Walk(lots, remaining, unitProceeds) == []
  {
    if lots != [] {
      WalkOfNothing(lots[1..], remaining, unitProceeds);
    }
  }

  lemma WalkStep(lots: seq<OpenLot>, i: nat, remaining: int, unitProceeds: Decimal)
    requires i < |lots|
    ensures var t := TakeFrom(Avail(lots[i]), remaining);
            Walk(lots[i..], remaining, unitProceeds) ==
            (if t == 0 then [] else [Allocate(lots[i], t, unitProceeds)])
            + Walk(lots[i + 1..], remaining - t, unitProceeds)
  {
    hide Avail, Allocate, TakeFrom;
    assert lots[i..][1..] == lots[i + 1..];
  }

  lemma EmptySums()
    ensures Sum(Quantities([])) == Sum(Costs([])) == Sum(Proceeds([])) == Sum(Pnls([])) == 0
  {}
}
