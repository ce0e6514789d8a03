/**
 * First in, first out in calendar terms: opening dates are ISO dates, the oldest lot goes
 * first, and what each lot gives up and costs, in numbers.
 */
module FifoOrder {
  import opened Arith
  import opened Decimals
  import opened DecimalText
  import opened Digits
  import opened Fifo
  import opened FifoLaws
  import opened Options
  import opened Sorting

  // ------------------------------------------------------------------ ISO dates

  /** YYYY-MM-DD. */
  predicate IsoDate(s: string) {
    |s| == 10 && AllDigits(s[..4]) && s[4] == '-' && AllDigits(s[5..7]) && s[7] == '-' && AllDigits(s[8..])
  }

  function Year(s: string): nat requires IsoDate(s) { Value(s[..4]) }
  function Month(s: string): nat requires IsoDate(s) { Value(s[5..7]) }
  function Day(s: string): nat requires IsoDate(s) { Value(s[8..]) }

  predicate Earlier(a: string, b: string)
    requires IsoDate(a) && IsoDate(b)
  {
    Year(a) < Year(b)
    || (Year(a) == Year(b) && (Month(a) < Month(b) || (Month(a) == Month(b) && Day(a) < Day(b))))
  }

  lemma {:induction false} TextLeqOfParts(a: string, b: string, x: string, y: string)
    requires |a| == |b|
    ensures TextLeq(a + x, b + y) <==> if a == b then TextLeq(x, y) else TextLeq(a, b)
  {
    if a == "" {
      assert a + x == x && b + y == y;
    } else {
      assert (a + x)[1..] == a[1..] + x && (b + y)[1..] == b[1..] + y;
      assert a == b <==> a[0] == b[0] && a[1..] == b[1..];
      TextLeqOfParts(a[1..], b[1..], x, y);
    }
  }

  lemma TextLeqOfDigit(c: char, d: char)
    ensures TextLeq([c], [d]) <==> c <= d
  {}

  /** Digit strings of one length compare as their numbers do. */
  lemma {:induction false} DigitsCompare(a: string, b: string)
    requires |a| == |b| && AllDigits(a) && AllDigits(b)
    ensures TextLeq(a, b) <==> Value(a) <= Value(b)
    ensures a == b <==> Value(a) == Value(b)
  {
    if Value(a) == Value(b) { ValueInjective(a, b); }
    if a != "" {
      var n := |a| - 1;
      assert a == a[..n] + [a[n]] && b == b[..n] + [b[n]];
      DigitsCompare(a[..n], b[..n]);
      TextLeqOfParts(a[..n], b[..n], [a[n]], [b[n]]);
      TextLeqOfDigit(a[n], b[n]);
    }
  }

  /** The order the lots are sorted in is the calendar's. */
  lemma TextLeqIsNotLater(a: string, b: string)
    requires IsoDate(a) && IsoDate(b)
    ensures TextLeq(a, b) <==> !Earlier(b, a)
  {
    hide TextLeq, Value, AllDigits;
    assert a == a[..4] + ("-" + (a[5..7] + ("-" + a[8..]))) && b == b[..4] + ("-" + (b[5..7] + ("-" + b[8..])));
    DigitsCompare(a[..4], b[..4]);
    DigitsCompare(a[5..7], b[5..7]);
    DigitsCompare(a[8..], b[8..]);
    TextLeqOfParts(a[..4], b[..4], "-" + (a[5..7] + ("-" + a[8..])), "-" + (b[5..7] + ("-" + b[8..])));
    TextLeqOfParts("-", "-", a[5..7] + ("-" + a[8..]), b[5..7] + ("-" + b[8..]));
    TextLeqOfParts(a[5..7], b[5..7], "-" + a[8..], "-" + b[8..]);
    TextLeqOfParts("-", "-", a[8..], b[8..]);
  }

  // ------------------------------------------------------------------ the oldest lot goes first

  lemma WriteBackAt(lots: seq<OpenLot>, allocs: seq<Allocation>, i: nat)
    requires i < |lots|
    ensures WriteBack(lots, allocs)[i] == Updated(lots[i], allocs)
  {}

  /** A lot in the listing stands somewhere in date order, and is written back alike. */
  lemma PlaceInDateOrder(lots: seq<OpenLot>, allocs: seq<Allocation>, i: nat) returns (k: nat)
    requires i < |lots|
    ensures k < |lots| && DateOrder(lots)[k] == lots[i]
    ensures DateOrder(WriteBack(lots, allocs))[k] == WriteBack(lots, allocs)[i]
  {
    hide Updated, TextLeq;
    OpenedByIsTotal();
    SortIsSortedPermutation(lots, OPENED_BY);
    assert lots[i] in multiset(DateOrder(lots));
    k :| 0 <= k < |DateOrder(lots)| && DateOrder(lots)[k] == lots[i];
    DateOrderAfterWriteBack(lots, allocs);
    WriteBackAt(lots, allocs, i);
    WriteBackAt(DateOrder(lots), allocs, k);
  }

  lemma LaterStandsBehind(lots: seq<OpenLot>, i: nat, j: nat)
    requires j <= i < |lots| && IsoDate(DateOrder(lots)[i].openedAt) && IsoDate(DateOrder(lots)[j].openedAt)
    ensures !Earlier(DateOrder(lots)[i].openedAt, DateOrder(lots)[j].openedAt)
  {
    hide TextLeq;
    OpenedByIsTotal();
    SortIsSortedPermutation(lots, OPENED_BY);
    TextLeqIsNotLater(DateOrder(lots)[j].openedAt, DateOrder(lots)[i].openedAt);
    if j < i { assert OPENED_BY(DateOrder(lots)[j], DateOrder(lots)[i]); }
  }

  /** What the i-th lot of a walk gives up. */
  function TakeAt(lots: seq<OpenLot>, q: int, i: nat): int
    requires i < |lots|
  {
    Min(Max(0, Avail(lots[i])), Max(0, q - PriorAvail(lots, i)))
  }

  lemma FrontIsEmptied(lots: seq<OpenLot>, q: int, i: nat, j: nat)
    requires q >= 0 && i < j < |lots| && After(lots, q)[j] != lots[j]
    ensures Avail(After(lots, q)[i]) <= 0
  {
    hide Avail, PriorAvail, After;
    AfterTakes(lots, q, i);
    AfterTakes(lots, q, j);
    PriorStep(lots, i);
    PriorAvailMono(lots, i + 1, j);
  }

  lemma AfterTakes(lots: seq<OpenLot>, q: int, i: nat)
    requires q >= 0 && i < |lots|
    ensures Avail(After(lots, q)[i]) == Avail(lots[i]) - TakeAt(lots, q, i)
    ensures After(lots, q)[i] != lots[i] ==> TakeAt(lots, q, i) != 0
  {
    hide Avail, After, PriorAvail, ToString;
    AfterIsGreedy(lots, q, i);
    AvailOfReduced(lots[i], TakeAt(lots, q, i));
  }

  /** Nothing is taken from a lot while a lot of a strictly earlier date still holds something. */
  lemma OldestFirst(lots: seq<OpenLot>, qty: string, p: string, i: nat, j: nat)
    requires DistinctIds(lots) && Parse(qty).raw >= 0 && i < |lots| && j < |lots|
    requires IsoDate(lots[i].openedAt) && IsoDate(lots[j].openedAt) && Earlier(lots[i].openedAt, lots[j].openedAt)
    ensures Sell(lots, qty, p)[j] != lots[j] ==> Parse(Sell(lots, qty, p)[i].qtyRemaining).raw <= 0
  {
    hide DateOrder, Parse, DistinctIds, Earlier, After, IsoDate, FifoOf, WriteBack;
    var x := PlaceInDateOrder(lots, FifoOf(lots, qty, p).allocations, i);
    var y := PlaceInDateOrder(lots, FifoOf(lots, qty, p).allocations, j);
    if y <= x { LaterStandsBehind(lots, x, y); }
    SellInDateOrder(lots, qty, p);
    if Sell(lots, qty, p)[j] != lots[j] { FrontIsEmptied(DateOrder(lots), Parse(qty).raw, x, y); }
  }

  // ------------------------------------------------------------------ what a lot gives up and costs

  lemma TakeAtStep(lots: seq<OpenLot>, q: int, i: nat)
    requires q >= 0 && i + 1 < |lots|
    ensures TakeAt(lots, q, i + 1) == TakeAt(lots[1..], q - TakeFrom(Avail(lots[0]), q), i)
    ensures q - TakeFrom(Avail(lots[0]), q) >= 0
  {
    hide Avail;
    PriorAvailShift(lots, i);
    PriorAvailNonneg(lots[1..], i);
  }

  lemma FindInWalk(lots: seq<OpenLot>, q: int, u: Decimal, id: string)
    requires lots != []
    ensures var t := TakeFrom(Avail(lots[0]), q);
      FindAllocation(Walk(lots, q, u), id) ==
        if t > 0 && lots[0].id == id then Some(Allocate(lots[0], t, u))
        else FindAllocation(Walk(lots[1..], q - t, u), id)
  {
    hide Avail, Allocate, FindAllocation;
    var t := TakeFrom(Avail(lots[0]), q);
    AllocateFields(lots[0], t, u);
    FindInCons(Allocate(lots[0], t, u), Walk(lots[1..], q - t, u), id);
    if t == 0 { assert Walk(lots, q, u) == Walk(lots[1..], q - t, u); }
  }

  lemma TakeAtFirst(lots: seq<OpenLot>, q: int)
    requires q >= 0 && lots != []
    ensures TakeAt(lots, q, 0) == TakeFrom(Avail(lots[0]), q)
  {
    hide Avail;
  }

  lemma FirstIdIsNotAgain(lots: seq<OpenLot>, i: nat)
    requires DistinctIds(lots) && 0 < i < |lots|
    ensures lots[0].id != lots[i].id && DistinctIds(lots[1..])
  {
    IdAt(lots[1..], i - 1);
  }

  lemma {:induction false} AllocationAt(lots: seq<OpenLot>, q: int, u: Decimal, i: nat)
    requires DistinctIds(lots) && q >= 0 && i < |lots|
    ensures var t := TakeAt(lots, q, i);
      FindAllocation(Walk(lots, q, u), lots[i].id) == if t == 0 then None else Some(Allocate(lots[i], t, u))
  {
    if i == 0 { FirstIdLeft(lots); } else { FirstIdIsNotAgain(lots, i); }
    hide Avail, Allocate, FindAllocation, TakeAt, Walk, DistinctIds, Ids;
    var t := TakeFrom(Avail(lots[0]), q);
    FindInWalk(lots, q, u, lots[i].id);
    if i == 0 {
      NotAllocated(lots[1..], q - t, u, lots[0].id);
      TakeAtFirst(lots, q);
    } else {
      TakeAtStep(lots, q, i - 1);
      AllocationAt(lots[1..], q - t, u, i - 1);
    }
  }

  lemma FirstIdLeft(lots: seq<OpenLot>)
    requires DistinctIds(lots) && lots != []
    ensures lots[0].id !in Ids(lots[1..])
  {}

  /**
   * The record of what a lot gave up: what it held less what it holds now, at its unit cost and
   * at the sale's unit proceeds, each truncated to 10^-18.
   */
  predicate Records(a: Allocation, before: OpenLot, after: OpenLot, unitProceeds: Decimal) {
    var gone := Parse(before.qtyRemaining).raw - Parse(after.qtyRemaining).raw;
    && gone > 0 && Parse(a.quantity).raw == gone && a.newQtyRemaining == after.qtyRemaining
    && Parse(a.costBase).raw == TruncDiv(gone * Parse(before.unitCostBase).raw, 1_000_000_000_000_000_000)
    && Parse(a.proceedsBase).raw == TruncDiv(gone * unitProceeds.raw, 1_000_000_000_000_000_000)
    && Parse(a.realizedPnl).raw == Parse(a.proceedsBase).raw - Parse(a.costBase).raw
  }

  lemma AllocateRecords(lot: OpenLot, take: int, u: Decimal)
    requires take > 0
    ensures Records(Allocate(lot, take, u), lot, lot.(qtyRemaining := Allocate(lot, take, u).newQtyRemaining), u)
  {
    hide Parse, ToString, TruncDiv;
    AllocationNumbers(lot, take, u);
  }

  /** A lot a sale takes from has such a record, and any other lot has none and stays as it is. */
  lemma AllocationOfLot(lots: seq<OpenLot>, qty: string, p: string, i: nat)
    requires DistinctIds(lots) && Parse(qty).raw >= 0 && i < |lots|
    ensures match FindAllocation(FifoOf(lots, qty, p).allocations, lots[i].id)
            case None => Sell(lots, qty, p)[i] == lots[i]
            case Some(a) => Records(a, lots[i], Sell(lots, qty, p)[i], Parse(p).Div(Parse(qty)))
  {
    hide Parse, DateOrder, Allocate, TruncDiv, DistinctIds, TakeAt, Walk, Records, Summarise;
    var sorted, q, u := DateOrder(lots), Parse(qty).raw, UnitProceeds(Parse(qty), Parse(p));
    var k := PlaceInDateOrder(lots, FifoOf(lots, qty, p).allocations, i);
    AllocationsAreWalk(lots, qty, p);
    hide FifoOf, WriteBack, FindAllocation;
    DateOrderKeepsIds(lots);
    AllocationAt(sorted, q, u, k);
    TakeAtPositive(sorted, q, k);
    WriteBackAt(lots, FifoOf(lots, qty, p).allocations, i);
    if TakeAt(sorted, q, k) > 0 { AllocateRecords(lots[i], TakeAt(sorted, q, k), u); }
  }

  lemma AllocationsAreWalk(lots: seq<OpenLot>, qty: string, p: string)
    ensures FifoOf(lots, qty, p).allocations
         == Walk(DateOrder(lots), Parse(qty).raw, UnitProceeds(Parse(qty), Parse(p)))
  {}

  lemma TakeAtPositive(lots: seq<OpenLot>, q: int, i: nat)
    requires i < |lots|
    ensures TakeAt(lots, q, i) >= 0 && (TakeAt(lots, q, i) > 0 ==> q > 0)
  {
    PriorAvailNonneg(lots, i);
  }

  /** The cost of what left one lot, and of what left each. */
  function CostOfGone(before: OpenLot, after: OpenLot): int {
    var gone := Parse(before.qtyRemaining).raw - Parse(after.qtyRemaining).raw;
    TruncDiv(gone * Parse(before.unitCostBase).raw, 1_000_000_000_000_000_000)
  }

  function CostOfAllGone(before: seq<OpenLot>, after: seq<OpenLot>): int
    requires |before| == |after|
  {
    if before == [] then 0 else CostOfGone(before[0], after[0]) + CostOfAllGone(before[1..], after[1..])
  }

  lemma OneLotGone(lot: OpenLot, take: int)
    ensures CostOfGone(lot, Reduced(lot, take)) == if take == 0 then 0 else LotCost(lot, take)
  {
    hide Parse, ToString;
    AvailOfReduced(lot, take);
  }

  lemma {:induction false} CostOfGoneIs(lots: seq<OpenLot>, q: int)
    ensures CostOfAllGone(lots, After(lots, q)) == CostOf(lots, q)
  {
    hide Avail, TakeFrom, LotCost, CostOfGone, Reduced;
    if lots != [] {
      var t := TakeFrom(Avail(lots[0]), q);
      CostOfGoneIs(lots[1..], q - t);
      OneLotGone(lots[0], t);
      assert After(lots, q) == [Reduced(lots[0], t)] + After(lots[1..], q - t);
    }
  }

  /** The total cost of a sale is the cost of what left each lot. */
  lemma SaleCostsWhatLeft(lots: seq<OpenLot>, qty: string, p: string)
    requires DistinctIds(lots)
    ensures Parse(FifoOf(lots, qty, p).totalCost).raw
         == CostOfAllGone(DateOrder(lots), DateOrder(Sell(lots, qty, p)))
  {
    hide Parse, DateOrder, Sell, DistinctIds, CostOfAllGone, CostOf, FifoOf;
    SellInDateOrder(lots, qty, p);
    CostOfGoneIs(DateOrder(lots), Parse(qty).raw);
  }
}
