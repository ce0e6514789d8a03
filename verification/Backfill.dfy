/**
 * The Toman backfill of legacy debts and installments (`src/db/migrate-debt-toman.ts`):
 * the read-only classifiers, and the writer that walks the tables in batches behind a
 * cursor. Tables are held in id order; the ledger is only read.
 */
module Backfill {
  import opened Arith
  import opened Decimals
  import opened Keyset
  import opened Options
  import opened Sorting

  type Id = int

  /** A user, or NULL for rows from before there were several. */
  type Tenant = Option<Id>

  datatype Debt = Debt(id: Id, user: Tenant, account: Option<Id>, principalToman: Option<Decimal>)

  datatype Installment = Installment(
    id: Id, debt: Id, status: string, paidEntry: Option<Id>,
    amountToman: Option<Decimal>, paidToman: Option<Decimal>, paidUsd: Option<Decimal>, paidFxRate: Option<Decimal>)

  datatype JournalEntry = JournalEntry(user: Tenant, kind: string)

  datatype Posting = Posting(account: Id, entry: Id, symbol: Option<string>, quantity: Decimal)

  datatype Snapshot = Snapshot(entry: Id, irt: Decimal, usd: Decimal, rate: Decimal)

  datatype Ledger = Ledger(
    owners: map<Id, Tenant>, entries: map<Id, JournalEntry>, postings: seq<Posting>, snapshots: seq<Snapshot>)

  datatype Category =
    MissingEvidence | Ambiguous | Invalid | QuickPayNoSnapshot | NonIrtDenomination | PendingNoToman

  datatype DebtEvidence = Proven(principalToman: Decimal, entry: Id) | Blocked(category: Category)

  datatype PaymentEvidence =
    | ProvenPayment(amountToman: Decimal, paidToman: Decimal, paidUsd: Decimal, paidFxRate: Decimal)
    | BlockedPayment(category: Category)

  // ------------------------------------------------------------------ debt evidence

  /** Upper-cased, the symbol reads IRT; the dotless i also upper-cases to I. */
  predicate IsIrt(p: Posting) {
    && p.symbol.Some? && |p.symbol.value| == 3
    && p.symbol.value[0] in "Ii\U{0131}" && p.symbol.value[1] in "Rr" && p.symbol.value[2] in "Tt"
  }

  /** The posting is a debt entry's, on this account, and all three owners agree. */
  predicate Supports(l: Ledger, account: Id, user: Tenant, p: Posting) {
    && p.account == account && account in l.owners && p.entry in l.entries
    && l.entries[p.entry].kind == "debt"
    && l.entries[p.entry].user == l.owners[account]
    && l.entries[p.entry].user == user
  }

  function DebtRows(l: Ledger, account: Id, user: Tenant): seq<Posting> {
    Filter((p: Posting) => Supports(l, account, user, p), l.postings)
  }

  predicate OneEntry(rows: seq<Posting>) {
    forall i :: 0 <= i < |rows| ==> rows[i].entry == rows[0].entry
  }

  function ClassifyDebt(l: Ledger, d: Debt): DebtEvidence {
    if d.account.None? then Blocked(MissingEvidence)
    else
      var rows := DebtRows(l, d.account.value, d.user);
      if rows == [] then Blocked(MissingEvidence)
      else if !OneEntry(rows) then Blocked(Ambiguous)
      else
        var irt := Filter(IsIrt, rows);
        if |irt| != 1 then Blocked(NonIrtDenomination)
        else if irt[0].quantity.raw == 0 then Blocked(Invalid)
        else Proven(irt[0].quantity.AbsValue(), rows[0].entry)
  }

  function OfEntry(entry: Id, rows: seq<Posting>): seq<Posting> {
    Filter((p: Posting) => p.entry == entry, rows)
  }

  lemma {:induction false} OfOnlyEntry(entry: Id, rows: seq<Posting>)
    requires forall i :: 0 <= i < |rows| ==> rows[i].entry == entry
    ensures OfEntry(entry, rows) == rows
  {
    if rows != [] {
      OfOnlyEntry(entry, rows[..|rows| - 1]);
      assert rows == rows[..|rows| - 1] + [rows[|rows| - 1]];
    }
  }

  lemma EntryCount(rows: seq<Posting>, keys: set<Id>)
    requires keys == set j | 0 <= j < |rows| :: rows[j].entry
    ensures |keys| == 0 <==> rows == []
    ensures rows != [] ==> (|keys| == 1 <==> OneEntry(rows))
  {
    if rows != [] {
      var k := rows[0].entry;
      assert k in keys;
      if OneEntry(rows) {
        assert keys == {k};
      }
      if |keys| == 1 {
        assert |keys - {k}| == 0;
        assert keys == {k};
        forall i | 0 <= i < |rows| ensures rows[i].entry == k { assert rows[i].entry in keys; }
      }
    }
  }

  method GroupByEntry(rows: seq<Posting>) returns (groups: map<Id, seq<Posting>>)
    ensures groups.Keys == set j | 0 <= j < |rows| :: rows[j].entry
    ensures forall e :: e in groups ==> groups[e] == OfEntry(e, rows)
  {
    groups := map[];
    for i := 0 to |rows|
      invariant groups.Keys == set j | 0 <= j < i :: rows[j].entry
      invariant forall e :: e in groups ==> groups[e] == OfEntry(e, rows[..i])
    {
      hide OfEntry;
      var entry := rows[i].entry;
      assert rows[..i + 1] == rows[..i] + [rows[i]];
      forall e ensures OfEntry(e, rows[..i + 1]) == OfEntry(e, rows[..i]) + (if entry == e then [rows[i]] else []) {
        OfEntryStep(e, rows[..i], rows[i]);
      }
      if entry !in groups { NoneOfEntry(entry, rows[..i]); }
      var list := if entry in groups then groups[entry] else [];
      groups := groups[entry := list + [rows[i]]];
    }
    assert rows[..|rows|] == rows;
  }

  lemma OfEntryStep(entry: Id, rows: seq<Posting>, row: Posting)
    ensures OfEntry(entry, rows + [row]) == OfEntry(entry, rows) + (if row.entry == entry then [row] else [])
  {
    assert (rows + [row])[..|rows|] == rows;
  }

  /** Groups the matching postings by entry, as the classifier does, before judging them. */
  method ClassifyDebtEvidence(l: Ledger, d: Debt) returns (evidence: DebtEvidence)
    ensures evidence == ClassifyDebt(l, d)
  {
    hide DebtRows, OfEntry, Filter, IsIrt;
    if d.account.None? { return Blocked(MissingEvidence); }
    var rows := DebtRows(l, d.account.value, d.user);
    var groups := GroupByEntry(rows);
    EntryCount(rows, groups.Keys);
    if |groups| == 0 { return Blocked(MissingEvidence); }
    if |groups| > 1 { return Blocked(Ambiguous); }
    assert rows[0].entry in groups;
    OfOnlyEntry(rows[0].entry, rows);
    var postings := groups[rows[0].entry];
    var irt := Filter(IsIrt, postings);
    if |irt| != 1 { return Blocked(NonIrtDenomination); }
    if irt[0].quantity.raw == 0 { return Blocked(Invalid); }
    return Proven(irt[0].quantity.AbsValue(), rows[0].entry);
  }

  lemma {:induction false} NoneOfEntry(entry: Id, rows: seq<Posting>)
    requires forall i :: 0 <= i < |rows| ==> rows[i].entry != entry
    ensures OfEntry(entry, rows) == []
  {
    if rows != [] { NoneOfEntry(entry, rows[..|rows| - 1]); }
  }

  // ------------------------------------------------------------------ installment evidence

  function SnapshotRows(l: Ledger, entry: Id): seq<Snapshot> {
    Filter((s: Snapshot) => s.entry == entry && entry in l.entries, l.snapshots)
  }

  /** `owner` is the tenant of the installment's debt. */
  function ClassifyInstallment(l: Ledger, owner: Tenant, i: Installment): PaymentEvidence {
    if i.status != "paid" || i.paidEntry.None? then BlockedPayment(PendingNoToman)
    else
      var rows := SnapshotRows(l, i.paidEntry.value);
      if |rows| == 0 then BlockedPayment(QuickPayNoSnapshot)
      else if |rows| > 1 then BlockedPayment(Ambiguous)
      else if i.paidEntry.value !in l.entries || l.entries[i.paidEntry.value].user != owner then
        BlockedPayment(Ambiguous)
      else if rows[0].irt.raw <= 0 then BlockedPayment(Invalid)
      else ProvenPayment(rows[0].irt, rows[0].irt, rows[0].usd, rows[0].rate)
  }

  // ------------------------------------------------------------------ what is filled in

  function DebtId(d: Debt): Id { d.id }

  predicate DebtPending(d: Debt) { d.principalToman.None? }

  function FillDebt(l: Ledger, d: Debt): Debt {
    var evidence := ClassifyDebt(l, d);
    if DebtPending(d) && evidence.Proven? then d.(principalToman := Some(evidence.principalToman)) else d
  }

  function DebtFiller(l: Ledger): Debt -> Debt {
    (d: Debt) => FillDebt(l, d)
  }

  function OwnerOf(debts: seq<Debt>, id: Id): Option<Tenant> {
    if debts == [] then None
    else if debts[0].id == id then Some(debts[0].user)
    else OwnerOf(debts[1..], id)
  }

  function InstallmentId(i: Installment): Id { i.id }

  predicate InstallmentPending(debts: seq<Debt>, i: Installment) {
    i.amountToman.None? && i.status == "paid" && i.paidEntry.Some? && OwnerOf(debts, i.debt).Some?
  }

  function Pay(i: Installment, e: PaymentEvidence): Installment
    requires e.ProvenPayment?
  {
    i.(amountToman := Some(e.amountToman), paidToman := Some(e.paidToman),
       paidUsd := Some(e.paidUsd), paidFxRate := Some(e.paidFxRate))
  }

  function PaymentOf(l: Ledger, debts: seq<Debt>, i: Installment): PaymentEvidence
    requires OwnerOf(debts, i.debt).Some?
  {
    ClassifyInstallment(l, OwnerOf(debts, i.debt).value, i)
  }

  function FillInstallment(l: Ledger, debts: seq<Debt>, i: Installment): Installment {
    if InstallmentPending(debts, i) && PaymentOf(l, debts, i).ProvenPayment? then Pay(i, PaymentOf(l, debts, i)) else i
  }

  function PendingWith(debts: seq<Debt>): Installment -> bool {
    (i: Installment) => InstallmentPending(debts, i)
  }

  function InstallmentFiller(l: Ledger, debts: seq<Debt>): Installment -> Installment {
    (i: Installment) => FillInstallment(l, debts, i)
  }

  /** Ids of the pending debts with evidence, in order. */
  function ProvenDebts(l: Ledger, rows: seq<Debt>): seq<Id> {
    if rows == [] then []
    else
      var d := rows[|rows| - 1];
      ProvenDebts(l, rows[..|rows| - 1]) + (if ClassifyDebt(l, d).Proven? then [d.id] else [])
  }

  function ProvenInstallments(l: Ledger, debts: seq<Debt>, rows: seq<Installment>): seq<Id> {
    if rows == [] then []
    else
      var i := rows[|rows| - 1];
      ProvenInstallments(l, debts, rows[..|rows| - 1])
      + (if OwnerOf(debts, i.debt).Some? && PaymentOf(l, debts, i).ProvenPayment? then [i.id] else [])
  }

  // ------------------------------------------------------------------ the writer

  datatype Stats = Stats(debtsScanned: nat, debtsMigrated: nat, installmentsScanned: nat, installmentsMigrated: nat)
  {
    function Plus(other: Stats): Stats {
      Stats(debtsScanned + other.debtsScanned, debtsMigrated + other.debtsMigrated,
            installmentsScanned + other.installmentsScanned, installmentsMigrated + other.installmentsMigrated)
    }
  }

  const NO_STATS := Stats(0, 0, 0, 0)

  function Total(batches: seq<Stats>): Stats {
    if batches == [] then NO_STATS else Total(batches[..|batches| - 1]).Plus(batches[|batches| - 1])
  }

  /** Every batch but the last is full, the last holds at least one row, and a size below one counts as one. */
  predicate InBatches(batches: seq<Stats>, scanned: Stats -> nat, batchSize: int) {
    var size := if batchSize < 1 then 1 else batchSize;
    && (forall i :: 0 <= i < |batches| - 1 ==> scanned(batches[i]) == size)
    && (batches != [] ==> 1 <= scanned(batches[|batches| - 1]) <= size)
  }

  lemma FullThenRest(batches: seq<Stats>, scanned: Stats -> nat, batchSize: int)
    requires forall i :: 0 <= i < |batches| - 1 ==> scanned(batches[i]) == Max(1, batchSize)
    requires batches != [] ==> 1 <= scanned(batches[|batches| - 1]) <= Max(1, batchSize)
    ensures InBatches(batches, scanned, batchSize)
  {}

  lemma TotalStep(batches: seq<Stats>, b: Stats)
    ensures Total(batches + [b]) == Total(batches).Plus(b)
  {
    assert (batches + [b])[..|batches|] == batches;
  }

  function SetPrincipalOf(value: Decimal): Debt -> Debt {
    (d: Debt) => if d.principalToman.None? then d.(principalToman := Some(value)) else d
  }

  function SetPaymentOf(e: PaymentEvidence): Installment -> Installment
    requires e.ProvenPayment?
  {
    (i: Installment) => if i.amountToman.None? then Pay(i, e) else i
  }

  lemma NothingYet(l: Ledger, debts: seq<Debt>)
    ensures Total([]) == NO_STATS && ProvenDebts(l, []) == [] && ProvenInstallments(l, debts, []) == []
  {}

  class Database {
    const ledger: Ledger
    var debts: seq<Debt>
    var installments: seq<Installment>

    ghost predicate Valid()
      reads this
    {
      InIdOrder(debts, DebtId) && InIdOrder(installments, InstallmentId)
    }

    constructor (l: Ledger, ds: seq<Debt>, insts: seq<Installment>)
      requires InIdOrder(ds, DebtId) && InIdOrder(insts, InstallmentId)
      ensures Valid() && ledger == l && debts == ds && installments == insts
    {
      ledger, debts, installments := l, ds, insts;
    }

    method SetPrincipal(id: Id, value: Decimal) returns (updated: nat)
      modifies this`debts
      ensures debts == Update(old(debts), DebtId, id, SetPrincipalOf(value))
      ensures updated == if exists d :: d in old(debts) && d.id == id && DebtPending(d) then 1 else 0
      ensures updated == 0 <==> debts == old(debts)
    {
      updated := if exists d :: d in debts && d.id == id && DebtPending(d) then 1 else 0;
      ghost var before := debts;
      debts := Update(debts, DebtId, id, SetPrincipalOf(value));
      if d :| d in before && d.id == id && DebtPending(d) {
        var k :| 0 <= k < |before| && before[k] == d;
        assert debts[k] != before[k];
      }
    }

    method SetPayment(id: Id, e: PaymentEvidence) returns (updated: nat)
      requires e.ProvenPayment?
      modifies this`installments
      ensures installments == Update(old(installments), InstallmentId, id, SetPaymentOf(e))
      ensures updated == if exists i :: i in old(installments) && i.id == id && i.amountToman.None? then 1 else 0
      ensures updated == 0 <==> installments == old(installments)
    {
      updated := if exists i :: i in installments && i.id == id && i.amountToman.None? then 1 else 0;
      ghost var before := installments;
      installments := Update(installments, InstallmentId, id, SetPaymentOf(e));
      if i :| i in before && i.id == id && i.amountToman.None? {
        var k :| 0 <= k < |before| && before[k] == i;
        assert installments[k] != before[k];
      }
    }

    /**
     * Pages through the debts without a Toman principal. The table ends as the one-shot
     * fill of every row, and each pending debt is scanned once, in order.
     */
    method MigrateDebts(batchSize: int) returns (batches: seq<Stats>, ghost scanned: seq<Debt>)
      requires Valid()
      modifies this`debts
      ensures Valid()
      ensures debts == Map(DebtFiller(ledger), old(debts))
      ensures scanned == Beyond(old(debts), DebtId, DebtPending, None)
      ensures Total(batches) == Stats(|scanned|, |ProvenDebts(ledger, scanned)|, 0, 0)
      ensures InBatches(batches, (b: Stats) => b.debtsScanned, batchSize)
    {
      hide Beyond, ClassifyDebt, Total, ProvenDebts, FillUpTo, Map, InBatches, Page, InIdOrder, FillsOnly;
      NothingYet(ledger, debts);
      ghost var start, fill := debts, DebtFiller(ledger);
      DebtFillerFills(ledger);
      FillNothing(start, DebtId, fill);
      var limit := Max(1, batchSize);
      var last: Option<Id> := None;
      batches, scanned := [], [];
      while true
        invariant debts == FillUpTo(start, DebtId, fill, last)
        invariant scanned + Beyond(start, DebtId, DebtPending, last) == Beyond(start, DebtId, DebtPending, None)
        invariant Total(batches) == Stats(|scanned|, |ProvenDebts(ledger, scanned)|, 0, 0)
        invariant forall i :: 0 <= i < |batches| ==> batches[i].debtsScanned == limit
        decreases |Beyond(start, DebtId, DebtPending, last)|
      {
        BeyondUntouched(start, DebtId, DebtPending, fill, last);
        ghost var found := Beyond(start, DebtId, DebtPending, last);
        var rows := Page(debts, DebtId, DebtPending, last, limit);
        PageParts(debts, DebtId, DebtPending, last, limit);
        if |rows| == 0 { break; }
        var migrated := MigrateDebtPage(rows, start, last);
        ghost var before := scanned;
        scanned := scanned + rows;
        ProvenDebtsAppend(ledger, before, rows);
        var stats := Stats(|rows|, migrated, 0, 0);
        TotalStep(batches, stats);
        batches := batches + [stats];
        last := Some(rows[|rows| - 1].id);
        assert found == rows + found[|rows|..];
        assert scanned + found[|rows|..] == before + found;
        if |rows| < limit { break; }
      }
      FillDone(start, DebtId, DebtPending, fill, last);
      FullThenRest(batches, (b: Stats) => b.debtsScanned, batchSize);
      MapKeepsOrder(start, DebtId, DebtPending, fill);
    }

    /** One page, in one transaction. */
    method MigrateDebtPage(rows: seq<Debt>, ghost start: seq<Debt>, ghost last: Option<Id>) returns (migrated: nat)
      requires InIdOrder(start, DebtId) && debts == FillUpTo(start, DebtId, DebtFiller(ledger), last)
      requires rows != [] && rows <= Beyond(start, DebtId, DebtPending, last)
      modifies this`debts
      ensures debts == FillUpTo(start, DebtId, DebtFiller(ledger), Some(rows[|rows| - 1].id))
      ensures Beyond(start, DebtId, DebtPending, Some(rows[|rows| - 1].id))
           == Beyond(start, DebtId, DebtPending, last)[|rows|..]
      ensures migrated == |ProvenDebts(ledger, rows)|
    {
      hide Beyond, ClassifyDebt;
      ghost var found, fill, c := Beyond(start, DebtId, DebtPending, last), DebtFiller(ledger), last;
      migrated := 0;
      for j := 0 to |rows|
        invariant c == if j == 0 then last else Some(rows[j - 1].id)
        invariant debts == FillUpTo(start, DebtId, fill, c)
        invariant Beyond(start, DebtId, DebtPending, c) == found[j..]
        invariant migrated == |ProvenDebts(ledger, rows[..j])|
      {
        var row := rows[j];
        assert rows[..j + 1][..j] == rows[..j];
        assert found[j..][0] == row && found[j..][1..] == found[j + 1..];
        CursorAdvances(start, DebtId, DebtPending, c);
        FillNextDebt(ledger, start, c);
        var evidence := ClassifyDebtEvidence(ledger, row);
        if evidence.Proven? {
          var updated := SetPrincipal(row.id, evidence.principalToman);
          migrated := migrated + updated;
        }
        c := Some(row.id);
      }
      assert rows[..|rows|] == rows;
    }

    /** The same over the paid installments, whose tenants come from the debts table. */
    method MigrateInstallments(batchSize: int) returns (batches: seq<Stats>, ghost scanned: seq<Installment>)
      requires Valid()
      modifies this`installments
      ensures Valid()
      ensures installments == Map(InstallmentFiller(ledger, debts), old(installments))
      ensures scanned == Beyond(old(installments), InstallmentId, PendingWith(debts), None)
      ensures Total(batches) == Stats(0, 0, |scanned|, |ProvenInstallments(ledger, debts, scanned)|)
      ensures InBatches(batches, (b: Stats) => b.installmentsScanned, batchSize)
    {
      hide Beyond, ClassifyInstallment, Total, ProvenInstallments, FillUpTo, Map, InBatches, Page, InIdOrder;
      hide FillsOnly, InstallmentPending;
      NothingYet(ledger, debts);
      ghost var start, fill, pending := installments, InstallmentFiller(ledger, debts), PendingWith(debts);
      InstallmentFillerFills(ledger, debts);
      FillNothing(start, InstallmentId, fill);
      var limit := Max(1, batchSize);
      var last: Option<Id> := None;
      batches, scanned := [], [];
      while true
        invariant installments == FillUpTo(start, InstallmentId, fill, last)
        invariant scanned + Beyond(start, InstallmentId, pending, last) == Beyond(start, InstallmentId, pending, None)
        invariant Total(batches) == Stats(0, 0, |scanned|, |ProvenInstallments(ledger, debts, scanned)|)
        invariant forall i :: 0 <= i < |batches| ==> batches[i].installmentsScanned == limit
        decreases |Beyond(start, InstallmentId, pending, last)|
      {
        BeyondUntouched(start, InstallmentId, pending, fill, last);
        ghost var found := Beyond(start, InstallmentId, pending, last);
        var rows := Page(installments, InstallmentId, PendingWith(debts), last, limit);
        PageParts(installments, InstallmentId, PendingWith(debts), last, limit);
        if |rows| == 0 { break; }
        var migrated := MigrateInstallmentPage(rows, start, last);
        ghost var before := scanned;
        scanned := scanned + rows;
        ProvenInstallmentsAppend(ledger, debts, before, rows);
        var stats := Stats(0, 0, |rows|, migrated);
        TotalStep(batches, stats);
        batches := batches + [stats];
        last := Some(rows[|rows| - 1].id);
        assert found == rows + found[|rows|..];
        assert scanned + found[|rows|..] == before + found;
        if |rows| < limit { break; }
      }
      FillDone(start, InstallmentId, pending, fill, last);
      FullThenRest(batches, (b: Stats) => b.installmentsScanned, batchSize);
      MapKeepsOrder(start, InstallmentId, pending, fill);
    }

    method MigrateInstallmentPage(rows: seq<Installment>, ghost start: seq<Installment>, ghost last: Option<Id>)
      returns (migrated: nat)
      requires InIdOrder(start, InstallmentId)
      requires installments == FillUpTo(start, InstallmentId, InstallmentFiller(ledger, debts), last)
      requires rows != [] && rows <= Beyond(start, InstallmentId, PendingWith(debts), last)
      modifies this`installments
      ensures installments
           == FillUpTo(start, InstallmentId, InstallmentFiller(ledger, debts), Some(rows[|rows| - 1].id))
      ensures Beyond(start, InstallmentId, PendingWith(debts), Some(rows[|rows| - 1].id))
           == Beyond(start, InstallmentId, PendingWith(debts), last)[|rows|..]
      ensures migrated == |ProvenInstallments(ledger, debts, rows)|
    {
      hide Beyond, ClassifyInstallment;
      ghost var pending, fill, c := PendingWith(debts), InstallmentFiller(ledger, debts), last;
      ghost var found := Beyond(start, InstallmentId, pending, last);
      migrated := 0;
      for j := 0 to |rows|
        invariant c == if j == 0 then last else Some(rows[j - 1].id)
        invariant installments == FillUpTo(start, InstallmentId, fill, c)
        invariant Beyond(start, InstallmentId, pending, c) == found[j..]
        invariant migrated == |ProvenInstallments(ledger, debts, rows[..j])|
      {
        var row := rows[j];
        assert rows[..j + 1][..j] == rows[..j];
        assert found[j..][0] == row && found[j..][1..] == found[j + 1..];
        CursorAdvances(start, InstallmentId, pending, c);
        FillNextInstallment(ledger, debts, start, c);
        var evidence := ClassifyInstallment(ledger, OwnerOf(debts, row.debt).value, row);
        if evidence.ProvenPayment? {
          var updated := SetPayment(row.id, evidence);
          migrated := migrated + updated;
        }
        c := Some(row.id);
      }
      assert rows[..|rows|] == rows;
    }

    /** Debts first, then installments; the totals are summed over the batches. */
    method Backfill(batchSize: int) returns (batches: seq<Stats>, total: Stats)
      requires Valid()
      modifies this`debts, this`installments
      ensures Valid()
      ensures (debts, installments) == Filled(ledger, old(debts), old(installments))
      ensures total == Total(batches)
      ensures total == Expected(ledger, old(debts), old(installments))
    {
      hide Beyond, Map, Total, ProvenDebts, ProvenInstallments;
      ghost var ds, insts := debts, installments;
      var first, scannedDebts := MigrateDebts(batchSize);
      var second, scannedInstallments := MigrateInstallments(batchSize);
      FilledDebtsOwn(ledger, ds, insts);
      batches := first + second;
      TotalAppend(first, second);
      total := SumStats(batches);
    }
  }

  method SumStats(batches: seq<Stats>) returns (total: Stats)
    ensures total == Total(batches)
  {
    total := NO_STATS;
    for i := 0 to |batches|
      invariant total == Total(batches[..i])
    {
      assert batches[..i + 1] == batches[..i] + [batches[i]];
      TotalStep(batches[..i], batches[i]);
      total := total.Plus(batches[i]);
    }
    assert batches[..|batches|] == batches;
  }

  lemma DebtFillerFills(l: Ledger)
    ensures FillsOnly(DebtId, DebtPending, DebtFiller(l))
  {}

  lemma FillNothing<T>(rows: seq<T>, id: T -> int, fill: T -> T)
    ensures FillUpTo(rows, id, fill, None) == rows
  {}

  lemma MapKeepsOrder<T(!new)>(rows: seq<T>, id: T -> int, pending: T -> bool, fill: T -> T)
    requires InIdOrder(rows, id) && FillsOnly(id, pending, fill)
    ensures InIdOrder(Map(fill, rows), id)
  {}

  lemma {:induction false} ProvenDebtsAppend(l: Ledger, a: seq<Debt>, b: seq<Debt>)
    ensures ProvenDebts(l, a + b) == ProvenDebts(l, a) + ProvenDebts(l, b)
  {
    hide ClassifyDebt;
    if b == [] {
      assert a + b == a;
    } else {
      ProvenDebtsAppend(l, a, b[..|b| - 1]);
      assert (a + b)[..|a + b| - 1] == a + b[..|b| - 1];
    }
  }

  /** The guarded update of the next pending debt, or none when it is blocked. */
  lemma FillNextDebt(l: Ledger, start: seq<Debt>, cursor: Option<Id>)
    requires InIdOrder(start, DebtId) && Beyond(start, DebtId, DebtPending, cursor) != []
    ensures var row := Beyond(start, DebtId, DebtPending, cursor)[0];
      var debts := FillUpTo(start, DebtId, DebtFiller(l), cursor);
      && row in debts && DebtPending(row)
      && FillUpTo(start, DebtId, DebtFiller(l), Some(row.id))
         == (if ClassifyDebt(l, row).Proven?
             then Update(debts, DebtId, row.id, SetPrincipalOf(ClassifyDebt(l, row).principalToman))
             else debts)
  {
    hide Beyond, ClassifyDebt;
    var row := Beyond(start, DebtId, DebtPending, cursor)[0];
    var debts := FillUpTo(start, DebtId, DebtFiller(l), cursor);
    DebtFillerFills(l);
    FillNext(start, DebtId, DebtPending, DebtFiller(l), cursor);
    FoundIff(start, DebtId, DebtPending, cursor, row);
    var k :| 0 <= k < |start| && start[k] == row;
    assert debts[k] == row;
    FillKeepsOrder(start, DebtId, DebtFiller(l), cursor);
    UpdateOneRow(debts, DebtId, k, DebtFiller(l));
    if ClassifyDebt(l, row).Proven? {
      UpdateOneRow(debts, DebtId, k, SetPrincipalOf(ClassifyDebt(l, row).principalToman));
    } else {
      assert debts[k := row] == debts;
    }
  }

  lemma InstallmentFillerFills(l: Ledger, debts: seq<Debt>)
    ensures FillsOnly(InstallmentId, PendingWith(debts), InstallmentFiller(l, debts))
  {
    hide ClassifyInstallment, OwnerOf;
  }

  lemma {:induction false} ProvenInstallmentsAppend(
      l: Ledger, debts: seq<Debt>, a: seq<Installment>, b: seq<Installment>)
    ensures ProvenInstallments(l, debts, a + b) == ProvenInstallments(l, debts, a) + ProvenInstallments(l, debts, b)
  {
    hide ClassifyInstallment, OwnerOf;
    if b == [] {
      assert a + b == a;
    } else {
      ProvenInstallmentsAppend(l, debts, a, b[..|b| - 1]);
      assert (a + b)[..|a + b| - 1] == a + b[..|b| - 1];
    }
  }

  lemma FillNextInstallment(l: Ledger, debts: seq<Debt>, start: seq<Installment>, cursor: Option<Id>)
    requires InIdOrder(start, InstallmentId) && Beyond(start, InstallmentId, PendingWith(debts), cursor) != []
    ensures var row := Beyond(start, InstallmentId, PendingWith(debts), cursor)[0];
      var rows := FillUpTo(start, InstallmentId, InstallmentFiller(l, debts), cursor);
      && row in rows && InstallmentPending(debts, row)
      && FillUpTo(start, InstallmentId, InstallmentFiller(l, debts), Some(row.id))
         == (if PaymentOf(l, debts, row).ProvenPayment?
             then Update(rows, InstallmentId, row.id, SetPaymentOf(PaymentOf(l, debts, row)))
             else rows)
  {
    hide Beyond, ClassifyInstallment, OwnerOf;
    var fill, pending := InstallmentFiller(l, debts), PendingWith(debts);
    var row := Beyond(start, InstallmentId, pending, cursor)[0];
    var rows := FillUpTo(start, InstallmentId, fill, cursor);
    InstallmentFillerFills(l, debts);
    FillNext(start, InstallmentId, pending, fill, cursor);
    FoundIff(start, InstallmentId, pending, cursor, row);
    var k :| 0 <= k < |start| && start[k] == row;
    assert rows[k] == row;
    FillKeepsOrder(start, InstallmentId, fill, cursor);
    UpdateOneRow(rows, InstallmentId, k, fill);
    if PaymentOf(l, debts, row).ProvenPayment? {
      UpdateOneRow(rows, InstallmentId, k, SetPaymentOf(PaymentOf(l, debts, row)));
    } else {
      assert rows[k := row] == rows;
    }
  }

  // ------------------------------------------------------------------ the one-shot meaning

  /** Both tables after one pass over every row, the installments judged against the original debts. */
  function Filled(l: Ledger, debts: seq<Debt>, insts: seq<Installment>): (seq<Debt>, seq<Installment>) {
    (Map(DebtFiller(l), debts), Map(InstallmentFiller(l, debts), insts))
  }

  function PendingDebts(debts: seq<Debt>): seq<Debt> {
    Beyond(debts, DebtId, DebtPending, None)
  }

  function PendingInstallments(debts: seq<Debt>, insts: seq<Installment>): seq<Installment> {
    Beyond(insts, InstallmentId, PendingWith(debts), None)
  }

  /** Every candidate scanned once, and exactly the proven ones written. */
  function Expected(l: Ledger, debts: seq<Debt>, insts: seq<Installment>): Stats {
    Stats(|PendingDebts(debts)|, |ProvenDebts(l, PendingDebts(debts))|,
          |PendingInstallments(debts, insts)|, |ProvenInstallments(l, debts, PendingInstallments(debts, insts))|)
  }

  lemma {:induction false} TotalAppend(a: seq<Stats>, b: seq<Stats>)
    ensures Total(a + b) == Total(a).Plus(Total(b))
  {
    if b == [] {
      assert a + b == a;
    } else {
      var init, last := b[..|b| - 1], b[|b| - 1];
      assert b == init + [last] && a + b == (a + init) + [last];
      TotalAppend(a, init);
      hide Total;
      TotalStep(init, last);
      TotalStep(a + init, last);
    }
  }

  lemma {:induction false} OwnersKept(l: Ledger, debts: seq<Debt>, id: Id)
    ensures OwnerOf(Map(DebtFiller(l), debts), id) == OwnerOf(debts, id)
  {
    hide ClassifyDebt;
    if debts != [] {
      OwnersKept(l, debts[1..], id);
      assert Map(DebtFiller(l), debts)[1..] == Map(DebtFiller(l), debts[1..]);
    }
  }

  /** Filling the debts changes no tenant, so it changes nothing for the installments. */
  lemma FilledDebtsOwn(l: Ledger, debts: seq<Debt>, insts: seq<Installment>)
    ensures var after := Map(DebtFiller(l), debts);
      && Map(InstallmentFiller(l, after), insts) == Map(InstallmentFiller(l, debts), insts)
      && PendingInstallments(after, insts) == PendingInstallments(debts, insts)
      && forall rows :: ProvenInstallments(l, after, rows) == ProvenInstallments(l, debts, rows)
  {
    hide ClassifyInstallment, DebtFiller, OwnerOf;
    var after := Map(DebtFiller(l), debts);
    forall id ensures OwnerOf(after, id) == OwnerOf(debts, id) { OwnersKept(l, debts, id); }
    SamePending(after, debts, insts);
    forall rows ensures ProvenInstallments(l, after, rows) == ProvenInstallments(l, debts, rows) {
      SameProven(l, after, debts, rows);
    }
  }

  lemma {:induction false} SamePending(a: seq<Debt>, b: seq<Debt>, insts: seq<Installment>)
    requires forall id :: OwnerOf(a, id) == OwnerOf(b, id)
    ensures PendingInstallments(a, insts) == PendingInstallments(b, insts)
  {
    hide OwnerOf;
    if insts != [] { SamePending(a, b, insts[1..]); }
  }

  lemma {:induction false} SameProven(l: Ledger, a: seq<Debt>, b: seq<Debt>, rows: seq<Installment>)
    requires forall id :: OwnerOf(a, id) == OwnerOf(b, id)
    ensures ProvenInstallments(l, a, rows) == ProvenInstallments(l, b, rows)
  {
    hide OwnerOf, ClassifyInstallment;
    if rows != [] { SameProven(l, a, b, rows[..|rows| - 1]); }
  }
}
