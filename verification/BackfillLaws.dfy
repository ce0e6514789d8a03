/** What the Toman backfill guarantees: sound evidence, and a safe, repeatable write. */
module BackfillLaws {
  import opened Arith
  import opened Backfill
  import opened Decimals
  import opened Keyset
  import opened Options
  import opened Sorting

  // ------------------------------------------------------------------ filters

  lemma FilterStep<T>(keep: T -> bool, rows: seq<T>, row: T)
    ensures Filter(keep, rows + [row]) == Filter(keep, rows) + (if keep(row) then [row] else [])
  {
    assert (rows + [row])[..|rows|] == rows;
  }

  lemma {:induction false} FilterMembers<T>(keep: T -> bool, rows: seq<T>, row: T)
    ensures row in Filter(keep, rows) <==> row in rows && keep(row)
  {
    if rows != [] {
      FilterMembers(keep, rows[..|rows| - 1], row);
      assert rows == rows[..|rows| - 1] + [rows[|rows| - 1]];
    }
  }

  lemma {:induction false} FilterTwice<T>(f: T -> bool, g: T -> bool, both: T -> bool, rows: seq<T>)
    requires forall row :: row in rows ==> both(row) == (g(row) && f(row))
    ensures Filter(f, Filter(g, rows)) == Filter(both, rows)
  {
    if rows != [] {
      var init, last := rows[..|rows| - 1], rows[|rows| - 1];
      assert rows == init + [last];
      FilterTwice(f, g, both, init);
      FilterStep(f, Filter(g, init), last);
      assert Filter(g, init) + [] == Filter(g, init);
    }
  }

  ghost predicate Only<T>(keep: T -> bool, rows: seq<T>, k: int) {
    && 0 <= k < |rows| && keep(rows[k])
    && forall j :: 0 <= j < |rows| && j != k ==> !keep(rows[j])
  }

  lemma {:induction false} FilterNone<T>(keep: T -> bool, rows: seq<T>)
    ensures Filter(keep, rows) == [] <==> forall j :: 0 <= j < |rows| ==> !keep(rows[j])
  {
    if rows != [] { FilterNone(keep, rows[..|rows| - 1]); }
  }

  lemma {:induction false} FilterOnly<T>(keep: T -> bool, rows: seq<T>, k: int)
    requires Only(keep, rows, k)
    ensures Filter(keep, rows) == [rows[k]]
  {
    var init, last := rows[..|rows| - 1], rows[|rows| - 1];
    if k == |rows| - 1 {
      FilterNone(keep, init);
    } else {
      FilterOnly(keep, init, k);
    }
  }

  lemma {:induction false} FilterOne<T>(keep: T -> bool, rows: seq<T>) returns (k: int)
    requires |Filter(keep, rows)| == 1
    ensures Only(keep, rows, k)
  {
    var init, last := rows[..|rows| - 1], rows[|rows| - 1];
    if keep(last) {
      FilterNone(keep, init);
      k := |rows| - 1;
      forall j | 0 <= j < |rows| && j != k ensures !keep(rows[j]) { assert rows[j] == init[j]; }
    } else {
      k := FilterOne(keep, init);
      forall j | 0 <= j < |rows| && j != k ensures !keep(rows[j]) { assert j < |init| ==> rows[j] == init[j]; }
    }
  }

  lemma {:induction false} FilterOfMap<T>(keep: T -> bool, f: T -> T, was: T -> bool, rows: seq<T>)
    requires forall row :: row in rows ==> keep(f(row)) == was(row)
    ensures |Filter(keep, Map(f, rows))| == |Filter(was, rows)|
  {
    if rows != [] {
      var init, last := rows[..|rows| - 1], rows[|rows| - 1];
      assert Map(f, rows)[..|rows| - 1] == Map(f, init);
      FilterOfMap(keep, f, was, init);
    }
  }

  lemma {:induction false} BeyondStep<T>(
      rows: seq<T>, row: T, id: T -> int, pending: T -> bool, after: Option<int>)
    ensures Beyond(rows + [row], id, pending, after)
         == Beyond(rows, id, pending, after) + (if pending(row) && Past(after, id(row)) then [row] else [])
  {
    if rows != [] {
      BeyondStep(rows[1..], row, id, pending, after);
      assert (rows + [row])[1..] == rows[1..] + [row];
    }
  }

  /** With no cursor, paging finds every pending row. */
  lemma {:induction false} BeyondAll<T>(rows: seq<T>, id: T -> int, pending: T -> bool)
    ensures Beyond(rows, id, pending, None) == Filter(pending, rows)
  {
    if rows != [] {
      var init, last := rows[..|rows| - 1], rows[|rows| - 1];
      assert rows == init + [last];
      BeyondAll(init, id, pending);
      BeyondStep(init, last, id, pending, None);
    }
  }

  // ------------------------------------------------------------------ evidence

  /** One posting proves the debt: the only supporting one in Toman, of the only supporting entry. */
  ghost predicate ProvesDebt(l: Ledger, account: Id, user: Tenant, k: int) {
    && 0 <= k < |l.postings|
    && Supports(l, account, user, l.postings[k]) && IsIrt(l.postings[k]) && l.postings[k].quantity.raw != 0
    && forall j :: 0 <= j < |l.postings| && j != k && Supports(l, account, user, l.postings[j]) ==>
         l.postings[j].entry == l.postings[k].entry && !IsIrt(l.postings[j])
  }

  lemma ProvenDebtHasPosting(l: Ledger, d: Debt) returns (k: int)
    requires ClassifyDebt(l, d).Proven?
    ensures d.account.Some? && ProvesDebt(l, d.account.value, d.user, k)
    ensures ClassifyDebt(l, d) == Proven(l.postings[k].quantity.AbsValue(), l.postings[k].entry)
  {
    var account := d.account.value;
    var supports := (p: Posting) => Supports(l, account, d.user, p);
    var both := (p: Posting) => Supports(l, account, d.user, p) && IsIrt(p);
    var rows := DebtRows(l, account, d.user);
    FilterTwice(IsIrt, supports, both, l.postings);
    k := FilterOne(both, l.postings);
    FilterOnly(both, l.postings, k);
    FilterMembers(supports, l.postings, l.postings[k]);
    forall j | 0 <= j < |l.postings| && j != k && Supports(l, account, d.user, l.postings[j])
      ensures l.postings[j].entry == l.postings[k].entry
    {
      FilterMembers(supports, l.postings, l.postings[j]);
      InOneEntry(rows, l.postings[j]);
      InOneEntry(rows, l.postings[k]);
    }
    InOneEntry(rows, l.postings[k]);
  }

  lemma InOneEntry(rows: seq<Posting>, p: Posting)
    requires p in rows && OneEntry(rows)
    ensures p.entry == rows[0].entry
  {}

  lemma PostingProvesDebt(l: Ledger, d: Debt, k: int)
    requires d.account.Some? && ProvesDebt(l, d.account.value, d.user, k)
    ensures ClassifyDebt(l, d) == Proven(l.postings[k].quantity.AbsValue(), l.postings[k].entry)
  {
    var account := d.account.value;
    var supports := (p: Posting) => Supports(l, account, d.user, p);
    var both := (p: Posting) => Supports(l, account, d.user, p) && IsIrt(p);
    var rows := DebtRows(l, account, d.user);
    FilterTwice(IsIrt, supports, both, l.postings);
    FilterOnly(both, l.postings, k);
    FilterMembers(supports, l.postings, l.postings[k]);
    forall i | 0 <= i < |rows| ensures rows[i].entry == l.postings[k].entry {
      FilterMembers(supports, l.postings, rows[i]);
    }
  }

  ghost predicate ProvesDebtAs(l: Ledger, d: Debt, value: Decimal, entry: Id, k: int) {
    && d.account.Some? && ProvesDebt(l, d.account.value, d.user, k)
    && value == l.postings[k].quantity.AbsValue() && entry == l.postings[k].entry
  }

  /**
   * A debt's Toman is reconstructed exactly when one posting proves it, and it is that
   * posting's quantity without its sign.
   */
  lemma DebtEvidenceIff(l: Ledger, d: Debt, value: Decimal, entry: Id)
    ensures ClassifyDebt(l, d) == Proven(value, entry) <==> exists k :: ProvesDebtAs(l, d, value, entry, k)
  {
    hide ClassifyDebt, ProvesDebt;
    if ClassifyDebt(l, d) == Proven(value, entry) {
      var k := ProvenDebtHasPosting(l, d);
      assert ProvesDebtAs(l, d, value, entry, k) by { InLedger(l, d, k); }
    }
    forall k | ProvesDebtAs(l, d, value, entry, k) ensures ClassifyDebt(l, d) == Proven(value, entry) {
      InLedger(l, d, k);
      PostingProvesDebt(l, d, k);
    }
  }

  /**
   * Reconstructed Toman never comes from another tenant: account, debt entry and debt
   * have one owner, and no owner is only matched by no owner.
   */
  lemma DebtEvidenceIsOwn(l: Ledger, d: Debt)
    requires ClassifyDebt(l, d).Proven?
    ensures var entry := ClassifyDebt(l, d).entry;
      && d.account.Some? && d.account.value in l.owners && l.owners[d.account.value] == d.user
      && entry in l.entries && l.entries[entry].user == d.user && l.entries[entry].kind == "debt"
      && exists k :: 0 <= k < |l.postings| && l.postings[k].account == d.account.value && l.postings[k].entry == entry
           && ClassifyDebt(l, d).principalToman.raw == Abs(l.postings[k].quantity.raw)
  {
    var k := ProvenDebtHasPosting(l, d);
    InLedger(l, d, k);
  }

  lemma InLedger(l: Ledger, d: Debt, k: int)
    requires d.account.Some? && ProvesDebt(l, d.account.value, d.user, k)
    ensures 0 <= k < |l.postings|
  {}

  /** The only snapshot of the paid entry, positive, and of the debt's own tenant. */
  ghost predicate ProvesPayment(l: Ledger, owner: Tenant, i: Installment, e: PaymentEvidence, k: int) {
    && i.status == "paid" && i.paidEntry.Some? && i.paidEntry.value in l.entries
    && Only((s: Snapshot) => s.entry == i.paidEntry.value, l.snapshots, k)
    && l.entries[i.paidEntry.value].user == owner && l.snapshots[k].irt.raw > 0
    && e == ProvenPayment(l.snapshots[k].irt, l.snapshots[k].irt, l.snapshots[k].usd, l.snapshots[k].rate)
  }

  lemma SnapshotRowsAre(l: Ledger, entry: Id)
    requires entry in l.entries
    ensures SnapshotRows(l, entry) == Filter((s: Snapshot) => s.entry == entry, l.snapshots)
  {
    SameFilter((s: Snapshot) => s.entry == entry && entry in l.entries, (s: Snapshot) => s.entry == entry, l.snapshots);
  }

  lemma {:induction false} SameFilter<T>(f: T -> bool, g: T -> bool, rows: seq<T>)
    requires forall row :: row in rows ==> f(row) == g(row)
    ensures Filter(f, rows) == Filter(g, rows)
  {
    if rows != [] { SameFilter(f, g, rows[..|rows| - 1]); }
  }

  lemma ProvenPaymentHasSnapshot(l: Ledger, owner: Tenant, i: Installment) returns (k: int)
    requires ClassifyInstallment(l, owner, i).ProvenPayment?
    ensures ProvesPayment(l, owner, i, ClassifyInstallment(l, owner, i), k)
  {
    hide SnapshotRows;
    var mine := (s: Snapshot) => s.entry == i.paidEntry.value;
    SnapshotRowsAre(l, i.paidEntry.value);
    k := FilterOne(mine, l.snapshots);
    FilterOnly(mine, l.snapshots, k);
  }

  lemma SnapshotProvesPayment(l: Ledger, owner: Tenant, i: Installment, e: PaymentEvidence, k: int)
    requires ProvesPayment(l, owner, i, e, k)
    ensures ClassifyInstallment(l, owner, i) == e
  {
    hide SnapshotRows;
    SnapshotRowsAre(l, i.paidEntry.value);
    FilterOnly((s: Snapshot) => s.entry == i.paidEntry.value, l.snapshots, k);
  }

  /** An installment's amounts are reconstructed exactly from such a snapshot. */
  lemma InstallmentEvidenceIff(l: Ledger, owner: Tenant, i: Installment, e: PaymentEvidence)
    requires e.ProvenPayment?
    ensures ClassifyInstallment(l, owner, i) == e <==> exists k :: ProvesPayment(l, owner, i, e, k)
  {
    hide ClassifyInstallment, ProvesPayment;
    if ClassifyInstallment(l, owner, i) == e {
      var k := ProvenPaymentHasSnapshot(l, owner, i);
    }
    forall k | ProvesPayment(l, owner, i, e, k) ensures ClassifyInstallment(l, owner, i) == e {
      SnapshotProvesPayment(l, owner, i, e, k);
    }
  }

  // ------------------------------------------------------------------ the write

  lemma DebtRefilled(l: Ledger, d: Debt)
    ensures FillDebt(l, FillDebt(l, d)) == FillDebt(l, d)
  {
    hide DebtRows;
  }

  lemma InstallmentRefilled(l: Ledger, debts: seq<Debt>, i: Installment)
    ensures FillInstallment(l, debts, FillInstallment(l, debts, i)) == FillInstallment(l, debts, i)
  {
    hide SnapshotRows, OwnerOf;
  }

  lemma MapAgrees<T>(f: T -> T, g: T -> T, rows: seq<T>)
    requires forall row :: f(row) == g(row)
    ensures Map(f, rows) == Map(g, rows)
  {}

  /**
   * Wherever an earlier run stopped in either table, a full run ends in the same
   * database. With both cursors past the end: a second run changes nothing.
   */
  lemma BackfillResumes(
      l: Ledger, debts: seq<Debt>, insts: seq<Installment>, debtCursor: Option<Id>, instCursor: Option<Id>)
    ensures Filled(l, FillUpTo(debts, DebtId, DebtFiller(l), debtCursor),
                   FillUpTo(insts, InstallmentId, InstallmentFiller(l, debts), instCursor))
         == Filled(l, debts, insts)
  {
    hide FillDebt, FillInstallment, OwnerOf;
    var some := FillUpTo(debts, DebtId, DebtFiller(l), debtCursor);
    forall d ensures DebtFiller(l)(DebtFiller(l)(d)) == DebtFiller(l)(d) { DebtRefilled(l, d); }
    FillResumes(debts, DebtId, DebtFiller(l), debtCursor);
    forall id ensures OwnerOf(some, id) == OwnerOf(debts, id) { OwnersKeptUpTo(l, debts, debtCursor, id); }
    forall i ensures InstallmentFiller(l, some)(i) == InstallmentFiller(l, debts)(i) {
      SameFiller(l, some, debts, i);
    }
    forall i ensures InstallmentFiller(l, debts)(InstallmentFiller(l, debts)(i)) == InstallmentFiller(l, debts)(i) {
      InstallmentRefilled(l, debts, i);
    }
    var someInsts := FillUpTo(insts, InstallmentId, InstallmentFiller(l, debts), instCursor);
    MapAgrees(InstallmentFiller(l, some), InstallmentFiller(l, debts), someInsts);
    FillResumes(insts, InstallmentId, InstallmentFiller(l, debts), instCursor);
  }

  lemma SameFiller(l: Ledger, a: seq<Debt>, b: seq<Debt>, i: Installment)
    requires forall id :: OwnerOf(a, id) == OwnerOf(b, id)
    ensures FillInstallment(l, a, i) == FillInstallment(l, b, i)
  {
    hide OwnerOf, ClassifyInstallment;
  }

  lemma {:induction false} OwnersKeptUpTo(l: Ledger, debts: seq<Debt>, cursor: Option<Id>, id: Id)
    ensures OwnerOf(FillUpTo(debts, DebtId, DebtFiller(l), cursor), id) == OwnerOf(debts, id)
  {
    hide ClassifyDebt;
    if debts != [] {
      OwnersKeptUpTo(l, debts[1..], cursor, id);
      assert FillUpTo(debts, DebtId, DebtFiller(l), cursor)[1..] == FillUpTo(debts[1..], DebtId, DebtFiller(l), cursor);
    }
  }

  /** A second run scans what is still blocked and writes nothing. */
  lemma SecondRunWritesNothing(l: Ledger, debts: seq<Debt>, insts: seq<Installment>)
    ensures var (ds, paid) := Filled(l, debts, insts);
      && Filled(l, ds, paid) == (ds, paid)
      && Expected(l, ds, paid).debtsMigrated == 0 && Expected(l, ds, paid).installmentsMigrated == 0
  {
    hide FillDebt, FillInstallment, OwnerOf, Beyond, ProvenDebts, ProvenInstallments;
    var (ds, paid) := Filled(l, debts, insts);
    forall d ensures DebtFiller(l)(DebtFiller(l)(d)) == DebtFiller(l)(d) { DebtRefilled(l, d); }
    forall i ensures InstallmentFiller(l, debts)(InstallmentFiller(l, debts)(i)) == InstallmentFiller(l, debts)(i) {
      InstallmentRefilled(l, debts, i);
    }
    FilledDebtsOwn(l, debts, paid);
    assert Map(DebtFiller(l), ds) == ds;
    assert Map(InstallmentFiller(l, debts), paid) == paid;
    NoProvenDebtLeft(l, debts);
    NoProvenInstallmentLeft(l, debts, insts);
  }

  lemma NoProvenDebtLeft(l: Ledger, debts: seq<Debt>)
    ensures ProvenDebts(l, PendingDebts(Map(DebtFiller(l), debts))) == []
  {
    hide Beyond, ProvenDebts, DebtRows;
    var after := Map(DebtFiller(l), debts);
    BeyondAll(after, DebtId, DebtPending);
    forall d | d in Filter(DebtPending, after) ensures !ClassifyDebt(l, d).Proven? {
      FilterMembers(DebtPending, after, d);
      var k :| 0 <= k < |debts| && after[k] == d;
      assert d == FillDebt(l, debts[k]);
    }
    NoneProvenDebts(l, Filter(DebtPending, after));
  }

  lemma {:induction false} NoneProvenDebts(l: Ledger, rows: seq<Debt>)
    requires forall d :: d in rows ==> !ClassifyDebt(l, d).Proven?
    ensures ProvenDebts(l, rows) == []
  {
    hide ClassifyDebt;
    if rows != [] { NoneProvenDebts(l, rows[..|rows| - 1]); }
  }

  lemma NoProvenInstallmentLeft(l: Ledger, debts: seq<Debt>, insts: seq<Installment>)
    ensures ProvenInstallments(l, debts, PendingInstallments(debts, Map(InstallmentFiller(l, debts), insts))) == []
  {
    hide Beyond, ProvenInstallments, SnapshotRows, OwnerOf;
    var after := Map(InstallmentFiller(l, debts), insts);
    BeyondAll(after, InstallmentId, PendingWith(debts));
    forall i | i in Filter(PendingWith(debts), after)
      ensures OwnerOf(debts, i.debt).Some? ==> !PaymentOf(l, debts, i).ProvenPayment?
    {
      FilterMembers(PendingWith(debts), after, i);
      var k :| 0 <= k < |insts| && after[k] == i;
      assert i == FillInstallment(l, debts, insts[k]);
    }
    NoneProvenInstallments(l, debts, Filter(PendingWith(debts), after));
  }

  lemma {:induction false} NoneProvenInstallments(l: Ledger, debts: seq<Debt>, rows: seq<Installment>)
    requires forall i :: i in rows && OwnerOf(debts, i.debt).Some? ==> !PaymentOf(l, debts, i).ProvenPayment?
    ensures ProvenInstallments(l, debts, rows) == []
  {
    hide ClassifyInstallment, OwnerOf;
    if rows != [] { NoneProvenInstallments(l, debts, rows[..|rows| - 1]); }
  }

  /** The write to a debt: only a missing principal, only when proven, and always positive. */
  lemma DebtWrite(l: Ledger, d: Debt)
    ensures var f := FillDebt(l, d);
      && f == d.(principalToman := f.principalToman)
      && (f != d <==> d.principalToman.None? && ClassifyDebt(l, d).Proven?)
      && (f != d ==> f.principalToman == Some(ClassifyDebt(l, d).principalToman) && f.principalToman.value.raw > 0)
  {
    hide DebtRows;
  }

  /** The columns of an installment that hold an amount. */
  predicate Keeps(before: Option<Decimal>, after: Option<Decimal>) {
    before.Some? ==> after == before
  }

  predicate KeepsAll(i: Installment, f: Installment) {
    && Keeps(i.amountToman, f.amountToman) && Keeps(i.paidToman, f.paidToman)
    && Keeps(i.paidUsd, f.paidUsd) && Keeps(i.paidFxRate, f.paidFxRate)
  }

  predicate Unset(column: Option<Decimal>, value: Decimal) {
    column.None? || column.value == value
  }

  /**
   * The guard on an installment looks at its amount alone: the three paid columns of a
   * row that is written are kept exactly when they were empty or already right.
   */
  lemma InstallmentWriteKeepsIff(l: Ledger, debts: seq<Debt>, i: Installment)
    requires InstallmentPending(debts, i) && PaymentOf(l, debts, i).ProvenPayment?
    ensures var e := PaymentOf(l, debts, i);
      KeepsAll(i, FillInstallment(l, debts, i))
      <==> Unset(i.paidToman, e.paidToman) && Unset(i.paidUsd, e.paidUsd) && Unset(i.paidFxRate, e.paidFxRate)
  {
    hide ClassifyInstallment, OwnerOf;
  }

  /** Whether the paid columns of this row are empty or already hold what the evidence says. */
  predicate PaidColumnsFree(l: Ledger, debts: seq<Debt>, i: Installment)
    requires OwnerOf(debts, i.debt).Some? && PaymentOf(l, debts, i).ProvenPayment?
  {
    var e := PaymentOf(l, debts, i);
    Unset(i.paidToman, e.paidToman) && Unset(i.paidUsd, e.paidUsd) && Unset(i.paidFxRate, e.paidFxRate)
  }

  /**
   * The write to an installment: an amount that is set stays, no other field than the
   * four amounts is touched, a written amount is positive, and all columns that were set
   * are kept exactly if the row is not written or its paid columns are free.
   */
  lemma InstallmentWrite(l: Ledger, debts: seq<Debt>, i: Installment)
    ensures var f := FillInstallment(l, debts, i);
      && Keeps(i.amountToman, f.amountToman)
      && f == i.(
           amountToman := f.amountToman, paidToman := f.paidToman, paidUsd := f.paidUsd, paidFxRate := f.paidFxRate)
      && (f == i || (f.amountToman.Some? && f.amountToman.value.raw > 0 && f.paidToman == f.amountToman))
      && (KeepsAll(i, f) <==>
            (InstallmentPending(debts, i) && PaymentOf(l, debts, i).ProvenPayment? ==> PaidColumnsFree(l, debts, i)))
  {
    hide SnapshotRows, OwnerOf;
    if InstallmentPending(debts, i) && PaymentOf(l, debts, i).ProvenPayment? {
      InstallmentWriteKeepsIff(l, debts, i);
    }
  }

  /** A paid installment with a settled total but no amount yet: the total is overwritten. */
  lemma PaidTotalIsOverwritten()
    ensures exists l, debts, i: Installment ::
              i.paidToman.Some? && FillInstallment(l, debts, i).paidToman != i.paidToman
  {
    var l := Ledger(map[], map[7 := JournalEntry(Some(1), "installment")], [],
                    [Snapshot(7, Whole(500), Whole(1), Whole(500))]);
    var debts := [Debt(3, Some(1), None, None)];
    var i := Installment(4, 3, "paid", Some(7), None, Some(Whole(450)), None, None);
    var e := ProvenPayment(Whole(500), Whole(500), Whole(1), Whole(500));
    assert Only((s: Snapshot) => s.entry == 7, l.snapshots, 0);
    SnapshotProvesPayment(l, Some(1), i, e, 0);
    assert OwnerOf(debts, 3) == Some(Some(1));
    assert FillInstallment(l, debts, i).paidToman == Some(Whole(500));
    assert Whole(450).raw != Whole(500).raw;
  }
}
