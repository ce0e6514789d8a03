/** The read-only halves of the Toman backfill: the classification before it and the verification after. */
module BackfillReports {
  import opened Arith
  import opened Backfill
  import opened BackfillLaws
  import opened Decimals
  import opened Keyset
  import opened Options
  import opened Sorting

  // ------------------------------------------------------------------ classification

  datatype Blocker = Blocker(isDebt: bool, id: Id, user: Tenant, category: Category)

  datatype DebtReport = DebtReport(
    total: nat, legacyCandidates: nat, reconstructable: nat, blocked: nat, planningOnly: nat, ledgerBacked: nat,
    ambiguous: nat, invalid: nat, missingEvidence: nat)

  datatype InstallmentReport = InstallmentReport(
    total: nat, legacyCandidates: nat, reconstructable: nat, blocked: nat,
    paid: nat, paidReconstructable: nat, paidBlocked: nat, pending: nat, pendingBlocked: nat)

  /** `amount_toman is null`, joined to its debt. */
  predicate LegacyInstallment(debts: seq<Debt>, i: Installment) {
    i.amountToman.None? && OwnerOf(debts, i.debt).Some?
  }

  function LegacyInstallments(debts: seq<Debt>, insts: seq<Installment>): (r: seq<Installment>)
    ensures forall j :: 0 <= j < |r| ==> LegacyInstallment(debts, r[j])
  {
    var keep := (i: Installment) => LegacyInstallment(debts, i);
    var r := Filter(keep, insts);
    assert forall j :: 0 <= j < |r| ==> LegacyInstallment(debts, r[j]) by {
      forall j | 0 <= j < |r| ensures LegacyInstallment(debts, r[j]) { FilterMembers(keep, insts, r[j]); }
    }
    r
  }

  function DebtBlockers(l: Ledger, rows: seq<Debt>): seq<Blocker> {
    if rows == [] then []
    else
      var d := rows[|rows| - 1];
      DebtBlockers(l, rows[..|rows| - 1])
      + (match ClassifyDebt(l, d)
         case Blocked(category) => [Blocker(true, d.id, d.user, category)]
         case Proven(_, _) => [])
  }

  function InstallmentBlockers(l: Ledger, debts: seq<Debt>, rows: seq<Installment>): seq<Blocker>
    requires forall j :: 0 <= j < |rows| ==> OwnerOf(debts, rows[j].debt).Some?
  {
    if rows == [] then []
    else
      var i := rows[|rows| - 1];
      InstallmentBlockers(l, debts, rows[..|rows| - 1])
      + (match PaymentOf(l, debts, i)
         case BlockedPayment(category) => [Blocker(false, i.id, OwnerOf(debts, i.debt).value, category)]
         case ProvenPayment(_, _, _, _) => [])
  }

  function Of(category: Category, blockers: seq<Blocker>): nat {
    |Filter((b: Blocker) => b.category == category, blockers)|
  }

  lemma OfStep(category: Category, blockers: seq<Blocker>, b: Blocker)
    ensures Of(category, blockers + [b]) == Of(category, blockers) + (if b.category == category then 1 else 0)
  {
    FilterStep((x: Blocker) => x.category == category, blockers, b);
  }

  /** A debt without a liability account. */
  predicate PlanningOnly(d: Debt) {
    d.account.None?
  }

  predicate IsPaid(i: Installment) {
    i.status == "paid"
  }

  /** Lists every legacy debt once, as reconstructable or as blocked with its reason. */
  method ClassifyDebts(l: Ledger, debts: seq<Debt>)
    returns (report: DebtReport, blockers: seq<Blocker>, migrated: seq<Id>)
    ensures migrated == ProvenDebts(l, PendingDebts(debts))
    ensures blockers == DebtBlockers(l, PendingDebts(debts))
    ensures report.total == |debts| && report.legacyCandidates == |PendingDebts(debts)|
    ensures report.reconstructable == |migrated| && report.blocked == |blockers|
    ensures report.reconstructable + report.blocked == report.legacyCandidates
    ensures report.planningOnly + report.ledgerBacked == report.legacyCandidates
    ensures report.planningOnly == |Filter(PlanningOnly, PendingDebts(debts))| <= report.missingEvidence
    ensures report.ambiguous == Of(Ambiguous, blockers) && report.invalid == Of(Invalid, blockers)
    ensures report.missingEvidence == Of(MissingEvidence, blockers)
  {
    hide Filter, Beyond, DebtRows, Of;
    var rows := PendingDebts(debts);
    var reconstructable, blocked, planningOnly, ledgerBacked := 0, 0, 0, 0;
    var ambiguous, invalid, missing := 0, 0, 0;
    blockers, migrated := [], [];
    NoBlockers();
    FilterNone(PlanningOnly, []);
    for k := 0 to |rows|
      invariant migrated == ProvenDebts(l, rows[..k]) && blockers == DebtBlockers(l, rows[..k])
      invariant reconstructable == |migrated| && blocked == |blockers| && reconstructable + blocked == k
      invariant planningOnly + ledgerBacked == k && planningOnly == |Filter(PlanningOnly, rows[..k])| <= missing
      invariant ambiguous == Of(Ambiguous, blockers) && invalid == Of(Invalid, blockers)
      invariant missing == Of(MissingEvidence, blockers)
    {
      var d := rows[k];
      assert rows[..k + 1][..k] == rows[..k];
      assert rows[..k + 1] == rows[..k] + [d];
      FilterStep(PlanningOnly, rows[..k], d);
      if d.account.Some? { ledgerBacked := ledgerBacked + 1; } else { planningOnly := planningOnly + 1; }
      var evidence := ClassifyDebtEvidence(l, d);
      if evidence.Proven? {
        reconstructable := reconstructable + 1;
        migrated := migrated + [d.id];
      } else {
        var b := Blocker(true, d.id, d.user, evidence.category);
        blocked := blocked + 1;
        if evidence.category == Ambiguous { ambiguous := ambiguous + 1; }
        else if evidence.category == Invalid { invalid := invalid + 1; }
        else if evidence.category == MissingEvidence { missing := missing + 1; }
        OfStep(Ambiguous, blockers, b);
        OfStep(Invalid, blockers, b);
        OfStep(MissingEvidence, blockers, b);
        blockers := blockers + [b];
      }
    }
    assert rows[..|rows|] == rows;
    report := DebtReport(
      |debts|, |rows|, reconstructable, blocked, planningOnly, ledgerBacked, ambiguous, invalid, missing);
  }

  lemma NoBlockers()
    ensures forall c :: Of(c, []) == 0
  {}

  method ClassifyInstallments(l: Ledger, debts: seq<Debt>, insts: seq<Installment>)
    returns (report: InstallmentReport, blockers: seq<Blocker>, migrated: seq<Id>)
    ensures migrated == ProvenInstallments(l, debts, LegacyInstallments(debts, insts))
    ensures blockers == InstallmentBlockers(l, debts, LegacyInstallments(debts, insts))
    ensures report.total == |insts|
    ensures report.legacyCandidates == |Filter((i: Installment) => i.amountToman.None?, insts)|
    ensures report.reconstructable == report.paidReconstructable == |migrated| && report.blocked == |blockers|
    ensures report.paidBlocked + report.pendingBlocked == report.blocked
    ensures report.pending == report.pendingBlocked && report.paid == report.paidReconstructable + report.paidBlocked
    ensures report.paid == |Filter(IsPaid, LegacyInstallments(debts, insts))|
    ensures report.reconstructable + report.blocked == |LegacyInstallments(debts, insts)|
  {
    hide Filter, OwnerOf, SnapshotRows;
    var rows := LegacyInstallments(debts, insts);
    var legacy := |Filter((i: Installment) => i.amountToman.None?, insts)|;
    var reconstructable, blocked, paid, paidBlocked, pending, pendingBlocked := 0, 0, 0, 0, 0, 0;
    blockers, migrated := [], [];
    FilterNone(IsPaid, []);
    for k := 0 to |rows|
      invariant migrated == ProvenInstallments(l, debts, rows[..k])
      invariant blockers == InstallmentBlockers(l, debts, rows[..k])
      invariant reconstructable == |migrated| && blocked == |blockers| && reconstructable + blocked == k
      invariant paidBlocked + pendingBlocked == blocked
      invariant pending == pendingBlocked && paid == reconstructable + paidBlocked
      invariant paid == |Filter(IsPaid, rows[..k])|
    {
      var i := rows[k];
      assert rows[..k + 1][..k] == rows[..k];
      assert rows[..k + 1] == rows[..k] + [i];
      FilterStep(IsPaid, rows[..k], i);
      if i.status == "paid" { paid := paid + 1; } else { pending := pending + 1; }
      var evidence := ClassifyInstallment(l, OwnerOf(debts, i.debt).value, i);
      if evidence.ProvenPayment? {
        reconstructable := reconstructable + 1;
        migrated := migrated + [i.id];
      } else {
        blocked := blocked + 1;
        if i.status == "paid" { paidBlocked := paidBlocked + 1; } else { pendingBlocked := pendingBlocked + 1; }
        blockers := blockers + [Blocker(false, i.id, OwnerOf(debts, i.debt).value, evidence.category)];
      }
    }
    assert rows[..|rows|] == rows;
    report := InstallmentReport(|insts|, legacy, reconstructable, blocked,
                                paid, reconstructable, paidBlocked, pending, pendingBlocked);
  }

  // ------------------------------------------------------------------ the classifier and the writer agree

  lemma {:induction false} ProvenDebtsMembers(l: Ledger, rows: seq<Debt>, id: Id)
    ensures id in ProvenDebts(l, rows) <==> exists d :: d in rows && d.id == id && ClassifyDebt(l, d).Proven?
  {
    hide ClassifyDebt;
    if rows != [] {
      var init, last := rows[..|rows| - 1], rows[|rows| - 1];
      assert rows == init + [last];
      ProvenDebtsMembers(l, init, id);
    }
  }

  /** The debts the classifier lists are exactly those whose row the backfill changes. */
  lemma ListedDebtsAreWritten(l: Ledger, debts: seq<Debt>, k: nat)
    requires InIdOrder(debts, DebtId) && k < |debts|
    ensures debts[k].id in ProvenDebts(l, PendingDebts(debts)) <==> FillDebt(l, debts[k]) != debts[k]
  {
    hide ClassifyDebt, Beyond, ProvenDebts, InIdOrder;
    var d := debts[k];
    ProvenDebtsMembers(l, PendingDebts(debts), d.id);
    FoundIff(debts, DebtId, DebtPending, None, d);
    forall x | x in PendingDebts(debts) && x.id == d.id ensures x == d {
      FoundIff(debts, DebtId, DebtPending, None, x);
      SameIdSameRow(debts, DebtId, x, k);
    }
    DebtWrite(l, d);
  }

  lemma SameIdSameRow<T>(rows: seq<T>, id: T -> int, x: T, k: nat)
    requires InIdOrder(rows, id) && x in rows && k < |rows| && id(x) == id(rows[k])
    ensures x == rows[k]
  {
    var j :| 0 <= j < |rows| && rows[j] == x;
  }

  lemma {:induction false} ProvenInstallmentsMembers(l: Ledger, debts: seq<Debt>, rows: seq<Installment>, id: Id)
    ensures id in ProvenInstallments(l, debts, rows)
       <==> exists i :: i in rows && i.id == id && OwnerOf(debts, i.debt).Some? && PaymentOf(l, debts, i).ProvenPayment?
  {
    hide ClassifyInstallment, OwnerOf;
    if rows != [] {
      var init, last := rows[..|rows| - 1], rows[|rows| - 1];
      assert rows == init + [last];
      ProvenInstallmentsMembers(l, debts, init, id);
    }
  }

  /** The writer's narrower query loses no installment the classifier lists. */
  lemma {:induction false} SameInstallmentsListed(l: Ledger, debts: seq<Debt>, insts: seq<Installment>)
    ensures ProvenInstallments(l, debts, LegacyInstallments(debts, insts))
         == ProvenInstallments(l, debts, PendingInstallments(debts, insts))
  {
    BeyondAll(insts, InstallmentId, PendingWith(debts));
    SameProvenFiltered(l, debts, insts);
  }

  lemma {:induction false} SameProvenFiltered(l: Ledger, debts: seq<Debt>, insts: seq<Installment>)
    ensures ProvenInstallments(l, debts, Filter((i: Installment) => LegacyInstallment(debts, i), insts))
         == ProvenInstallments(l, debts, Filter(PendingWith(debts), insts))
  {
    hide SnapshotRows, OwnerOf;
    if insts != [] {
      var init, last := insts[..|insts| - 1], insts[|insts| - 1];
      SameProvenFiltered(l, debts, init);
      var a := Filter((i: Installment) => LegacyInstallment(debts, i), init);
      var b := Filter(PendingWith(debts), init);
      ProvenInstallmentsAppend(l, debts, a, [last]);
      ProvenInstallmentsAppend(l, debts, b, [last]);
      assert [last][..0] == [];
      assert a + [] == a && b + [] == b;
    }
  }

  lemma ListedInstallmentsAreWritten(l: Ledger, debts: seq<Debt>, insts: seq<Installment>, k: nat)
    requires InIdOrder(insts, InstallmentId) && k < |insts|
    ensures insts[k].id in ProvenInstallments(l, debts, LegacyInstallments(debts, insts))
       <==> FillInstallment(l, debts, insts[k]) != insts[k]
  {
    hide ClassifyInstallment, Beyond, OwnerOf, ProvenInstallments, LegacyInstallments, InIdOrder;
    var i := insts[k];
    SameInstallmentsListed(l, debts, insts);
    ProvenInstallmentsMembers(l, debts, PendingInstallments(debts, insts), i.id);
    FoundIff(insts, InstallmentId, PendingWith(debts), None, i);
    forall x | x in PendingInstallments(debts, insts) && x.id == i.id ensures x == i {
      FoundIff(insts, InstallmentId, PendingWith(debts), None, x);
      SameIdSameRow(insts, InstallmentId, x, k);
    }
  }

  // ------------------------------------------------------------------ verification

  datatype Verification = Verification(
    remainingNullPrincipal: nat, remainingNullAmount: nat, negativeContractualAmounts: nat, crossUserEvidence: nat,
    ok: bool)

  predicate NoAmount(i: Installment) {
    i.amountToman.None?
  }

  predicate NegativeDebt(d: Debt) {
    d.principalToman.Some? && d.principalToman.value.raw < 0
  }

  predicate NegativeInstallment(i: Installment) {
    i.amountToman.Some? && i.amountToman.value.raw < 0
  }

  /** Both owners are known and differ; rows without an owner are not counted here. */
  predicate CrossUser(l: Ledger, debts: seq<Debt>, i: Installment) {
    && i.amountToman.Some? && OwnerOf(debts, i.debt).Some? && i.paidEntry.Some? && i.paidEntry.value in l.entries
    && var user, owner := l.entries[i.paidEntry.value].user, OwnerOf(debts, i.debt).value;
       user.Some? && owner.Some? && user != owner
  }

  function Verify(l: Ledger, debts: seq<Debt>, insts: seq<Installment>): Verification {
    var negative := |Filter(NegativeDebt, debts)| + |Filter(NegativeInstallment, insts)|;
    var crossUser := |Filter((i: Installment) => CrossUser(l, debts, i), insts)|;
    Verification(|Filter(DebtPending, debts)|, |Filter(NoAmount, insts)|,
                 negative, crossUser, negative == 0 && crossUser == 0)
  }

  lemma CrossUserUnchanged(l: Ledger, debts: seq<Debt>, after: seq<Debt>, i: Installment)
    requires forall id :: OwnerOf(after, id) == OwnerOf(debts, id)
    ensures CrossUser(l, after, FillInstallment(l, debts, i)) == CrossUser(l, debts, i)
    ensures NegativeInstallment(FillInstallment(l, debts, i)) == NegativeInstallment(i)
  {
    hide SnapshotRows, OwnerOf;
  }

  lemma NegativeDebtUnchanged(l: Ledger, d: Debt)
    ensures NegativeDebt(FillDebt(l, d)) == NegativeDebt(d)
  {
    hide DebtRows;
  }

  /**
   * The backfill adds no negative amount and no cross-user evidence: both counts, and so
   * the verdict, are what they were before it.
   */
  lemma BackfillKeepsVerdict(l: Ledger, debts: seq<Debt>, insts: seq<Installment>)
    ensures var (ds, paid) := Filled(l, debts, insts);
      var before, after := Verify(l, debts, insts), Verify(l, ds, paid);
      && after.negativeContractualAmounts == before.negativeContractualAmounts
      && after.crossUserEvidence == before.crossUserEvidence
      && after.ok == before.ok
  {
    hide Filter, FillDebt, FillInstallment, OwnerOf, NegativeDebt, NegativeInstallment, CrossUser;
    var (ds, paid) := Filled(l, debts, insts);
    forall d ensures NegativeDebt(DebtFiller(l)(d)) == NegativeDebt(d) { NegativeDebtUnchanged(l, d); }
    forall id ensures OwnerOf(ds, id) == OwnerOf(debts, id) { OwnersKept(l, debts, id); }
    var fill := InstallmentFiller(l, debts);
    forall i
      ensures NegativeInstallment(fill(i)) == NegativeInstallment(i)
      ensures CrossUser(l, ds, fill(i)) == CrossUser(l, debts, i)
    {
      CrossUserUnchanged(l, debts, ds, i);
    }
    FilterOfMap(NegativeDebt, DebtFiller(l), NegativeDebt, debts);
    FilterOfMap(NegativeInstallment, fill, NegativeInstallment, insts);
    FilterOfMap((i: Installment) => CrossUser(l, ds, i), fill, (i: Installment) => CrossUser(l, debts, i), insts);
  }

  lemma {:induction false} StillPending(l: Ledger, debts: seq<Debt>)
    ensures |Filter(DebtPending, Map(DebtFiller(l), debts))| + |ProvenDebts(l, Filter(DebtPending, debts))|
         == |Filter(DebtPending, debts)|
  {
    hide ClassifyDebt;
    if debts != [] {
      var init, last := debts[..|debts| - 1], debts[|debts| - 1];
      StillPending(l, init);
      assert Map(DebtFiller(l), debts)[..|debts| - 1] == Map(DebtFiller(l), init);
      ProvenDebtsAppend(l, Filter(DebtPending, init), [last]);
      assert [last][..0] == [] && ProvenDebts(l, []) == [];
      assert Filter(DebtPending, init) + [] == Filter(DebtPending, init);
      DebtWrite(l, last);
    }
  }

  lemma {:induction false} StillUnpaid(l: Ledger, debts: seq<Debt>, insts: seq<Installment>)
    ensures |Filter(NoAmount, Map(InstallmentFiller(l, debts), insts))|
            + |ProvenInstallments(l, debts, Filter(PendingWith(debts), insts))|
         == |Filter(NoAmount, insts)|
  {
    hide ClassifyInstallment, OwnerOf;
    if insts != [] {
      var init, last := insts[..|insts| - 1], insts[|insts| - 1];
      StillUnpaid(l, debts, init);
      assert Map(InstallmentFiller(l, debts), insts)[..|insts| - 1] == Map(InstallmentFiller(l, debts), init);
      var pending := Filter(PendingWith(debts), init);
      ProvenInstallmentsAppend(l, debts, pending, [last]);
      assert [last][..0] == [] && ProvenInstallments(l, debts, []) == [];
      assert pending + [] == pending;
    }
  }

  /** The principals and amounts still missing afterwards are exactly those that could not be proven. */
  lemma RemainingArePending(l: Ledger, debts: seq<Debt>, insts: seq<Installment>)
    ensures var (ds, paid) := Filled(l, debts, insts);
      && Verify(l, ds, paid).remainingNullPrincipal == |PendingDebts(debts)| - |ProvenDebts(l, PendingDebts(debts))|
      && Verify(l, ds, paid).remainingNullAmount
         == |Filter(NoAmount, insts)| - |ProvenInstallments(l, debts, PendingInstallments(debts, insts))|
  {
    hide FillDebt, FillInstallment, ProvenDebts, ProvenInstallments, CrossUser;
    BeyondAll(debts, DebtId, DebtPending);
    BeyondAll(insts, InstallmentId, PendingWith(debts));
    StillPending(l, debts);
    StillUnpaid(l, debts, insts);
  }
}
