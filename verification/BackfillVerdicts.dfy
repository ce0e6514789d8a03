/**
 * Every verdict of the Toman classifiers, in terms of the rows themselves: which postings speak
 * for a debt, which of them are in Toman, and why a row is blocked.
 */
module BackfillVerdicts {
  import opened Backfill
  import opened BackfillLaws
  import opened BackfillReports
  import opened Decimals
  import opened Keyset
  import opened Options
  import opened Sorting

  // ------------------------------------------------------------------ the symbol

  /** Upper case as far as it reaches the Latin capitals: two letters outside ASCII do. */
  function Upper(c: char): char {
    if 'a' <= c <= 'z' then c - 'a' + 'A'
    else if c == '\U{0131}' then 'I'
    else if c == '\U{017F}' then 'S'
    else c
  }

  function UpperCased(s: string): (t: string)
    ensures |t| == |s| && forall i :: 0 <= i < |s| ==> t[i] == Upper(s[i])
  {
    seq(|s|, i requires 0 <= i < |s| => Upper(s[i]))
  }

  predicate InToman(p: Posting) {
    p.symbol.Some? && UpperCased(p.symbol.value) == "IRT"
  }

  lemma IsIrtIff(p: Posting)
    ensures IsIrt(p) <==> InToman(p)
  {
    if p.symbol.Some? && |p.symbol.value| == 3 {
      var s, t := p.symbol.value, UpperCased(p.symbol.value);
      assert t == [t[0], t[1], t[2]];
      assert t == "IRT" <==> t[0] == 'I' && t[1] == 'R' && t[2] == 'T';
    }
  }

  // ------------------------------------------------------------------ debts

  /** A debt entry's posting to the debt's account; account, entry and debt have one owner, or none. */
  predicate SpeaksFor(l: Ledger, d: Debt, p: Posting) {
    && d.account == Some(p.account) && p.account in l.owners && l.owners[p.account] == d.user
    && p.entry in l.entries && l.entries[p.entry] == JournalEntry(d.user, "debt")
  }

  predicate Speaks(l: Ledger, d: Debt, k: int) {
    0 <= k < |l.postings| && SpeaksFor(l, d, l.postings[k])
  }

  ghost predicate OneVoice(l: Ledger, d: Debt) {
    forall i, j :: Speaks(l, d, i) && Speaks(l, d, j) ==> l.postings[i].entry == l.postings[j].entry
  }

  /** The only one in Toman of those that speak for the debt. */
  ghost predicate SoleToman(l: Ledger, d: Debt, k: int) {
    && Speaks(l, d, k) && InToman(l.postings[k])
    && forall j :: Speaks(l, d, j) && j != k ==> !InToman(l.postings[j])
  }

  lemma SupportsIff(l: Ledger, d: Debt, p: Posting)
    requires d.account.Some?
    ensures Supports(l, d.account.value, d.user, p) <==> SpeaksFor(l, d, p)
  {}

  lemma NobodySpeaks(l: Ledger, d: Debt)
    requires d.account.Some?
    ensures DebtRows(l, d.account.value, d.user) == [] <==> forall k :: !Speaks(l, d, k)
  {
    var supports := (p: Posting) => Supports(l, d.account.value, d.user, p);
    FilterNone(supports, l.postings);
    forall k | 0 <= k < |l.postings| ensures supports(l.postings[k]) <==> Speaks(l, d, k) {
      SupportsIff(l, d, l.postings[k]);
    }
  }

  lemma OneEntryIff(l: Ledger, d: Debt)
    requires d.account.Some?
    ensures OneEntry(DebtRows(l, d.account.value, d.user)) <==> OneVoice(l, d)
  {
    var supports := (p: Posting) => Supports(l, d.account.value, d.user, p);
    var rows := DebtRows(l, d.account.value, d.user);
    forall p: Posting ensures p in rows <==> p in l.postings && SpeaksFor(l, d, p) {
      FilterMembers(supports, l.postings, p);
      SupportsIff(l, d, p);
    }
    if OneEntry(rows) {
      forall i, j | Speaks(l, d, i) && Speaks(l, d, j) ensures l.postings[i].entry == l.postings[j].entry {
        InOneEntry(rows, l.postings[i]);
        InOneEntry(rows, l.postings[j]);
      }
    }
    if OneVoice(l, d) {
      forall i | 0 <= i < |rows| ensures rows[i].entry == rows[0].entry {
        SpeakerOf(l, d, rows[i]);
        SpeakerOf(l, d, rows[0]);
      }
    }
  }

  lemma SpeakerOf(l: Ledger, d: Debt, p: Posting)
    requires p in l.postings && SpeaksFor(l, d, p)
    ensures exists k :: Speaks(l, d, k) && l.postings[k] == p
  {
    var k :| 0 <= k < |l.postings| && l.postings[k] == p;
    assert Speaks(l, d, k);
  }

  lemma TomanRows(l: Ledger, d: Debt)
    requires d.account.Some?
    ensures var irt := Filter(IsIrt, DebtRows(l, d.account.value, d.user));
      && (|irt| == 1 <==> exists k :: SoleToman(l, d, k))
      && forall k :: SoleToman(l, d, k) ==> irt == [l.postings[k]]
  {
    var supports := (p: Posting) => Supports(l, d.account.value, d.user, p);
    var both := (p: Posting) => Supports(l, d.account.value, d.user, p) && IsIrt(p);
    FilterTwice(IsIrt, supports, both, l.postings);
    forall k | 0 <= k < |l.postings| ensures both(l.postings[k]) <==> Speaks(l, d, k) && InToman(l.postings[k]) {
      SupportsIff(l, d, l.postings[k]);
      IsIrtIff(l.postings[k]);
    }
    if |Filter(both, l.postings)| == 1 {
      var k := FilterOne(both, l.postings);
      assert SoleToman(l, d, k);
    }
    forall k | SoleToman(l, d, k) ensures Filter(both, l.postings) == [l.postings[k]] {
      FilterOnly(both, l.postings, k);
    }
  }

  /**
   * The verdict on a debt: missing evidence if no posting speaks for it, ambiguous if postings of
   * several entries do, not in Toman unless exactly one of them is, invalid if that one is zero,
   * and otherwise its quantity without the sign.
   */
  lemma DebtVerdict(l: Ledger, d: Debt)
    ensures ClassifyDebt(l, d) == Blocked(MissingEvidence) <==> forall k :: !Speaks(l, d, k)
    ensures ClassifyDebt(l, d) == Blocked(Ambiguous) <==> !OneVoice(l, d)
    ensures ClassifyDebt(l, d) == Blocked(NonIrtDenomination)
       <==> (exists k :: Speaks(l, d, k)) && OneVoice(l, d) && !exists k :: SoleToman(l, d, k)
    ensures forall k :: SoleToman(l, d, k) && OneVoice(l, d) ==>
      ClassifyDebt(l, d) == if l.postings[k].quantity == ZERO then Blocked(Invalid)
                            else Proven(l.postings[k].quantity.AbsValue(), l.postings[k].entry)
  {
    if d.account.Some? {
      NobodySpeaks(l, d);
      OneEntryIff(l, d);
      TomanRows(l, d);
      forall k | SoleToman(l, d, k) && OneVoice(l, d)
        ensures DebtRows(l, d.account.value, d.user) != []
             && DebtRows(l, d.account.value, d.user)[0].entry == l.postings[k].entry
      {
        FilterMembers((p: Posting) => Supports(l, d.account.value, d.user, p), l.postings, l.postings[k]);
        InOneEntry(DebtRows(l, d.account.value, d.user), l.postings[k]);
      }
    }
    hide DebtRows, OneVoice, SoleToman, OneEntry, Filter;
  }

  /** A debt with a single posting that speaks for it, by the posting's symbol. */
  lemma OnlyPostingDecides(l: Ledger, d: Debt, k: int)
    requires Speaks(l, d, k) && forall j :: Speaks(l, d, j) ==> j == k
    ensures var p := l.postings[k];
      ClassifyDebt(l, d) ==
        if !InToman(p) then Blocked(NonIrtDenomination)
        else if p.quantity == ZERO then Blocked(Invalid)
        else Proven(p.quantity.AbsValue(), p.entry)
  {
    DebtVerdict(l, d);
    hide ClassifyDebt, SpeaksFor, InToman;
    assert OneVoice(l, d);
    if InToman(l.postings[k]) { assert SoleToman(l, d, k); }
  }

  // ------------------------------------------------------------------ installments

  ghost predicate OneSnapshot(l: Ledger, entry: Id, k: int) {
    && 0 <= k < |l.snapshots| && l.snapshots[k].entry == entry
    && forall j :: 0 <= j < |l.snapshots| && l.snapshots[j].entry == entry ==> j == k
  }

  /**
   * The verdict on an installment: unpaid or without its entry, paid without a snapshot, with
   * several or one of another tenant, or with one that is not positive; else its amounts.
   */
  lemma InstallmentVerdict(l: Ledger, owner: Tenant, i: Installment)
    ensures var c := ClassifyInstallment(l, owner, i);
      if i.status != "paid" || i.paidEntry.None? then c == BlockedPayment(PendingNoToman)
      else
        var e := i.paidEntry.value;
        if e !in l.entries || forall s :: s in l.snapshots ==> s.entry != e then
          c == BlockedPayment(QuickPayNoSnapshot)
        else
          && ((forall k :: !OneSnapshot(l, e, k)) ==> c == BlockedPayment(Ambiguous))
          && forall k :: OneSnapshot(l, e, k) ==>
               c == if l.entries[e].user != owner then BlockedPayment(Ambiguous)
                    else if l.snapshots[k].irt.raw <= 0 then BlockedPayment(Invalid)
                    else ProvenPayment(l.snapshots[k].irt, l.snapshots[k].irt, l.snapshots[k].usd, l.snapshots[k].rate)
  {
    if i.status == "paid" && i.paidEntry.Some? {
      var e := i.paidEntry.value;
      SnapshotsFound(l, e);
    }
    hide SnapshotRows, OneSnapshot;
  }

  lemma SnapshotsFound(l: Ledger, e: Id)
    ensures SnapshotRows(l, e) == [] <==> e !in l.entries || forall s :: s in l.snapshots ==> s.entry != e
    ensures e in l.entries ==> (|SnapshotRows(l, e)| == 1 <==> exists k :: OneSnapshot(l, e, k))
    ensures e in l.entries ==> forall k :: OneSnapshot(l, e, k) ==> SnapshotRows(l, e) == [l.snapshots[k]]
  {
    var mine := (s: Snapshot) => s.entry == e && e in l.entries;
    FilterNone(mine, l.snapshots);
    if e in l.entries {
      if |Filter(mine, l.snapshots)| == 1 {
        var k := FilterOne(mine, l.snapshots);
        assert OneSnapshot(l, e, k);
      }
      forall k | OneSnapshot(l, e, k) ensures Filter(mine, l.snapshots) == [l.snapshots[k]] {
        FilterOnly(mine, l.snapshots, k);
      }
    }
  }

  // ------------------------------------------------------------------ tenants and lists

  /** An installment's tenant is that of the debt with its id. */
  lemma {:induction false} OwnerOfIff(debts: seq<Debt>, id: Id, user: Tenant)
    requires InIdOrder(debts, DebtId)
    ensures OwnerOf(debts, id) == Some(user) <==> exists d :: d in debts && d.id == id && d.user == user
  {
    if debts != [] {
      OwnerOfIff(debts[1..], id, user);
      assert debts == [debts[0]] + debts[1..];
      if debts[0].id == id {
        forall d | d in debts[1..] ensures d.id != id { HeadComesFirst(debts, DebtId, d); }
      }
    }
  }

  /** The installment has no amount, and the only snapshot of its paid entry is the debt's tenant's and positive. */
  ghost predicate PaidBySnapshot(l: Ledger, d: Debt, i: Installment, k: int) {
    && i.amountToman.None? && i.status == "paid" && i.debt == d.id
    && i.paidEntry.Some? && i.paidEntry.value in l.entries && l.entries[i.paidEntry.value].user == d.user
    && OneSnapshot(l, i.paidEntry.value, k) && l.snapshots[k].irt.raw > 0
  }

  /** Such an installment gets its four amounts from that snapshot, and any other stays as it is. */
  lemma InstallmentFilled(l: Ledger, debts: seq<Debt>, i: Installment)
    requires InIdOrder(debts, DebtId)
    ensures forall d, k :: d in debts && PaidBySnapshot(l, d, i, k) ==>
      FillInstallment(l, debts, i) ==
        i.(amountToman := Some(l.snapshots[k].irt), paidToman := Some(l.snapshots[k].irt),
           paidUsd := Some(l.snapshots[k].usd), paidFxRate := Some(l.snapshots[k].rate))
    ensures (forall d, k :: d in debts ==> !PaidBySnapshot(l, d, i, k)) ==> FillInstallment(l, debts, i) == i
  {
    if i.paidEntry.Some? && OwnerOf(debts, i.debt).Some? {
      InstallmentVerdict(l, OwnerOf(debts, i.debt).value, i);
      OwnerOfIff(debts, i.debt, OwnerOf(debts, i.debt).value);
    }
    forall d | d in debts && d.id == i.debt ensures OwnerOf(debts, i.debt) == Some(d.user) {
      OwnerOfIff(debts, i.debt, d.user);
    }
    hide ClassifyInstallment, OwnerOf, OneSnapshot;
  }

  /** What the classifier looks at: every installment without an amount that has a debt. */
  lemma LegacyIff(debts: seq<Debt>, insts: seq<Installment>, i: Installment)
    requires InIdOrder(debts, DebtId)
    ensures i in LegacyInstallments(debts, insts)
       <==> i in insts && i.amountToman.None? && exists d :: d in debts && d.id == i.debt
  {
    hide OwnerOf;
    FilterMembers((x: Installment) => LegacyInstallment(debts, x), insts, i);
    if OwnerOf(debts, i.debt).Some? { OwnerOfIff(debts, i.debt, OwnerOf(debts, i.debt).value); }
    forall d | d in debts && d.id == i.debt ensures OwnerOf(debts, i.debt) == Some(d.user) {
      OwnerOfIff(debts, i.debt, d.user);
    }
  }

  /** The blocked debts are listed with their tenants and reasons. */
  lemma {:induction false} BlockedDebtsListed(l: Ledger, rows: seq<Debt>, b: Blocker)
    ensures b in DebtBlockers(l, rows)
       <==> exists d :: d in rows && ClassifyDebt(l, d) == Blocked(b.category)
                        && b == Blocker(true, d.id, d.user, b.category)
  {
    hide ClassifyDebt;
    if rows != [] {
      var init, last := rows[..|rows| - 1], rows[|rows| - 1];
      BlockedDebtsListed(l, init, b);
      assert rows == init + [last];
    }
  }

  lemma {:induction false} BlockedInstallmentsListed(l: Ledger, debts: seq<Debt>, rows: seq<Installment>, b: Blocker)
    requires forall j :: 0 <= j < |rows| ==> OwnerOf(debts, rows[j].debt).Some?
    ensures b in InstallmentBlockers(l, debts, rows)
       <==> exists i :: i in rows && BlockedFor(l, debts, i, b)
  {
    hide ClassifyInstallment, OwnerOf;
    if rows != [] {
      var init, last := rows[..|rows| - 1], rows[|rows| - 1];
      BlockedInstallmentsListed(l, debts, init, b);
      assert rows == init + [last] && OwnerOf(debts, rows[|rows| - 1].debt).Some?;
      assert b in InstallmentBlockers(l, debts, rows)
        <==> b in InstallmentBlockers(l, debts, init) || BlockedFor(l, debts, last, b);
    }
  }

  predicate BlockedFor(l: Ledger, debts: seq<Debt>, i: Installment, b: Blocker) {
    && OwnerOf(debts, i.debt).Some?
    && ClassifyInstallment(l, OwnerOf(debts, i.debt).value, i) == BlockedPayment(b.category)
    && b == Blocker(false, i.id, OwnerOf(debts, i.debt).value, b.category)
  }

  // ------------------------------------------------------------------ the check afterwards

  /** Paid through an entry of a known user other than the debt's known user. */
  predicate PaidByAnother(l: Ledger, d: Debt, i: Installment) {
    && i.debt == d.id && i.amountToman.Some? && i.paidEntry.Some? && i.paidEntry.value in l.entries
    && d.user.Some? && l.entries[i.paidEntry.value].user.Some? && l.entries[i.paidEntry.value].user != d.user
  }

  lemma CrossUserIff(l: Ledger, debts: seq<Debt>, i: Installment)
    requires InIdOrder(debts, DebtId)
    ensures CrossUser(l, debts, i) <==> exists d :: d in debts && PaidByAnother(l, d, i)
  {
    hide OwnerOf;
    if OwnerOf(debts, i.debt).Some? { OwnerOfIff(debts, i.debt, OwnerOf(debts, i.debt).value); }
    forall d | d in debts && d.id == i.debt ensures OwnerOf(debts, i.debt) == Some(d.user) {
      OwnerOfIff(debts, i.debt, d.user);
    }
  }

  /** A database verifies exactly if no amount is negative and nothing was paid by another user. */
  lemma VerifiesIff(l: Ledger, debts: seq<Debt>, insts: seq<Installment>)
    requires InIdOrder(debts, DebtId)
    ensures Verify(l, debts, insts).ok <==>
      && (forall d :: d in debts && d.principalToman.Some? ==> d.principalToman.value.raw >= 0)
      && (forall i :: i in insts && i.amountToman.Some? ==> i.amountToman.value.raw >= 0)
      && (forall i, d :: i in insts && d in debts ==> !PaidByAnother(l, d, i))
  {
    NoneCounted(l, debts, insts);
    NoneNegative(debts, insts);
    NoneCrossed(l, debts, insts);
    hide *;
  }

  lemma NoneCounted(l: Ledger, debts: seq<Debt>, insts: seq<Installment>)
    ensures Verify(l, debts, insts).ok <==>
      && Filter(NegativeDebt, debts) == [] && Filter(NegativeInstallment, insts) == []
      && forall j :: 0 <= j < |insts| ==> !CrossUser(l, debts, insts[j])
  {
    FilterNone((i: Installment) => CrossUser(l, debts, i), insts);
    hide Filter, CrossUser;
  }

  lemma NoneNegative(debts: seq<Debt>, insts: seq<Installment>)
    ensures Filter(NegativeDebt, debts) == []
       <==> forall d :: d in debts && d.principalToman.Some? ==> d.principalToman.value.raw >= 0
    ensures Filter(NegativeInstallment, insts) == []
       <==> forall i :: i in insts && i.amountToman.Some? ==> i.amountToman.value.raw >= 0
  {
    FilterNone(NegativeDebt, debts);
    FilterNone(NegativeInstallment, insts);
  }

  lemma NoneCrossed(l: Ledger, debts: seq<Debt>, insts: seq<Installment>)
    requires InIdOrder(debts, DebtId)
    ensures (forall j :: 0 <= j < |insts| ==> !CrossUser(l, debts, insts[j]))
       <==> forall i, d :: i in insts && d in debts ==> !PaidByAnother(l, d, i)
  {
    hide CrossUser, PaidByAnother;
    forall j | 0 <= j < |insts|
      ensures CrossUser(l, debts, insts[j]) <==> exists d :: d in debts && PaidByAnother(l, d, insts[j])
    {
      CrossUserIff(l, debts, insts[j]);
    }
  }

  /** In a table in id order, a filter finds each of its rows once. */
  lemma {:induction false} CountedOnce<T(!new)>(keep: T -> bool, rows: seq<T>, id: T -> int, found: set<T>)
    requires InIdOrder(rows, id) && forall row :: row in found <==> row in rows && keep(row)
    ensures |Filter(keep, rows)| == |found|
  {
    if rows == [] {
      assert found == {};
    } else {
      var init, last := rows[..|rows| - 1], rows[|rows| - 1];
      assert rows == init + [last];
      LastIsNew(rows, id);
      hide InIdOrder;
      CountedOnce(keep, init, id, found - {last});
      WithOrWithout(found, last);
    }
  }

  lemma WithOrWithout<T>(s: set<T>, x: T)
    ensures |s| == |s - {x}| + if x in s then 1 else 0
  {
    if x in s { assert s == (s - {x}) + {x}; } else { assert s == s - {x}; }
  }

  lemma LastIsNew<T>(rows: seq<T>, id: T -> int)
    requires InIdOrder(rows, id) && rows != []
    ensures rows[|rows| - 1] !in rows[..|rows| - 1] && InIdOrder(rows[..|rows| - 1], id)
  {}

  lemma DebtsCounted(debts: seq<Debt>)
    requires InIdOrder(debts, DebtId)
    ensures |Filter(DebtPending, debts)| == |(set d | d in debts && d.principalToman.None?)|
    ensures |Filter(NegativeDebt, debts)|
         == |(set d | d in debts && d.principalToman.Some? && d.principalToman.value.raw < 0)|
  {
    hide Filter;
    CountedOnce(DebtPending, debts, DebtId, set d | d in debts && d.principalToman.None?);
    CountedOnce(NegativeDebt, debts, DebtId,
                set d | d in debts && d.principalToman.Some? && d.principalToman.value.raw < 0);
  }

  lemma InstallmentsCounted(l: Ledger, debts: seq<Debt>, insts: seq<Installment>)
    requires InIdOrder(insts, InstallmentId) && InIdOrder(debts, DebtId)
    ensures |Filter(NoAmount, insts)| == |(set i | i in insts && i.amountToman.None?)|
    ensures |Filter(NegativeInstallment, insts)|
         == |(set i | i in insts && i.amountToman.Some? && i.amountToman.value.raw < 0)|
    ensures |Filter((i: Installment) => CrossUser(l, debts, i), insts)|
         == |(set i | i in insts && exists d :: d in debts && PaidByAnother(l, d, i))|
  {
    forall i ensures CrossUser(l, debts, i) <==> exists d :: d in debts && PaidByAnother(l, d, i) {
      CrossUserIff(l, debts, i);
    }
    hide Filter, CrossUser, PaidByAnother;
    CountedOnce(NoAmount, insts, InstallmentId, set i | i in insts && i.amountToman.None?);
    CountedOnce(NegativeInstallment, insts, InstallmentId,
                set i | i in insts && i.amountToman.Some? && i.amountToman.value.raw < 0);
    CountedOnce((i: Installment) => CrossUser(l, debts, i), insts, InstallmentId,
                set i | i in insts && exists d :: d in debts && PaidByAnother(l, d, i));
  }

  /** The counters of the check count rows. */
  lemma VerifyCounts(l: Ledger, debts: seq<Debt>, insts: seq<Installment>)
    requires InIdOrder(debts, DebtId) && InIdOrder(insts, InstallmentId)
    ensures var v := Verify(l, debts, insts);
      && v.remainingNullPrincipal == |(set d | d in debts && d.principalToman.None?)|
      && v.remainingNullAmount == |(set i | i in insts && i.amountToman.None?)|
      && v.negativeContractualAmounts
         == |(set d | d in debts && d.principalToman.Some? && d.principalToman.value.raw < 0)|
            + |(set i | i in insts && i.amountToman.Some? && i.amountToman.value.raw < 0)|
      && v.crossUserEvidence == |(set i | i in insts && exists d :: d in debts && PaidByAnother(l, d, i))|
  {
    DebtsCounted(debts);
    InstallmentsCounted(l, debts, insts);
    hide Filter, CrossUser, PaidByAnother;
  }
}
