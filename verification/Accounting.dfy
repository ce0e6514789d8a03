/**
 * Double-entry invariant (`assertBalanced` of `src/domain/accounting.ts`), what
 * it implies for a whole ledger, and the entries `createTransactionAction`
 * builds inline (`src/app/actions.ts`).
 */
module Accounting {
  import opened Arith
  import opened Decimals
  import opened DecimalText

  datatype Posting = Posting(accountId: string, assetId: string, quantity: string, baseValue: string)

  datatype Check = Balanced | TooFewRows | Unbalanced(delta: string) | ZeroQuantity

  /** 10^-9 of the base currency, in raw units. */
  const TOLERANCE: int := 1_000_000_000

  function BaseValues(ps: seq<Posting>): (r: seq<Decimal>)
    ensures |r| == |ps|
  {
    seq(|ps|, i requires 0 <= i < |ps| => Parse(ps[i].baseValue))
  }

  function Delta(ps: seq<Posting>): Decimal {
    SumDecimals(BaseValues(ps))
  }

  /** The thrown message becomes the answer; the checks run in the original's order. */
  function AssertBalanced(ps: seq<Posting>): Check {
    if |ps| < 2 then TooFewRows
    else if Delta(ps).AbsValue().raw > TOLERANCE then Unbalanced(ToFixed(Delta(ps), 6))
    else if exists i :: 0 <= i < |ps| && Parse(ps[i].quantity).raw == 0 then ZeroQuantity
    else Balanced
  }

  function RawBaseValues(ps: seq<Posting>): (r: seq<int>)
    ensures |r| == |ps|
  {
    seq(|ps|, i requires 0 <= i < |ps| => Parse(ps[i].baseValue).raw)
  }

  lemma {:induction false} DeltaIsSum(ps: seq<Posting>)
    ensures Delta(ps).raw == Sum(RawBaseValues(ps))
  {
    hide Parse;
    if ps != [] {
      var n := |ps| - 1;
      DeltaIsSum(ps[..n]);
      DeltaStep(ps);
      assert RawBaseValues(ps) == RawBaseValues(ps[..n]) + [Parse(ps[n].baseValue).raw];
      SumAppend(RawBaseValues(ps[..n]), [Parse(ps[n].baseValue).raw]);
    }
  }

  /**
   * An entry is accepted exactly if it has two rows or more, the base values sum to zero up to a
   * billion raw units, and no quantity is zero; what it is refused for is the first that fails,
   * and a sum that is too large is shown to six decimals.
   */
  lemma AcceptedIff(ps: seq<Posting>)
    ensures var sum := Sum(RawBaseValues(ps));
            var check := AssertBalanced(ps);
            && (check == Balanced <==>
                  && |ps| >= 2 && -1_000_000_000 <= sum <= 1_000_000_000
                  && forall p :: p in ps ==> Parse(p.quantity) != ZERO)
            && (check.TooFewRows? <==> |ps| < 2)
            && (check.Unbalanced? <==> |ps| >= 2 && (sum < -1_000_000_000 || sum > 1_000_000_000))
            && (check.Unbalanced? ==> 2 * Abs(Parse(check.delta).raw - sum) <= 1_000_000_000_000)
  {
    hide Parse, Delta, ToFixed, Pow10;
    DeltaIsSum(ps);
    ToFixedIsNearest(Delta(ps), 6);
    TwelveDigits();
  }

  lemma TwelveDigits()
    ensures Pow10(SCALE - 6) == 1_000_000_000_000
  {
    assert Pow10(6) == 1_000_000;
    assert Pow10(12) == 1_000_000_000_000;
  }

  // ------------------------------------------------------------------ a run of entries

  /** Account balances after posting rows one by one. */
  function Post(book: map<string, int>, ps: seq<Posting>): map<string, int> {
    if ps == [] then book
    else
      var before, p := Post(book, ps[..|ps| - 1]), ps[|ps| - 1];
      before[p.accountId := Balance(before, p.accountId) + Parse(p.baseValue).raw]
  }

  function PostAll(entries: seq<seq<Posting>>): map<string, int> {
    if entries == [] then map[] else Post(PostAll(entries[..|entries| - 1]), entries[|entries| - 1])
  }

  function Balance(book: map<string, int>, account: string): int {
    if account in book then book[account] else 0
  }

  ghost function TrialBalance(book: map<string, int>): int {
    if book == map[] then 0
    else
      var a :| a in book;
      book[a] + TrialBalance(book - {a})
  }

  function SumOfEntries(entries: seq<seq<Posting>>): int {
    if entries == [] then 0
    else SumOfEntries(entries[..|entries| - 1]) + Delta(entries[|entries| - 1]).raw
  }

  lemma {:induction false} TrialBalancePick(book: map<string, int>, a: string)
    requires a in book
    ensures TrialBalance(book) == book[a] + TrialBalance(book - {a})
    decreases |book|
  {
    var b :| b in book && TrialBalance(book) == book[b] + TrialBalance(book - {b});
    if b != a {
      var rest := book - {b};
      TrialBalancePick(rest, a);
      TrialBalancePick(book - {a}, b);
      assert rest - {a} == book - {a} - {b};
    }
  }

  lemma TrialBalanceUpdate(book: map<string, int>, a: string, v: int)
    ensures TrialBalance(book[a := v]) == TrialBalance(book) - Balance(book, a) + v
  {
    var updated := book[a := v];
    TrialBalancePick(updated, a);
    assert updated - {a} == book - {a};
    if a in book {
      TrialBalancePick(book, a);
    } else {
      assert book - {a} == book;
    }
  }

  lemma DeltaStep(ps: seq<Posting>)
    requires ps != []
    ensures Delta(ps).raw == Delta(ps[..|ps| - 1]).raw + Parse(ps[|ps| - 1].baseValue).raw
  {
    hide Parse;
    var n := |ps| - 1;
    assert BaseValues(ps)[..n] == BaseValues(ps[..n]);
  }

  lemma {:induction false} PostAddsDelta(book: map<string, int>, ps: seq<Posting>)
    ensures TrialBalance(Post(book, ps)) == TrialBalance(book) + Delta(ps).raw
  {
    hide Parse, TrialBalance;
    if ps != [] {
      var before, p := Post(book, ps[..|ps| - 1]), ps[|ps| - 1];
      PostAddsDelta(book, ps[..|ps| - 1]);
      TrialBalanceUpdate(before, p.accountId, Balance(before, p.accountId) + Parse(p.baseValue).raw);
      DeltaStep(ps);
    }
  }

  /**
   * However many entries are accepted, over whatever accounts, the account
   * balances add up to the entry sums, and N entries leave the books within
   * N * 10^-9 of zero.
   */
  lemma {:induction false} LedgerStaysBalanced(entries: seq<seq<Posting>>)
    requires forall e :: e in entries ==> AssertBalanced(e) == Balanced
    ensures TrialBalance(PostAll(entries)) == SumOfEntries(entries)
    ensures Abs(TrialBalance(PostAll(entries))) <= |entries| * TOLERANCE
  {
    hide Parse, TrialBalance, Post;
    if entries != [] {
      var front, last := entries[..|entries| - 1], entries[|entries| - 1];
      LedgerStaysBalanced(front);
      PostAddsDelta(PostAll(front), last);
      assert AssertBalanced(last) == Balanced;
    } else {
      NoBook();
    }
  }

  lemma NoBook()
    ensures TrialBalance(map[]) == 0
  {}

  /** An entry the check accepts although it is one full tolerance off balance. */
  function DriftingEntry(a: string, b: string): seq<Posting> {
    [Posting(a, "", ToString(Whole(1)), ToString(Decimal(TOLERANCE))),
     Posting(b, "", ToString(Whole(1)), ToString(ZERO))]
  }

  /** The bound is reached: the tolerance is per entry and does add up. */
  lemma DriftIsReachable(n: nat, a: string, b: string)
    ensures AssertBalanced(DriftingEntry(a, b)) == Balanced
    ensures SumOfEntries(seq(n, i => DriftingEntry(a, b))) == n * TOLERANCE
  {
    hide Parse, ToString, AssertBalanced, Delta;
    RoundTripAll();
    PairCheck(DriftingEntry(a, b));
    Repeated(n, DriftingEntry(a, b));
  }

  lemma {:induction false} Repeated(n: nat, e: seq<Posting>)
    requires Delta(e).raw == TOLERANCE
    ensures SumOfEntries(seq(n, i => e)) == n * TOLERANCE
  {
    hide Delta;
    if n > 0 {
      assert seq(n, i => e)[..n - 1] == seq(n - 1, i => e);
      Repeated(n - 1, e);
    }
  }

  // -------------------------------------------------------------------- inline entries

  lemma TwoRows(e: seq<Posting>)
    requires |e| == 2
    ensures Delta(e).raw == Parse(e[0].baseValue).raw + Parse(e[1].baseValue).raw
  {
    hide Parse;
    DeltaStep(e);
    DeltaStep(e[..1]);
    assert e[..1][..0] == [];
  }

  lemma PairCheck(e: seq<Posting>)
    requires |e| == 2 && Abs(Parse(e[0].baseValue).raw + Parse(e[1].baseValue).raw) <= TOLERANCE
    ensures Delta(e) == Decimal(Parse(e[0].baseValue).raw + Parse(e[1].baseValue).raw)
    ensures AssertBalanced(e)
         == if Parse(e[0].quantity).raw == 0 || Parse(e[1].quantity).raw == 0 then ZeroQuantity else Balanced
  {
    hide Parse, ToFixed, BaseValues, SumDecimals;
    TwoRows(e);
  }

  /** The row moves that quantity of the asset, at that base value, on that account. */
  predicate IsLeg(p: Posting, account: string, asset: string, quantity: Decimal, base: Decimal) {
    p.accountId == account && p.assetId == asset && Parse(p.quantity) == quantity && Parse(p.baseValue) == base
  }

  /** Depreciation or reserve: an expense whose counter-leg is the reserve account. */
  function NonCashExpense(
      amount: Decimal, price: Decimal, reserve: string, category: string, asset: string): seq<Posting>
  {
    var qty := ToString(amount.Div(price));
    [Posting(reserve, asset, ToString(Parse(qty).Neg()), ToString(amount.Neg())),
     Posting(category, asset, qty, ToString(amount))]
  }

  /** -1 when the obligation is paid, +1 when it is collected. */
  function SettlementSign(collecting: bool): Decimal {
    if collecting then Whole(1) else Whole(-1)
  }

  /**
   * Settling an obligation: a cash leg and either the obligation's own account,
   * valued at its own price, or a bucket valued like the cash.
   */
  function Settlement(
    amount: Decimal, collecting: bool, cash: string, cashAsset: string, price: Decimal,
    contra: string, contraAsset: string, contraPrice: Decimal, ownAccount: bool
  ): seq<Posting> {
    var sign := SettlementSign(collecting);
    var qty := ToString(amount.Div(price));
    [Posting(cash, cashAsset, ToString(Parse(qty).Mul(sign)), ToString(amount.Mul(sign))),
     if ownAccount then
       Posting(contra, contraAsset, ToString(amount.Div(contraPrice).Mul(sign.Neg())), ToString(amount.Mul(sign.Neg())))
     else
       Posting(contra, cashAsset, ToString(Parse(qty).Mul(sign.Neg())), ToString(amount.Mul(sign.Neg())))]
  }

  lemma SignedProducts(x: Decimal, collecting: bool)
    ensures x.Mul(SettlementSign(collecting)) == (if collecting then x else x.Neg())
    ensures x.Mul(SettlementSign(collecting).Neg()) == (if collecting then x.Neg() else x)
  {
    MulByUnitSign(x);
    assert Whole(-1).Neg() == Whole(1) && Whole(1).Neg() == Whole(-1);
  }

  /**
   * A non-cash expense takes from the reserve what it brings to the category, in the reserve's
   * asset; it balances exactly, and is refused only when its quantity truncates to nothing.
   */
  lemma NonCashExpenseBalances(amount: Decimal, price: Decimal, reserve: string, category: string, asset: string)
    ensures var e := NonCashExpense(amount, price, reserve, category, asset);
            && |e| == 2 && IsLeg(e[0], reserve, asset, amount.Div(price).Neg(), amount.Neg())
            && IsLeg(e[1], category, asset, amount.Div(price), amount)
            && Delta(e) == ZERO
            && (AssertBalanced(e) == Balanced <==> amount.Div(price) != ZERO)
            && (AssertBalanced(e) != Balanced ==> AssertBalanced(e) == ZeroQuantity)
  {
    hide Parse, ToString, Decimal.Div, AssertBalanced, Delta;
    RoundTripAll();
    var e := NonCashExpense(amount, price, reserve, category, asset);
    PairCheck(e);
    assert Parse(e[1].quantity) == amount.Div(price) && Parse(e[0].quantity) == amount.Div(price).Neg();
  }

  /**
   * A repayment takes the amount out of cash, in units of the cash asset, and brings it to the
   * other account, in that account's units at its own price or in units of cash; a collection
   * does the reverse.
   */
  predicate Settles(
    e: seq<Posting>, amount: Decimal, collecting: bool, cash: string, cashAsset: string, price: Decimal,
    contra: string, contraAsset: string, contraPrice: Decimal, ownAccount: bool)
  {
    var units := amount.Div(price);
    var otherUnits, otherAsset :=
      if ownAccount then amount.Div(contraPrice) else units, if ownAccount then contraAsset else cashAsset;
    && |e| == 2
    && IsLeg(e[0], cash, cashAsset, if collecting then units else units.Neg(),
             if collecting then amount else amount.Neg())
    && IsLeg(e[1], contra, otherAsset, if collecting then otherUnits.Neg() else otherUnits,
             if collecting then amount.Neg() else amount)
  }

  /** A settlement balances exactly, and is refused only when a leg's quantity truncates to nothing. */
  lemma SettlementBalances(
    amount: Decimal, collecting: bool, cash: string, cashAsset: string, price: Decimal,
    contra: string, contraAsset: string, contraPrice: Decimal, ownAccount: bool)
    ensures var e :=
              Settlement(amount, collecting, cash, cashAsset, price, contra, contraAsset, contraPrice, ownAccount);
            && Settles(e, amount, collecting, cash, cashAsset, price, contra, contraAsset, contraPrice, ownAccount)
            && Delta(e) == ZERO
            && (AssertBalanced(e) == Balanced <==>
                  amount.Div(price) != ZERO && (ownAccount ==> amount.Div(contraPrice) != ZERO))
            && (AssertBalanced(e) != Balanced ==> AssertBalanced(e) == ZeroQuantity)
  {
    hide Parse, ToString, Decimal.Mul, Decimal.Div, AssertBalanced, Delta, SettlementSign;
    RoundTripAll();
    SignedProducts(amount, collecting);
    SignedProducts(amount.Div(price), collecting);
    SignedProducts(amount.Div(contraPrice), collecting);
    var e := Settlement(amount, collecting, cash, cashAsset, price, contra, contraAsset, contraPrice, ownAccount);
    PairCheck(e);
    var own := if ownAccount then amount.Div(contraPrice) else amount.Div(price);
    assert Parse(e[0].quantity) == (if collecting then amount.Div(price) else amount.Div(price).Neg());
    assert Parse(e[1].quantity) == (if collecting then own.Neg() else own);
  }

  /**
   * The lines as the action pushes them: they settle the obligation, sum to exactly zero, and
   * only a leg that truncates to nothing makes the entry unacceptable.
   */
  method BuildSettlement(
    amount: Decimal, collecting: bool, cash: string, cashAsset: string, price: Decimal,
    contra: string, contraAsset: string, contraPrice: Decimal, ownAccount: bool
  ) returns (lines: seq<Posting>)
    ensures lines ==
      Settlement(amount, collecting, cash, cashAsset, price, contra, contraAsset, contraPrice, ownAccount)
    ensures Settles(lines, amount, collecting, cash, cashAsset, price, contra, contraAsset, contraPrice, ownAccount)
    ensures Delta(lines) == ZERO
    ensures AssertBalanced(lines) == Balanced
       <==> amount.Div(price) != ZERO && (ownAccount ==> amount.Div(contraPrice) != ZERO)
  {
    hide Parse, ToString, Delta, AssertBalanced, Decimal.Mul, Decimal.Div, SettlementSign;
    SettlementBalances(amount, collecting, cash, cashAsset, price, contra, contraAsset, contraPrice, ownAccount);
    var sign := SettlementSign(collecting);
    var qty := ToString(amount.Div(price));
    lines := [Posting(cash, cashAsset, ToString(Parse(qty).Mul(sign)), ToString(amount.Mul(sign)))];
    if ownAccount {
      lines := lines + [Posting(contra, contraAsset, ToString(amount.Div(contraPrice).Mul(sign.Neg())),
                                ToString(amount.Mul(sign.Neg())))];
    } else {
      lines := lines + [Posting(contra, cashAsset, ToString(Parse(qty).Mul(sign.Neg())),
                                ToString(amount.Mul(sign.Neg())))];
    }
  }

  /** When a quantity survives the division by its price: the price is not more than 10^18 times the amount. */
  lemma QuantitySurvives(amount: Decimal, price: Decimal)
    ensures amount.Div(price) != ZERO <==> price.raw != 0 && Abs(amount.raw) * ONE >= Abs(price.raw)
  {
    if price.raw != 0 {
      TruncDivIsTowardZero(amount.raw * ONE, price.raw);
      var q := TruncDiv(amount.raw * ONE, price.raw);
      assert Abs(amount.raw * ONE) == Abs(amount.raw) * ONE;
      if q == 0 {
        assert q * price.raw == 0;
      } else {
        MultiplesApart(q, 0, price.raw);
      }
    }
  }
}
