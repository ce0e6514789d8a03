# Verified model of the ledger's hard core

This project models, in Dafny, the parts of the repository whose correctness is a matter of
arithmetic or of ordering, and proves what they promise. It stands beside the TypeScript
sources; `dafny verify dfyconfig.toml` verifies all of it.

- **Exact decimals and FIFO.** `Decimals` and `DecimalText` are the fixed-point number and its
  text form; every amount crosses function and database boundaries as text, so parsing what
  was printed is proved to give the same decimal, and `DecimalTextLaws` says what typed text
  reads as. `Fifo` and `FifoLaws` consume and write back lots, `FifoOrder` puts that in calendar
  terms, lot by lot, and `FifoReads` reads the lots again between sales; `Accounting` and `Money`
  hold the balance check, the entries built inline, and the currency arithmetic of a transaction.
- **Bank-message confirmation.** `BankImport` is a transition system in which any number of
  workers read, link, replay, claim, post, confirm, release, fail and crash over one inbox and
  one ledger. `BankImportSafety` proves what every run keeps and what it takes to keep a single
  ledger effect; `BankImportDoubles` says exactly when a run records a
  message twice. `InboxStore` is the imperative form: each guarded update of the tables is
  proved to be one event, so the tables are always those of a run.
- **Rate limiter.** `RateLimit` is the mutable map with expiry and capped eviction;
  `RateLimitLaws`, `RateLimitWindows` and `RateLimitShared` bound its size, what it drops and
  what it accepts, and compare it with the shared counter.
- **Toman backfill.** `Keyset` is paging behind a cursor; `Backfill` the classifiers and the
  batched writer; `BackfillLaws`, `BackfillVerdicts` and `BackfillReports` their guarantees.
- **Codecs and a cache.** `PersianWords`, `NumberWords`, `NumberWordsLaws`; `NumericInput`,
  `NumericInputLaws`, `AmountDisplay`; `SearchText`, `SearchColumns`; `TenantState`,
  `TenantStateLaws`.

Where the source updates something step by step there is a method or a class proved against a
specification function; the laws are lemmas about those functions. Statements about runs are
over every finite sequence of events, including events that do nothing where they arrive.

## Where the code and its descriptions part

- A confirmation that fails after its post puts the message back to pending while its entry is
  committed; a link made then records the message twice (`FailureAfterPost`,
  `ReleaseConditionIsNeeded`). Staying within the five-minute lease is therefore not enough for
  a single ledger effect (`LeaseAloneIsNotEnough`), and `DisciplinedRuns` needs a second
  condition. Neither suffices alone. `NeverDoublesIff` gives the exact condition for never
  recording a message twice, and `OneEffectRunIff` the one for the stronger property that, in
  addition, nothing is posted for a message that is pending or rejected.
- The two rate limiters are described as equal; they differ exactly when a window is opened with
  a limit below one, when a key that was refused asks for more than it had accepted
  (`ChangingLimitsDisagree`), or when a key evicted while its window ran is checked before that
  window ends (`BackendsAgreeIff`; `BackendsAgreeForFixedLimitsIff` for one limit a key, where
  only the last can happen). On a full table a check can evict the very key it checks
  (`FullTableForgivesSoonest`).
- The backfill is described as never overwriting a value; it guards the amount only, and
  overwrites a settled total, dollar amount or rate beside a missing amount
  (`InstallmentWriteKeepsIff`, `PaidTotalIsOverwritten`).
- Words are described as exact for arbitrarily large amounts; from 10^63 on they are not
  (`WordsReadBackIff`, `LimitCollides`).
- The search helper calls the column expression the twin of the query normalisation; only the
  query changes digits and collapses white space, so a column is not always found by its own
  text (`ColumnFindsItselfIff`, `PersianNumberMissesItself`).
- A typed amount is described as looking identical once it is saved; it does when it was typed
  with the decimals that are displayed (`TypedLooksLikeStoredIff`, `MissingDecimalShows`).
- The query for the open lots orders by date alone, while a sale depends on the order of lots
  of one date, as far as it reaches (`SameSaleIff`, `SameDateOrderMatters`).
- The tenant cache is described as never stale in the dangerous direction after an invalidation;
  a load whose query ran before the write and finishes after the invalidation makes it so
  (`InvalidationWorksIff`, `StaleProbeIsStored`, and `InvalidationCanMiss` for a run).

## Model

| member | source | states |
|---|---|---|
| Decimals.TruncDivIsTowardZero | src/domain/decimal.ts:52-60 | `mul` and `div` truncate toward zero: the quotient never overshoots, falls short by less than one divisor and keeps the sign |
| Decimals.TruncDivUnique | src/domain/decimal.ts:52-60 | those bounds leave only one quotient, so truncation is pinned down and not just bounded |
| DecimalText.RoundTrip | src/domain/decimal.ts:11-23 | parsing what `toString` prints returns the same decimal, for every raw value |
| DecimalText.ToStringInjective | src/domain/decimal.ts:105-110 | different decimals never print alike |
| DecimalText.ToFixedIsNearest | src/domain/decimal.ts:113-122 | for 0 to 18 digits `toFixed` shows a nearest multiple of the last digit, ties away from zero, and no minus sign on zero |
| DecimalText.ToFixedIsMonotone | src/domain/decimal.ts:113-122 | rounding keeps the order |
| DecimalText.ToFixedIsIdempotent | src/domain/decimal.ts:113-122 | rounding the printed value prints the same text again |
| DecimalTextLaws.ParseCutsOff | src/domain/decimal.ts:11-23 | text with any number of digits around a point, with white space around it, reads as the number it denotes, cut off toward zero below 10^-18 |
| DecimalTextLaws.SeparatorsAreDropped | src/domain/decimal.ts:17-22 | separators of any kind before the point do not matter |
| DecimalTextLaws.SecondPointEnds | src/domain/decimal.ts:19 | what a second point brings is dropped |
| DecimalTextLaws.NoNumberIsZero | src/domain/decimal.ts:15-16 | nothing, a lone minus or point, and NaN in any case read as zero |
| DecimalTextLaws.TextIsShort | src/domain/decimal.ts:104-111 | `toString` writes no superfluous zero at either end, and a minus sign exactly below zero |
| DecimalText.WhiteSpaceIs | src/domain/decimal.ts:15 | the white space that `trim` removes, by code point |
| Sorting.SortIsSortedPermutation | src/domain/fifo.ts:36 | the sort orders the lots and loses none |
| Sorting.SortIsStable | src/domain/fifo.ts:36 | lots of one date keep the order they came in |
| Fifo.ConsumeFifo | src/domain/fifo.ts:31-71 | the loop over the lots computes exactly the greedy walk over the date-ordered lots, with its totals |
| FifoOrder.TextLeqIsNotLater | src/domain/fifo.ts:36 | for ISO dates the sort order is that of year, month and day as numbers |
| FifoOrder.OldestFirst | src/domain/fifo.ts:36-60 | nothing is taken from a lot while a lot of a strictly earlier date still holds something |
| FifoOrder.AllocationOfLot | src/domain/fifo.ts:45-60 | each lot a sale takes from has one allocation, of what it held less what it holds now, at its unit cost and the unit proceeds, truncated; any other lot has none and stays as it is |
| FifoOrder.SaleCostsWhatLeft | src/domain/fifo.ts:45-66 | the total cost is that of what left each lot, lot by lot |
| FifoLaws.SaleIsGreedy | src/domain/fifo.ts:36-70 | the i-th lot gives min(available, what earlier lots left wanting); allocations plus unmatched equal the sale; no lot goes negative; unmatched only when every lot is empty |
| FifoLaws.NonPositiveSale | src/domain/fifo.ts:36-70 | a sale of nothing, or of less, allocates nothing |
| FifoLaws.TwoSalesAreOneSale | src/domain/fifo.ts:31-71 | selling q1 and then q2 from the written-back lots leaves every lot exactly as selling q1 + q2 does, and costs within one unit of 10^-18 |
| FifoLaws.ManySalesAreOneSale | src/domain/fifo.ts:31-71 | k partial sales end in the one-shot lots and stay within k - 1 units of its cost |
| Sorting.SortsAlikeIff | src/domain/fifo.ts:36 | two listings of lots sort alike exactly when lots of one date stand in the same order in both |
| FifoReads.SaleOfOpenLots | src/features/ledger/service.ts:350-365 | leaving out the lots with nothing left, as the query does, changes no sale |
| FifoReads.SameSaleIff | src/features/ledger/service.ts:340-375 | a sale goes alike from any two listings of the same open lots if and only if, put in date order, they agree on every lot the sale reaches |
| FifoReads.TwoReadsAreOneSale | src/features/ledger/service.ts:340-375 | the two-sale law for a second sale that reads the open lots again, in any order in which it reaches the same lots |
| FifoReads.ManyReadsAreOneSale | src/features/ledger/service.ts:340-375 | the same for k sales, each on what its own query returned |
| FifoReads.TableOrderReadsLike | src/features/ledger/service.ts:350-365 | a query that keeps lots of one date in table order is such a reading for every sale |
| FifoReads.SameDateOrderMatters | src/features/ledger/service.ts:365 | among any number of open lots of one date, exchanging two changes a sale if and only if the sale reaches the earlier one |
| FifoLaws.WriteBackIsAfter | src/features/ledger/service.ts:371-375 | writing allocations back by lot id changes exactly the lots that were consumed |
| FifoLaws.PnlIsExact | src/domain/fifo.ts:55-70 | realized profit is exactly the sum of the per-lot profits |
| FifoLaws.ProceedsBounds | src/domain/fifo.ts:39-66 | allocated proceeds never exceed the proceeds given, and a matched sale over n lots falls short by less than n + Q/ONE raw units |
| FifoLaws.AverageCost | src/domain/fifo.ts:74-84 | the loop computes total truncated cost over total open quantity, and 0 when nothing is open |
| FifoLaws.AverageCostBounds | src/domain/fifo.ts:74-84 | the average is at most the highest unit cost, and below the lowest only by the truncation of n products and one division |
| Money.TomanRoundTrip | src/lib/format.ts:566-574 | Toman divided at full precision and converted back is the same Toman if and only if the dropped remainder is at most half a Toman |
| Money.TomanRoundTripForRealRates | src/app/actions.ts:974-986 | so every whole amount returns at every rate up to half of 10^18 Toman to the dollar |
| Money.OneTomanLost | src/lib/format.ts:572-574 | above 10^18 Toman to the dollar a single Toman is lost |
| Money.TwoDigitDetour | src/lib/format.ts:566-574 | through the two-digit dollar figure the error is at most rate * (0.005 + 10^-18) + 0.5 + 10^-18 Toman |
| Money.DollarsInCents | src/lib/format.ts:566-570 | the dollar figure is in whole cents, the nearest to the amount at the rate |
| Money.NoRateNoDollars | src/lib/format.ts:566-570 | without a positive rate it is 0 |
| Money.SplitAmount | src/app/actions.ts:968-986 | typed Toman freeze the nearest whole Toman and its dollars cut off at the rate, typed dollars themselves and the nearest Toman to their worth; at a real rate the frozen dollars convert back to the frozen Toman; the exact refusals |
| Money.FrozenAmountsAgree | src/app/actions.ts:968-986 | the frozen dollars convert back to exactly the frozen Toman, whatever was typed |
| Money.FrozenIsSplit | src/app/actions.ts:968-986 | the frozen figures in numbers, for either way of typing |
| Money.TomanAmountAccepted | src/app/actions.ts:974-986 | a typed Toman amount is refused exactly when it, or its dollars, round to nothing |
| Money.TransferKeepsBookValue | src/app/actions.ts:1483-1513 | a transfer of held units never removes more than the held book value, and emptying the account leaves a residue below held/ONE + 2 raw units |
| Money.TransferTakesItsShare | src/app/actions.ts:1483-1513 | a transfer is refused exactly when quantity and fee exceed what is held; each takes its share of the book value, up to the truncations |
| Money.TransferAtMarketPrice | src/app/actions.ts:1493-1500 | without a positive book value the transfer stays within the book exactly when it moves no value and the book is not negative |
| Money.SellFeeWithinBook | src/app/actions.ts:1623-1636 | a sell fee below the settlement never costs more than the sale's book value |
| Money.SellFeeIsItsShare | src/app/actions.ts:1623-1636 | the fee is its share of the book value, short by less than one raw unit and one truncation |
| Accounting.AcceptedIff | src/domain/accounting.ts:53-85 | an entry is accepted exactly if it has two rows, its base values sum to zero within 10^-9, and no quantity is zero; otherwise the first check that fails is reported, a wrong sum to six decimals |
| Accounting.LedgerStaysBalanced | src/domain/accounting.ts:72-85 | after any run of accepted entries the account balances add up to the entry sums, within N * 10^-9 of zero |
| Accounting.DriftIsReachable | src/domain/accounting.ts:72-85 | that bound is reached for every N: the tolerance is per entry and accumulates |
| Accounting.NonCashExpenseBalances | src/app/actions.ts:1201-1234 | the non-cash expense takes from the reserve the quantity and base value it brings to the category, in the reserve's asset; it sums to exactly zero, and is refused only when its quantity truncates to nothing |
| Accounting.BuildSettlement | src/app/actions.ts:1311-1387 | the pushed lines, row by row: account, asset, signed quantity and signed base value of the cash leg and of the other leg, with an own account or without; they sum to exactly zero and are accepted exactly unless a leg truncates to nothing |
| Accounting.SettlementBalances | src/app/actions.ts:1311-1387 | a repayment takes amount and units out of cash and brings them to the other account, a collection the reverse; it sums to exactly zero and is refused only when a leg truncates to nothing |
| Accounting.QuantitySurvives | src/app/actions.ts:1311-1387 | exactly when a quantity survives the division by its price |
| BankImport.StepKeepsInv | src/app/actions/bankImport.ts:81-195 | every statement, failure or crash of any worker keeps the joint invariant of inbox, ledger and claims |
| BankImportSafety.EveryRun | src/app/actions/bankImport.ts:122-195 | in every run: confirmed has an entry and no payload, an erased payload is confirmed or rejected, a key is on one entry, and a linked transfer moves the amount from source to destination on the day asked for |
| BankImportSafety.ConfirmedIsAbsorbing | src/app/actions/bankImport.ts:134-189 | no event of any run takes a message out of confirmed |
| BankImportSafety.ReleaseUndoesOnlyOwnClaim | src/app/actions/bankImport.ts:193-195 | a release changes a row only while its own claim, and nobody else's, holds it |
| BankImportSafety.StepKeepsOneEffectIff | src/app/actions/bankImport.ts:163-194 | a step keeps at most one ledger effect per message if and only if it does not post onto a row that is no longer processing and does not reopen a row whose entry is posted |
| BankImportSafety.OneEffectRunIff | src/app/actions/bankImport.ts:120-194 | all states of a run have one effect per message, none of it on a pending or rejected one, if and only if no step posts onto a row no longer processing or reopens one whose entry is posted |
| BankImportDoubles.NeverDoublesIff | src/app/actions/bankImport.ts:120-194 | no state of a run has a message both posted and linked to another entry if and only if no step posts for a linked message or links a posted one to anything but its own entry |
| BankImportDoubles.RunNeverDoublesIff | src/app/actions/bankImport.ts:120-194 | the same for every run from an empty inbox |
| BankImportDoubles.OneEffectHasNoDouble | src/app/actions/bankImport.ts:120-194 | one effect per message is the stronger property of the two |
| BankImportSafety.LinkIsChecked | src/app/actions/bankImport.ts:122-138 | a message is linked exactly if it is pending and the entry is a posted transfer of its date with a line of minus the amount on the source and one of the amount on the destination, each within 0.000001; it is then confirmed with that entry, and no entry is written |
| BankImportSafety.MatchesIff | src/app/actions/bankImport.ts:128-130 | what the matching query asks, in plain numbers |
| BankImportSafety.DisciplinedRuns | src/app/actions/bankImport.ts:120-194 | in every run within the lease and without a release over a committed entry, a message has nothing, one keyed entry, or one link |
| BankImportSafety.ConfirmedEntryIsFinal | src/app/actions/bankImport.ts:144-189 | in such a run the entry a message was confirmed with never changes |
| BankImportSafety.FailureAfterPost | src/app/actions/bankImport.ts:182-195 | a call that fails between the post and the confirmation puts the message back to pending with its entry committed, within the lease |
| BankImportSafety.ReleaseConditionIsNeeded | src/app/actions/bankImport.ts:120-138 | staying within the lease is not enough: every pending message with a matching transfer has a run that does and records it twice |
| BankImportSafety.LeaseConditionIsNeeded | src/app/actions/bankImport.ts:163-184 | nor are clean releases: every such message has a run without a release over a committed entry that records it twice |
| BankImportSafety.LeaseAloneIsNotEnough | src/app/actions/bankImport.ts:163-194 | the first from an empty inbox: a run within the lease that doubles the effect exists |
| BankImportSafety.CleanReleasesAloneAreNotEnough | src/app/actions/bankImport.ts:163-194 | the second from an empty inbox |
| BankImportSafety.SoloRunConfirms | src/app/actions/bankImport.ts:163-189 | an undisturbed call posts one entry and confirms the message with it |
| BankImportSafety.ReplayRecovers | src/app/actions/bankImport.ts:140-146 | a later call finds the committed entry, confirms with it and posts nothing |
| InboxStore.Inbox.ClaimMessage | src/app/actions/bankImport.ts:163-168 | the guarded update claims a pending row or one whose claim is over five minutes old, and is one event of the protocol |
| InboxStore.Inbox.ReleaseClaim | src/app/actions/bankImport.ts:193-195 | the guarded release gives back only a row still carrying this claim's time |
| InboxStore.Inbox.RejectMessage | src/app/actions/bankSms.ts:41-52 | only a pending message is rejected, and its payload is erased |
| InboxStore.Inbox.ReceiveMessage | src/features/bankImport/sms.ts:48-75 | a new message enters pending; a repeated delivery is answered as a duplicate and a new message at 100 waiting ones is refused, both leaving the inbox as it was |
| InboxStore.Inbox.LinkTransfer | src/app/actions/bankImport.ts:120-138 | the link transaction answers yes exactly for a posted transfer that a pending message moves by, or that the message is confirmed with already; only the former changes the row |
| InboxStore.Inbox.ReplayMessage | src/app/actions/bankImport.ts:140-146 | the replay check and its confirmation, which leaves the claim time as it was |
| InboxStore.Inbox.PostAndConfirm | src/app/actions/bankImport.ts:182-190 | post, look up again, confirm: the message is confirmed exactly when an entry is found and nothing fails on the way |
| InboxStore.Inbox.ConfirmBankImport | src/app/actions/bankImport.ts:79-196 | exactly when a whole call answers yes, by link, replay or post, and that it leaves the message confirmed with the answered entry; otherwise the message is as before or given back; every state on the way is a protocol state |
| InboxStore.TablesAreSafe | src/app/actions/bankImport.ts:122-195 | the tables themselves satisfy the safety properties at any time |
| RateLimit.MemoryBackend.EvictIfNeeded | src/lib/rateLimit.ts:47-59 | the two eviction loops: expired entries first, then as many of the soonest-resetting as needed |
| RateLimit.MemoryBackend.CheckKey | src/lib/rateLimit.ts:71-90 | the update of the map and the answer, against the specification of one check |
| RateLimit.MemoryBackend.ResetKey | src/lib/rateLimit.ts:91-93 | a reset forgets the key and nothing else |
| RateLimitLaws.TableStaysBounded | src/lib/rateLimit.ts:47-93 | whatever is checked and reset, the map never exceeds 20000 keys |
| RateLimitLaws.EvictMakesRoom | src/lib/rateLimit.ts:47-59 | eviction leaves room for one key and removes no more than that takes |
| RateLimitLaws.ExpiredGo | src/lib/rateLimit.ts:47-52 | a table that has to make room keeps no entry whose window is over |
| RateLimitLaws.NewKeysGoLast | src/lib/rateLimit.ts:47-88 | the keys stay in the order they came, and a new one goes last |
| RateLimitLaws.LiveDropsAreSoonest | src/lib/rateLimit.ts:53-58 | a live entry is dropped only when purging was not enough, and resets no later than every survivor |
| RateLimitLaws.FullTableForgivesSoonest | src/lib/rateLimit.ts:47-90 | on a full table of live keys even a check of a tracked key drops one; if it is the checked key, a caller over the limit is let through |
| RateLimitWindows.AcceptedPerWindow | src/lib/rateLimit.ts:71-93 | a closed interval of one window length accepts at most two limits' worth, plus one for each eviction or reset of the key; a limit below one counts as one |
| RateLimitWindows.WindowBoundIsReached | src/lib/rateLimit.ts:71-88 | the bound is met by one attempt at each end of the window |
| RateLimitShared.MemorySimulatesSharedIff | src/lib/rateLimit.ts:47-115 | all answers of a run equal the shared counter's if and only if no key evicted while its window ran is checked before that window ends, no window is opened with a limit below one and, after a refusal in a window, no check asks for more than was accepted in it |
| RateLimitShared.BackendsAgreeIff | src/lib/rateLimit.ts:249-261 | the same from two empty limiters, for every run, whatever its limits and evictions |
| RateLimitShared.BackendsAgreeForFixedLimitsIff | src/lib/rateLimit.ts:249-261 | with one limit of at least one for each key, the two backends answer alike if and only if no evicted key is checked before its old window ends |
| RateLimitShared.ChangingLimitsDisagree | src/lib/rateLimit.ts:76-88 | accepted at limit one, refused, then asked at limit two: the backends answer differently |
| RateLimitShared.BackendsAgree | src/lib/rateLimit.ts:249-261 | so with such limits they answer alike over every run without a live eviction, and every run of at most 20000 calls |
| RateLimitShared.CountsAreCapped | src/lib/rateLimit.ts:71-115 | with one limit for each key, windows end at the same time in both and the in-memory count is the smaller of the limit and the shared count, while no evicted key is checked early; a limit below one counts as one |
| RateLimitShared.AgreeingCounts | src/lib/rateLimit.ts:71-115 | so after any run that both answered alike |
| RateLimitShared.SameAnswerIff | src/lib/rateLimit.ts:76-88 | per call: in a window with counts m and n the answers agree exactly for m == n or a limit of at most m; a fresh key needs a limit of at least one |
| RateLimitShared.WindowCountsDown | src/lib/rateLimit.ts:71-90 | the checks of one window answer max - 1 down to 0 attempts remaining, then refusals until it ends |
| RateLimitShared.EvictionShows | src/lib/rateLimit.ts:53-58 | a check of a key evicted while its shared window runs is answered differently, whatever its limit |
| Backfill.ClassifyDebtEvidence | src/db/migrate-debt-toman.ts:107-186 | grouping the matching postings by entry yields the classification of one debt |
| BackfillLaws.DebtEvidenceIff | src/db/migrate-debt-toman.ts:107-186 | a principal is reconstructed exactly when one posting proves it: the only supporting one in IRT, of the only supporting debt entry, with entry, account and debt of one tenant (NULL only with NULL) |
| BackfillLaws.DebtEvidenceIsOwn | src/db/migrate-debt-toman.ts:130-133 | reconstructed Toman never comes from another tenant: account, entry and debt have one owner, NULL only with NULL |
| BackfillVerdicts.IsIrtIff | src/db/migrate-debt-toman.ts:163 | a posting is in Toman exactly if its symbol, in upper case, is IRT |
| BackfillVerdicts.DebtVerdict | src/db/migrate-debt-toman.ts:107-186 | every verdict on a debt by the postings that speak for it: none, of several entries, not exactly one in Toman, that one zero, or proven with its absolute quantity |
| BackfillVerdicts.OnlyPostingDecides | src/db/migrate-debt-toman.ts:107-186 | a debt with a single such posting: blocked unless it is in Toman and not zero, and then proven |
| BackfillLaws.InstallmentEvidenceIff | src/db/migrate-debt-toman.ts:196-269 | amounts are reconstructed exactly from the only snapshot of the paid entry, positive, of the debt's own tenant |
| BackfillVerdicts.InstallmentVerdict | src/db/migrate-debt-toman.ts:196-269 | every verdict on an installment, by status, entry and the snapshots of that entry |
| BackfillVerdicts.OwnerOfIff | src/db/migrate-debt-toman.ts:487-507 | an installment's tenant is that of the debt with its id |
| BackfillVerdicts.InstallmentFilled | src/db/migrate-debt-toman.ts:485-544 | exactly which installment gets its four amounts, and from which snapshot |
| BackfillReports.ClassifyDebts | src/db/migrate-debt-toman.ts:306-350 | the report lists every legacy debt once, as reconstructable or as blocked, and its counters add up |
| BackfillReports.ClassifyInstallments | src/db/migrate-debt-toman.ts:352-404 | the same for installments, paid and pending |
| BackfillVerdicts.LegacyIff | src/db/migrate-debt-toman.ts:352-372 | the installments classified are those without an amount that have a debt |
| BackfillVerdicts.BlockedDebtsListed | src/db/migrate-debt-toman.ts:306-350 | a blocked debt is listed with its tenant and reason, and nothing else is |
| BackfillVerdicts.BlockedInstallmentsListed | src/db/migrate-debt-toman.ts:352-404 | the same for installments |
| Backfill.Database.MigrateDebts | src/db/migrate-debt-toman.ts:436-482 | the cursor loop terminates for every batch size, scans each pending debt once in order, in full batches but for the last, and ends as the one-shot fill |
| Backfill.Database.MigrateInstallments | src/db/migrate-debt-toman.ts:485-544 | the same over the paid installments |
| Backfill.Database.Backfill | src/db/migrate-debt-toman.ts:421-554 | for every batch size the same final tables, and totals that count exactly the pending rows and the proven ones |
| BackfillLaws.BackfillResumes | src/db/migrate-debt-toman.ts:421-554 | wherever an earlier run stopped in either table, a full run ends in the same database |
| BackfillLaws.SecondRunWritesNothing | src/db/migrate-debt-toman.ts:421-554 | a second run changes nothing and reports no migrated row |
| BackfillLaws.DebtWrite | src/db/migrate-debt-toman.ts:466-478 | only a missing principal is written, only when proven, and always positive |
| BackfillLaws.InstallmentWrite | src/db/migrate-debt-toman.ts:519-535 | an amount that is set never changes, no field but the four amounts is touched, a written amount is positive, and every set column is kept exactly unless the row is written over other paid figures |
| BackfillLaws.InstallmentWriteKeepsIff | src/db/migrate-debt-toman.ts:526-533 | the paid columns of a written row are kept exactly when they were empty or already equal |
| BackfillLaws.PaidTotalIsOverwritten | src/db/migrate-debt-toman.ts:526-533 | a settled total beside a missing amount is overwritten |
| BackfillReports.ListedDebtsAreWritten | src/db/migrate-debt-toman.ts:331-333 | the debts the classifier lists are exactly the rows the backfill changes |
| BackfillReports.SameInstallmentsListed | src/db/migrate-debt-toman.ts:487-507 | the writer's narrower query loses no installment the classifier lists |
| BackfillReports.ListedInstallmentsAreWritten | src/db/migrate-debt-toman.ts:386-388 | the installments listed are exactly the rows changed |
| BackfillReports.BackfillKeepsVerdict | src/db/migrate-debt-toman.ts:569-613 | negative amounts and cross-user evidence are counted the same before and after, so a database that verified still does |
| BackfillReports.RemainingArePending | src/db/migrate-debt-toman.ts:572-574 | the principals and amounts still missing afterwards are exactly those that could not be proven |
| BackfillVerdicts.VerifiesIff | src/db/migrate-debt-toman.ts:569-613 | a database verifies exactly if no amount is negative and nothing was paid through another known user's entry |
| BackfillVerdicts.VerifyCounts | src/db/migrate-debt-toman.ts:569-613 | the four counters count rows |
| NumberWords.ThreeDigitsToWords | src/lib/numberToWords.ts:67-86 | the pushed parts are the words of one group |
| NumberWords.CollectGroups | src/lib/numberToWords.ts:92-102 | the loop and the reversal yield the non-zero groups, highest first, with their scales |
| NumberWords.IntegerToWords | src/lib/numberToWords.ts:89-107 | the whole printer computes the specified text |
| PersianWords.RecogniseIff | src/lib/numberToWords.ts:27-64 | a token is recognised as a word exactly when it is its spelling; no two of the 59 words are spelled alike |
| PersianWords.SpellIsInjective | src/lib/numberToWords.ts:27-64 | different words are spelled differently |
| PersianWords.SmallVocabulary | src/lib/numberToWords.ts:27-32 | the words for one to nineteen |
| PersianWords.LargeVocabulary | src/lib/numberToWords.ts:33-64 | the words for the tens, the hundreds and the first six scales |
| NumberWordsLaws.ThousandIsPow10 | src/lib/numberToWords.ts:41-64 | the scale of the i-th name is 10^(3i), so the limit below is 10^63 |
| NumberWordsLaws.WordsReadBackIff | src/lib/numberToWords.ts:89-107 | reading the words back gives the number if and only if it is below 10^63, and less from there on |
| NumberWordsLaws.LimitCollides | src/lib/numberToWords.ts:42-64 | n * 10^63 has the words of n, for every n below a thousand |
| NumberWordsLaws.TypedReadsBackIff | src/lib/numberToWords.ts:118-137 | however a number is typed, it has words unless it is minus zero, and with their sign they read back to it exactly below 10^63 |
| NumberWordsLaws.WordsAreInjective | src/lib/numberToWords.ts:118-137 | below the limit two typed numbers get the same words exactly if sign and number are the same |
| NumberWordsLaws.TypedShows | src/lib/numberToWords.ts:118-130 | a typed number shows what its digits say: separators among them do not matter, what follows a point is dropped, and either minus sign makes it negative |
| NumberWordsLaws.TypedWords | src/lib/numberToWords.ts:118-137 | so the words of any such text are those of its digits |
| NumberWordsLaws.NoDigitsNoWords | src/lib/numberToWords.ts:118-129 | a text without a digit has no words |
| NumberWordsLaws.SpokenMillions | src/lib/numberToWords.ts:89-107 | 1250000 and 3000000 in the words of the language |
| NumberWordsLaws.ZeroWords | src/lib/numberToWords.ts:129-133 | a typed zero, with whatever zeros and separators, reads as zero, and behind a minus sign has no words |
| NumberWordsLaws.DecimalSeparatorIsDropped | src/lib/numberToWords.ts:125-127 | the Persian decimal separator is dropped like a thousands separator |
| PersianDigits.ScriptsAgree | src/lib/numericInput.ts:29-33 | the k-th Persian or Arabic-Indic digit becomes the k-th Latin one, and other characters stay |
| NumericInput.NormalizeNumericInput | src/lib/numericInput.ts:46-66 | the rewriting of `s` computes the specified canonical value; null gives the empty text |
| NumericInputLaws.NormalizeIsCanonical | src/lib/numericInput.ts:46-66 | whatever is typed, the value has Latin digits, no extra leading zero, at most one point behind a digit, and no more decimals than the cap |
| NumericInputLaws.NormalizeIsIdempotent | src/lib/numericInput.ts:46-66 | normalising twice is normalising once |
| NumericInputLaws.NormalizeKeepsValue | src/lib/numericInput.ts:46-66 | the digits kept denote the number typed, in any script |
| NumericInputLaws.NormalizeKeepsPoint | src/lib/numericInput.ts:50-61 | the point stands where the first decimal mark was typed, up to the cap |
| NumericInputLaws.CapCutsOff | src/lib/numericInput.ts:50-61 | with a cap the value is the one without it, cut behind so many digits after its point |
| NumericInputLaws.CapKeepsValue | src/lib/numericInput.ts:46-66 | under a cap the digits kept denote the number typed, cut off at the last place kept |
| NumericInputLaws.AnyDecimalMark | src/lib/numericInput.ts:50-52 | a point, the Persian decimal separator and a slash between digits are the same mark |
| NumericInputLaws.NormalizeUndoesFormat | src/lib/numericInput.ts:46-81 | the canonical value is recovered from its rendering, Persian or Latin, grouped or not |
| NumericInputLaws.GroupsByThrees | src/lib/numericInput.ts:76-78 | the regular expression places separators by threes from the right, and none in front |
| NumericInputLaws.FieldShows | src/lib/numericInput.ts:72-81 | the field shows the whole part by threes, between Latin commas or Persian separators, and the point and decimals as they are |
| NumericInputLaws.FieldShowsZero | src/lib/numericInput.ts:72-81 | a value that begins with its point is shown with a zero in front |
| NumericInput.SignificantBefore | src/lib/numericInput.ts:89-93 | the loop counts the value-carrying characters before a caret, wherever it is |
| NumericInput.CaretAfterSignificant | src/lib/numericInput.ts:100-110 | the caret is put directly behind the k-th such character, or at the end |
| NumericInputLaws.CaretFollowsValue | src/lib/numericInput.ts:72-110 | in the rendering of a canonical value, the characters before the k-th caret are exactly the first k of the value, or all of it |
| NumericInputLaws.CarriedIsKept | src/lib/numericInput.ts:84-86 | the caret and the normaliser agree on which characters carry value, in every script |
| NumericInputLaws.KeystrokeKeepsCaretIff | src/lib/numericInput.ts:46-110 | one keystroke, for any text: behind the new caret stand as many characters of the value as were typed behind the old one, and the same ones exactly when the value begins with them |
| AmountDisplay.FixedOfTyped | src/domain/decimal.ts:113-122 | showing as many decimals as were typed shows the text that was typed |
| AmountDisplay.TypedLooksLikeStoredIff | src/lib/format.ts:26-58 | an amount reads the same while typed as when displayed through `toFixed(dp)` exactly when it was typed with dp decimals, and with no point for dp = 0 |
| AmountDisplay.MissingDecimalShows | src/lib/format.ts:26-58 | 12.5 typed does not read as 12.5 displayed with two decimals |
| AmountDisplay.NegativeIsDisplayed | src/lib/format.ts:26-58 | an amount below zero is displayed as the amount above it, behind a minus sign |
| SearchText.MatchesIffContains | src/lib/searchText.ts:26-28 | a text matches the pattern under LIKE if and only if the normalised query occurs in it, for all texts and queries, wildcards and backslashes included |
| SearchText.QueryIsClean | src/lib/searchText.ts:10-19 | a normalised query has one spelling of each letter and only single inner spaces |
| SearchColumns.QueriesAreAlike | src/lib/searchText.ts:4-19 | queries that differ in the spelling of letters, in joiners and direction marks, and in the script of digits are one query |
| SearchColumns.ColumnsAreAlike | src/lib/searchText.ts:21-23 | and so are columns, except for the script of digits |
| SearchColumns.ColumnFindsItselfIff | src/lib/searchText.ts:10-28 | a column is found by its own text if and only if, as lower-cased, it has no digit of another script and, without the white space around it, only single spaces |
| SearchColumns.ColumnFindsItselfByCharacterIff | src/lib/searchText.ts:10-28 | for a lower-casing by characters that leaves digits alone, the same condition on the column itself |
| SearchColumns.PersianNumberMissesItself | src/lib/searchText.ts:10-28 | a number in Persian digits is not found by its own text |
| SearchColumns.LatinNumberFindsItself | src/lib/searchText.ts:10-28 | one in Latin digits is |
| TenantState.TenantCache.ReadTenantState | src/lib/tenantState.ts:98-113 | a live cache answers at once; otherwise the caller joins the one load in flight or starts it |
| TenantState.TenantCache.VerifyMultiTenantLive | src/lib/tenantState.ts:61-71 | verifiers share one probe |
| TenantState.TenantCache.StoreLoaded | src/lib/tenantState.ts:103-112 | a finished load replaces the cache and frees its slot |
| TenantState.TenantCache.InvalidateTenantStateCache | src/lib/tenantState.ts:51-53 | invalidating drops the cached count and leaves the loads in flight alone |
| TenantStateLaws.AnswersAreFounded | src/lib/tenantState.ts:130-134 | in every run a multi-tenant answer comes from a verification probe that ended during the call, and a single-tenant answer from a count that was true when taken |
| TenantStateLaws.InvalidationWorksIff | src/lib/tenantState.ts:51-53 | after an invalidation nothing older is ever cached, in every run, if and only if no outdated count is in flight |
| TenantStateLaws.FreshAfterInvalidation | src/lib/tenantState.ts:51-113 | then every call begun since answers from the table as it was at the invalidation or later |
| TenantStateLaws.NoStaleSingleAnswer | src/lib/tenantState.ts:130-134 | so once several users are there to stay, no later call answers that there is at most one |
| TenantStateLaws.StaleProbeIsStored | src/lib/tenantState.ts:103-112 | otherwise the outdated count does reach the cache |
| TenantStateLaws.InvalidationCanMiss | src/lib/tenantState.ts:51-113 | such a state is reached from every start with at most one user, and a call begun after the invalidation is then answered from the count before the write |
| TenantStateLaws.CacheLastsAMinute | src/lib/tenantState.ts:98-113 | in every run, once a minute has passed without a load a new call waits for one |
| TenantStateLaws.LoadedCountAnswers | src/lib/tenantState.ts:98-134 | within the minute, a count of at most one that was just loaded answers at once |
| TenantStateLaws.FailedLoadKeepsCache | src/lib/tenantState.ts:103-113 | a load that fails frees its slot and leaves the cached count alone |

## Left out

- SQL, the object mapper, forms, sessions, encryption and revalidation: queries are filters over sequences and maps of rows, transactions are single steps.
- `postEntry`, `recordTransfer`, `recordSell` and the other ledger services: only what their callers and the unique indexes guarantee is used.
- The similar-entry warning of a confirmation: a refusal that may come or not; the balance capture has no effect on the protocol.
- One user's inbox and ledger are modelled, since every query filters by user; confirmations without an inbox row enter as entries with keys no message has.
- SHA-256 fingerprints are taken as collision free, and the application's and the database's clock as one clock that never goes back.
- Exponent notation and floating-point inputs to `parse`; more than 18 digits in `toFixed`, which is a range error.
- Dates are compared as ISO text; text is a sequence of Unicode scalars, not of UTF-16 units.
- The Redis connection, its timeouts and the production fallback: the counter script alone, with a counter gone once its expiry is not in the future.
- Writers other than the backfill working between its batches, and the wording of its blocker reasons.
- Lower-casing in search is a parameter, the same for the query and the column.
- Other text the tenant load returns (the single user's id and whether sign-in is enabled); its query and its continuation are single steps, and the user count is not capped at two.
- `naturalSign`, `presentBalance`, `sumToman`, `amountToWords` and `searchAmount`: short expressions without a law of their own.
- Calendar conversion, bidirectional display wrappers, pages and everything visual.
- InboxStore.Inbox.ConfirmBankImport: runs with nobody in between; interleavings are the transition system's, whose single statements the other methods of the class are.
- FifoReads.ManyReadsAreOneSale: assumes each query agrees with table order as far as its sale reaches, as TwoReadsAreOneSale does; the database promises no order among lots of one date, and SameSaleIff shows that a sale goes otherwise exactly when they disagree there.
- FifoReads.TwoReadsAreOneSale: the same assumption for the second sale.
- InboxStore.Inbox.ReceiveMessage: the checks of the connection, of the setup and of dates before the lookup; a ledger entry is taken never to carry the key of a message that was not stored.
