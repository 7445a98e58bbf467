# Banking ledger with delayed cashbacks, in Dafny

This project models `BankingSystemImpl`, an in-memory banking ledger, and
its `Account` record. It proves what each operation does to the ledger.

An account holds three things:

- a balance;
- a running outgoing total;
- a balance history, mapping each mutation timestamp to the balance after that mutation.

The ledger holds five things:

- the active accounts by id;
- the accounts absorbed by merges, each with its merge time;
- a withdrawal counter that names payments (`"payment1"`, `"payment2"`, …);
- a min-heap of pending cashbacks, each a tuple `(due, owner, payment id, amount)`;
- a list of completed cashbacks.

A payment schedules a 2% cashback (rounded down) that falls due 24 hours
(86 400 000 ms) later. Cashbacks are applied lazily. Most operations first
"catch up" the ledger to their timestamp: they pop every due cashback in heap
order and deposit it into its owner, with the history entry keyed by the
cashback's due time.

Layout, module by module:

- `Wrappers` (wrappers.dfy): `Option`, used for Python's `None` results.
- `Strings` (strings.dfy): Python's code-point order on `str`, `str(n)` for integers, and payment ids.
- `Accounts` (accounts.dfy):
  - the `Account` class (`deposit`, `withdraw`);
  - its value view `AccountView`;
  - the floor lookup in a balance history;
  - the key scan that `get_balance` uses to find it;
  - the sum of balances.
- `Cashbacks` (cashbacks.dfy):
  - the cashback record and its tuple order;
  - `heappop`'s choice of entry (`MinIndex`);
  - sums of amounts;
  - re-targeting entries from one owner to another (`Retarget`).
- `Scheduler` (scheduler.dfy):
  - `CatchUp`, the value-level meaning of `process_cashbacks`, and its lemmas;
  - `StatusOf`, the value-level meaning of `get_payment_status`.
- `Operations` (operations.dfy): the value-level effect of `deposit`, `transfer`, `pay` and `merge_accounts`, with money-conservation, solvency and status lemmas.
- `Ranking` (ranking.dfy): `top_spenders` as a pure function, with its ordering and uniqueness lemmas.
- `Banking` (banking.dfy):
  - the ledger class `BankingSystemImpl`, whose methods change its fields and the account objects in place;
  - each method's new state is proved equal to the value-level operation of `Scheduler` or `Operations` applied to the old state.
- `MergeAsWritten` (merge_as_written.dfy): `merge_cashbacks` exactly as written, with Python's `heapq.heapify`, used for the findings below.

The ledger's invariant `Valid()` states four things:

- each active account is stored under its own id;
- every account, active or merged, has its creation time in its history;
- every pending cashback belongs to an active account;
- every recorded payment id was issued by the counter.

Money is never validated by the ledger, so balances can go negative.
Solvency (no negative balance, no negative pending cashback) is therefore
stated conditionally: each operation keeps it when the amount is
non-negative.

Where the specification and the code disagree, the model follows the code:

- `create_account` only checks the active accounts. An id absorbed by a merge can therefore be created again (`starter_code/banking_system_impl.py:52`).
- `deposit` and `get_payment_status` return `None` for an unknown id without catching up.
- `merge_accounts` never catches up.
- `transfer` checks the funds before catching up; `pay` checks them after.
- `get_balance` catches up to `time_at`, not to `timestamp`, and does so even when the id belongs to a merged account.
- The withdrawal counter starts at 1, so the first payment is `"payment1"`.

## Model

| member | source | states |
|---|---|---|
| Accounts.Account.constructor | starter_code/banking_system_impl.py:6-16 | A new account has the given creation time, balance and outgoing total, and its history is exactly `{timestamp: balance}`, so the creation time is a history key |
| Accounts.Account.Deposit | starter_code/banking_system_impl.py:19-24 | The balance rises by `amount`, `history[t]` becomes the new balance (overwriting an entry at `t`), the outgoing total is unchanged, and the new balance is returned |
| Accounts.Account.Withdraw | starter_code/banking_system_impl.py:27-34 | The balance falls by `amount`, `history[t]` becomes the new balance, the outgoing total rises by `amount`, and the new balance is returned |
| Accounts.WithdrawUndoesDeposit | starter_code/banking_system_impl.py:19-34 | A withdrawal after a deposit of the same amount at the same time restores the balance; only the history entry at `t` and the outgoing total remember it |
| Accounts.MutationObservedAtItsTime | starter_code/banking_system_impl.py:19-34 | A floor lookup at the exact time of a deposit or withdrawal reads the balance that mutation produced, whatever else the history holds |
| Accounts.FloorKeyUnique | starter_code/banking_system_impl.py:226-232 | Only one key can be the greatest history key at most `time_at` |
| Accounts.FloorKeyExists | starter_code/banking_system_impl.py:14 | A history with some key at most `time_at` (such as the creation time) has a greatest such key, so the final dictionary read cannot fail |
| Accounts.BalanceAtFloor | starter_code/banking_system_impl.py:226-235 | Once the greatest key at most `time_at` is found, the lookup reads the balance stored under it |
| Accounts.FloorKey | starter_code/banking_system_impl.py:226-232 | The key scan finds a key exactly when some key is at most `time_at`; the key found is the greatest such key, and the balance under it is the floor lookup's |
| Accounts.TotalBalanceUpdate | starter_code/banking_system_impl.py:188-197 | Replacing one account changes the sum of balances by the difference of its balances |
| Strings.StrLessTransitive | starter_code/banking_system_impl.py:92-94 | Python's string order, used for id tie-breaks and for heap tuples, is transitive |
| Strings.StrLessTotal | starter_code/banking_system_impl.py:92-94 | Of two different strings, one is less than the other |
| Strings.StrLessAsymmetric | starter_code/banking_system_impl.py:92-94 | Two strings are never each less than the other |
| Strings.DecimalStringInjective | starter_code/banking_system_impl.py:115 | Different counter values render as different digit strings |
| Strings.PaymentIdInjective | starter_code/banking_system_impl.py:115 | Different counter values give different payment ids |
| Strings.PaymentIdOrderIsLexicographic | starter_code/banking_system_impl.py:119 | Heap ties are broken by string order on payment ids, so `"payment10"` sorts before `"payment2"` |
| Cashbacks.CashbackAmount | starter_code/banking_system_impl.py:119 | The cashback `r` satisfies `50*r <= amount < 50*r + 50`: it is `floor(amount * 0.02)` for every integer amount |
| Cashbacks.BeforeTransitive | starter_code/banking_system_impl.py:119 | The heap's tuple order (due, owner, payment id, amount) is transitive |
| Cashbacks.BeforeTotal | starter_code/banking_system_impl.py:119 | Any two different cashback tuples are ordered one way or the other |
| Cashbacks.MinIndexIsLeast | starter_code/banking_system_impl.py:127-129 | The entry `heappop` returns is at most every pending entry in tuple order |
| Cashbacks.RemoveSplits | starter_code/banking_system_impl.py:129 | Popping an entry removes exactly one copy of it and nothing else |
| Cashbacks.RetargetMovesOwnership | starter_code/banking_system_impl.py:158-176 | After re-targeting, the list has the same length, no entry belongs to the absorbed account, and each entry keeps its due time, payment id and amount; its owner becomes the absorbing account if it was the absorbed one and is otherwise unchanged |
| Cashbacks.RetargetAmounts | starter_code/banking_system_impl.py:158-176 | Re-targeting keeps the total amount; the absorbing account's share becomes the sum of both shares and the absorbed account's share becomes 0 |
| Cashbacks.RetargetMembers | starter_code/banking_system_impl.py:158-176 | Every re-targeted entry is an original entry, with its owner moved if it was the absorbed account |
| Scheduler.Apply | starter_code/banking_system_impl.py:129-132 | Applying one popped cashback keeps every pending owner active and keeps the set of active ids |
| Scheduler.CatchUp | starter_code/banking_system_impl.py:125-132 | A catch-up keeps every pending owner active and keeps the set of active ids |
| Scheduler.NotDueMeansSettled | starter_code/banking_system_impl.py:127 | When the least pending entry is later than `t`, every pending entry is later than `t` |
| Scheduler.CatchUpSettles | starter_code/banking_system_impl.py:125-132 | After `process_cashbacks(t)`, no pending cashback is due at or before `t` |
| Scheduler.SettledIsFixed | starter_code/banking_system_impl.py:127 | A catch-up with nothing due changes nothing and applies nothing |
| Scheduler.CatchUpIdempotent | starter_code/banking_system_impl.py:125-132 | A second `process_cashbacks(t)` right after the first changes nothing |
| Scheduler.CatchUpComposes | starter_code/banking_system_impl.py:125-132 | Catching up to `t1` and then to a later `t2` is the same as catching up to `t2` |
| Scheduler.CatchUpKeepsAccounts | starter_code/banking_system_impl.py:125-132 | A catch-up keeps the active ids, creation times and outgoing totals, and only adds history keys |
| Scheduler.CatchUpMovesEntries | starter_code/banking_system_impl.py:125-132 | The applied cashbacks are appended to completed in the order applied; together with those left pending they are exactly the entries that were pending; each was due at or before `t` |
| Scheduler.CatchUpKeepsEntries | starter_code/banking_system_impl.py:125-132 | An entry is pending or completed after a catch-up exactly when it was before, and the pending plus completed count is unchanged |
| Scheduler.CatchUpCredits | starter_code/banking_system_impl.py:130 | Each account's balance rises by exactly the applied cashbacks it owns |
| Scheduler.CatchUpStampsDueTimes | starter_code/banking_system_impl.py:130 | Each applied cashback leaves a history key on its owner equal to its due time, and each account's history keys become exactly its old keys plus the due times of the applied cashbacks it owns, so the catch-up time itself is never stamped |
| Scheduler.CatchUpOldestFirst | starter_code/banking_system_impl.py:127-129 | Cashbacks are applied in tuple order, and each applied one precedes every entry left pending |
| Scheduler.CatchUpConservesMoney | starter_code/banking_system_impl.py:125-132 | Balances plus pending amounts are the same before and after a catch-up |
| Scheduler.CatchUpKeepsSolvent | starter_code/banking_system_impl.py:125-132 | With no negative balance and no negative pending cashback, a catch-up lowers no balance and keeps both properties |
| Scheduler.CashbackTimeline | starter_code/banking_system_impl.py:134-156 | A payment's only cashback is reported in progress by a status query at any time before its due time, and received from its due time on |
| Scheduler.StatusAfterCatchUp | starter_code/banking_system_impl.py:134-156 | After its catch-up to `t`, a status query reports in progress exactly when some matching entry pending before was due after `t`; otherwise received exactly when some matching entry, pending or completed, existed; otherwise nothing |
| Operations.DepositInto | starter_code/banking_system_impl.py:60-69 | A deposit on an active id keeps every pending owner active and keeps the set of active ids |
| Operations.TransferBetween | starter_code/banking_system_impl.py:71-86 | A successful transfer keeps every pending owner active and keeps the set of active ids |
| Operations.ScheduledCashback | starter_code/banking_system_impl.py:119 | The scheduled cashback is due exactly 86 400 000 ms after the payment, belongs to the payer, carries the payment id, and its amount is the payment's 2% rounded down |
| Operations.PayFrom | starter_code/banking_system_impl.py:100-123 | A successful payment keeps every pending owner active and keeps the set of active ids |
| Operations.MergeInto | starter_code/banking_system_impl.py:179-200 | A merge keeps every pending owner active and removes exactly the absorbed id from the active ids |
| Operations.DepositAddsMoney | starter_code/banking_system_impl.py:60-69 | A deposit adds exactly `amount` to the ledger's money (balances plus pending cashbacks) |
| Operations.TransferConservesMoney | starter_code/banking_system_impl.py:71-86 | A transfer keeps the ledger's money unchanged: the target gains exactly what the source loses |
| Operations.PayMovesMoney | starter_code/banking_system_impl.py:100-123 | A payment takes `amount` out of the ledger and adds its cashback to what is pending |
| Operations.MergeConservesMoney | starter_code/banking_system_impl.py:179-200 | A merge keeps the ledger's money (balances plus pending cashbacks), and it keeps the sum of the active balances on its own |
| Operations.MergeCombinesAccounts | starter_code/banking_system_impl.py:188-192 | The absorbing account's balance and outgoing total become the sums of both accounts'; its history gains the new balance at the merge time; every other active account is unchanged |
| Operations.DepositKeepsSolvent | starter_code/banking_system_impl.py:60-69 | A non-negative deposit keeps the ledger solvent |
| Operations.TransferKeepsSolvent | starter_code/banking_system_impl.py:79-85 | A funds check made before the catch-up is still enough: a covered transfer cannot overdraw, because a catch-up never lowers a balance |
| Operations.PayKeepsSolvent | starter_code/banking_system_impl.py:106-113 | A payment that the caught-up balance covers keeps the ledger solvent |
| Operations.MergeKeepsSolvent | starter_code/banking_system_impl.py:179-200 | A merge keeps the ledger solvent |
| Operations.PayThenStatus | starter_code/banking_system_impl.py:100-156 | After a payment at `t`, a status query at `t'` reports in progress if `t' < t + 86400000` and received otherwise |
| Operations.MergeRedirectsStatus | starter_code/banking_system_impl.py:158-176 | On the lists a merge leaves, before any catch-up, the absorbing account reports each of the absorbed account's payments exactly as the absorbed account reported it, and the absorbed id reports nothing |
| Operations.MergeThenStatus | starter_code/banking_system_impl.py:134-200 | After a merge, a status query at any `t'` (which catches up first) reports each payment of the absorbed account under the absorbing id exactly as it would have been reported under the absorbed id without the merge, and reports nothing under the absorbed id |
| Operations.RedirectedExists | starter_code/banking_system_impl.py:158-176 | A re-targeted list has an entry matching the absorbing account (due after `t`) exactly when the original had one matching the absorbed account (due after `t`), and none matching the absorbed account |
| Operations.RedirectedMatches | starter_code/banking_system_impl.py:158-176 | Index by index, a re-targeted entry matches the absorbing account exactly where the original matched the absorbed one, and keeps its due time |
| Ranking.RanksBeforeTransitive | starter_code/banking_system_impl.py:90-95 | The sort key `(-total_outgoing, id)` orders transitively |
| Ranking.FirstUnique | starter_code/banking_system_impl.py:90-95 | At most one account ranks before all others |
| Ranking.RankedListsExactly | starter_code/banking_system_impl.py:90-95 | The sorted list has each active account exactly once, with its outgoing total |
| Ranking.RankedIsStrictlyRanked | starter_code/banking_system_impl.py:90-95 | The sorted list is strictly decreasing by outgoing total, with ties in ascending id order |
| Ranking.RankingIsUnique | starter_code/banking_system_impl.py:90-95 | Any strictly ranked listing of the accounts is the sorted list, so the result does not depend on dictionary order |
| Ranking.TopSpenders | starter_code/banking_system_impl.py:88-98 | The result has the `[:n]` length and is strictly ranked; each entry is an active account with its outgoing total; every account left out ranks after every entry |
| Banking.FreshPaymentId | starter_code/banking_system_impl.py:115-122 | An id issued before the counter reached `n` differs from the id the counter hands out now |
| Banking.FindStatus | starter_code/banking_system_impl.py:139-156 | The two scans report exactly the status `StatusOf` defines: in progress on a matching pending entry not yet due, else received on a matching completed entry, else nothing |
| Banking.BankingSystemImpl.constructor | starter_code/banking_system_impl.py:37-48 | A new ledger is valid, with no accounts, no merges, no cashbacks and the counter at 1 |
| Banking.BankingSystemImpl.CreateAccount | starter_code/banking_system_impl.py:50-58 | Succeeds exactly when the id is not active, even if it was merged away; on success only that id is added, as a fresh account with balance 0 and history `{timestamp: 0}`; on failure nothing changes |
| Banking.BankingSystemImpl.ProcessCashbacks | starter_code/banking_system_impl.py:125-132 | The loop keeps the invariant and leaves the ledger equal to `CatchUp` of the old ledger |
| Banking.BankingSystemImpl.ApplyLeast | starter_code/banking_system_impl.py:129-132 | One round pops the least pending cashback, deposits it into its owner at its due time, and appends it to completed |
| Banking.BankingSystemImpl.Credit | starter_code/banking_system_impl.py:65 | Deposits into one active account and changes no other account |
| Banking.BankingSystemImpl.Debit | starter_code/banking_system_impl.py:113 | Withdraws from one active account and changes no other account |
| Banking.BankingSystemImpl.Deposit | starter_code/banking_system_impl.py:60-69 | An unknown id returns `None` with no change and no catch-up; otherwise the ledger becomes `DepositInto` of the old one and the new balance is returned; solvency is kept for non-negative amounts |
| Banking.BankingSystemImpl.Transfer | starter_code/banking_system_impl.py:71-86 | Succeeds exactly when both ids are active, they differ and the source's balance before the catch-up covers `amount`; failure changes nothing; success gives `TransferBetween` of the old ledger and returns the source's new balance; solvency is kept |
| Banking.BankingSystemImpl.Pay | starter_code/banking_system_impl.py:100-123 | An unknown id changes nothing. If the caught-up balance is short, only the catch-up happens and the counter is unchanged. Otherwise the result is `payment<k>` for the old counter `k`, the counter rises by 1, the ledger becomes `PayFrom` of the old one, and the new id was never used before. Solvency is kept |
| Banking.BankingSystemImpl.Charge | starter_code/banking_system_impl.py:108-123 | After the catch-up: a short balance changes nothing; otherwise one withdrawal, one new pending entry `ScheduledCashback(...)` and the counter up by one, with an id that is fresh |
| Banking.BankingSystemImpl.Schedule | starter_code/banking_system_impl.py:119-122 | `heappush` then the counter increment: pending gains exactly the new entry and the invariant is kept |
| Banking.BankingSystemImpl.GetPaymentStatus | starter_code/banking_system_impl.py:134-156 | An unknown id returns `None` with no change and no catch-up; otherwise the ledger is caught up and the result is `StatusOf` the caught-up lists |
| Banking.BankingSystemImpl.MergeCashbacks | starter_code/banking_system_impl.py:158-176 | Both lists become their re-targeted versions, position by position |
| Banking.BankingSystemImpl.Redirect | starter_code/banking_system_impl.py:195 | Re-targeting keeps the invariant, and afterwards the absorbed account owns no pending cashback |
| Banking.BankingSystemImpl.Absorb | starter_code/banking_system_impl.py:188-192 | The absorbing account gains the other's balance (recorded at the merge time) and outgoing total; no other account changes |
| Banking.BankingSystemImpl.Retire | starter_code/banking_system_impl.py:196-197 | The absorbed id leaves the active accounts and is recorded with its merge time |
| Banking.BankingSystemImpl.MergeAccounts | starter_code/banking_system_impl.py:179-200 | Succeeds exactly when the ids differ and both are active; failure changes nothing; success gives `MergeInto` of the old ledger, removes the absorbed id, and records the absorbed account as it was with the merge time; solvency is kept |
| Banking.BankingSystemImpl.GetBalance | starter_code/banking_system_impl.py:202-235 | Returns `None` with no change when the id was never active or merged, was merged at or before `time_at`, or was created after `time_at`; otherwise the ledger is caught up to `time_at` and the floor lookup of the account's history at `time_at` is returned |
| Banking.BankingSystemImpl.TopSpenders | starter_code/banking_system_impl.py:88-98 | Has the `[:n]` length of the active accounts, and entry `i` is the `id(total)` label of the `i`-th ranked account |
| MergeAsWritten.MergeList | starter_code/banking_system_impl.py:160-166 | The as-written loop computes `MergeLoop`: each entry of the absorbed account at the current index is re-targeted, then the whole list is heapified |
| MergeAsWritten.HeapifyInLoopKeepsOwner | starter_code/banking_system_impl.py:160-166 | Two pending cashbacks of `b` due together: merging `b` into `z` leaves one of them owned by `b` |
| MergeAsWritten.RetargetClearsOwner | starter_code/banking_system_impl.py:158-176 | On the same input, the intended re-targeting leaves `b` owning nothing |
| MergeAsWritten.MixedKindsRaise | starter_code/banking_system_impl.py:170-176 | On two completed cashbacks stored as lists, re-targeting one writes a tuple, and `heapify` then compares a tuple with a list and raises |

## Left out

- The `BankingSystem` base class (line 1) is not part of this model; its methods are modelled directly on `BankingSystemImpl`.
- `math.floor(amount * 0.02)` is modelled in integers as `(amount * 2) / 100`, which is the floor for every integer amount. Floating-point rounding on very large amounts is not modelled.
- The array layout of the pending heap is not modelled. Pending cashbacks are a sequence, and `heappop` takes the least entry in tuple order. The reordering that `heapify` causes in the completed list changes only order, never membership, and is not modelled in the ledger class. It is modelled in `MergeAsWritten`.
- The ledger class uses the corrected `merge_cashbacks`, which re-targets every entry and never raises. The as-written behaviour is in `MergeAsWritten` and under Findings.
- Banking.BankingSystemImpl.MergeAccounts: stores a snapshot of the absorbed account's value instead of the object. Nothing can change that object after the merge, so nothing observable is lost.
- Payment statuses are the datatype `PaymentStatus` (`InProgress`, `CashbackReceived`), not the strings `"IN_PROGRESS"` and `"CASHBACK_RECEIVED"`.
- Banking.BankingSystemImpl.TopSpenders: the `timestamp` parameter is unused, as in the source. Labels are rendered with `Ranking.Label`, which uses Python's `str` of an integer.
- Python raises `KeyError` when `process_cashbacks` meets a pending cashback whose owner is not active. The corrected merge never produces such an entry, and the invariant `Valid()` rules it out, so this error path is not modelled.
- Balances are unbounded integers, as in Python.

## Findings

| source | as written | input that shows it | evidently intended | confidence | as-written member | corrected member |
|---|---|---|---|---|---|---|
| starter_code/banking_system_impl.py:160-166 | `heapq.heapify` runs inside the `enumerate` loop over the live heap, so re-targeting can move another entry of the absorbed account to an index the loop has already passed | pending `[(86400000, "b", "payment1", 2), (86400000, "b", "payment2", 4)]`, `merge_accounts(t, "z", "b")`: the result is `[(…, "b", "payment2", 4), (…, "z", "payment1", 2)]`; `b` is then retired, and the next `process_cashbacks` past the due time raises `KeyError` | every entry of the absorbed account is re-targeted to the absorbing one | high (not executed) | MergeAsWritten.HeapifyInLoopKeepsOwner | Cashbacks.RetargetMovesOwnership |
| starter_code/banking_system_impl.py:170-176 | completed cashbacks are appended as lists (line 131) but re-targeted entries are written back as tuples, and `heapify` then compares a tuple with a list | completed `[[86400000, "b", "payment1", 2], [86400000, "c", "payment2", 4]]` (as lists), `merge_accounts(t, "z", "b")`: `heapify` compares `(…, "z", …) < [… "c" …]` and raises `TypeError`, after `z` has already absorbed `b`'s balance | the completed entries are re-targeted in place and the merge completes | high (not executed) | MergeAsWritten.MixedKindsRaise | Banking.BankingSystemImpl.MergeCashbacks |
