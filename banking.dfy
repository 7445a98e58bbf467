/**
 * The ledger, `BankingSystemImpl`: active accounts by id, accounts absorbed
 * by merges, the withdrawal counter that names payments, and the pending and
 * completed cashback lists. Every method that reads or changes balances
 * first catches the ledger up (except where the ledger itself does not);
 * each method's result and new state are stated through the value-level
 * operations of the Scheduler and Operations modules.
 */
module Banking {
  import opened Wrappers
  import opened Strings
  import opened Accounts
  import opened Cashbacks
  import opened Scheduler
  import opened Ranking
  import opened Operations

  /**
   * An entry of `merged_accounts`: the absorbed account, frozen as of the
   * merge (nothing changes it afterwards), and the merge time.
   */
  datatype MergeRecord = MergeRecord(account: AccountView, time: int)

  /** `p` is one of the payment ids handed out before the counter reached `n`. */
  predicate IssuedBefore(p: string, n: nat)
  {
    exists k :: 1 <= k < n && p == PaymentId(k)
  }

  /** The id the counter hands out next has not been handed out before. */
  lemma FreshPaymentId(p: string, n: nat)
    requires IssuedBefore(p, n)
    ensures p != PaymentId(n)
  {
    var k :| 1 <= k < n && p == PaymentId(k);
    if p == PaymentId(n) {
      PaymentIdInjective(k, n);
    }
  }

  /**
   * The two scans of `get_payment_status`: the pending list for a match not
   * yet due, then the completed list for any match.
   */
  method FindStatus(pending: seq<Cashback>, completed: seq<Cashback>, id: string, payment: string, t: int)
    returns (r: Option<PaymentStatus>)
    ensures r == StatusOf(pending, completed, id, payment, t)
  {
    for i := 0 to |pending|
      invariant forall j :: 0 <= j < i ==> !(Matches(pending[j], id, payment) && pending[j].due > t)
    {
      var c := pending[i];
      if id == c.owner && payment == c.paymentId {
        if c.due > t {
          return Some(InProgress);
        }
      }
    }
    for i := 0 to |completed|
      invariant forall j :: 0 <= j < i ==> !Matches(completed[j], id, payment)
    {
      var c := completed[i];
      if id == c.owner && payment == c.paymentId {
        return Some(CashbackReceived);
      }
    }
    return None;
  }

  class BankingSystemImpl {
    var accounts: map<string, Account>
    var merged: map<string, MergeRecord>
    var numWithdraws: nat
    var pending: seq<Cashback>
    var completed: seq<Cashback>

    /** The active accounts as values. */
    function Active(): map<string, AccountView>
      reads this`accounts, accounts.Values
    {
      map x | x in accounts :: accounts[x].View()
    }

    /** What a catch-up reads and writes. */
    function Ledger(): Books
      reads this`accounts, this`pending, this`completed, accounts.Values
    {
      Books(Active(), pending, completed)
    }

    /** Each active account is stored under its own id, with its creation time in its history. */
    ghost predicate Stored()
      reads this`accounts, accounts.Values
    {
      forall x :: x in accounts ==> accounts[x].id == x && accounts[x].Valid()
    }

    /** Every absorbed account has its creation time in its history. */
    ghost predicate MergedValid()
      reads this`merged
    {
      forall x :: x in merged ==> merged[x].account.creationTime in merged[x].account.history
    }

    /** Every recorded payment id was handed out by the counter. */
    ghost predicate Issued()
      reads this`pending, this`completed, this`numWithdraws
    {
      && numWithdraws >= 1
      && (forall c :: c in pending || c in completed ==> IssuedBefore(c.paymentId, numWithdraws))
    }

    /**
     * The ledger's invariant: the three parts above, and every pending
     * cashback belongs to an active account (so a catch-up never looks up a
     * missing id).
     */
    ghost predicate Valid()
      reads this`accounts, this`merged, this`pending, this`completed, this`numWithdraws, accounts.Values
    {
      Stored() && MergedValid() && Issued() && OwnersActive(Ledger())
    }

    /**
     * After a step that changed only the account stored under `id`, the
     * active values changed only at `id` and every account is still stored
     * under its own id with its creation time in its history.
     */
    twostate lemma OneAccountChanged(id: string)
      requires old(Valid()) && accounts == old(accounts) && id in accounts && accounts[id].Valid()
      requires forall x :: x in accounts && x != id ==> unchanged(accounts[x])
      ensures Active() == old(Active())[id := accounts[id].View()]
      ensures Stored()
    {
    }

    constructor ()
      ensures Valid()
      ensures accounts == map[] && merged == map[] && numWithdraws == 1
      ensures pending == [] && completed == []
    {
      accounts := map[];
      merged := map[];
      numWithdraws := 1;
      pending := [];
      completed := [];
    }

    /** Creates an account unless the id is active; an absorbed id can be created again. */
    method CreateAccount(timestamp: int, id: string) returns (created: bool)
      requires Valid()
      modifies this`accounts
      ensures Valid()
      ensures created <==> id !in old(accounts)
      ensures created ==> id in accounts && fresh(accounts[id]) && accounts == old(accounts)[id := accounts[id]]
      ensures created ==> Active() == old(Active())[id := AccountView(timestamp, 0, 0, map[timestamp := 0])]
      ensures !created ==> accounts == old(accounts) && Ledger() == old(Ledger())
    {
      if id in accounts {
        return false;
      }
      var account := new Account(timestamp, id, 0, 0);
      accounts := accounts[id := account];
      return true;
    }

    /**
     * `process_cashbacks`: while the least pending cashback is due, pop it,
     * deposit it into its owner at its due time and append it to completed.
     */
    method ProcessCashbacks(timestamp: int)
      requires Valid()
      modifies this`pending, this`completed, accounts.Values
      ensures Valid()
      ensures Ledger() == CatchUp(old(Ledger()), timestamp)
    {
      while |pending| > 0 && pending[MinIndex(pending)].due <= timestamp
        invariant Valid()
        invariant CatchUp(Ledger(), timestamp) == CatchUp(old(Ledger()), timestamp)
        decreases |pending|
      {
        ApplyLeast();
      }
      NotDueMeansSettled(Ledger(), timestamp);
      SettledIsFixed(Ledger(), timestamp);
    }

    /** One round of the catch-up loop: pop the least pending cashback and apply it. */
    method ApplyLeast()
      requires Valid() && |pending| > 0
      modifies this`pending, this`completed, accounts.Values
      ensures Valid()
      ensures Ledger() == Apply(old(Ledger()), MinIndex(old(pending)))
    {
      var i := MinIndex(pending);
      var c := pending[i];
      pending := Remove(pending, i);
      var owner := accounts[c.owner];
      var _ := owner.Deposit(c.due, c.amount);
      completed := completed + [c];
      OneAccountChanged(c.owner);
    }

    /** Deposits into the active account `id` at `t`, without a catch-up. */
    method Credit(id: string, t: int, amount: int) returns (balance: int)
      requires Valid() && id in accounts
      modifies accounts[id]
      ensures Valid()
      ensures Active() == old(Active())[id := Deposited(old(Active())[id], t, amount)]
      ensures balance == Active()[id].balance
    {
      balance := accounts[id].Deposit(t, amount);
      OneAccountChanged(id);
    }

    /** Withdraws from the active account `id` at `t`, without a catch-up or a funds check. */
    method Debit(id: string, t: int, amount: int) returns (balance: int)
      requires Valid() && id in accounts
      modifies accounts[id]
      ensures Valid()
      ensures Active() == old(Active())[id := Withdrawn(old(Active())[id], t, amount)]
      ensures balance == Active()[id].balance
    {
      balance := accounts[id].Withdraw(t, amount);
      OneAccountChanged(id);
    }

    /** Deposits into an active account after catching up; an unknown id changes nothing. */
    method Deposit(timestamp: int, id: string, amount: int) returns (r: Option<int>)
      requires Valid()
      modifies this`pending, this`completed, accounts.Values
      ensures Valid()
      ensures id !in accounts ==> r == None && Ledger() == old(Ledger())
      ensures id in accounts ==>
        && Ledger() == DepositInto(old(Ledger()), id, timestamp, amount)
        && r == Some(Active()[id].balance)
      ensures old(Solvent(Ledger())) && amount >= 0 ==> Solvent(Ledger())
    {
      if id !in accounts {
        return None;
      }
      ProcessCashbacks(timestamp);
      var balance := Credit(id, timestamp, amount);
      if old(Solvent(Ledger())) && amount >= 0 {
        DepositKeepsSolvent(old(Ledger()), id, timestamp, amount);
      }
      return Some(balance);
    }

    /**
     * Moves `amount` from `src` to `dst`. The funds check reads the balance
     * before the catch-up; a failed check changes nothing.
     */
    method Transfer(timestamp: int, src: string, dst: string, amount: int) returns (r: Option<int>)
      requires Valid()
      modifies this`pending, this`completed, accounts.Values
      ensures Valid()
      ensures r.Some? <==>
        src in accounts && dst in accounts && src != dst && old(Active())[src].balance >= amount
      ensures r.None? ==> Ledger() == old(Ledger())
      ensures r.Some? ==>
        && Ledger() == TransferBetween(old(Ledger()), src, dst, timestamp, amount)
        && r.value == Active()[src].balance
      ensures old(Solvent(Ledger())) && amount >= 0 ==> Solvent(Ledger())
    {
      if src !in accounts || dst !in accounts {
        return None;
      }
      if src == dst {
        return None;
      }
      if accounts[src].balance < amount {
        return None;
      }
      ProcessCashbacks(timestamp);
      var _ := Credit(dst, timestamp, amount);
      var balance := Debit(src, timestamp, amount);
      if old(Solvent(Ledger())) && amount >= 0 {
        TransferKeepsSolvent(old(Ledger()), src, dst, timestamp, amount);
      }
      return Some(balance);
    }

    /**
     * Pays `amount` from `id` after catching up (the funds check sees the
     * caught-up balance), names the payment after the withdrawal counter and
     * schedules its 2% cashback one day later.
     */
    method Pay(timestamp: int, id: string, amount: int) returns (r: Option<string>)
      requires Valid()
      modifies this`pending, this`completed, this`numWithdraws, accounts.Values
      ensures Valid()
      ensures id !in accounts ==> r == None && Ledger() == old(Ledger()) && numWithdraws == old(numWithdraws)
      ensures id in accounts && CatchUp(old(Ledger()), timestamp).accounts[id].balance < amount ==>
        r == None && Ledger() == CatchUp(old(Ledger()), timestamp) && numWithdraws == old(numWithdraws)
      ensures id in accounts && CatchUp(old(Ledger()), timestamp).accounts[id].balance >= amount ==>
        && r == Some(PaymentId(old(numWithdraws)))
        && Ledger() == PayFrom(old(Ledger()), id, timestamp, amount, r.value)
        && numWithdraws == old(numWithdraws) + 1
      ensures r.Some? ==> forall c :: c in old(pending) || c in old(completed) ==> c.paymentId != r.value
      ensures old(Solvent(Ledger())) && amount >= 0 ==> Solvent(Ledger())
    {
      if id !in accounts {
        return None;
      }
      ProcessCashbacks(timestamp);
      CatchUpKeepsEntries(old(Ledger()), timestamp);
      r := Charge(timestamp, id, amount);
      if r.Some? && old(Solvent(Ledger())) && amount >= 0 {
        PayKeepsSolvent(old(Ledger()), id, timestamp, amount, r.value);
      }
      if r.None? && old(Solvent(Ledger())) {
        CatchUpKeepsSolvent(old(Ledger()), timestamp);
      }
    }

    /**
     * What `pay` does once caught up: the funds check, then the withdrawal
     * and the cashback scheduled under the counter's next payment id.
     */
    method Charge(timestamp: int, id: string, amount: int) returns (r: Option<string>)
      requires Valid() && id in accounts
      modifies this`pending, this`numWithdraws, accounts[id]
      ensures Valid()
      ensures old(Active())[id].balance < amount ==>
        r == None && Ledger() == old(Ledger()) && numWithdraws == old(numWithdraws)
      ensures old(Active())[id].balance >= amount ==>
        && r == Some(PaymentId(old(numWithdraws)))
        && numWithdraws == old(numWithdraws) + 1
        && Ledger() == Books(old(Active())[id := Withdrawn(old(Active())[id], timestamp, amount)],
                             old(pending) + [ScheduledCashback(id, timestamp, amount, r.value)], completed)
      ensures r.Some? ==> forall c :: c in old(pending) || c in old(completed) ==> c.paymentId != r.value
    {
      if accounts[id].balance < amount {
        return None;
      }
      var _ := Debit(id, timestamp, amount);
      ghost var debited := Ledger();
      var paymentId := "payment" + DecimalString(numWithdraws);
      assert paymentId == PaymentId(numWithdraws);
      var cashback := Cashback(timestamp + 86400000, id, paymentId, CashbackAmount(amount));
      assert cashback == ScheduledCashback(id, timestamp, amount, paymentId);
      Schedule(cashback);
      assert Ledger() == debited.(pending := debited.pending + [cashback]);
      assert forall c :: c in old(pending) || c in old(completed) ==> c.paymentId != paymentId by {
        forall c | c in old(pending) || c in old(completed) ensures c.paymentId != paymentId {
          FreshPaymentId(c.paymentId, old(numWithdraws));
        }
      }
      return Some(paymentId);
    }

    /** `heappush` of a new cashback named by the counter, which then moves on. */
    method Schedule(c: Cashback)
      requires Valid() && c.owner in accounts && c.paymentId == PaymentId(numWithdraws)
      modifies this`pending, this`numWithdraws
      ensures Valid()
      ensures pending == old(pending) + [c] && numWithdraws == old(numWithdraws) + 1
      ensures Ledger() == old(Ledger()).(pending := old(pending) + [c])
    {
      pending := pending + [c];
      numWithdraws := numWithdraws + 1;
    }

    /**
     * After catching up, reports a matching pending cashback not yet due as in
     * progress, else a matching completed one as received, else nothing. An
     * unknown id reports nothing and changes nothing.
     */
    method GetPaymentStatus(timestamp: int, id: string, payment: string) returns (r: Option<PaymentStatus>)
      requires Valid()
      modifies this`pending, this`completed, accounts.Values
      ensures Valid()
      ensures id !in accounts ==> r == None && Ledger() == old(Ledger())
      ensures id in accounts ==>
        && Ledger() == CatchUp(old(Ledger()), timestamp)
        && r == StatusOf(pending, completed, id, payment, timestamp)
    {
      if id !in accounts {
        return None;
      }
      ProcessCashbacks(timestamp);
      r := FindStatus(pending, completed, id, payment, timestamp);
    }

    /** Re-targets every pending and completed cashback of `gone` to `a`, position by position. */
    method MergeCashbacks(timestamp: int, a: string, gone: string)
      modifies this`pending, this`completed
      ensures pending == Retarget(old(pending), a, gone)
      ensures completed == Retarget(old(completed), a, gone)
    {
      RetargetAt(pending, a, gone);
      RetargetAt(completed, a, gone);
      for i := 0 to |pending|
        invariant completed == old(completed)
        invariant |pending| == |old(pending)|
        invariant forall j :: 0 <= j < i ==> pending[j] == Reowned(old(pending)[j], a, gone)
        invariant forall j :: i <= j < |pending| ==> pending[j] == old(pending)[j]
      {
        var c := pending[i];
        if c.owner == gone {
          pending := pending[i := Cashback(c.due, a, c.paymentId, c.amount)];
        }
      }
      assert pending == Retarget(old(pending), a, gone);
      for i := 0 to |completed|
        invariant pending == Retarget(old(pending), a, gone)
        invariant |completed| == |old(completed)|
        invariant forall j :: 0 <= j < i ==> completed[j] == Reowned(old(completed)[j], a, gone)
        invariant forall j :: i <= j < |completed| ==> completed[j] == old(completed)[j]
      {
        var c := completed[i];
        if c.owner == gone {
          completed := completed[i := Cashback(c.due, a, c.paymentId, c.amount)];
        }
      }
      assert completed == Retarget(old(completed), a, gone);
    }

    /**
     * `a` absorbs `gone`: its balance (recorded at `timestamp`) and its
     * outgoing total, and its cashbacks; `gone` is retired with the merge
     * time. Fails without change on equal or unknown ids. There is no catch-up.
     */
    method MergeAccounts(timestamp: int, a: string, gone: string) returns (ok: bool)
      requires Valid()
      modifies this`accounts, this`merged, this`pending, this`completed, accounts.Values
      ensures Valid()
      ensures ok <==> a != gone && a in old(accounts) && gone in old(accounts)
      ensures !ok ==> Ledger() == old(Ledger()) && accounts == old(accounts) && merged == old(merged)
      ensures ok ==>
        && Ledger() == MergeInto(old(Ledger()), a, gone, timestamp)
        && accounts == old(accounts) - {gone}
        && merged == old(merged)[gone := MergeRecord(old(Active())[gone], timestamp)]
      ensures old(Solvent(Ledger())) ==> Solvent(Ledger())
    {
      if a == gone {
        return false;
      }
      if a !in accounts || gone !in accounts {
        return false;
      }
      ghost var before := Ledger();
      var record := MergeRecord(accounts[gone].View(), timestamp);
      Absorb(a, gone, timestamp);
      assert Ledger() == before.(accounts := before.accounts[a := Absorbed(before.accounts[a], before.accounts[gone], timestamp)]);
      Redirect(timestamp, a, gone);
      Retire(gone, record);
      if Solvent(before) {
        MergeKeepsSolvent(before, a, gone, timestamp);
      }
      return true;
    }

    /** MergeCashbacks, keeping the invariant: afterwards `gone` owns no cashback. */
    method Redirect(timestamp: int, a: string, gone: string)
      requires Valid() && a in accounts && gone in accounts && a != gone
      modifies this`pending, this`completed
      ensures Valid()
      ensures Ledger() == old(Ledger()).(pending := Retarget(old(pending), a, gone),
                                          completed := Retarget(old(completed), a, gone))
      ensures forall c :: c in pending ==> c.owner != gone
    {
      MergeCashbacks(timestamp, a, gone);
      RetargetMovesOwnership(old(pending), a, gone);
      RetargetMembers(old(pending), a, gone);
      RetargetMembers(old(completed), a, gone);
    }

    /** `account1.deposit(t, account2.balance)` and the outgoing totals added, on the objects. */
    method Absorb(a: string, gone: string, t: int)
      requires Valid() && a in accounts && gone in accounts && a != gone
      modifies accounts[a]
      ensures Valid()
      ensures Active() == old(Active())[a := Absorbed(old(Active())[a], old(Active())[gone], t)]
    {
      var absorbing := accounts[a];
      var absorbed := accounts[gone];
      var _ := absorbing.Deposit(t, absorbed.balance);
      absorbing.totalOutgoing := absorbing.totalOutgoing + absorbed.totalOutgoing;
      OneAccountChanged(a);
    }

    /**
     * Moves `gone` from the active accounts to the merged ones, once its
     * cashbacks have been re-targeted away from it.
     */
    method Retire(gone: string, record: MergeRecord)
      requires Valid() && gone in accounts && record.account.creationTime in record.account.history
      requires forall c :: c in pending ==> c.owner != gone
      modifies this`accounts, this`merged
      ensures Valid()
      ensures accounts == old(accounts) - {gone} && merged == old(merged)[gone := record]
      ensures Ledger() == old(Ledger()).(accounts := old(Active()) - {gone})
    {
      merged := merged[gone := record];
      accounts := accounts - {gone};
    }

    /**
     * The balance of `id` at `timeAt`: an active account, or an absorbed one
     * merged after `timeAt`, created at or before `timeAt`. The ledger is
     * caught up to `timeAt`, then the history's floor entry is read.
     */
    method GetBalance(timestamp: int, id: string, timeAt: int) returns (r: Option<int>)
      requires Valid()
      modifies this`pending, this`completed, accounts.Values
      ensures Valid()
      ensures id in accounts ==>
        if accounts[id].creationTime <= timeAt then
          && Ledger() == CatchUp(old(Ledger()), timeAt)
          && r.Some? && r == BalanceAt(Active()[id].history, timeAt)
        else
          r == None && Ledger() == old(Ledger())
      ensures id !in accounts && id in merged ==>
        if merged[id].time > timeAt && merged[id].account.creationTime <= timeAt then
          && Ledger() == CatchUp(old(Ledger()), timeAt)
          && r.Some? && r == BalanceAt(merged[id].account.history, timeAt)
        else
          r == None && Ledger() == old(Ledger())
      ensures id !in accounts && id !in merged ==> r == None && Ledger() == old(Ledger())
    {
      var creationTime: int;
      if id in accounts {
        creationTime := accounts[id].creationTime;
      } else if id in merged {
        var record := merged[id];
        if record.time <= timeAt {
          return None;
        }
        creationTime := record.account.creationTime;
      } else {
        return None;
      }
      if creationTime > timeAt {
        return None;
      }
      ProcessCashbacks(timeAt);
      var history := if id in accounts then accounts[id].history else merged[id].account.history;
      var greatest := FloorKey(history, timeAt);
      assert creationTime in history;
      return Some(history[greatest.value]);
    }

    /** The outgoing totals of the active accounts. */
    function Totals(): (m: map<string, int>)
      reads this`accounts, accounts.Values
      ensures m.Keys == accounts.Keys
      ensures forall x :: x in m ==> m[x] == accounts[x].totalOutgoing
    {
      map x | x in accounts :: accounts[x].totalOutgoing
    }

    /**
     * `top_spenders(timestamp, n)`: the ranking of the active accounts cut
     * with `[:n]`, each rendered as `id(total)`. No catch-up.
     */
    function TopSpenders(timestamp: int, n: int): (r: seq<string>)
      reads this`accounts, accounts.Values
      ensures |r| == SliceLength(|accounts|, n)
      ensures forall i :: 0 <= i < |r| ==> r[i] == Label(Ranking.TopSpenders(Totals(), n)[i])
    {
      var ranked := Ranking.TopSpenders(Totals(), n);
      assert |Totals()| == |accounts| by {
        assert Totals().Keys == accounts.Keys;
      }
      seq(|ranked|, i requires 0 <= i < |ranked| => Label(ranked[i]))
    }
  }
}
