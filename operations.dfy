/**
 * The ledger's state-changing operations at the level of values: what
 * `deposit`, `transfer`, `pay` and `merge_accounts` do to the active
 * accounts and the two cashback lists. The ledger class's methods are proved
 * to produce exactly these states; the lemmas here say what they guarantee.
 */
module Operations {
  import opened Wrappers
  import opened Strings
  import opened Accounts
  import opened Cashbacks
  import opened Scheduler

  /** `deposit(t, id, amount)` on an active id: catch up to `t`, then deposit. */
  function DepositInto(b: Books, id: string, t: int, amount: int): (r: Books)
    requires OwnersActive(b) && id in b.accounts
    ensures OwnersActive(r) && r.accounts.Keys == b.accounts.Keys
  {
    CatchUpKeepsAccounts(b, t);
    var c := CatchUp(b, t);
    c.(accounts := c.accounts[id := Deposited(c.accounts[id], t, amount)])
  }

  /**
   * A successful `transfer(t, src, dst, amount)`: catch up to `t`, deposit
   * into `dst`, then withdraw from `src`, both recorded at `t`.
   */
  function TransferBetween(b: Books, src: string, dst: string, t: int, amount: int): (r: Books)
    requires OwnersActive(b) && src in b.accounts && dst in b.accounts
    ensures OwnersActive(r) && r.accounts.Keys == b.accounts.Keys
  {
    CatchUpKeepsAccounts(b, t);
    var c := CatchUp(b, t);
    var m := c.accounts[dst := Deposited(c.accounts[dst], t, amount)];
    c.(accounts := m[src := Withdrawn(m[src], t, amount)])
  }

  /** The cashback `pay(t, id, amount)` schedules under payment id `pid`. */
  function ScheduledCashback(id: string, t: int, amount: int, pid: string): (c: Cashback)
    ensures c.due - t == CashbackDelay && c.owner == id && c.paymentId == pid
    ensures 50 * c.amount <= amount < 50 * c.amount + 50
  {
    Cashback(t + CashbackDelay, id, pid, CashbackAmount(amount))
  }

  /**
   * A successful `pay(t, id, amount)` (the funds check is made on the
   * caught-up state): withdraw at `t` and schedule the 2% cashback a day later.
   */
  function PayFrom(b: Books, id: string, t: int, amount: int, pid: string): (r: Books)
    requires OwnersActive(b) && id in b.accounts
    ensures OwnersActive(r) && r.accounts.Keys == b.accounts.Keys
  {
    CatchUpKeepsAccounts(b, t);
    var c := CatchUp(b, t);
    Books(c.accounts[id := Withdrawn(c.accounts[id], t, amount)],
          c.pending + [ScheduledCashback(id, t, amount, pid)], c.completed)
  }

  /** Account `a` after absorbing `bv`: its balance deposited at `t`, its outgoing total added. */
  function Absorbed(av: AccountView, bv: AccountView, t: int): AccountView
  {
    Deposited(av, t, bv.balance).(totalOutgoing := av.totalOutgoing + bv.totalOutgoing)
  }

  /**
   * A successful `merge_accounts(t, a, b)`: `a` absorbs `b`, every cashback
   * of `b` (pending or completed) is re-targeted to `a`, and `b` stops being
   * active. There is no catch-up.
   */
  function MergeInto(b: Books, a: string, gone: string, t: int): (r: Books)
    requires OwnersActive(b) && a != gone && a in b.accounts && gone in b.accounts
    ensures OwnersActive(r) && r.accounts.Keys == b.accounts.Keys - {gone}
  {
    RetargetMovesOwnership(b.pending, a, gone);
    var r := Books(b.accounts[a := Absorbed(b.accounts[a], b.accounts[gone], t)] - {gone},
                   Retarget(b.pending, a, gone), Retarget(b.completed, a, gone));
    forall c | c in r.pending ensures c.owner in r.accounts {
      var i :| 0 <= i < |r.pending| && r.pending[i] == c;
      assert b.pending[i] in b.pending;
    }
    r
  }

  /** The money in the ledger: balances plus cashbacks still to be paid. */
  ghost function Money(b: Books): int
  {
    TotalBalance(b.accounts) + Amounts(b.pending)
  }

  lemma DepositAddsMoney(b: Books, id: string, t: int, amount: int)
    requires OwnersActive(b) && id in b.accounts
    ensures Money(DepositInto(b, id, t, amount)) == Money(b) + amount
  {
    CatchUpConservesMoney(b, t);
    CatchUpKeepsAccounts(b, t);
    var c := CatchUp(b, t);
    TotalBalanceUpdate(c.accounts, id, Deposited(c.accounts[id], t, amount));
  }

  /** A transfer between two distinct accounts neither creates nor destroys money. */
  lemma TransferConservesMoney(b: Books, src: string, dst: string, t: int, amount: int)
    requires OwnersActive(b) && src in b.accounts && dst in b.accounts
    ensures Money(TransferBetween(b, src, dst, t, amount)) == Money(b)
  {
    CatchUpConservesMoney(b, t);
    CatchUpKeepsAccounts(b, t);
    var c := CatchUp(b, t);
    var m := c.accounts[dst := Deposited(c.accounts[dst], t, amount)];
    TotalBalanceUpdate(c.accounts, dst, Deposited(c.accounts[dst], t, amount));
    TotalBalanceUpdate(m, src, Withdrawn(m[src], t, amount));
  }

  /** A payment takes `amount` out of the ledger and promises back its cashback. */
  lemma PayMovesMoney(b: Books, id: string, t: int, amount: int, pid: string)
    requires OwnersActive(b) && id in b.accounts
    ensures Money(PayFrom(b, id, t, amount, pid)) == Money(b) - amount + CashbackAmount(amount)
  {
    CatchUpConservesMoney(b, t);
    CatchUpKeepsAccounts(b, t);
    var c := CatchUp(b, t);
    TotalBalanceUpdate(c.accounts, id, Withdrawn(c.accounts[id], t, amount));
    AmountsAppend(c.pending, ScheduledCashback(id, t, amount, pid), id);
  }

  /**
   * A merge moves money between accounts and cashback owners but keeps the
   * total, and in particular the sum of the active balances.
   */
  lemma MergeConservesMoney(b: Books, a: string, gone: string, t: int)
    requires OwnersActive(b) && a != gone && a in b.accounts && gone in b.accounts
    ensures Money(MergeInto(b, a, gone, t)) == Money(b)
    ensures TotalBalance(MergeInto(b, a, gone, t).accounts) == TotalBalance(b.accounts)
  {
    var m := b.accounts[a := Absorbed(b.accounts[a], b.accounts[gone], t)];
    TotalBalanceUpdate(b.accounts, a, m[a]);
    TotalBalanceRemove(m, gone);
    RetargetAmounts(b.pending, a, gone);
  }

  /** The absorbing account carries both balances and both outgoing totals. */
  lemma MergeCombinesAccounts(b: Books, a: string, gone: string, t: int)
    requires OwnersActive(b) && a != gone && a in b.accounts && gone in b.accounts
    ensures var r := MergeInto(b, a, gone, t);
      && r.accounts[a].balance == b.accounts[a].balance + b.accounts[gone].balance
      && r.accounts[a].totalOutgoing == b.accounts[a].totalOutgoing + b.accounts[gone].totalOutgoing
      && r.accounts[a].history == b.accounts[a].history[t := r.accounts[a].balance]
      && forall x :: x in r.accounts && x != a ==> r.accounts[x] == b.accounts[x]
  {
  }

  /** A deposit of a non-negative amount keeps every balance and pending cashback non-negative. */
  lemma DepositKeepsSolvent(b: Books, id: string, t: int, amount: int)
    requires OwnersActive(b) && id in b.accounts && Solvent(b) && amount >= 0
    ensures Solvent(DepositInto(b, id, t, amount))
  {
    CatchUpKeepsSolvent(b, t);
  }

  /**
   * Checking the funds before catching up is enough: catch-up never lowers
   * a balance, so the withdrawal cannot overdraw.
   */
  lemma TransferKeepsSolvent(b: Books, src: string, dst: string, t: int, amount: int)
    requires OwnersActive(b) && src in b.accounts && dst in b.accounts && src != dst
    requires Solvent(b) && 0 <= amount <= b.accounts[src].balance
    ensures Solvent(TransferBetween(b, src, dst, t, amount))
  {
    CatchUpKeepsSolvent(b, t);
  }

  /** A payment the caught-up balance covers keeps the ledger solvent. */
  lemma PayKeepsSolvent(b: Books, id: string, t: int, amount: int, pid: string)
    requires OwnersActive(b) && id in b.accounts && Solvent(b) && amount >= 0
    requires id in CatchUp(b, t).accounts && amount <= CatchUp(b, t).accounts[id].balance
    ensures Solvent(PayFrom(b, id, t, amount, pid))
  {
    CatchUpKeepsSolvent(b, t);
  }

  lemma MergeKeepsSolvent(b: Books, a: string, gone: string, t: int)
    requires OwnersActive(b) && a != gone && a in b.accounts && gone in b.accounts && Solvent(b)
    ensures Solvent(MergeInto(b, a, gone, t))
  {
    var r := MergeInto(b, a, gone, t);
    RetargetMovesOwnership(b.pending, a, gone);
    forall c | c in r.pending ensures c.amount >= 0 {
      var i :| 0 <= i < |r.pending| && r.pending[i] == c;
      assert b.pending[i] in b.pending;
    }
  }

  /**
   * The cashback timing promise: once `pid` is paid from `id` at `t`, a
   * status query at `t'` (which catches up to `t'`) reports it in progress
   * before `t + CashbackDelay` and received from then on.
   */
  lemma PayThenStatus(b: Books, id: string, t: int, amount: int, pid: string, t': int)
    requires OwnersActive(b) && id in b.accounts
    requires forall c :: c in b.pending || c in b.completed ==> c.paymentId != pid
    ensures var r := PayFrom(b, id, t, amount, pid);
      StatusOf(CatchUp(r, t').pending, CatchUp(r, t').completed, id, pid, t')
        == if t' < t + CashbackDelay then Some(InProgress) else Some(CashbackReceived)
  {
    var r := PayFrom(b, id, t, amount, pid);
    var cb := ScheduledCashback(id, t, amount, pid);
    CatchUpKeepsEntries(b, t);
    var c := CatchUp(b, t);
    assert r.pending == c.pending + [cb];
    assert forall d :: d in c.pending || d in c.completed ==> d.paymentId != pid;
    assert forall d :: d in r.pending && Matches(d, id, pid) ==> d == cb;
    CashbackTimeline(r, cb, t');
  }

  /**
   * After `a` absorbs `gone`, a payment of `gone` is reported under `a`
   * exactly as it was reported under `gone`, and nothing is left under `gone`.
   */
  lemma MergeRedirectsStatus(b: Books, a: string, gone: string, t: int, pid: string, t': int)
    requires OwnersActive(b) && a != gone && a in b.accounts && gone in b.accounts
    requires forall c :: c in b.pending || c in b.completed ==> !Matches(c, a, pid)
    ensures var r := MergeInto(b, a, gone, t);
      && StatusOf(r.pending, r.completed, a, pid, t') == StatusOf(b.pending, b.completed, gone, pid, t')
      && StatusOf(r.pending, r.completed, gone, pid, t') == None
  {
    var r := MergeInto(b, a, gone, t);
    RetargetMovesOwnership(b.pending, a, gone);
    RetargetMovesOwnership(b.completed, a, gone);
    RedirectedMatches(b.pending, a, gone, pid);
    RedirectedMatches(b.completed, a, gone, pid);
  }

  /**
   * The merge-then-query scenario: a `get_payment_status` at any later `t'`
   * (which catches up first) reports a payment of `gone` under `a` exactly as
   * it would have reported it under `gone` without the merge, and reports
   * nothing under `gone`.
   */
  lemma MergeThenStatus(b: Books, a: string, gone: string, t: int, pid: string, t': int)
    requires OwnersActive(b) && a != gone && a in b.accounts && gone in b.accounts
    requires forall c :: c in b.pending || c in b.completed ==> !Matches(c, a, pid)
    ensures var r := CatchUp(MergeInto(b, a, gone, t), t');
      && StatusOf(r.pending, r.completed, a, pid, t')
           == StatusOf(CatchUp(b, t').pending, CatchUp(b, t').completed, gone, pid, t')
      && StatusOf(r.pending, r.completed, gone, pid, t') == None
  {
    var m := MergeInto(b, a, gone, t);
    StatusAfterCatchUp(m, a, pid, t');
    StatusAfterCatchUp(m, gone, pid, t');
    StatusAfterCatchUp(b, gone, pid, t');
    RedirectedExists(b.pending, a, gone, pid, t');
    RedirectedExists(b.completed, a, gone, pid, t');
  }

  /** Re-targeting turns the matches of `(gone, pid)` into matches of `(a, pid)` with the same due times. */
  lemma RedirectedExists(s: seq<Cashback>, a: string, gone: string, pid: string, t: int)
    requires a != gone
    requires forall c :: c in s ==> !Matches(c, a, pid)
    ensures (exists c :: c in Retarget(s, a, gone) && Matches(c, a, pid) && c.due > t)
        <==> (exists c :: c in s && Matches(c, gone, pid) && c.due > t)
    ensures (exists c :: c in Retarget(s, a, gone) && Matches(c, a, pid))
        <==> (exists c :: c in s && Matches(c, gone, pid))
    ensures forall c :: c in Retarget(s, a, gone) ==> !Matches(c, gone, pid)
  {
    var r := Retarget(s, a, gone);
    RedirectedMatches(s, a, gone, pid);
    if c :| c in r && Matches(c, a, pid) {
      var i :| 0 <= i < |r| && r[i] == c;
      assert s[i] in s;
    }
    if c :| c in s && Matches(c, gone, pid) {
      var i :| 0 <= i < |s| && s[i] == c;
      assert r[i] in r;
    }
    if c :| c in r && Matches(c, a, pid) && c.due > t {
      var i :| 0 <= i < |r| && r[i] == c;
      assert s[i] in s;
    }
    if c :| c in s && Matches(c, gone, pid) && c.due > t {
      var i :| 0 <= i < |s| && s[i] == c;
      assert r[i] in r;
    }
    forall c | c in r ensures !Matches(c, gone, pid) {
      var i :| 0 <= i < |r| && r[i] == c;
    }
  }

  /** Index by index, re-targeted entries match `(a, pid)` exactly where the originals matched `(gone, pid)`. */
  lemma RedirectedMatches(s: seq<Cashback>, a: string, gone: string, pid: string)
    requires a != gone
    requires forall c :: c in s ==> !Matches(c, a, pid)
    ensures |Retarget(s, a, gone)| == |s|
    ensures forall i :: 0 <= i < |s| ==>
      && (Matches(Retarget(s, a, gone)[i], a, pid) <==> Matches(s[i], gone, pid))
      && !Matches(Retarget(s, a, gone)[i], gone, pid)
      && Retarget(s, a, gone)[i].due == s[i].due
  {
    RetargetMovesOwnership(s, a, gone);
    forall i | 0 <= i < |s|
      ensures Matches(Retarget(s, a, gone)[i], a, pid) <==> Matches(s[i], gone, pid)
    {
      assert s[i] in s;
    }
  }
}
