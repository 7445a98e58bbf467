/**
 * The event scheduler: pending cashbacks are applied lazily, oldest first,
 * whenever an operation catches the ledger up to its timestamp.
 * `CatchUp` is the value-level meaning of `process_cashbacks`; the lemmas
 * below state what a catch-up guarantees.
 */
module Scheduler {
  import opened Wrappers
  import opened Accounts
  import opened Cashbacks

  /** The state a catch-up reads and writes: active accounts, pending and completed cashbacks. */
  datatype Books = Books(accounts: map<string, AccountView>, pending: seq<Cashback>, completed: seq<Cashback>)

  /** Every pending cashback is owned by an active account, so applying it finds its owner. */
  predicate OwnersActive(b: Books)
  {
    forall c :: c in b.pending ==> c.owner in b.accounts
  }

  /** No balance is negative and no pending cashback would take money away. */
  predicate Solvent(b: Books)
  {
    && (forall x :: x in b.accounts ==> b.accounts[x].balance >= 0)
    && (forall c :: c in b.pending ==> c.amount >= 0)
  }

  /** Nothing pending is due at or before `t`. */
  predicate Settled(b: Books, t: int)
  {
    forall c :: c in b.pending ==> c.due > t
  }

  /**
   * One round of the catch-up loop: pop pending entry `i`, deposit its amount
   * into its owner with history key equal to its due time, append it to completed.
   */
  function Apply(b: Books, i: nat): (r: Books)
    requires OwnersActive(b) && i < |b.pending|
    ensures OwnersActive(r) && r.accounts.Keys == b.accounts.Keys
  {
    var c := b.pending[i];
    Books(b.accounts[c.owner := Deposited(b.accounts[c.owner], c.due, c.amount)],
          Remove(b.pending, i), b.completed + [c])
  }

  /** The least pending entry is due at or before `t`: the loop condition of `process_cashbacks`. */
  predicate DueAt(b: Books, t: int)
  {
    |b.pending| > 0 && b.pending[MinIndex(b.pending)].due <= t
  }

  /** `process_cashbacks(t)`: apply the least pending cashback for as long as it is due. */
  function CatchUp(b: Books, t: int): (r: Books)
    requires OwnersActive(b)
    ensures OwnersActive(r) && r.accounts.Keys == b.accounts.Keys
    decreases |b.pending|
  {
    if DueAt(b, t) then CatchUp(Apply(b, MinIndex(b.pending)), t) else b
  }

  /** The cashbacks a catch-up applies, in the order it applies them. */
  function Applied(b: Books, t: int): seq<Cashback>
    requires OwnersActive(b)
    decreases |b.pending|
  {
    if DueAt(b, t) then [b.pending[MinIndex(b.pending)]] + Applied(Apply(b, MinIndex(b.pending)), t) else []
  }

  /** When nothing is due, the least entry is already later than `t`, and so is every entry. */
  lemma NotDueMeansSettled(b: Books, t: int)
    requires !DueAt(b, t)
    ensures Settled(b, t)
  {
    if |b.pending| > 0 {
      var m := MinIndex(b.pending);
      MinIndexIsLeast(b.pending);
      forall c | c in b.pending ensures c.due > t {
        var k :| 0 <= k < |b.pending| && b.pending[k] == c;
        AtMostDue(b.pending[m], c);
      }
    }
  }

  /** After catch-up nothing pending is due at or before `t`. */
  lemma {:induction false} CatchUpSettles(b: Books, t: int)
    requires OwnersActive(b)
    ensures Settled(CatchUp(b, t), t)
    decreases |b.pending|
  {
    if DueAt(b, t) {
      CatchUpSettles(Apply(b, MinIndex(b.pending)), t);
    } else {
      NotDueMeansSettled(b, t);
    }
  }

  /** A settled state is left alone. */
  lemma SettledIsFixed(b: Books, t: int)
    requires OwnersActive(b) && Settled(b, t)
    ensures CatchUp(b, t) == b && Applied(b, t) == []
  {
    if |b.pending| > 0 {
      assert b.pending[MinIndex(b.pending)] in b.pending;
    }
  }

  /** Catching up twice at the same time is the same as once. */
  lemma CatchUpIdempotent(b: Books, t: int)
    requires OwnersActive(b)
    ensures OwnersActive(CatchUp(b, t))
    ensures CatchUp(CatchUp(b, t), t) == CatchUp(b, t)
  {
    CatchUpKeepsAccounts(b, t);
    CatchUpSettles(b, t);
    SettledIsFixed(CatchUp(b, t), t);
  }

  /** Catching up to t1 and then to a later t2 is the same as catching up to t2 at once. */
  lemma {:induction false} CatchUpComposes(b: Books, t1: int, t2: int)
    requires OwnersActive(b) && t1 <= t2
    ensures OwnersActive(CatchUp(b, t1))
    ensures CatchUp(CatchUp(b, t1), t2) == CatchUp(b, t2)
    decreases |b.pending|
  {
    CatchUpKeepsAccounts(b, t1);
    if DueAt(b, t1) {
      CatchUpComposes(Apply(b, MinIndex(b.pending)), t1, t2);
    }
  }

  /**
   * Catch-up keeps the set of active accounts, their creation times and
   * outgoing totals; history keys are only added; owners stay active.
   */
  lemma {:induction false} CatchUpKeepsAccounts(b: Books, t: int)
    requires OwnersActive(b)
    ensures OwnersActive(CatchUp(b, t))
    ensures CatchUp(b, t).accounts.Keys == b.accounts.Keys
    ensures forall x :: x in b.accounts ==>
      && CatchUp(b, t).accounts[x].creationTime == b.accounts[x].creationTime
      && CatchUp(b, t).accounts[x].totalOutgoing == b.accounts[x].totalOutgoing
      && b.accounts[x].history.Keys <= CatchUp(b, t).accounts[x].history.Keys
    decreases |b.pending|
  {
    if DueAt(b, t) {
      CatchUpKeepsAccounts(Apply(b, MinIndex(b.pending)), t);
    }
  }

  /**
   * The applied cashbacks are appended to completed, and together with the
   * entries left pending they are exactly the entries that were pending.
   */
  lemma CatchUpMovesEntries(b: Books, t: int)
    requires OwnersActive(b)
    ensures CatchUp(b, t).completed == b.completed + Applied(b, t)
    ensures multiset(b.pending) == multiset(CatchUp(b, t).pending) + multiset(Applied(b, t))
    ensures forall c :: c in Applied(b, t) ==> c.due <= t
  {
    CatchUpAppends(b, t);
    AppliedAreDue(b, t);
    CatchUpSplitsPending(b, t);
  }

  lemma {:induction false} CatchUpAppends(b: Books, t: int)
    requires OwnersActive(b)
    ensures CatchUp(b, t).completed == b.completed + Applied(b, t)
    decreases |b.pending|
  {
    if DueAt(b, t) {
      var i := MinIndex(b.pending);
      var m := b.pending[i];
      var b' := Apply(b, i);
      var a' := Applied(b', t);
      CatchUpAppends(b', t);
      assert b'.completed == b.completed + [m];
      assert CatchUp(b, t).completed == b'.completed + a';
      assert Applied(b, t) == [m] + a';
      assert (b.completed + [m]) + a' == b.completed + ([m] + a');
    }
  }

  lemma {:induction false} AppliedAreDue(b: Books, t: int)
    requires OwnersActive(b)
    ensures forall c :: c in Applied(b, t) ==> c.due <= t
    decreases |b.pending|
  {
    if DueAt(b, t) {
      var i := MinIndex(b.pending);
      var b' := Apply(b, i);
      AppliedAreDue(b', t);
      assert Applied(b, t) == [b.pending[i]] + Applied(b', t);
    }
  }

  lemma {:induction false} CatchUpSplitsPending(b: Books, t: int)
    requires OwnersActive(b)
    ensures multiset(b.pending) == multiset(CatchUp(b, t).pending) + multiset(Applied(b, t))
    decreases |b.pending|
  {
    if DueAt(b, t) {
      var i := MinIndex(b.pending);
      var m := b.pending[i];
      var b' := Apply(b, i);
      CatchUpSplitsPending(b', t);
      RemoveSplits(b.pending, i);
      assert Applied(b, t) == [m] + Applied(b', t);
      assert multiset(b.pending) == multiset(b'.pending) + multiset{m};
    }
  }

  /** An entry is pending or completed after catch-up exactly when it was before. */
  lemma CatchUpKeepsEntries(b: Books, t: int)
    requires OwnersActive(b)
    ensures forall c :: (c in CatchUp(b, t).pending || c in CatchUp(b, t).completed) <==>
                        (c in b.pending || c in b.completed)
    ensures |CatchUp(b, t).pending| + |CatchUp(b, t).completed| == |b.pending| + |b.completed|
  {
    CatchUpMovesEntries(b, t);
    var r := CatchUp(b, t);
    var a := Applied(b, t);
    assert |multiset(b.pending)| == |multiset(r.pending)| + |multiset(a)|;
    forall c ensures (c in r.pending || c in r.completed) <==> (c in b.pending || c in b.completed) {
      calc {
        c in r.pending || c in r.completed;
        c in multiset(r.pending) || c in b.completed || c in multiset(a);
        c in multiset(b.pending) || c in b.completed;
      }
    }
  }

  /** Each account gains exactly the applied cashbacks it owns. */
  lemma {:induction false} CatchUpCredits(b: Books, t: int)
    requires OwnersActive(b)
    ensures CatchUp(b, t).accounts.Keys == b.accounts.Keys
    ensures forall x :: x in b.accounts ==>
      CatchUp(b, t).accounts[x].balance == b.accounts[x].balance + AmountsOwned(Applied(b, t), x)
    decreases |b.pending|
  {
    CatchUpKeepsAccounts(b, t);
    if DueAt(b, t) {
      CatchUpCredits(Apply(b, MinIndex(b.pending)), t);
    }
  }

  /**
   * Each applied cashback leaves a history entry on its owner keyed by its
   * due time, and those due times are the only keys a catch-up adds: the
   * catch-up time `t` is never stamped on its own account.
   */
  lemma {:induction false} CatchUpStampsDueTimes(b: Books, t: int)
    requires OwnersActive(b)
    ensures forall c :: c in Applied(b, t) ==>
      c.owner in CatchUp(b, t).accounts && c.due in CatchUp(b, t).accounts[c.owner].history
    ensures forall x :: x in b.accounts ==>
      CatchUp(b, t).accounts[x].history.Keys == b.accounts[x].history.Keys + DueTimesOwned(Applied(b, t), x)
    decreases |b.pending|
  {
    if DueAt(b, t) {
      var m := b.pending[MinIndex(b.pending)];
      var b' := Apply(b, MinIndex(b.pending));
      CatchUpStampsDueTimes(b', t);
      CatchUpKeepsAccounts(b', t);
      assert Applied(b, t) == [m] + Applied(b', t);
      forall x | x in b.accounts
        ensures b'.accounts[x].history.Keys + DueTimesOwned(Applied(b', t), x)
             == b.accounts[x].history.Keys + DueTimesOwned(Applied(b, t), x)
      {
        DueTimesOwnedCons(m, Applied(b', t), x);
        if m.owner == x {
          assert b'.accounts[x].history.Keys == b.accounts[x].history.Keys + {m.due};
        } else {
          assert b'.accounts[x] == b.accounts[x];
        }
      }
    } else {
      forall x ensures DueTimesOwned(Applied(b, t), x) == {} {
      }
    }
  }

  /** The due times of the entries of `s` that `x` owns. */
  ghost function DueTimesOwned(s: seq<Cashback>, x: string): set<int>
  {
    set c | c in s && c.owner == x :: c.due
  }

  lemma DueTimesOwnedCons(m: Cashback, s: seq<Cashback>, x: string)
    ensures DueTimesOwned([m] + s, x) == (if m.owner == x then {m.due} else {}) + DueTimesOwned(s, x)
  {
  }

  /**
   * Oldest first: the applied cashbacks come out in heap order, and each of
   * them precedes every entry left pending.
   */
  lemma {:induction false} CatchUpOldestFirst(b: Books, t: int)
    requires OwnersActive(b)
    ensures forall i, j :: 0 <= i < j < |Applied(b, t)| ==> AtMost(Applied(b, t)[i], Applied(b, t)[j])
    ensures forall i, c :: 0 <= i < |Applied(b, t)| && c in CatchUp(b, t).pending ==> AtMost(Applied(b, t)[i], c)
    decreases |b.pending|
  {
    if DueAt(b, t) {
      var k := MinIndex(b.pending);
      var m := b.pending[k];
      var b' := Apply(b, k);
      CatchUpOldestFirst(b', t);
      LeastPrecedesTheRest(b, t);
      var a := Applied(b, t);
      assert a == [m] + Applied(b', t);
      assert CatchUp(b, t) == CatchUp(b', t);
      assert forall j :: 0 < j < |a| ==> a[j] == Applied(b', t)[j - 1];
    }
  }

  /** The entry a catch-up step pops precedes everything the rest of the catch-up sees. */
  lemma LeastPrecedesTheRest(b: Books, t: int)
    requires OwnersActive(b) && DueAt(b, t)
    ensures var b' := Apply(b, MinIndex(b.pending));
      forall c :: c in Applied(b', t) || c in CatchUp(b', t).pending ==> AtMost(b.pending[MinIndex(b.pending)], c)
  {
    var k := MinIndex(b.pending);
    var b' := Apply(b, k);
    MinIndexIsLeast(b.pending);
    CatchUpSplitsPending(b', t);
    forall c | c in Applied(b', t) || c in CatchUp(b', t).pending ensures AtMost(b.pending[k], c) {
      assert c in multiset(b'.pending);
      assert c in b.pending;
    }
  }

  /** Catch-up only moves money from pending cashbacks into balances. */
  lemma {:induction false} CatchUpConservesMoney(b: Books, t: int)
    requires OwnersActive(b)
    ensures TotalBalance(CatchUp(b, t).accounts) + Amounts(CatchUp(b, t).pending)
         == TotalBalance(b.accounts) + Amounts(b.pending)
    decreases |b.pending|
  {
    if DueAt(b, t) {
      var i := MinIndex(b.pending);
      var c := b.pending[i];
      CatchUpConservesMoney(Apply(b, i), t);
      TotalBalanceUpdate(b.accounts, c.owner, Deposited(b.accounts[c.owner], c.due, c.amount));
      AmountsRemove(b.pending, i);
    }
  }

  /** With non-negative cashbacks no balance goes down and solvency is kept. */
  lemma CatchUpKeepsSolvent(b: Books, t: int)
    requires OwnersActive(b) && Solvent(b)
    ensures Solvent(CatchUp(b, t))
    ensures CatchUp(b, t).accounts.Keys == b.accounts.Keys
    ensures forall x :: x in b.accounts ==> CatchUp(b, t).accounts[x].balance >= b.accounts[x].balance
  {
    CatchUpCredits(b, t);
    CatchUpMovesEntries(b, t);
    CatchUpKeepsAccounts(b, t);
    var a := Applied(b, t);
    forall c | c in a ensures c.amount >= 0 {
      assert c in multiset(b.pending);
    }
    forall x | x in b.accounts ensures CatchUp(b, t).accounts[x].balance >= b.accounts[x].balance {
      AmountsOwnedNonNegative(a, x);
    }
    forall c | c in CatchUp(b, t).pending ensures c.amount >= 0 {
      assert c in multiset(b.pending);
    }
  }

  datatype PaymentStatus = InProgress | CashbackReceived

  predicate Matches(c: Cashback, id: string, payment: string)
  {
    c.owner == id && c.paymentId == payment
  }

  /**
   * What `get_payment_status` reports once caught up: in progress if a
   * matching pending entry is not yet due, else received if a matching
   * entry was completed, else nothing.
   */
  function StatusOf(pending: seq<Cashback>, completed: seq<Cashback>, id: string, payment: string, t: int)
    : Option<PaymentStatus>
  {
    if exists i :: 0 <= i < |pending| && Matches(pending[i], id, payment) && pending[i].due > t then
      Some(InProgress)
    else if exists i :: 0 <= i < |completed| && Matches(completed[i], id, payment) then
      Some(CashbackReceived)
    else
      None
  }

  /**
   * The life of one payment's cashback: while the catch-up time is before its
   * due time it is in progress; from its due time on it has been received.
   */
  lemma CashbackTimeline(b: Books, c: Cashback, t: int)
    requires OwnersActive(b)
    requires c in b.pending
    requires forall d :: d in b.pending && Matches(d, c.owner, c.paymentId) ==> d == c
    requires forall d :: d in b.completed ==> !Matches(d, c.owner, c.paymentId)
    ensures StatusOf(CatchUp(b, t).pending, CatchUp(b, t).completed, c.owner, c.paymentId, t)
         == if t < c.due then Some(InProgress) else Some(CashbackReceived)
  {
    var r := CatchUp(b, t);
    CatchUpMovesEntries(b, t);
    CatchUpSettles(b, t);
    var a := Applied(b, t);
    assert c in multiset(r.pending) + multiset(a);
    if t < c.due {
      assert c !in multiset(a);
      assert c in r.pending;
      var i :| 0 <= i < |r.pending| && r.pending[i] == c;
      assert Matches(r.pending[i], c.owner, c.paymentId) && r.pending[i].due > t;
    } else {
      assert c !in r.pending;
      assert c in multiset(a);
      var i :| 0 <= i < |a| && a[i] == c;
      assert r.completed[|b.completed| + i] == c;
      NoOtherPendingMatch(b, r, a, c, t);
    }
  }

  lemma NoOtherPendingMatch(b: Books, r: Books, a: seq<Cashback>, c: Cashback, t: int)
    requires multiset(b.pending) == multiset(r.pending) + multiset(a)
    requires forall d :: d in b.pending && Matches(d, c.owner, c.paymentId) ==> d == c
    requires c !in r.pending
    ensures !exists i :: 0 <= i < |r.pending| && Matches(r.pending[i], c.owner, c.paymentId) && r.pending[i].due > t
  {
    forall i | 0 <= i < |r.pending| ensures !Matches(r.pending[i], c.owner, c.paymentId) {
      assert r.pending[i] in multiset(b.pending);
      assert r.pending[i] != c;
    }
  }

  /**
   * What `get_payment_status` reports after its own catch-up to `t`, read off
   * the entries before it: in progress if a matching pending entry is due
   * after `t`, else received if any matching entry exists, else nothing.
   */
  lemma StatusAfterCatchUp(b: Books, id: string, pid: string, t: int)
    requires OwnersActive(b)
    ensures StatusOf(CatchUp(b, t).pending, CatchUp(b, t).completed, id, pid, t)
         == if exists c :: c in b.pending && Matches(c, id, pid) && c.due > t then Some(InProgress)
            else if exists c :: (c in b.pending || c in b.completed) && Matches(c, id, pid) then Some(CashbackReceived)
            else None
  {
    CatchUpMovesEntries(b, t);
    CatchUpSettles(b, t);
    CatchUpKeepsEntries(b, t);
    StatusOfSettled(b.pending, b.completed, CatchUp(b, t), Applied(b, t), id, pid, t);
  }

  /** The status lookup on a settled split of the entries `pending` and `completed` held before. */
  lemma StatusOfSettled(pending: seq<Cashback>, completed: seq<Cashback>, r: Books, a: seq<Cashback>,
                        id: string, pid: string, t: int)
    requires multiset(pending) == multiset(r.pending) + multiset(a)
    requires forall c :: c in a ==> c.due <= t
    requires Settled(r, t)
    requires forall c :: (c in r.pending || c in r.completed) <==> (c in pending || c in completed)
    ensures StatusOf(r.pending, r.completed, id, pid, t)
         == if exists c :: c in pending && Matches(c, id, pid) && c.due > t then Some(InProgress)
            else if exists c :: (c in pending || c in completed) && Matches(c, id, pid) then Some(CashbackReceived)
            else None
  {
    if c :| c in pending && Matches(c, id, pid) && c.due > t {
      assert c in multiset(r.pending) + multiset(a);
      var i :| 0 <= i < |r.pending| && r.pending[i] == c;
      assert Matches(r.pending[i], id, pid) && r.pending[i].due > t;
    } else {
      forall i | 0 <= i < |r.pending| ensures !Matches(r.pending[i], id, pid) {
        assert r.pending[i] in multiset(pending);
      }
      if c :| (c in pending || c in completed) && Matches(c, id, pid) {
        var i :| 0 <= i < |r.completed| && r.completed[i] == c;
        assert Matches(r.completed[i], id, pid);
      } else {
        forall i | 0 <= i < |r.completed| ensures !Matches(r.completed[i], id, pid) {
          assert r.completed[i] in r.completed;
        }
      }
    }
  }
}
