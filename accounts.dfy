/**
 * One bank account: its current balance, the running total of money that
 * left it, and a history mapping each mutation timestamp to the balance
 * after that mutation (a later write at the same timestamp overwrites).
 */
module Accounts {
  import opened Wrappers

  /** The value of an account's mutable state, as seen by specifications. */
  datatype AccountView = AccountView(creationTime: int, balance: int, totalOutgoing: int, history: map<int, int>)

  /** What `Account.deposit(t, amount)` does to an account. */
  function Deposited(a: AccountView, t: int, amount: int): AccountView
  {
    a.(balance := a.balance + amount, history := a.history[t := a.balance + amount])
  }

  /** What `Account.withdraw(t, amount)` does to an account. */
  function Withdrawn(a: AccountView, t: int, amount: int): AccountView
  {
    a.(balance := a.balance - amount, history := a.history[t := a.balance - amount],
       totalOutgoing := a.totalOutgoing + amount)
  }

  /** `k` is the greatest key of `h` that is at most `timeAt`: the key a floor lookup reads. */
  predicate IsFloorKey(h: map<int, int>, timeAt: int, k: int)
  {
    k in h && k <= timeAt && forall j :: j in h && j <= timeAt ==> j <= k
  }

  /** The floor key is unique. */
  lemma FloorKeyUnique(h: map<int, int>, timeAt: int, k: int, k': int)
    requires IsFloorKey(h, timeAt, k) && IsFloorKey(h, timeAt, k')
    ensures k == k'
  {
  }

  /** The balance a floor lookup at `timeAt` reads, or nothing when every key is later. */
  ghost function BalanceAt(h: map<int, int>, timeAt: int): Option<int>
  {
    if exists k :: IsFloorKey(h, timeAt, k) then
      var k :| IsFloorKey(h, timeAt, k);
      Some(h[k])
    else
      None
  }

  /** Whichever way the floor key is found, the lookup reads its balance. */
  lemma BalanceAtFloor(h: map<int, int>, timeAt: int, k: int)
    requires IsFloorKey(h, timeAt, k)
    ensures BalanceAt(h, timeAt) == Some(h[k])
  {
    var k' :| IsFloorKey(h, timeAt, k') && BalanceAt(h, timeAt) == Some(h[k']);
    FloorKeyUnique(h, timeAt, k, k');
  }

  /** A non-empty key set has a key to visit next. */
  lemma SomeKey(keys: set<int>)
    requires keys != {}
    ensures exists k :: k in keys
  {
    if forall k :: k !in keys {
      assert false;
    }
  }

  /**
   * The key scan of `get_balance`: the greatest history key at most
   * `timeAt`, or nothing when every key is later.
   */
  method FloorKey(h: map<int, int>, timeAt: int) returns (greatest: Option<int>)
    ensures greatest.Some? <==> exists k :: k in h && k <= timeAt
    ensures greatest.Some? ==> IsFloorKey(h, timeAt, greatest.value)
    ensures greatest.Some? ==> BalanceAt(h, timeAt) == Some(h[greatest.value])
  {
    greatest := None;
    var keys := h.Keys;
    while keys != {}
      invariant keys <= h.Keys
      invariant greatest.None? ==> forall k :: k in h && k !in keys ==> k > timeAt
      invariant greatest.Some? ==> greatest.value in h && greatest.value <= timeAt
      invariant greatest.Some? ==> forall k :: k in h && k !in keys && k <= timeAt ==> k <= greatest.value
      decreases keys
    {
      SomeKey(keys);
      var key :| key in keys;
      if key <= timeAt {
        if greatest.None? || greatest.value <= key {
          greatest := Some(key);
        }
      }
      keys := keys - {key};
    }
    if greatest.Some? {
      BalanceAtFloor(h, timeAt, greatest.value);
    }
  }

  /** A history with some key at most `timeAt` has a floor key at `timeAt`. */
  lemma {:induction false} FloorKeyExists(h: map<int, int>, timeAt: int, k0: int)
    requires k0 in h && k0 <= timeAt
    ensures exists k :: IsFloorKey(h, timeAt, k)
    decreases |h|
  {
    if exists j :: j in h && k0 < j <= timeAt {
      var j :| j in h && k0 < j <= timeAt;
      var rest := h - {k0};
      FloorKeyExists(rest, timeAt, j);
      var k :| IsFloorKey(rest, timeAt, k);
      assert j in rest;
      forall i | i in h && i <= timeAt ensures i <= k {
        if i != k0 {
          assert i in rest;
        }
      }
      assert IsFloorKey(h, timeAt, k);
    } else {
      assert IsFloorKey(h, timeAt, k0);
    }
  }

  /**
   * A lookup at exactly the time of a deposit or withdrawal observes the
   * balance that mutation produced, whatever other keys the history has.
   */
  lemma MutationObservedAtItsTime(a: AccountView, t: int, amount: int)
    ensures BalanceAt(Deposited(a, t, amount).history, t) == Some(a.balance + amount)
    ensures BalanceAt(Withdrawn(a, t, amount).history, t) == Some(a.balance - amount)
  {
    BalanceAtFloor(Deposited(a, t, amount).history, t, t);
    BalanceAtFloor(Withdrawn(a, t, amount).history, t, t);
  }

  /** A withdrawal undoes a deposit of the same amount, except for the outgoing total. */
  lemma WithdrawUndoesDeposit(a: AccountView, t: int, amount: int)
    ensures Withdrawn(Deposited(a, t, amount), t, amount).balance == a.balance
    ensures Withdrawn(Deposited(a, t, amount), t, amount).history == a.history[t := a.balance]
    ensures Withdrawn(Deposited(a, t, amount), t, amount).totalOutgoing == a.totalOutgoing + amount
  {
  }

  /** The sum of the balances of a set of accounts. */
  ghost function TotalBalance(m: map<string, AccountView>): int
    decreases |m|
  {
    if m == map[] then 0
    else
      var k :| k in m;
      m[k].balance + TotalBalance(m - {k})
  }

  /** The sum does not depend on which account is taken out first. */
  lemma {:induction false} TotalBalanceRemove(m: map<string, AccountView>, k: string)
    requires k in m
    ensures TotalBalance(m) == m[k].balance + TotalBalance(m - {k})
    decreases |m|
  {
    var k' :| k' in m && TotalBalance(m) == m[k'].balance + TotalBalance(m - {k'});
    if k' != k {
      assert (m - {k'}) - {k} == (m - {k}) - {k'};
      TotalBalanceRemove(m - {k'}, k);
      TotalBalanceRemove(m - {k}, k');
    }
  }

  /** Replacing one account's value changes the sum by the difference of balances. */
  lemma TotalBalanceUpdate(m: map<string, AccountView>, k: string, v: AccountView)
    requires k in m
    ensures TotalBalance(m[k := v]) == TotalBalance(m) - m[k].balance + v.balance
  {
    TotalBalanceRemove(m, k);
    TotalBalanceRemove(m[k := v], k);
    assert m[k := v] - {k} == m - {k};
  }

  class Account {
    const creationTime: int
    const id: string
    var balance: int
    var totalOutgoing: int
    var history: map<int, int>

    /** The creation timestamp is always a history key, so a floor lookup at or after it succeeds. */
    ghost predicate Valid()
      reads this
    {
      creationTime in history
    }

    function View(): AccountView
      reads this
    {
      AccountView(creationTime, balance, totalOutgoing, history)
    }

    constructor (timestamp: int, id: string, balance: int, totalOutgoing: int)
      ensures Valid() && this.id == id
      ensures View() == AccountView(timestamp, balance, totalOutgoing, map[timestamp := balance])
    {
      this.creationTime := timestamp;
      this.id := id;
      this.balance := balance;
      this.history := map[timestamp := balance];
      this.totalOutgoing := totalOutgoing;
    }

    method Deposit(timestamp: int, amount: int) returns (newBalance: int)
      modifies this
      ensures View() == Deposited(old(View()), timestamp, amount)
      ensures newBalance == balance
      ensures old(Valid()) ==> Valid()
    {
      balance := balance + amount;
      history := history[timestamp := balance];
      newBalance := balance;
    }

    method Withdraw(timestamp: int, amount: int) returns (newBalance: int)
      modifies this
      ensures View() == Withdrawn(old(View()), timestamp, amount)
      ensures newBalance == balance
      ensures old(Valid()) ==> Valid()
    {
      balance := balance - amount;
      history := history[timestamp := balance];
      totalOutgoing := totalOutgoing + amount;
      newBalance := balance;
    }
  }
}
