/**
 * Cashback records and the order the scheduler's min-heap keeps them in:
 * Python's lexicographic order on (due, owner, payment id, amount) tuples.
 */
module Cashbacks {
  import opened Strings

  /** One cashback: when it is due, which account receives it, for which payment, how much. */
  datatype Cashback = Cashback(due: int, owner: string, paymentId: string, amount: int)

  /** Milliseconds between a payment and its cashback: 24 hours. */
  const CashbackDelay: int := 86400000

  /**
   * `math.floor(amount * 0.02)`, in integers. Dafny's division rounds toward
   * negative infinity for a positive divisor, so this is the floor for every amount.
   */
  function CashbackAmount(amount: int): (r: int)
    ensures 50 * r <= amount < 50 * r + 50
  {
    (amount * 2) / 100
  }

  /** Python's `<` on the tuple (due, owner, paymentId, amount). */
  predicate Before(c: Cashback, d: Cashback)
  {
    || c.due < d.due
    || (c.due == d.due && StrLess(c.owner, d.owner))
    || (c.due == d.due && c.owner == d.owner && StrLess(c.paymentId, d.paymentId))
    || (c.due == d.due && c.owner == d.owner && c.paymentId == d.paymentId && c.amount < d.amount)
  }

  predicate AtMost(c: Cashback, d: Cashback)
  {
    c == d || Before(c, d)
  }

  lemma BeforeIrreflexive(c: Cashback)
    ensures !Before(c, c)
  {
    StrLessIrreflexive(c.owner);
    StrLessIrreflexive(c.paymentId);
  }

  lemma BeforeTransitive(c: Cashback, d: Cashback, e: Cashback)
    requires Before(c, d) && Before(d, e)
    ensures Before(c, e)
  {
    if c.due == d.due == e.due {
      if StrLess(c.owner, d.owner) && StrLess(d.owner, e.owner) {
        StrLessTransitive(c.owner, d.owner, e.owner);
      } else if c.owner == d.owner == e.owner {
        if StrLess(c.paymentId, d.paymentId) && StrLess(d.paymentId, e.paymentId) {
          StrLessTransitive(c.paymentId, d.paymentId, e.paymentId);
        }
      }
    }
  }

  lemma BeforeTotal(c: Cashback, d: Cashback)
    requires c != d
    ensures Before(c, d) || Before(d, c)
  {
    if c.owner != d.owner {
      StrLessTotal(c.owner, d.owner);
    } else if c.paymentId != d.paymentId {
      StrLessTotal(c.paymentId, d.paymentId);
    }
  }

  lemma AtMostTransitive(c: Cashback, d: Cashback, e: Cashback)
    requires AtMost(c, d) && AtMost(d, e)
    ensures AtMost(c, e)
  {
    if Before(c, d) && Before(d, e) {
      BeforeTransitive(c, d, e);
    }
  }

  /** AtMost orders any two entries; it is the total order the heap uses. */
  lemma AtMostTotal(c: Cashback, d: Cashback)
    ensures AtMost(c, d) || AtMost(d, c)
  {
    if c != d {
      BeforeTotal(c, d);
    }
  }

  /** An entry AtMost a smaller-due entry is impossible: the order is led by the due time. */
  lemma AtMostDue(c: Cashback, d: Cashback)
    requires AtMost(c, d)
    ensures c.due <= d.due
  {
  }

  /** Index of the least entry: the one `heapq.heappop` returns. */
  function MinIndex(s: seq<Cashback>): (i: nat)
    requires |s| > 0
    ensures i < |s|
  {
    if |s| == 1 then 0
    else
      var j := 1 + MinIndex(s[1..]);
      if AtMost(s[0], s[j]) then 0 else j
  }

  /** The entry at MinIndex is at most every entry: it is the heap's root. */
  lemma {:induction false} MinIndexIsLeast(s: seq<Cashback>)
    requires |s| > 0
    ensures forall k :: 0 <= k < |s| ==> AtMost(s[MinIndex(s)], s[k])
  {
    if |s| > 1 {
      var j := 1 + MinIndex(s[1..]);
      MinIndexIsLeast(s[1..]);
      assert forall k :: 1 <= k < |s| ==> AtMost(s[j], s[k]) by {
        forall k | 1 <= k < |s| ensures AtMost(s[j], s[k]) {
          assert s[k] == s[1..][k - 1];
        }
      }
      if AtMost(s[0], s[j]) {
        forall k | 1 <= k < |s| ensures AtMost(s[0], s[k]) {
          AtMostTransitive(s[0], s[j], s[k]);
        }
      } else {
        AtMostTotal(s[0], s[j]);
      }
    }
  }

  /** The sequence without its i-th entry. */
  function Remove(s: seq<Cashback>, i: nat): (r: seq<Cashback>)
    requires i < |s|
    ensures |r| == |s| - 1
    ensures forall c :: c in r ==> c in s
  {
    s[..i] + s[i + 1..]
  }

  /** Removing entry i takes exactly one copy of it out of the multiset of entries. */
  lemma RemoveSplits(s: seq<Cashback>, i: nat)
    requires i < |s|
    ensures multiset(Remove(s, i)) + multiset{s[i]} == multiset(s)
  {
    assert s == s[..i] + [s[i]] + s[i + 1..];
  }

  /** The sum of the amounts of a sequence of cashbacks. */
  function Amounts(s: seq<Cashback>): int
  {
    if s == [] then 0 else s[0].amount + Amounts(s[1..])
  }

  /** The sum of the amounts of the cashbacks owned by `id`. */
  function AmountsOwned(s: seq<Cashback>, id: string): int
  {
    if s == [] then 0
    else (if s[0].owner == id then s[0].amount else 0) + AmountsOwned(s[1..], id)
  }

  lemma {:induction false} AmountsAppend(s: seq<Cashback>, c: Cashback, id: string)
    ensures Amounts(s + [c]) == Amounts(s) + c.amount
    ensures AmountsOwned(s + [c], id) == AmountsOwned(s, id) + (if c.owner == id then c.amount else 0)
  {
    if s != [] {
      assert (s + [c])[1..] == s[1..] + [c];
      AmountsAppend(s[1..], c, id);
    }
  }

  lemma {:induction false} AmountsRemove(s: seq<Cashback>, i: nat)
    requires i < |s|
    ensures Amounts(Remove(s, i)) == Amounts(s) - s[i].amount
  {
    if i > 0 {
      assert Remove(s, i)[1..] == Remove(s[1..], i - 1);
      AmountsRemove(s[1..], i - 1);
    } else {
      assert Remove(s, i) == s[1..];
    }
  }

  lemma {:induction false} AmountsOwnedNonNegative(s: seq<Cashback>, id: string)
    requires forall c :: c in s ==> c.amount >= 0
    ensures AmountsOwned(s, id) >= 0
  {
    if s != [] {
      assert s[0] in s;
      assert forall c :: c in s[1..] ==> c in s;
      AmountsOwnedNonNegative(s[1..], id);
    }
  }

  /** Entry `c` with ownership moved from `b` to `a` if `b` held it. */
  function Reowned(c: Cashback, a: string, b: string): Cashback
  {
    if c.owner == b then c.(owner := a) else c
  }

  /** Every entry owned by `b` re-targeted to `a`, in place. */
  function Retarget(s: seq<Cashback>, a: string, b: string): seq<Cashback>
  {
    if s == [] then [] else [Reowned(s[0], a, b)] + Retarget(s[1..], a, b)
  }

  lemma {:induction false} RetargetAt(s: seq<Cashback>, a: string, b: string)
    ensures |Retarget(s, a, b)| == |s|
    ensures forall i :: 0 <= i < |s| ==> Retarget(s, a, b)[i] == Reowned(s[i], a, b)
  {
    if s != [] {
      RetargetAt(s[1..], a, b);
    }
  }

  /**
   * After re-targeting, `b` owns nothing; every entry keeps its due time,
   * payment id and amount; entries of other owners are untouched.
   */
  lemma RetargetMovesOwnership(s: seq<Cashback>, a: string, b: string)
    requires a != b
    ensures |Retarget(s, a, b)| == |s|
    ensures forall c :: c in Retarget(s, a, b) ==> c.owner != b
    ensures forall i :: 0 <= i < |s| ==>
      var r := Retarget(s, a, b)[i];
      r.due == s[i].due && r.paymentId == s[i].paymentId && r.amount == s[i].amount &&
      r.owner == (if s[i].owner == b then a else s[i].owner)
  {
    RetargetAt(s, a, b);
  }

  /** Every re-targeted entry is an original entry, with its owner moved if it was `b`. */
  lemma RetargetMembers(s: seq<Cashback>, a: string, b: string)
    ensures forall c :: c in Retarget(s, a, b) ==> exists d :: d in s && c == Reowned(d, a, b)
  {
    RetargetAt(s, a, b);
    forall c | c in Retarget(s, a, b) ensures exists d :: d in s && c == Reowned(d, a, b) {
      var i :| 0 <= i < |s| && Retarget(s, a, b)[i] == c;
      assert s[i] in s;
    }
  }

  /** Re-targeting moves the owned sums from `b` to `a` and keeps the total. */
  lemma {:induction false} RetargetAmounts(s: seq<Cashback>, a: string, b: string)
    requires a != b
    ensures Amounts(Retarget(s, a, b)) == Amounts(s)
    ensures AmountsOwned(Retarget(s, a, b), a) == AmountsOwned(s, a) + AmountsOwned(s, b)
    ensures AmountsOwned(Retarget(s, a, b), b) == 0
  {
    if s != [] {
      RetargetAmounts(s[1..], a, b);
    }
  }
}
