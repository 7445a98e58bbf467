/**
 * `top_spenders`: active accounts sorted by outgoing total, largest first,
 * ties broken by ascending account id, then cut with Python's `[:n]`.
 */
module Ranking {
  import opened Strings

  /** One ranked account, the `"{id}({total})"` pair before formatting. */
  datatype Spender = Spender(id: string, totalOutgoing: int)

  /** The `f"{id}({total_outgoing})"` string `top_spenders` reports for one account. */
  function Label(s: Spender): string
  {
    s.id + "(" + IntString(s.totalOutgoing) + ")"
  }

  /** The sort key `(-total_outgoing, id)`: `x` sorts strictly before `y`. */
  predicate RanksBefore(x: Spender, y: Spender)
  {
    x.totalOutgoing > y.totalOutgoing || (x.totalOutgoing == y.totalOutgoing && StrLess(x.id, y.id))
  }

  lemma RanksBeforeAsymmetric()
    ensures forall x, y :: RanksBefore(x, y) ==> !RanksBefore(y, x)
  {
    forall x, y | RanksBefore(x, y) ensures !RanksBefore(y, x) {
      if x.totalOutgoing == y.totalOutgoing {
        StrLessAsymmetric(x.id, y.id);
      }
    }
  }

  lemma RanksBeforeTransitive(x: Spender, y: Spender, z: Spender)
    requires RanksBefore(x, y) && RanksBefore(y, z)
    ensures RanksBefore(x, z)
  {
    if x.totalOutgoing == y.totalOutgoing == z.totalOutgoing {
      StrLessTransitive(x.id, y.id, z.id);
    }
  }

  /** `k` ranks before every other account of `m`. */
  predicate IsFirst(m: map<string, int>, k: string)
  {
    k in m && forall j :: j in m && j != k ==> RanksBefore(Spender(k, m[k]), Spender(j, m[j]))
  }

  /** A non-empty set of accounts has a first one. */
  lemma {:induction false} FirstExists(m: map<string, int>)
    requires m != map[]
    ensures exists k :: IsFirst(m, k)
    decreases |m|
  {
    var k0 :| k0 in m;
    var rest := m - {k0};
    assert forall j :: j in m && j != k0 ==> j in rest && rest[j] == m[j];
    if rest == map[] {
      assert IsFirst(m, k0);
    } else {
      FirstExists(rest);
      var k1 :| IsFirst(rest, k1);
      var s0, s1 := Spender(k0, m[k0]), Spender(k1, m[k1]);
      if RanksBefore(s0, s1) {
        forall j | j in m && j != k0 ensures RanksBefore(s0, Spender(j, m[j])) {
          if j != k1 {
            RanksBeforeTransitive(s0, s1, Spender(j, m[j]));
          }
        }
        assert IsFirst(m, k0);
      } else {
        StrLessTotal(k0, k1);
        assert RanksBefore(s1, s0);
        assert forall j :: j in m && j != k1 ==> RanksBefore(s1, Spender(j, m[j]));
        assert IsFirst(m, k1);
      }
    }
  }

  /** Only one account can rank before all others. */
  lemma FirstUnique(m: map<string, int>, k: string, k': string)
    requires IsFirst(m, k) && IsFirst(m, k')
    ensures k == k'
  {
    RanksBeforeAsymmetric();
  }

  /** The account that `sorted` puts first. */
  function First(m: map<string, int>): (k: string)
    requires m != map[]
    ensures IsFirst(m, k)
  {
    FirstExists(m);
    RanksBeforeAsymmetric();
    var k :| IsFirst(m, k);
    k
  }

  /** All accounts of `m` in ranking order: repeatedly take the first. */
  function Ranked(m: map<string, int>): seq<Spender>
    decreases |m|
  {
    if m == map[] then []
    else
      var k := First(m);
      [Spender(k, m[k])] + Ranked(m - {k})
  }

  /** Strictly increasing in rank; this also makes the ids distinct. */
  predicate StrictlyRanked(s: seq<Spender>)
  {
    forall i, j :: 0 <= i < j < |s| ==> RanksBefore(s[i], s[j])
  }

  /** `s` lists exactly the accounts of `m`, each with its outgoing total. */
  predicate ListsExactly(s: seq<Spender>, m: map<string, int>)
  {
    && |s| == |m|
    && (forall i :: 0 <= i < |s| ==> s[i].id in m && s[i].totalOutgoing == m[s[i].id])
    && (forall k :: k in m ==> exists i :: 0 <= i < |s| && s[i].id == k)
  }

  /** Ranked(m) takes the first account, then ranks the rest. */
  lemma RankedUnfold(m: map<string, int>)
    requires m != map[]
    ensures Ranked(m) == [Spender(First(m), m[First(m)])] + Ranked(m - {First(m)})
  {
  }

  /** The ranking lists every account exactly once, each with its outgoing total. */
  lemma {:induction false} RankedListsExactly(m: map<string, int>)
    ensures ListsExactly(Ranked(m), m)
    decreases |m|
  {
    if m != map[] {
      var k := First(m);
      var rest := m - {k};
      var tail := Ranked(rest);
      var r := Ranked(m);
      RankedUnfold(m);
      RankedListsExactly(rest);
      assert |rest| == |m| - 1;
      forall j | 0 <= j < |r| ensures r[j].id in m && r[j].totalOutgoing == m[r[j].id] {
        if j > 0 {
          assert r[j] == tail[j - 1];
        }
      }
      forall k' | k' in m ensures exists i :: 0 <= i < |r| && r[i].id == k' {
        if k' != k {
          assert k' in rest;
          var i :| 0 <= i < |tail| && tail[i].id == k';
          assert r[i + 1].id == k';
        } else {
          assert r[0].id == k';
        }
      }
    }
  }

  /** The ranking is strictly sorted by the sort key `(-total_outgoing, id)`. */
  lemma {:induction false} RankedIsStrictlyRanked(m: map<string, int>)
    ensures StrictlyRanked(Ranked(m))
    decreases |m|
  {
    if m != map[] {
      var k := First(m);
      var rest := m - {k};
      var tail := Ranked(rest);
      var r := Ranked(m);
      RankedUnfold(m);
      RankedIsStrictlyRanked(rest);
      RankedListsExactly(rest);
      forall i, j | 0 <= i < j < |r| ensures RanksBefore(r[i], r[j]) {
        assert r[j] == tail[j - 1];
        if i > 0 {
          assert r[i] == tail[i - 1];
        } else {
          assert tail[j - 1].id in rest;
        }
      }
    }
  }

  /**
   * Python's `sorted` result does not depend on the dictionary's iteration
   * order: any strictly ranked listing of the accounts is the ranking.
   */
  lemma {:induction false} RankingIsUnique(m: map<string, int>, s: seq<Spender>)
    requires StrictlyRanked(s) && ListsExactly(s, m)
    ensures s == Ranked(m)
    decreases |m|
  {
    if m != map[] {
      var k := First(m);
      RankedUnfold(m);
      ListingStartsWithFirst(m, s);
      ListingTail(m, s);
      RankingIsUnique(m - {k}, s[1..]);
      assert s == [s[0]] + s[1..];
    }
  }

  /** A strictly ranked listing of the accounts starts with the first account. */
  lemma ListingStartsWithFirst(m: map<string, int>, s: seq<Spender>)
    requires StrictlyRanked(s) && ListsExactly(s, m) && m != map[]
    ensures s[0] == Spender(First(m), m[First(m)])
  {
    var k := First(m);
    var i :| 0 <= i < |s| && s[i].id == k;
    if i != 0 {
      assert RanksBefore(s[0], s[i]);
      StrLessIrreflexive(k);
      assert s[0].id in m && s[0].id != k;
      assert RanksBefore(s[i], s[0]);
      RanksBeforeAsymmetric();
      assert false;
    }
  }

  /** Dropping the head of a strictly ranked listing lists the other accounts. */
  lemma ListingTail(m: map<string, int>, s: seq<Spender>)
    requires StrictlyRanked(s) && ListsExactly(s, m) && |s| > 0
    ensures StrictlyRanked(s[1..]) && ListsExactly(s[1..], m - {s[0].id})
  {
    var k := s[0].id;
    var rest := m - {k};
    var s' := s[1..];
    assert forall j :: 0 <= j < |s'| ==> s'[j] == s[j + 1];
    forall j | 0 <= j < |s'| ensures s'[j].id in rest && s'[j].totalOutgoing == rest[s'[j].id] {
      assert RanksBefore(s[0], s[j + 1]);
      StrLessIrreflexive(k);
    }
    forall k' | k' in rest ensures exists j :: 0 <= j < |s'| && s'[j].id == k' {
      var j :| 0 <= j < |s| && s[j].id == k';
      assert j != 0;
      assert s'[j - 1].id == k';
    }
  }

  /**
   * A prefix of a strictly ranked listing is strictly ranked, lists accounts
   * with their totals, and every entry ranks before every account left out.
   */
  lemma PrefixOfListing(m: map<string, int>, s: seq<Spender>, len: nat)
    requires StrictlyRanked(s) && ListsExactly(s, m) && len <= |s|
    ensures StrictlyRanked(s[..len])
    ensures forall i :: 0 <= i < len ==> s[..len][i].id in m && s[..len][i].totalOutgoing == m[s[..len][i].id]
    ensures forall k :: k in m && (forall i :: 0 <= i < len ==> s[..len][i].id != k) ==>
              forall i :: 0 <= i < len ==> RanksBefore(s[..len][i], Spender(k, m[k]))
  {
    var r := s[..len];
    assert forall i :: 0 <= i < len ==> r[i] == s[i];
    forall k | k in m && (forall i :: 0 <= i < len ==> r[i].id != k)
      ensures forall i :: 0 <= i < len ==> RanksBefore(r[i], Spender(k, m[k]))
    {
      var j :| 0 <= j < |s| && s[j].id == k;
      assert s[j] == Spender(k, m[k]);
      assert j >= len;
    }
  }

  /** How many entries Python's `s[:n]` keeps of a list of length `len`, negative `n` included. */
  function SliceLength(len: nat, n: int): (k: nat)
    ensures k <= len
    ensures n >= 0 ==> k == if n < len then n else len
    ensures n < 0 ==> k == if len + n > 0 then len + n else 0
  {
    if n >= 0 then (if n < len then n else len)
    else if len + n > 0 then len + n else 0
  }

  /** `top_spenders(n)` over the outgoing totals of the active accounts. */
  function TopSpenders(totals: map<string, int>, n: int): (r: seq<Spender>)
    ensures |r| == SliceLength(|totals|, n)
    ensures StrictlyRanked(r)
    ensures forall i :: 0 <= i < |r| ==> r[i].id in totals && r[i].totalOutgoing == totals[r[i].id]
    ensures forall k :: k in totals && (forall i :: 0 <= i < |r| ==> r[i].id != k) ==>
              forall i :: 0 <= i < |r| ==> RanksBefore(r[i], Spender(k, totals[k]))
  {
    var all := Ranked(totals);
    RankedListsExactly(totals);
    RankedIsStrictlyRanked(totals);
    var len := SliceLength(|all|, n);
    PrefixOfListing(totals, all, len);
    all[..len]
  }
}
