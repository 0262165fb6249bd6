/** Grouping trades by a key, as the pages do with a `Map` or a plain object
    keyed by month, emotion or mistake type: per-key counts and P&L sums, and
    the partition facts that make bucket totals add up to the whole. */
module Grouping {
  import opened Trades
  import Seqs

  /** Membership in the group of key `k`. */
  function HasKey<K(==)>(key: Trade -> K, k: K): Trade -> bool
  {
    (t: Trade) => key(t) == k
  }

  /** Membership in the group of key `k` together with `p`. */
  function Where<K(==)>(key: Trade -> K, k: K, p: Trade -> bool): Trade -> bool
  {
    (t: Trade) => key(t) == k && p(t)
  }

  /** The number of trades whose key is `k`. */
  function CountKey<K(==)>(ts: seq<Trade>, key: Trade -> K, k: K): (n: nat)
    ensures n <= |ts|
  {
    if |ts| == 0 then 0
    else CountKey(ts[..|ts| - 1], key, k) + (if key(ts[|ts| - 1]) == k then 1 else 0)
  }

  /** The number of trades whose key is `k` and that satisfy `p`. */
  function CountKeyWhere<K(==)>(ts: seq<Trade>, key: Trade -> K, k: K, p: Trade -> bool): (n: nat)
    ensures n <= CountKey(ts, key, k)
  {
    if |ts| == 0 then 0
    else CountKeyWhere(ts[..|ts| - 1], key, k, p) + (if key(ts[|ts| - 1]) == k && p(ts[|ts| - 1]) then 1 else 0)
  }

  /** A group's count is the length of the trades filtered by its key. */
  lemma {:induction false} CountKeyIsFilter<K>(ts: seq<Trade>, key: Trade -> K, k: K)
    ensures CountKey(ts, key, k) == |Seqs.Filter(ts, HasKey(key, k))|
    decreases |ts|
  {
    if |ts| > 0 {
      var init := ts[..|ts| - 1];
      assert ts == init + [ts[|ts| - 1]];
      Seqs.FilterSnoc(init, ts[|ts| - 1], HasKey(key, k));
      CountKeyIsFilter(init, key, k);
    }
  }

  /** A restricted group's count is the length of the trades filtered by
      the key and the predicate together. */
  lemma {:induction false} CountKeyWhereIsFilter<K>(ts: seq<Trade>, key: Trade -> K, k: K, p: Trade -> bool)
    ensures CountKeyWhere(ts, key, k, p) == |Seqs.Filter(ts, Where(key, k, p))|
    decreases |ts|
  {
    if |ts| > 0 {
      var init := ts[..|ts| - 1];
      assert ts == init + [ts[|ts| - 1]];
      Seqs.FilterSnoc(init, ts[|ts| - 1], Where(key, k, p));
      CountKeyWhereIsFilter(init, key, k, p);
    }
  }

  /** The summed P&L of the trades whose key is `k`. */
  function SumKey<K(==)>(ts: seq<Trade>, key: Trade -> K, k: K): real
  {
    if |ts| == 0 then 0.0
    else SumKey(ts[..|ts| - 1], key, k) + (if key(ts[|ts| - 1]) == k then ts[|ts| - 1].pnl else 0.0)
  }

  /** A key carried by some trade has a non-empty group. */
  lemma {:induction false} CountKeyPositive<K>(ts: seq<Trade>, key: Trade -> K, i: nat)
    requires i < |ts|
    ensures CountKey(ts, key, key(ts[i])) >= 1
    decreases |ts|
  {
    if i < |ts| - 1 {
      CountKeyPositive(ts[..|ts| - 1], key, i);
    }
  }

  /** A group with members carries the key of one of the trades. */
  lemma {:induction false} CountKeyWitness<K>(ts: seq<Trade>, key: Trade -> K, k: K)
    requires CountKey(ts, key, k) >= 1
    ensures exists i :: 0 <= i < |ts| && key(ts[i]) == k
    decreases |ts|
  {
    if key(ts[|ts| - 1]) != k {
      CountKeyWitness(ts[..|ts| - 1], key, k);
      var i :| 0 <= i < |ts| - 1 && key(ts[..|ts| - 1][i]) == k;
      assert ts[..|ts| - 1][i] == ts[i];
    }
  }

  /** Splitting a group by a predicate and its negation accounts for every member. */
  lemma {:induction false} CountKeySplit<K>(ts: seq<Trade>, key: Trade -> K, k: K, p: Trade -> bool, q: Trade -> bool)
    requires forall t :: p(t) <==> !q(t)
    ensures CountKeyWhere(ts, key, k, p) + CountKeyWhere(ts, key, k, q) == CountKey(ts, key, k)
    decreases |ts|
  {
    if |ts| > 0 {
      CountKeySplit(ts[..|ts| - 1], key, k, p, q);
    }
  }

  // ---------------------------------------------------------------------------
  // partition: summing the groups of distinct keys
  // ---------------------------------------------------------------------------

  /** The sum of the group sizes over the keys `ks`. */
  function TotalCount<K(==)>(ks: seq<K>, ts: seq<Trade>, key: Trade -> K): nat
  {
    if |ks| == 0 then 0 else CountKey(ts, key, ks[0]) + TotalCount(ks[1..], ts, key)
  }

  /** The sum of the group P&L over the keys `ks`. */
  function TotalSum<K(==)>(ks: seq<K>, ts: seq<Trade>, key: Trade -> K): real
  {
    if |ks| == 0 then 0.0 else SumKey(ts, key, ks[0]) + TotalSum(ks[1..], ts, key)
  }

  /** The number of trades whose key is among `ks`. */
  function CountIn<K(==)>(ts: seq<Trade>, key: Trade -> K, ks: seq<K>): nat
  {
    if |ts| == 0 then 0
    else CountIn(ts[..|ts| - 1], key, ks) + (if key(ts[|ts| - 1]) in ks then 1 else 0)
  }

  /** The summed P&L of the trades whose key is among `ks`. */
  function SumIn<K(==)>(ts: seq<Trade>, key: Trade -> K, ks: seq<K>): real
  {
    if |ts| == 0 then 0.0
    else SumIn(ts[..|ts| - 1], key, ks) + (if key(ts[|ts| - 1]) in ks then ts[|ts| - 1].pnl else 0.0)
  }

  /** Appending one trade adds it to each group whose key it carries. */
  lemma {:induction false} TotalSnoc<K>(ks: seq<K>, ts: seq<Trade>, key: Trade -> K, t: Trade)
    requires Seqs.NoDup(ks)
    ensures TotalCount(ks, ts + [t], key) == TotalCount(ks, ts, key) + (if key(t) in ks then 1 else 0)
    ensures TotalSum(ks, ts + [t], key) == TotalSum(ks, ts, key) + (if key(t) in ks then t.pnl else 0.0)
    decreases |ks|
  {
    if |ks| > 0 {
      assert (ts + [t])[..|ts + [t]| - 1] == ts;
      TotalSnoc(ks[1..], ts, key, t);
      assert key(t) in ks <==> key(t) == ks[0] || key(t) in ks[1..];
      assert key(t) == ks[0] ==> key(t) !in ks[1..];
    }
  }

  /** Over distinct keys, the groups partition the trades carrying those keys. */
  lemma {:induction false} PartitionOfDistinctKeys<K>(ks: seq<K>, ts: seq<Trade>, key: Trade -> K)
    requires Seqs.NoDup(ks)
    ensures TotalCount(ks, ts, key) == CountIn(ts, key, ks)
    ensures TotalSum(ks, ts, key) == SumIn(ts, key, ks)
    decreases |ts|
  {
    if |ts| == 0 {
      ZeroTotals(ks, key);
    } else {
      var init := ts[..|ts| - 1];
      PartitionOfDistinctKeys(ks, init, key);
      TotalSnoc(ks, init, key, ts[|ts| - 1]);
      assert init + [ts[|ts| - 1]] == ts;
    }
  }

  lemma {:induction false} ZeroTotals<K>(ks: seq<K>, key: Trade -> K)
    ensures TotalCount(ks, [], key) == 0 && TotalSum(ks, [], key) == 0.0
    decreases |ks|
  {
    if |ks| > 0 {
      ZeroTotals(ks[1..], key);
    }
  }

  /** When every trade's key is listed, "the trades carrying a listed key"
      are all the trades. */
  lemma {:induction false} CoveringKeys<K>(ts: seq<Trade>, key: Trade -> K, ks: seq<K>)
    requires forall i :: 0 <= i < |ts| ==> key(ts[i]) in ks
    ensures CountIn(ts, key, ks) == |ts|
    ensures SumIn(ts, key, ks) == TotalPnl(ts)
    decreases |ts|
  {
    if |ts| > 0 {
      var init := ts[..|ts| - 1];
      assert forall i :: 0 <= i < |init| ==> init[i] == ts[i];
      CoveringKeys(init, key, ks);
    }
  }

  /** The main partition fact: distinct keys covering every trade give group
      sizes summing to the number of trades and group P&L summing to the total. */
  lemma Partition<K>(ks: seq<K>, ts: seq<Trade>, key: Trade -> K)
    requires Seqs.NoDup(ks)
    requires forall i :: 0 <= i < |ts| ==> key(ts[i]) in ks
    ensures TotalCount(ks, ts, key) == |ts|
    ensures TotalSum(ks, ts, key) == TotalPnl(ts)
  {
    PartitionOfDistinctKeys(ks, ts, key);
    CoveringKeys(ts, key, ks);
  }
}
