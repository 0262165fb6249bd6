/** Month-bucketed statistics: `getMonthlyStats` of `lib/tradeUtils.ts`, and
    the bucket construction the analytics and dashboard pages share with it.

    A month is identified by an integer key; `monthOf` maps a trade's
    nanosecond timestamp to the key of its local calendar month. The source
    builds the string `YYYY-MM`; for four-digit years the string order is
    the order of `year * 12 + (month - 1)`, which is what a key stands for.
    The time-zone conversion itself lies outside the model. */
module MonthlyStats {
  import opened Trades
  import Seqs
  import Grouping

  datatype MonthBucket = MonthBucket(key: int, total: nat, wins: nat, losses: nat, winRate: real, netPnl: real)

  /** The grouping key of a trade: the month of its date. */
  function MonthKeyOf(monthOf: int -> int): Trade -> int
  {
    (t: Trade) => monthOf(t.date)
  }

  predicate StrictlyAscending(ks: seq<int>)
  {
    forall i, j :: 0 <= i < j < |ks| ==> ks[i] < ks[j]
  }

  predicate StrictlyDescending(ks: seq<int>)
  {
    forall i, j :: 0 <= i < j < |ks| ==> ks[i] > ks[j]
  }

  function InsertKey(k: int, ks: seq<int>): (r: seq<int>)
    requires StrictlyAscending(ks)
    ensures StrictlyAscending(r)
    ensures forall x :: x in r <==> x == k || x in ks
  {
    if |ks| == 0 then [k]
    else if k == ks[0] then ks
    else if k < ks[0] then [k] + ks
    else
      var tail := ks[1..];
      assert ks == [ks[0]] + tail;
      assert forall j :: 0 <= j < |tail| ==> tail[j] == ks[j + 1];
      assert forall x :: x in tail ==> x > ks[0];
      var rest := InsertKey(k, tail);
      var r := [ks[0]] + rest;
      assert forall j :: 0 < j < |r| ==> r[j] == rest[j - 1] && r[j] in rest;
      r
  }

  /** The distinct keys carried by the trades, ascending. */
  function MonthKeys(ts: seq<Trade>, key: Trade -> int): (ks: seq<int>)
    ensures StrictlyAscending(ks)
    ensures forall k :: k in ks <==> exists i :: 0 <= i < |ts| && key(ts[i]) == k
  {
    if |ts| == 0 then []
    else
      var init := ts[..|ts| - 1];
      assert forall i :: 0 <= i < |init| ==> init[i] == ts[i];
      InsertKey(key(ts[|ts| - 1]), MonthKeys(init, key))
  }

  lemma AscendingNoDup(ks: seq<int>)
    requires StrictlyAscending(ks)
    ensures Seqs.NoDup(ks)
  {
  }

  /** The statistics of one month: its trades, wins (`pnl > 0`), losses
      (`pnl <= 0`, so breakeven trades count as losses here), win rate and
      net P&L. */
  function Bucket(ts: seq<Trade>, key: Trade -> int, k: int): (b: MonthBucket)
    ensures b.key == k
    ensures b.total == Grouping.CountKey(ts, key, k)
    ensures b.netPnl == Grouping.SumKey(ts, key, k)
    ensures b.wins == Grouping.CountKeyWhere(ts, key, k, IsWin)
    ensures b.losses == Grouping.CountKeyWhere(ts, key, k, IsNonWin)
    ensures b.wins + b.losses == b.total
    ensures b.winRate == WinRate(b.wins, b.total)
    ensures 0.0 <= b.winRate <= 100.0
  {
    var total := Grouping.CountKey(ts, key, k);
    var wins := Grouping.CountKeyWhere(ts, key, k, IsWin);
    var losses := Grouping.CountKeyWhere(ts, key, k, IsNonWin);
    Grouping.CountKeySplit(ts, key, k, IsWin, IsNonWin);
    MonthBucket(k, total, wins, losses, WinRate(wins, total), Grouping.SumKey(ts, key, k))
  }

  /** A bucket's counts are the sizes of the month's trades, of its winning
      trades and of its other trades. */
  lemma BucketCountsTrades(ts: seq<Trade>, key: Trade -> int, k: int)
    ensures Bucket(ts, key, k).total == |Seqs.Filter(ts, Grouping.HasKey(key, k))|
    ensures Bucket(ts, key, k).wins == |Seqs.Filter(ts, Grouping.Where(key, k, IsWin))|
    ensures Bucket(ts, key, k).losses == |Seqs.Filter(ts, Grouping.Where(key, k, IsNonWin))|
  {
    Grouping.CountKeyIsFilter(ts, key, k);
    Grouping.CountKeyWhereIsFilter(ts, key, k, IsWin);
    Grouping.CountKeyWhereIsFilter(ts, key, k, IsNonWin);
  }

  /** One bucket per key of `ks`, in the order of `ks`. */
  function Buckets(ts: seq<Trade>, key: Trade -> int, ks: seq<int>): (r: seq<MonthBucket>)
    ensures |r| == |ks|
    ensures forall i :: 0 <= i < |ks| ==> r[i] == Bucket(ts, key, ks[i])
  {
    if |ks| == 0 then [] else [Bucket(ts, key, ks[0])] + Buckets(ts, key, ks[1..])
  }

  /** Bucketing commutes with reversing the key order. */
  lemma BucketsReverse(ts: seq<Trade>, key: Trade -> int, ks: seq<int>)
    ensures Buckets(ts, key, ks) == Seqs.Reverse(Buckets(ts, key, Seqs.Reverse(ks)))
  {
    var a := Buckets(ts, key, ks);
    var rk := Seqs.Reverse(ks);
    var b := Buckets(ts, key, rk);
    var rb := Seqs.Reverse(b);
    forall i | 0 <= i < |ks|
      ensures a[i] == rb[i]
    {
      var j := |ks| - 1 - i;
      assert rb[i] == b[j];
      assert b[j] == Bucket(ts, key, rk[j]);
      assert rk[j] == ks[|ks| - 1 - j];
      assert |ks| - 1 - j == i;
    }
  }

  function SumTotals(bs: seq<MonthBucket>): nat
  {
    if |bs| == 0 then 0 else bs[0].total + SumTotals(bs[1..])
  }

  function SumNetPnl(bs: seq<MonthBucket>): real
  {
    if |bs| == 0 then 0.0 else bs[0].netPnl + SumNetPnl(bs[1..])
  }

  lemma {:induction false} BucketSums(ts: seq<Trade>, key: Trade -> int, ks: seq<int>)
    ensures SumTotals(Buckets(ts, key, ks)) == Grouping.TotalCount(ks, ts, key)
    ensures SumNetPnl(Buckets(ts, key, ks)) == Grouping.TotalSum(ks, ts, key)
    decreases |ks|
  {
    if |ks| > 0 {
      BucketSums(ts, key, ks[1..]);
      assert Buckets(ts, key, ks)[1..] == Buckets(ts, key, ks[1..]);
    }
  }

  /** Buckets over the distinct months of the trades, in the order of `ks`,
      partition the trades: sizes add up to the count and P&L to the total. */
  lemma BucketsPartition(ts: seq<Trade>, key: Trade -> int, ks: seq<int>)
    requires Seqs.NoDup(ks)
    requires forall k :: k in ks <==> exists i :: 0 <= i < |ts| && key(ts[i]) == k
    ensures SumTotals(Buckets(ts, key, ks)) == |ts|
    ensures SumNetPnl(Buckets(ts, key, ks)) == TotalPnl(ts)
  {
    BucketSums(ts, key, ks);
    forall i | 0 <= i < |ts|
      ensures key(ts[i]) in ks
    {
      var k := key(ts[i]);
      assert 0 <= i < |ts| && key(ts[i]) == k;
      assert k in ks;
    }
    Grouping.Partition(ks, ts, key);
  }

  /** Every bucket over a month some trade falls in is non-empty. */
  lemma BucketsNonEmpty(ts: seq<Trade>, key: Trade -> int, ks: seq<int>)
    requires forall k :: k in ks ==> exists i :: 0 <= i < |ts| && key(ts[i]) == k
    ensures forall i :: 0 <= i < |ks| ==> Buckets(ts, key, ks)[i].total >= 1
  {
    forall i | 0 <= i < |ks|
      ensures Buckets(ts, key, ks)[i].total >= 1
    {
      assert ks[i] in ks;
      var j :| 0 <= j < |ts| && key(ts[j]) == ks[i];
      Grouping.CountKeyPositive(ts, key, j);
    }
  }

  /** The keys of a bucket list, in order. */
  function Keys(bs: seq<MonthBucket>): (ks: seq<int>)
    ensures |ks| == |bs| && forall i :: 0 <= i < |bs| ==> ks[i] == bs[i].key
  {
    if |bs| == 0 then [] else [bs[0].key] + Keys(bs[1..])
  }

  lemma BucketKeys(ts: seq<Trade>, key: Trade -> int, ks: seq<int>)
    ensures Keys(Buckets(ts, key, ks)) == ks
  {
  }

  /** Reversing an ascending key list gives a descending one with the same keys. */
  lemma ReverseAscending(ks: seq<int>)
    requires StrictlyAscending(ks)
    ensures StrictlyDescending(Seqs.Reverse(ks))
    ensures Seqs.NoDup(Seqs.Reverse(ks))
    ensures forall k :: k in Seqs.Reverse(ks) <==> k in ks
  {
    var r := Seqs.Reverse(ks);
    forall k | k in ks
      ensures k in r
    {
      var i :| 0 <= i < |ks| && ks[i] == k;
      assert r[|ks| - 1 - i] == k;
    }
  }

  /** The months in which some trade falls. */
  ghost predicate HasTradeIn(trades: seq<Trade>, monthOf: int -> int, k: int)
  {
    exists j :: 0 <= j < |trades| && monthOf(trades[j].date) == k
  }

  /** `getMonthlyStats`: one bucket per month that has trades, most recent
      month first. */
  function GetMonthlyStats(trades: seq<Trade>, monthOf: int -> int): (r: seq<MonthBucket>)
    ensures StrictlyDescending(Keys(r))
    ensures forall k :: k in Keys(r) <==> HasTradeIn(trades, monthOf, k)
    ensures forall i :: 0 <= i < |r| ==>
      && r[i].total >= 1
      && r[i].wins + r[i].losses == r[i].total
      && r[i].total == Grouping.CountKey(trades, MonthKeyOf(monthOf), r[i].key)
    ensures forall i :: 0 <= i < |r| ==> r[i] == Bucket(trades, MonthKeyOf(monthOf), r[i].key)
  {
    var key := MonthKeyOf(monthOf);
    var asc := MonthKeys(trades, key);
    var ks := Seqs.Reverse(asc);
    ReverseAscending(asc);
    BucketsNonEmpty(trades, key, ks);
    BucketKeys(trades, key, ks);
    Buckets(trades, key, ks)
  }

  /** The monthly buckets partition the trades. */
  lemma MonthlyStatsPartition(trades: seq<Trade>, monthOf: int -> int)
    ensures SumTotals(GetMonthlyStats(trades, monthOf)) == |trades|
    ensures SumNetPnl(GetMonthlyStats(trades, monthOf)) == TotalPnl(trades)
  {
    var key := MonthKeyOf(monthOf);
    var asc := MonthKeys(trades, key);
    ReverseAscending(asc);
    BucketsPartition(trades, key, Seqs.Reverse(asc));
  }
}
