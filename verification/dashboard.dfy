/** The figures of `pages/DashboardPage.tsx`: the headline statistics with
    the profit factor, the five most recent trades, the last three months,
    and the seven-day P&L chart.

    Calendar days are integer indices; `dayOf` maps a trade's nanosecond
    timestamp to the index of its local calendar day (the source's
    `setHours(0, 0, 0, 0)`), and `today` is the index of the current day. */
module Dashboard {
  import opened Trades
  import Seqs
  import Grouping
  import Metrics
  import MonthlyStats
  import TradeStats

  // ---------------------------------------------------------------------------
  // stats
  // ---------------------------------------------------------------------------

  datatype DashStats = DashStats(total: nat, winRate: real, netPnl: real, avgRR: real, profitFactor: real)

  /** A trade that neither gains nor loses: counted by neither side here. */
  predicate IsBreakeven(t: Trade) { t.pnl == 0.0 }

  /** The summed P&L of the winning trades. */
  function GrossProfit(ts: seq<Trade>): (g: real)
    ensures g >= 0.0
  {
    var wins := Seqs.Filter(ts, IsWin);
    Seqs.SumNonNegative(wins, PnlOf);
    Seqs.Sum(wins, PnlOf)
  }

  /** The absolute value of the summed P&L of the losing (`pnl < 0`) trades. */
  function GrossLoss(ts: seq<Trade>): (g: real)
    ensures g >= 0.0
  {
    Metrics.Abs(Seqs.Sum(Seqs.Filter(ts, IsLoss), PnlOf))
  }

  /** Gross profit over gross loss; 999 stands in for an unbounded factor when
      there are gains and no losses. */
  function ProfitFactor(grossProfit: real, grossLoss: real): (pf: real)
    requires grossProfit >= 0.0 && grossLoss >= 0.0
    ensures pf >= 0.0
    ensures grossLoss > 0.0 ==> pf * grossLoss == grossProfit
    ensures grossLoss == 0.0 ==> (pf == 999.0 <==> grossProfit > 0.0) && (pf == 0.0 <==> grossProfit == 0.0)
  {
    if grossLoss > 0.0 then grossProfit / grossLoss
    else if grossProfit > 0.0 then 999.0
    else 0.0
  }

  function GetDashStats(trades: seq<Trade>): (r: DashStats)
    ensures |trades| == 0 ==> r == DashStats(0, 0.0, 0.0, 0.0, 0.0)
    ensures r.total == |trades|
    ensures 0.0 <= r.winRate <= 100.0
    ensures |trades| > 0 ==> r.winRate == WinRate(|Seqs.Filter(trades, IsWin)|, |trades|)
    ensures r.netPnl == TotalPnl(trades)
    ensures |trades| > 0 ==> r.avgRR == TradeStats.AverageRiskReward(trades)
    ensures r.profitFactor >= 0.0
    ensures |trades| > 0 ==> r.profitFactor == ProfitFactor(GrossProfit(trades), GrossLoss(trades))
  {
    if |trades| == 0 then DashStats(0, 0.0, 0.0, 0.0, 0.0)
    else
      DashStats(
        |trades|,
        WinRate(|Seqs.Filter(trades, IsWin)|, |trades|),
        TotalPnl(trades),
        TradeStats.AverageRiskReward(trades),
        ProfitFactor(GrossProfit(trades), GrossLoss(trades)))
  }

  /** Every trade is a win, a loss or breakeven, so the two filtered sides
      together never exceed the number of trades. */
  lemma {:induction false} WinsLossesBreakeven(ts: seq<Trade>)
    ensures |Seqs.Filter(ts, IsWin)| + |Seqs.Filter(ts, IsLoss)| + |Seqs.Filter(ts, IsBreakeven)| == |ts|
    decreases |ts|
  {
    if |ts| > 0 {
      WinsLossesBreakeven(ts[1..]);
    }
  }

  /** The sums of the winners and of the losers split the net P&L; the
      losers' sum is never positive. */
  lemma {:induction false} SplitPnl(ts: seq<Trade>)
    ensures Seqs.Sum(ts, PnlOf) == Seqs.Sum(Seqs.Filter(ts, IsWin), PnlOf) + Seqs.Sum(Seqs.Filter(ts, IsLoss), PnlOf)
    ensures Seqs.Sum(Seqs.Filter(ts, IsLoss), PnlOf) <= 0.0
    decreases |ts|
  {
    if |ts| > 0 {
      SplitPnl(ts[1..]);
      Seqs.SumCons(ts, PnlOf);
      var w := Seqs.Filter(ts[1..], IsWin);
      var l := Seqs.Filter(ts[1..], IsLoss);
      if IsWin(ts[0]) {
        assert Seqs.Filter(ts, IsWin) == [ts[0]] + w;
        Seqs.SumCons([ts[0]] + w, PnlOf);
        assert ([ts[0]] + w)[1..] == w;
      } else {
        assert Seqs.Filter(ts, IsWin) == w;
      }
      if IsLoss(ts[0]) {
        assert Seqs.Filter(ts, IsLoss) == [ts[0]] + l;
        Seqs.SumCons([ts[0]] + l, PnlOf);
        assert ([ts[0]] + l)[1..] == l;
      } else {
        assert Seqs.Filter(ts, IsLoss) == l;
      }
    }
  }

  /** Net P&L is gross profit minus gross loss. */
  lemma NetIsProfitMinusLoss(trades: seq<Trade>)
    ensures TotalPnl(trades) == GrossProfit(trades) - GrossLoss(trades)
  {
    SplitPnl(trades);
  }

  /** A profit factor above one means exactly that the account made money,
      including the 999 and 0 stand-ins for an absent loss. */
  lemma ProfitFactorAboveOneIffProfitable(trades: seq<Trade>)
    ensures GetDashStats(trades).profitFactor > 1.0 <==> GetDashStats(trades).netPnl > 0.0
  {
    if |trades| > 0 {
      NetIsProfitMinusLoss(trades);
      ProfitFactorAboveOne(GrossProfit(trades), GrossLoss(trades));
    }
  }

  lemma ProfitFactorAboveOne(grossProfit: real, grossLoss: real)
    requires grossProfit >= 0.0 && grossLoss >= 0.0
    ensures ProfitFactor(grossProfit, grossLoss) > 1.0 <==> grossProfit > grossLoss
  {
    if grossLoss > 0.0 {
      var pf := ProfitFactor(grossProfit, grossLoss);
      assert pf * grossLoss == grossProfit;
      MulMonotone(pf, 1.0, grossLoss);
      MulMonotone(1.0, pf, grossLoss);
      assert pf > 1.0 ==> grossProfit > grossLoss;
      assert pf < 1.0 ==> grossProfit < grossLoss;
      assert pf == 1.0 ==> grossProfit == grossLoss;
    }
  }

  /** Multiplying by a positive factor keeps a strict order. */
  lemma MulMonotone(x: real, y: real, z: real)
    requires z > 0.0
    ensures x > y ==> x * z > y * z
  {
    if x > y {
      assert x * z - y * z == (x - y) * z;
    }
  }

  // ---------------------------------------------------------------------------
  // recentTrades
  // ---------------------------------------------------------------------------

  /** `[...trades].reverse().slice(0, 5)`: the last five trades, newest entry first. */
  function RecentTrades(trades: seq<Trade>): (r: seq<Trade>)
    ensures |r| == if |trades| <= 5 then |trades| else 5
    ensures forall i :: 0 <= i < |r| ==> r[i] == trades[|trades| - 1 - i]
  {
    Seqs.Take(Seqs.Reverse(trades), 5)
  }

  /** Read back to front, the recent trades are the tail of the list. */
  lemma RecentTradesAreTheTail(trades: seq<Trade>)
    ensures Seqs.Reverse(RecentTrades(trades)) == trades[|trades| - |RecentTrades(trades)|..]
  {
    var r := RecentTrades(trades);
    var tail := trades[|trades| - |r|..];
    forall i | 0 <= i < |r|
      ensures Seqs.Reverse(r)[i] == tail[i]
    {
      assert Seqs.Reverse(r)[i] == r[|r| - 1 - i];
    }
  }

  // ---------------------------------------------------------------------------
  // monthlyStats
  // ---------------------------------------------------------------------------

  /** The three most recent months with trades, most recent first. */
  function RecentMonths(trades: seq<Trade>, monthOf: int -> int): (r: seq<MonthlyStats.MonthBucket>)
    ensures |r| <= 3
    ensures MonthlyStats.StrictlyDescending(MonthlyStats.Keys(r))
    ensures forall i :: 0 <= i < |r| ==>
      && MonthlyStats.HasTradeIn(trades, monthOf, r[i].key)
      && 1 <= r[i].total
      && r[i].wins <= r[i].total
      && r[i].total == Grouping.CountKey(trades, MonthlyStats.MonthKeyOf(monthOf), r[i].key)
    ensures forall i :: 0 <= i < |r| ==> r[i] == MonthlyStats.Bucket(trades, MonthlyStats.MonthKeyOf(monthOf), r[i].key)
  {
    var all := MonthlyStats.GetMonthlyStats(trades, monthOf);
    var r := Seqs.Take(all, 3);
    PrefixKeys(all, 3);
    assert forall i :: 0 <= i < |r| ==> r[i] == all[i];
    r
  }

  /** A prefix of a bucket list keeps its keys' descending order and membership. */
  lemma PrefixKeys(bs: seq<MonthlyStats.MonthBucket>, n: nat)
    requires MonthlyStats.StrictlyDescending(MonthlyStats.Keys(bs))
    ensures MonthlyStats.StrictlyDescending(MonthlyStats.Keys(Seqs.Take(bs, n)))
    ensures forall i :: 0 <= i < |Seqs.Take(bs, n)| ==> Seqs.Take(bs, n)[i].key in MonthlyStats.Keys(bs)
  {
    var r := Seqs.Take(bs, n);
    assert forall i :: 0 <= i < |r| ==> MonthlyStats.Keys(r)[i] == MonthlyStats.Keys(bs)[i];
  }

  /** A key of a descending bucket list that its first `n` buckets miss is
      smaller than each of them, and the list has more than `n` buckets. */
  lemma MissedKeyIsOlder(bs: seq<MonthlyStats.MonthBucket>, n: nat, k: int)
    requires MonthlyStats.StrictlyDescending(MonthlyStats.Keys(bs))
    requires k in MonthlyStats.Keys(bs) && k !in MonthlyStats.Keys(Seqs.Take(bs, n))
    ensures |Seqs.Take(bs, n)| == n
    ensures forall i :: 0 <= i < n ==> k < Seqs.Take(bs, n)[i].key
  {
    var ks := MonthlyStats.Keys(bs);
    var r := Seqs.Take(bs, n);
    var rs := MonthlyStats.Keys(r);
    var j :| 0 <= j < |ks| && ks[j] == k;
    assert forall i :: 0 <= i < |r| ==> rs[i] == ks[i];
    assert forall i :: 0 <= i < |r| ==> rs[i] in rs;
    assert j >= |r|;
    assert |r| == n;
    assert forall i :: 0 <= i < n ==> r[i].key == ks[i] && i < j;
  }

  /** Only older months are left out: a month with trades that is not shown
      is older than every shown month, and then three months are shown. */
  lemma RecentMonthsAreTheNewest(trades: seq<Trade>, monthOf: int -> int, k: int)
    requires MonthlyStats.HasTradeIn(trades, monthOf, k)
    requires k !in MonthlyStats.Keys(RecentMonths(trades, monthOf))
    ensures |RecentMonths(trades, monthOf)| == 3
    ensures forall i :: 0 <= i < 3 ==> k < RecentMonths(trades, monthOf)[i].key
  {
    var all := MonthlyStats.GetMonthlyStats(trades, monthOf);
    assert RecentMonths(trades, monthOf) == Seqs.Take(all, 3);
    MissedKeyIsOlder(all, 3, k);
  }

  // ---------------------------------------------------------------------------
  // PnLChart
  // ---------------------------------------------------------------------------

  /** The grouping key of a trade on the chart: its calendar day. */
  function DayKeyOf(dayOf: int -> int): Trade -> int
  {
    (t: Trade) => dayOf(t.date)
  }

  /** The seven days ending today, oldest first. */
  function Window(today: int): (ks: seq<int>)
    ensures |ks| == 7
    ensures forall i :: 0 <= i < 7 ==> ks[i] == today - 6 + i
  {
    seq(7, i => today - 6 + i)
  }

  /** `days.findIndex(d => d === day)`: the first position holding `k`, or -1. */
  function FindIndex(ks: seq<int>, k: int): (i: int)
    ensures -1 <= i < |ks|
    ensures i >= 0 ==> ks[i] == k && forall j :: 0 <= j < i ==> ks[j] != k
    ensures i == -1 <==> k !in ks
  {
    if |ks| == 0 then -1
    else if ks[0] == k then 0
    else
      var j := FindIndex(ks[1..], k);
      if j == -1 then -1 else j + 1
  }

  /** The chart's daily P&L: each trade of one of the seven days adds its
      P&L to that day's bar; other trades are ignored. */
  method PnlChart(trades: seq<Trade>, dayOf: int -> int, today: int) returns (days: seq<real>)
    ensures |days| == 7
    ensures forall i :: 0 <= i < 7 ==> days[i] == Grouping.SumKey(trades, DayKeyOf(dayOf), today - 6 + i)
  {
    var key := DayKeyOf(dayOf);
    var window := Window(today);
    days := seq(7, _ => 0.0);
    var k := 0;
    while k < |trades|
      invariant 0 <= k <= |trades| && |days| == 7
      invariant forall i :: 0 <= i < 7 ==> days[i] == Grouping.SumKey(trades[..k], key, window[i])
    {
      var t := trades[k];
      var idx := FindIndex(window, key(t));
      if idx != -1 {
        days := days[idx := days[idx] + t.pnl];
      }
      assert trades[..k + 1][..k] == trades[..k];
      assert trades[..k + 1][k] == t;
      k := k + 1;
    }
    assert trades[..|trades|] == trades;
  }

  function SumReals(s: seq<real>): real
  {
    if |s| == 0 then 0.0 else s[0] + SumReals(s[1..])
  }

  lemma {:induction false} BarsSumToTotal(days: seq<real>, ks: seq<int>, ts: seq<Trade>, key: Trade -> int)
    requires |days| == |ks|
    requires forall i :: 0 <= i < |ks| ==> days[i] == Grouping.SumKey(ts, key, ks[i])
    ensures SumReals(days) == Grouping.TotalSum(ks, ts, key)
    decreases |ks|
  {
    if |ks| > 0 {
      BarsSumToTotal(days[1..], ks[1..], ts, key);
    }
  }

  /** The chart's total (`data.reduce`) is the P&L of exactly the trades
      dated within the seven-day window. */
  lemma ChartTotalIsWindowPnl(trades: seq<Trade>, dayOf: int -> int, today: int, days: seq<real>)
    requires |days| == 7
    requires forall i :: 0 <= i < 7 ==> days[i] == Grouping.SumKey(trades, DayKeyOf(dayOf), today - 6 + i)
    ensures SumReals(days) == Grouping.SumIn(trades, DayKeyOf(dayOf), Window(today))
  {
    var ks := Window(today);
    BarsSumToTotal(days, ks, trades, DayKeyOf(dayOf));
    assert Seqs.NoDup(ks);
    Grouping.PartitionOfDistinctKeys(ks, trades, DayKeyOf(dayOf));
  }

  /** `Math.max(...data.map(d => Math.abs(d.pnl)), 1)`: the bar scale. */
  function MaxAbs(days: seq<real>): (m: real)
    ensures m >= 1.0
    ensures forall i :: 0 <= i < |days| ==> Metrics.Abs(days[i]) <= m
    ensures m == 1.0 || exists i :: 0 <= i < |days| && m == Metrics.Abs(days[i])
  {
    if |days| == 0 then 1.0
    else
      var rest := MaxAbs(days[1..]);
      var a := Metrics.Abs(days[0]);
      if a > rest then a else rest
  }
}
