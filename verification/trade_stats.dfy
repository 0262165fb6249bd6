/** `getTradeStats` of `lib/tradeUtils.ts`: the overall figures over a
    trade collection, including best/worst trade and the current streaks. */
module TradeStats {
  import opened Results
  import opened Trades
  import Seqs

  datatype TradeStats = TradeStats(
    totalTrades: nat,
    winRate: real,
    avgRR: real,
    totalPnl: real,
    bestTrade: Option<Trade>,
    worstTrade: Option<Trade>,
    consecutiveWins: nat,
    consecutiveLosses: nat)

  /** The length of the longest prefix of `s` whose elements satisfy `p`:
      the `for … if (p) count++ else break` loop. */
  function LeadingRun(s: seq<Trade>, p: Trade -> bool): (n: nat)
    ensures n <= |s|
    ensures forall i :: 0 <= i < n ==> p(s[i])
    ensures n < |s| ==> !p(s[n])
  {
    if |s| == 0 || !p(s[0]) then 0 else 1 + LeadingRun(s[1..], p)
  }

  /** The trades, most recent first (`sort((a, b) => Number(b.date) - Number(a.date))`). */
  function MostRecentFirst(trades: seq<Trade>): (r: seq<Trade>)
    ensures |r| == |trades| && multiset(r) == multiset(trades)
    ensures forall i, j :: 0 <= i < j < |r| ==> r[i].date >= r[j].date
  {
    Seqs.SortDesc(trades, DateKey)
  }

  /** `sortedByPnl[0]` for `sortedByPnl = [...trades].sort((a, b) => b.pnl - a.pnl)`. */
  function BestTrade(trades: seq<Trade>): (b: Trade)
    requires |trades| > 0
    ensures b == trades[Seqs.FirstMaxIndex(trades, PnlOf)]
  {
    Seqs.SortHeadIsFirstMax(trades, PnlOf);
    Seqs.SortDesc(trades, PnlOf)[0]
  }

  /** `sortedByPnl[sortedByPnl.length - 1]`. */
  function WorstTrade(trades: seq<Trade>): (w: Trade)
    requires |trades| > 0
    ensures w == trades[Seqs.LastMinIndex(trades, PnlOf)]
  {
    Seqs.SortLastIsLastMin(trades, PnlOf);
    Seqs.SortDesc(trades, PnlOf)[|trades| - 1]
  }

  /** The mean stored risk/reward ratio: `a` times the number of trades is
      the summed ratio. */
  function AverageRiskReward(trades: seq<Trade>): (a: real)
    requires |trades| > 0
    ensures a * (|trades| as real) == Seqs.Sum(trades, RiskRewardOf)
    ensures (forall t :: t in trades ==> t.riskRewardRatio >= 0.0) ==> a >= 0.0
  {
    var total := Seqs.Sum(trades, RiskRewardOf);
    assert (forall t :: t in trades ==> t.riskRewardRatio >= 0.0) ==> total >= 0.0 by {
      if forall t :: t in trades ==> t.riskRewardRatio >= 0.0 {
        Seqs.SumNonNegative(trades, RiskRewardOf);
      }
    }
    total / (|trades| as real)
  }

  /** `consecutiveWins`: trades since the most recent one with `pnl <= 0`. */
  function WinStreak(trades: seq<Trade>): (n: nat)
    ensures n <= |trades|
    ensures var s := MostRecentFirst(trades);
      && (forall i :: 0 <= i < n ==> s[i].pnl > 0.0)
      && (n < |s| ==> s[n].pnl <= 0.0)
  {
    LeadingRun(MostRecentFirst(trades), IsWin)
  }

  /** `consecutiveLosses`: trades since the most recent one with `pnl > 0`. */
  function LossStreak(trades: seq<Trade>): (n: nat)
    ensures n <= |trades|
    ensures var s := MostRecentFirst(trades);
      && (forall i :: 0 <= i < n ==> s[i].pnl <= 0.0)
      && (n < |s| ==> s[n].pnl > 0.0)
  {
    LeadingRun(MostRecentFirst(trades), IsNonWin)
  }

  function GetTradeStats(trades: seq<Trade>): (r: TradeStats)
    ensures |trades| == 0 ==> r == TradeStats(0, 0.0, 0.0, 0.0, None, None, 0, 0)
    ensures r.totalTrades == |trades|
    ensures 0.0 <= r.winRate <= 100.0
    ensures |trades| > 0 ==> r.winRate == WinRate(|Seqs.Filter(trades, IsWin)|, |trades|)
    ensures r.totalPnl == TotalPnl(trades)
    ensures (forall t :: t in trades ==> t.riskRewardRatio >= 0.0) ==> r.avgRR >= 0.0
    ensures |trades| > 0 ==> r.avgRR == AverageRiskReward(trades)
    ensures |trades| > 0 ==> r.bestTrade == Some(BestTrade(trades)) && r.worstTrade == Some(WorstTrade(trades))
    ensures r.consecutiveWins == WinStreak(trades) && r.consecutiveLosses == LossStreak(trades)
  {
    if |trades| == 0 then TradeStats(0, 0.0, 0.0, 0.0, None, None, 0, 0)
    else
      var wins := Seqs.Filter(trades, IsWin);
      TradeStats(
        |trades|,
        WinRate(|wins|, |trades|),
        AverageRiskReward(trades),
        TotalPnl(trades),
        Some(BestTrade(trades)),
        Some(WorstTrade(trades)),
        WinStreak(trades),
        LossStreak(trades))
  }

  /** The best trade's P&L bounds every P&L from above, the worst's from below. */
  lemma BestAndWorstBound(trades: seq<Trade>)
    requires |trades| > 0
    ensures var r := GetTradeStats(trades);
      && r.bestTrade.Some? && r.worstTrade.Some?
      && r.bestTrade.value in trades && r.worstTrade.value in trades
      && forall t :: t in trades ==> r.worstTrade.value.pnl <= t.pnl <= r.bestTrade.value.pnl
  {
    var r := GetTradeStats(trades);
    var b := Seqs.FirstMaxIndex(trades, PnlOf);
    var w := Seqs.LastMinIndex(trades, PnlOf);
    forall t | t in trades
      ensures r.worstTrade.value.pnl <= t.pnl <= r.bestTrade.value.pnl
    {
      var j :| 0 <= j < |trades| && trades[j] == t;
      assert PnlOf(trades[j]) <= PnlOf(trades[b]);
      assert PnlOf(trades[w]) <= PnlOf(trades[j]);
    }
  }

  /** The most recent trade is either a win or not, so exactly one streak is
      running, and together they never exceed the number of trades. */
  lemma StreaksExclusive(trades: seq<Trade>)
    ensures var r := GetTradeStats(trades);
      && (|trades| > 0 ==> (r.consecutiveWins > 0 <==> r.consecutiveLosses == 0))
      && r.consecutiveWins + r.consecutiveLosses <= r.totalTrades
  {
    var r := GetTradeStats(trades);
    if |trades| > 0 {
      var s := MostRecentFirst(trades);
      if s[0].pnl > 0.0 {
        assert r.consecutiveLosses == 0;
        assert r.consecutiveWins > 0;
      } else {
        assert r.consecutiveWins == 0;
        assert r.consecutiveLosses > 0;
      }
    }
  }
}
