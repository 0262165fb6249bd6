/** The trade record as the backend returns it, and the per-trade quantities
    the aggregations read from it. */
module Trades {
  import Seqs

  /** The market categories of the backend's `MarketType` enumeration. */
  datatype MarketType = cryptocurrency | forex | stocks | option | future
  {
    /** The enumeration's string value, as `String(t.marketType)` renders it. */
    function Name(): string
    {
      match this
      case cryptocurrency => "cryptocurrency"
      case forex => "forex"
      case stocks => "stocks"
      case option => "option"
      case future => "future"
    }
  }

  /** One logged trade. Prices and P&L are JavaScript numbers, modelled as
      reals; `id`, `date` (nanoseconds since the epoch), `quantity` and
      `convictionLevel` are bigints. `pnl` and `riskRewardRatio` were derived
      by the backend when the trade was saved. `direction` is free text: the
      form only offers "Buy" and "Sell", but nothing else constrains it. */
  datatype Trade = Trade(
    id: int,
    pnl: real,
    marketType: MarketType,
    direction: string,
    stockName: string,
    emotion: string,
    date: int,
    strategy: string,
    mistakeType: string,
    followedPlan: bool,
    target: real,
    convictionLevel: int,
    stopLoss: real,
    notes: string,
    quantity: int,
    entryPrice: real,
    isAPlusSetup: bool,
    exitPrice: real,
    riskRewardRatio: real)

  function PnlOf(t: Trade): real { t.pnl }

  function RiskRewardOf(t: Trade): real { t.riskRewardRatio }

  /** The sort key of `Number(t.date)`. */
  function DateKey(t: Trade): real { t.date as real }

  /** A winning trade: `t.pnl > 0` everywhere in the source. */
  predicate IsWin(t: Trade) { t.pnl > 0.0 }

  /** A loss as the trade statistics count it: `t.pnl <= 0` (breakeven included). */
  predicate IsNonWin(t: Trade) { t.pnl <= 0.0 }

  /** A loss as the dashboard counts it: `t.pnl < 0` (breakeven excluded). */
  predicate IsLoss(t: Trade) { t.pnl < 0.0 }

  /** `trades.reduce((s, t) => s + t.pnl, 0)`. */
  function TotalPnl(ts: seq<Trade>): real
  {
    Seqs.Sum(ts, PnlOf)
  }

  /** `(wins / total) * 100`, with 0 for an empty group as the monthly
      statistics guard it; the callers that do not guard never pass 0. */
  function WinRate(wins: nat, total: nat): (r: real)
    requires wins <= total
    ensures 0.0 <= r <= 100.0
    ensures r == 0.0 <==> wins == 0
    ensures r == 100.0 <==> total > 0 && wins == total
    ensures total > 0 ==> r * (total as real) == 100.0 * (wins as real)
  {
    if total == 0 then 0.0 else (wins as real / total as real) * 100.0
  }
}
