/** The per-trade calculations of `lib/tradeUtils.ts`: risk, risk/reward,
    profit and loss, and the nanosecond/millisecond timestamp scaling. */
module Metrics {

  function Abs(x: real): (r: real)
    ensures r >= 0.0 && (r == x || r == -x)
  {
    if x < 0.0 then -x else x
  }

  /** `calcRiskPerTrade`: the distance from entry to stop, times the size. */
  function RiskPerTrade(entryPrice: real, stopLoss: real, quantity: real): (r: real)
    ensures quantity >= 0.0 ==> r >= 0.0
    ensures r == 0.0 <==> entryPrice == stopLoss || quantity == 0.0
  {
    Abs(entryPrice - stopLoss) * quantity
  }

  /** The risk does not depend on which of the two prices is the stop. */
  lemma RiskPerTradeSymmetric(entryPrice: real, stopLoss: real, quantity: real)
    ensures RiskPerTrade(entryPrice, stopLoss, quantity) == RiskPerTrade(stopLoss, entryPrice, quantity)
  {
  }

  /** `calcRiskRewardRatio`: reward distance over risk distance, with the
      deliberate policy that a zero risk gives 0 instead of a division. */
  function RiskRewardRatio(entryPrice: real, stopLoss: real, target: real): (r: real)
    ensures r >= 0.0
    ensures entryPrice == stopLoss ==> r == 0.0
    ensures entryPrice != stopLoss ==> r * Abs(entryPrice - stopLoss) == Abs(target - entryPrice)
  {
    var risk := Abs(entryPrice - stopLoss);
    if risk == 0.0 then 0.0 else Abs(target - entryPrice) / risk
  }

  /** `calcPnl`: "Buy" is a long position; every other direction string,
      not only "Sell", is treated as short. With a positive size the trade
      makes money exactly when the price moved in the position's favour. */
  function Pnl(direction: string, entryPrice: real, exitPrice: real, quantity: real): (r: real)
    ensures quantity > 0.0 ==>
      (r > 0.0 <==> (if direction == "Buy" then exitPrice > entryPrice else exitPrice < entryPrice))
    ensures quantity > 0.0 ==> (r == 0.0 <==> exitPrice == entryPrice)
  {
    if direction == "Buy" then (exitPrice - entryPrice) * quantity
    else (entryPrice - exitPrice) * quantity
  }

  /** A long and any non-"Buy" position over the same prices mirror each other. */
  lemma PnlShortMirrorsLong(direction: string, entryPrice: real, exitPrice: real, quantity: real)
    requires direction != "Buy"
    ensures Pnl("Buy", entryPrice, exitPrice, quantity) == -Pnl(direction, entryPrice, exitPrice, quantity)
    ensures Pnl(direction, entryPrice, exitPrice, quantity) == Pnl("Sell", entryPrice, exitPrice, quantity)
  {
  }

  const NanosPerMilli: int := 1_000_000

  /** `Number(ts) / 1_000_000` as `new Date` uses it: the fractional
      millisecond is dropped, rounding toward zero. */
  function NanosToMillis(ns: int): (ms: int)
    ensures ns >= 0 ==> ms >= 0 && ms * NanosPerMilli <= ns < (ms + 1) * NanosPerMilli
    ensures ns < 0 ==> ms <= 0 && (ms - 1) * NanosPerMilli < ns <= ms * NanosPerMilli
  {
    if ns >= 0 then ns / NanosPerMilli else -((-ns) / NanosPerMilli)
  }

  /** `BigInt(ms * 1_000_000)`. */
  function MillisToNanos(ms: int): (ns: int)
    ensures ns % NanosPerMilli == 0
  {
    ms * NanosPerMilli
  }

  /** Scaling up and back down returns the same millisecond count. */
  lemma MillisRoundTrip(ms: int)
    ensures NanosToMillis(MillisToNanos(ms)) == ms
  {
    var ns := MillisToNanos(ms);
    if ms < 0 {
      assert -ns == (-ms) * NanosPerMilli;
    }
  }

  /** Scaling down and back up loses exactly the sub-millisecond part. */
  lemma NanosRoundTrip(ns: int)
    ensures MillisToNanos(NanosToMillis(ns)) == ns <==> ns % NanosPerMilli == 0
  {
  }

  lemma Examples()
    ensures Pnl("Buy", 100.0, 110.0, 10.0) == 100.0
    ensures Pnl("Sell", 100.0, 90.0, 10.0) == 100.0
    ensures RiskRewardRatio(100.0, 95.0, 115.0) == 3.0
    ensures RiskRewardRatio(100.0, 100.0, 120.0) == 0.0
  {
  }
}
