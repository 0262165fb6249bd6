/** The daily-loss check of `pages/RiskManagementPage.tsx`: the loss limit
    as an amount, the day's P&L as a percentage of the account, and whether
    the limit is breached. */
module RiskManagement {
  import opened Results

  /** The backend's `getRiskStatus` answer. */
  datatype RiskStatus = RiskStatus(totalPnl: real, accountSize: real, dailyMaxLoss: real)

  datatype RiskView = RiskView(pnl: real, maxLoss: real, accSize: real, maxLossAmount: real, pnlPercent: real, isOverLimit: bool)

  const DefaultPnl: real := 0.0
  const DefaultMaxLossPercent: real := 20.0
  const DefaultAccountSize: real := 1000.0

  /** The figures the page shows; an absent status (still loading, or the
      query failed) falls back to the defaults. */
  function Evaluate(status: Option<RiskStatus>): (v: RiskView)
    ensures status.None? ==> v.pnl == DefaultPnl && v.maxLoss == DefaultMaxLossPercent && v.accSize == DefaultAccountSize
    ensures status.Some? ==>
      v.pnl == status.value.totalPnl && v.maxLoss == status.value.dailyMaxLoss && v.accSize == status.value.accountSize
    ensures v.maxLossAmount * 100.0 == v.accSize * v.maxLoss
    ensures v.accSize <= 0.0 ==> v.pnlPercent == 0.0
    ensures v.accSize > 0.0 ==> v.pnlPercent * v.accSize == v.pnl * 100.0
    ensures v.isOverLimit <==> v.pnl + v.maxLossAmount < 0.0
  {
    var pnl := if status.Some? then status.value.totalPnl else DefaultPnl;
    var maxLoss := if status.Some? then status.value.dailyMaxLoss else DefaultMaxLossPercent;
    var accSize := if status.Some? then status.value.accountSize else DefaultAccountSize;
    var maxLossAmount := accSize * maxLoss / 100.0;
    var pnlPercent := if accSize > 0.0 then pnl / accSize * 100.0 else 0.0;
    RiskView(pnl, maxLoss, accSize, maxLossAmount, pnlPercent, pnl < -maxLossAmount)
  }

  /** Losing exactly the limit is not yet a breach; losing any more is. */
  lemma BoundaryIsNotBreach(accSize: real, maxLoss: real, pnl: real)
    ensures !Evaluate(Some(RiskStatus(-(accSize * maxLoss / 100.0), accSize, maxLoss))).isOverLimit
    ensures pnl < -(accSize * maxLoss / 100.0) ==> Evaluate(Some(RiskStatus(pnl, accSize, maxLoss))).isOverLimit
  {
  }

  /** With a non-negative account and limit, a day without a loss is never
      a breach. */
  lemma NoLossNoBreach(status: RiskStatus)
    requires status.accountSize >= 0.0 && status.dailyMaxLoss >= 0.0 && status.totalPnl >= 0.0
    ensures !Evaluate(Some(status)).isOverLimit
  {
    var v := Evaluate(Some(status));
    assert v.maxLossAmount * 100.0 >= 0.0;
  }

  /** With the settings fixed, a lower P&L never clears a breach. */
  lemma BreachMonotone(accSize: real, maxLoss: real, pnl: real, lower: real)
    requires lower <= pnl
    requires Evaluate(Some(RiskStatus(pnl, accSize, maxLoss))).isOverLimit
    ensures Evaluate(Some(RiskStatus(lower, accSize, maxLoss))).isOverLimit
  {
  }

  /** A 1000 account with a 2% limit has a 20 loss allowance: down 25 is a
      breach, down 15 is not; with no status the allowance is 200. */
  lemma Examples()
    ensures Evaluate(Some(RiskStatus(-25.0, 1000.0, 2.0))).isOverLimit
    ensures !Evaluate(Some(RiskStatus(-15.0, 1000.0, 2.0))).isOverLimit
    ensures Evaluate(Some(RiskStatus(-25.0, 1000.0, 2.0))).maxLossAmount == 20.0
    ensures Evaluate(None).maxLossAmount == 200.0 && !Evaluate(None).isOverLimit
    ensures Evaluate(Some(RiskStatus(50.0, 0.0, 2.0))).pnlPercent == 0.0
  {
  }
}
