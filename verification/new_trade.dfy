/** The logic of `pages/NewTradePage.tsx`: the live risk calculator with its
    colour thresholds, the live P&L preview, the conviction labels, and the
    submit handler's validation order and payload normalisation.

    The form's numeric text boxes reach the model already parsed
    (`parseFloat(x) || 0`, `parseInt(x) || 0`), and the date box already
    converted to milliseconds (`new Date(date).getTime()`), with `None`
    standing for the `NaN` of a date that does not parse: number and date
    parsing lie outside the model. */
module NewTrade {
  import opened Results
  import Trades
  import Metrics
  import Text

  // ---------------------------------------------------------------------------
  // RiskCalculator
  // ---------------------------------------------------------------------------

  datatype RiskFigures = RiskFigures(riskPerShare: real, riskAmount: real, rrRatio: real)

  /** The calculator's figures. Unlike the stored ratio these are signed: a
      stop above the entry gives a negative risk per share. */
  function RiskCalculator(entry: real, stopLoss: real, target: real, quantity: int): (c: RiskFigures)
    ensures !(entry > 0.0 && stopLoss > 0.0) ==> c == RiskFigures(0.0, 0.0, 0.0)
    ensures entry > 0.0 && stopLoss > 0.0 ==> c.riskPerShare == entry - stopLoss
    ensures c.riskAmount != 0.0 ==> quantity > 0 && c.riskAmount == c.riskPerShare * (quantity as real)
    ensures entry > 0.0 && stopLoss > 0.0 && quantity > 0 ==> c.riskAmount == (entry - stopLoss) * (quantity as real)
    ensures entry > 0.0 && stopLoss > 0.0 && target > 0.0 && entry != stopLoss ==>
      c.rrRatio * (entry - stopLoss) == target - entry
    ensures c.rrRatio != 0.0 ==>
      && entry > 0.0 && stopLoss > 0.0 && target > 0.0 && entry != stopLoss && target != entry
      && c.rrRatio * (entry - stopLoss) == target - entry
  {
    var riskPerShare := if entry > 0.0 && stopLoss > 0.0 then entry - stopLoss else 0.0;
    var riskAmount := if entry > 0.0 && stopLoss > 0.0 && quantity > 0 then riskPerShare * (quantity as real) else 0.0;
    var denominator := if entry > 0.0 && stopLoss > 0.0 then entry - stopLoss else 0.0;
    var rrRatio := if denominator != 0.0 && target > 0.0 && entry > 0.0 then (target - entry) / denominator else 0.0;
    RiskFigures(riskPerShare, riskAmount, rrRatio)
  }

  /** Up to sign, the calculator agrees with the per-trade metrics used when
      a trade is stored: the total risk with `calcRiskPerTrade`, the ratio
      with `calcRiskRewardRatio`. */
  lemma CalculatorAgreesWithMetrics(entry: real, stopLoss: real, target: real, quantity: int)
    requires entry > 0.0 && stopLoss > 0.0 && target > 0.0 && quantity > 0
    ensures Metrics.Abs(RiskCalculator(entry, stopLoss, target, quantity).riskAmount)
      == Metrics.RiskPerTrade(entry, stopLoss, quantity as real)
    ensures Metrics.Abs(RiskCalculator(entry, stopLoss, target, quantity).rrRatio)
      == Metrics.RiskRewardRatio(entry, stopLoss, target)
  {
    RiskAmountAgrees(entry - stopLoss, quantity as real);
    var d := entry - stopLoss;
    if d != 0.0 {
      var x := RiskCalculator(entry, stopLoss, target, quantity).rrRatio;
      var rr := Metrics.RiskRewardRatio(entry, stopLoss, target);
      AbsQuotient(x, d, target - entry);
      QuotientUnique(rr, Metrics.Abs(x), Metrics.Abs(d), Metrics.Abs(target - entry));
    }
  }

  lemma RiskAmountAgrees(d: real, q: real)
    requires q > 0.0
    ensures Metrics.Abs(d * q) == Metrics.Abs(d) * q
  {
    if d < 0.0 {
      assert d * q < 0.0;
    } else {
      assert d * q >= 0.0;
    }
  }

  lemma AbsQuotient(x: real, d: real, n: real)
    requires d != 0.0 && x * d == n
    ensures Metrics.Abs(x) * Metrics.Abs(d) == Metrics.Abs(n)
  {
    if x < 0.0 && d < 0.0 {
      assert n == (-x) * (-d);
    } else if x < 0.0 {
      assert -n == (-x) * d;
    } else if d < 0.0 {
      assert -n == x * (-d);
    }
  }

  lemma QuotientUnique(x: real, y: real, d: real, n: real)
    requires d > 0.0 && x * d == n && y * d == n
    ensures x == y
  {
    assert (x - y) * d == 0.0;
  }

  /** A long setup (stop below entry below target) shows a positive risk and
      a positive ratio. */
  lemma LongSetupIsPositive(entry: real, stopLoss: real, target: real, quantity: int)
    requires 0.0 < stopLoss < entry < target && quantity > 0
    ensures RiskCalculator(entry, stopLoss, target, quantity).riskAmount > 0.0
    ensures RiskCalculator(entry, stopLoss, target, quantity).rrRatio > 0.0
  {
    var d := entry - stopLoss;
    assert d * (quantity as real) > 0.0;
    assert (target - entry) / d > 0.0;
  }

  /** The colour a figure is shown in. */
  datatype Tone = Profit | Amber | Loss | Muted

  /** `riskClass`: a positive risk reads as a loss, a negative one as profit. */
  function RiskClass(riskAmount: real): (t: Tone)
    ensures t != Amber
    ensures t == Muted <==> riskAmount == 0.0
    ensures t == Loss <==> riskAmount > 0.0
    ensures t == Profit <==> riskAmount < 0.0
  {
    if riskAmount > 0.0 then Loss else if riskAmount < 0.0 then Profit else Muted
  }

  /** `rrClass`: 2 and up is good, from 1 to 2 is amber, below 1 is poor. */
  function RrClass(rrRatio: real): (t: Tone)
    ensures t != Muted
    ensures t == Profit <==> rrRatio >= 2.0
    ensures t == Amber <==> 1.0 <= rrRatio < 2.0
    ensures t == Loss <==> rrRatio < 1.0
  {
    if rrRatio >= 2.0 then Profit else if rrRatio >= 1.0 then Amber else Loss
  }

  function ToneRank(t: Tone): nat
  {
    match t
    case Loss => 0
    case Amber => 1
    case Profit => 2
    case Muted => 0
  }

  /** A better ratio never gets a worse colour, and the bands are [1, 2) for
      amber and [2, ∞) for profit. */
  lemma RrClassMonotone(a: real, b: real)
    requires a <= b
    ensures ToneRank(RrClass(a)) <= ToneRank(RrClass(b))
    ensures RrClass(a) == Amber <==> 1.0 <= a < 2.0
    ensures RrClass(a) == Profit <==> a >= 2.0
  {
  }

  // ---------------------------------------------------------------------------
  // livePnl
  // ---------------------------------------------------------------------------

  /** The P&L preview: shown only when entry, exit and quantity are all set. */
  function LivePnl(direction: string, entry: real, exit: real, quantity: int): (r: Option<real>)
    ensures r.Some? <==> entry > 0.0 && exit > 0.0 && quantity > 0
    ensures r.Some? ==> r.value == Metrics.Pnl(direction, entry, exit, quantity as real)
    ensures r.Some? ==> (r.value == 0.0 <==> exit == entry)
  {
    if entry > 0.0 && exit > 0.0 && quantity > 0 then Some(Metrics.Pnl(direction, entry, exit, quantity as real)) else None
  }

  // ---------------------------------------------------------------------------
  // conviction labels
  // ---------------------------------------------------------------------------

  /** The label next to the conviction stars. */
  function ConvictionLabel(level: int): (s: string)
    ensures s != ""
  {
    if level == 0 then "Not rated"
    else if level == 1 then "Very Low"
    else if level == 2 then "Low"
    else if level == 3 then "Medium"
    else if level == 4 then "High"
    else "Very High"
  }

  /** The labels of the levels 0 to 5, in order. */
  const Labels: seq<string> := ["Not rated", "Very Low", "Low", "Medium", "High", "Very High"]

  /** The chain of comparisons is the table lookup for 0 to 5, and every other
      level (negative ones included) reads "Very High". */
  lemma ConvictionLabelTable(level: int)
    ensures 0 <= level < |Labels| ==> ConvictionLabel(level) == Labels[level]
    ensures (level < 0 || level > 5) ==> ConvictionLabel(level) == "Very High"
  {
  }

  // ---------------------------------------------------------------------------
  // handleSubmit
  // ---------------------------------------------------------------------------

  /** The form as typed: text boxes as strings, the rest as chosen. */
  datatype Form = Form(
    stockName: string,
    marketType: Trades.MarketType,
    direction: string,
    entryPrice: string,
    exitPrice: string,
    stopLoss: string,
    target: string,
    quantity: string,
    isAPlusSetup: bool,
    emotion: string,
    convictionLevel: int,
    strategy: string,
    followedPlan: bool,
    mistakeType: string,
    notes: string)

  /** The numbers read from the text boxes, and the date in milliseconds
      (`None` when the date box does not hold a valid date). */
  datatype Parsed = Parsed(entry: real, exit: real, stopLoss: real, target: real, quantity: int, dateMs: Option<int>)

  /** Why nothing is sent. The first four are reported with a toast;
      `InvalidDate` is the `RangeError` that `BigInt(NaN)` throws after the
      checks, which the handler does not catch. */
  datatype SubmitError = NotLoggedIn | MissingSymbol | MissingNumbers | BadConviction | InvalidDate

  /** The object `handleSubmit` passes to `addTrade.mutateAsync`; its fields
      follow the backend's `addTrade` parameters in order. */
  datatype Payload = Payload(
    date: int,
    stockName: string,
    marketType: Trades.MarketType,
    direction: string,
    entryPrice: real,
    exitPrice: real,
    stopLoss: real,
    target: real,
    quantity: int,
    isAPlusSetup: bool,
    emotion: string,
    convictionLevel: int,
    strategy: string,
    followedPlan: bool,
    mistakeType: string,
    notes: string)

  /** The checks in the order the handler makes them; the first that fails
      is reported. */
  function Validate(loggedIn: bool, form: Form): (e: Option<SubmitError>)
    ensures e == Some(NotLoggedIn) <==> !loggedIn
    ensures e == Some(MissingSymbol) <==> loggedIn && Text.IsBlank(form.stockName)
    ensures e == Some(MissingNumbers) <==>
      loggedIn && !Text.IsBlank(form.stockName)
      && (form.entryPrice == "" || form.exitPrice == "" || form.quantity == "")
    ensures e == Some(BadConviction) <==>
      loggedIn && !Text.IsBlank(form.stockName)
      && form.entryPrice != "" && form.exitPrice != "" && form.quantity != ""
      && !(1 <= form.convictionLevel <= 5)
  {
    Text.TrimEmptyIffBlank(form.stockName);
    if !loggedIn then Some(NotLoggedIn)
    else if Text.Trim(form.stockName) == "" then Some(MissingSymbol)
    else if form.entryPrice == "" || form.exitPrice == "" || form.quantity == "" then Some(MissingNumbers)
    else if form.convictionLevel < 1 || form.convictionLevel > 5 then Some(BadConviction)
    else None
  }

  /** `handleSubmit`: either the first failed check, or the failed date
      conversion, (and nothing is sent) or the object handed to
      `addTrade.mutateAsync`. */
  function Submit(loggedIn: bool, form: Form, parsed: Parsed): (r: Result<Payload, SubmitError>)
    ensures r.Err? <==> Validate(loggedIn, form).Some? || parsed.dateMs.None?
    ensures Validate(loggedIn, form).Some? ==> r == Err(Validate(loggedIn, form).value)
    ensures Validate(loggedIn, form).None? && parsed.dateMs.None? ==> r == Err(InvalidDate)
    ensures r.Ok? ==>
      && r.value.stockName == Text.Trim(form.stockName) && r.value.stockName != ""
      && r.value.strategy == Text.Trim(form.strategy)
      && r.value.notes == Text.Trim(form.notes)
      && r.value.mistakeType == form.mistakeType
      && r.value.emotion == form.emotion && r.value.direction == form.direction
      && r.value.marketType == form.marketType
      && r.value.isAPlusSetup == form.isAPlusSetup && r.value.followedPlan == form.followedPlan
      && r.value.convictionLevel == form.convictionLevel && 1 <= r.value.convictionLevel <= 5
      && r.value.date == Metrics.MillisToNanos(parsed.dateMs.value)
      && r.value.entryPrice == parsed.entry && r.value.exitPrice == parsed.exit
      && r.value.stopLoss == parsed.stopLoss && r.value.target == parsed.target
      && r.value.quantity == parsed.quantity
  {
    match Validate(loggedIn, form)
    case Some(e) => Err(e)
    case None =>
      match parsed.dateMs
      case None => Err(InvalidDate)
      case Some(ms) =>
        Text.TrimEmptyIffBlank(form.stockName);
        Ok(Payload(
          Metrics.MillisToNanos(ms),
          Text.Trim(form.stockName),
          form.marketType,
          form.direction,
          parsed.entry,
          parsed.exit,
          parsed.stopLoss,
          parsed.target,
          parsed.quantity,
          form.isAPlusSetup,
          form.emotion,
          form.convictionLevel,
          Text.Trim(form.strategy),
          form.followedPlan,
          form.mistakeType,
          Text.Trim(form.notes)))
  }

  /** The submitted text fields are already normalised, and the stored date
      reads back as the chosen millisecond. */
  lemma SubmittedPayloadIsNormal(loggedIn: bool, form: Form, parsed: Parsed)
    requires Submit(loggedIn, form, parsed).Ok?
    ensures var p := Submit(loggedIn, form, parsed).value;
      && Text.Trim(p.stockName) == p.stockName
      && Text.Trim(p.strategy) == p.strategy
      && Text.Trim(p.notes) == p.notes
      && Metrics.NanosToMillis(p.date) == parsed.dateMs.value
  {
    Text.TrimIdempotent(form.stockName);
    Text.TrimIdempotent(form.strategy);
    Text.TrimIdempotent(form.notes);
    Metrics.MillisRoundTrip(parsed.dateMs.value);
  }
}
