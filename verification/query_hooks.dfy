/** The argument list `useAddTrade` (`hooks/useQueries.ts`) builds from the
    object the new-trade page submits, checked against the positional
    signature of the backend's `addTrade` (`backend.d.ts`). The hook as
    written reads a `tradeType` field the page never sets and skips
    `strategy`, so it passes 15 arguments to a 16-parameter call; the
    corrected hook passes the object's fields in parameter order. */
module QueryHooks {
  import opened Results
  import Trades
  import NewTrade

  /** A JavaScript value in one argument position. `Undefined` is what
      reading a missing property yields. */
  datatype Arg = Undefined | Big(i: int) | Num(x: real) | Str(s: string) | Bool(b: bool) | Market(m: Trades.MarketType)

  /** The declared type of one parameter. */
  datatype Kind = BigKind | NumKind | StrKind | BoolKind | MarketKind

  /** The parameter types of `addTrade`, in order: date, stockName,
      marketType, direction, entryPrice, exitPrice, stopLoss, target,
      quantity, isAPlusSetup, emotion, convictionLevel, strategy,
      followedPlan, mistakeType, notes. */
  const AddTradeKinds: seq<Kind> :=
    [BigKind, StrKind, MarketKind, StrKind, NumKind, NumKind, NumKind, NumKind,
     BigKind, BoolKind, StrKind, BigKind, StrKind, BoolKind, StrKind, StrKind]

  predicate HasKind(a: Arg, k: Kind)
  {
    match k
    case BigKind => a.Big?
    case NumKind => a.Num?
    case StrKind => a.Str?
    case BoolKind => a.Bool?
    case MarketKind => a.Market?
  }

  /** The argument list fits the declared signature: one argument per
      parameter, each of the parameter's type. */
  predicate FitsAddTrade(args: seq<Arg>)
  {
    |args| == |AddTradeKinds| && forall i :: 0 <= i < |args| ==> HasKind(args[i], AddTradeKinds[i])
  }

  /** The backend's view of a call: the trade fields bound to the
      parameters, or `None` when the arguments do not fit the signature. */
  function BindAddTrade(args: seq<Arg>): (r: Option<NewTrade.Payload>)
    ensures r.Some? <==> FitsAddTrade(args)
  {
    if FitsAddTrade(args) then
      assert HasKind(args[0], AddTradeKinds[0]) && HasKind(args[1], AddTradeKinds[1]);
      assert HasKind(args[2], AddTradeKinds[2]) && HasKind(args[3], AddTradeKinds[3]);
      assert HasKind(args[4], AddTradeKinds[4]) && HasKind(args[5], AddTradeKinds[5]);
      assert HasKind(args[6], AddTradeKinds[6]) && HasKind(args[7], AddTradeKinds[7]);
      assert HasKind(args[8], AddTradeKinds[8]) && HasKind(args[9], AddTradeKinds[9]);
      assert HasKind(args[10], AddTradeKinds[10]) && HasKind(args[11], AddTradeKinds[11]);
      assert HasKind(args[12], AddTradeKinds[12]) && HasKind(args[13], AddTradeKinds[13]);
      assert HasKind(args[14], AddTradeKinds[14]) && HasKind(args[15], AddTradeKinds[15]);
      Some(NewTrade.Payload(
        args[0].i, args[1].s, args[2].m, args[3].s, args[4].x, args[5].x, args[6].x, args[7].x,
        args[8].i, args[9].b, args[10].s, args[11].i, args[12].s, args[13].b, args[14].s, args[15].s))
    else None
  }

  /** `useAddTrade` as written: `params.tradeType` is read where the market
      type belongs and `params.strategy` is never read. */
  function AddTradeArgsAsWritten(p: NewTrade.Payload): (r: seq<Arg>)
    ensures |r| == |AddTradeKinds| - 1
  {
    [Big(p.date), Str(p.stockName), Undefined, Str(p.direction),
     Num(p.entryPrice), Num(p.exitPrice), Num(p.stopLoss), Num(p.target),
     Big(p.quantity), Bool(p.isAPlusSetup), Str(p.emotion), Big(p.convictionLevel),
     Bool(p.followedPlan), Str(p.mistakeType), Str(p.notes)]
  }

  /** No submitted trade reaches the backend through the hook as written:
      one argument is missing, the market type is undefined, and from the
      strategy position on every argument sits one place early, so the
      followed-plan flag lands where the strategy text is expected. */
  lemma AsWrittenNeverFits(p: NewTrade.Payload)
    ensures !FitsAddTrade(AddTradeArgsAsWritten(p))
    ensures BindAddTrade(AddTradeArgsAsWritten(p)) == None
    ensures AddTradeArgsAsWritten(p)[2] == Undefined && AddTradeKinds[2] == MarketKind
    ensures AddTradeArgsAsWritten(p)[12] == Bool(p.followedPlan) && AddTradeKinds[12] == StrKind
  {
  }

  /** The corrected hook: every field of the submitted object, in the
      order of the backend's parameters. */
  function AddTradeArgs(p: NewTrade.Payload): (r: seq<Arg>)
    ensures FitsAddTrade(r)
  {
    [Big(p.date), Str(p.stockName), Market(p.marketType), Str(p.direction),
     Num(p.entryPrice), Num(p.exitPrice), Num(p.stopLoss), Num(p.target),
     Big(p.quantity), Bool(p.isAPlusSetup), Str(p.emotion), Big(p.convictionLevel),
     Str(p.strategy), Bool(p.followedPlan), Str(p.mistakeType), Str(p.notes)]
  }

  /** The backend binds exactly the submitted object through the corrected
      hook. */
  lemma AddTradeArgsRoundTrip(p: NewTrade.Payload)
    ensures BindAddTrade(AddTradeArgs(p)) == Some(p)
  {
  }

  /** Every argument list that fits the signature is the corrected hook's
      list for the trade the backend binds, so no two trades share one. */
  lemma {:induction false} AddTradeArgsCoverFits(args: seq<Arg>)
    requires FitsAddTrade(args)
    ensures AddTradeArgs(BindAddTrade(args).value) == args
  {
    var q := AddTradeArgs(BindAddTrade(args).value);
    forall i | 0 <= i < 16
      ensures q[i] == args[i]
    {
      assert HasKind(args[i], AddTradeKinds[i]);
    }
  }

  /** Whatever the new-trade page submits reaches the backend unchanged
      through the corrected hook. */
  lemma SubmitReachesBackend(loggedIn: bool, form: NewTrade.Form, parsed: NewTrade.Parsed)
    requires NewTrade.Submit(loggedIn, form, parsed).Ok?
    ensures BindAddTrade(AddTradeArgs(NewTrade.Submit(loggedIn, form, parsed).value))
            == Some(NewTrade.Submit(loggedIn, form, parsed).value)
  {
    AddTradeArgsRoundTrip(NewTrade.Submit(loggedIn, form, parsed).value);
  }
}
