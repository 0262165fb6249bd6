/** The trade-log filter of `pages/TradeLogPage.tsx`: a free-text search and
    four drop-down/text filters combined by conjunction, the "active
    filters" test behind the Clear button, and the list of market types
    offered in the type drop-down. */
module TradeLog {
  import opened Trades
  import Seqs
  import Text

  /** The drop-down value that disables a filter. */
  const All: string := "All"

  datatype Filters = Filters(search: string, direction: string, marketType: string, strategy: string, mistake: string)

  /** The filters after the Clear button: every one of them off. */
  const Cleared: Filters := Filters("", All, All, "", All)

  /** The search box: an empty search matches everything; otherwise the
      lower-cased search must occur in the lower-cased symbol or strategy. */
  predicate MatchSearch(search: string, t: Trade)
  {
    search == ""
    || Text.Contains(Text.Lower(t.stockName), Text.Lower(search))
    || Text.Contains(Text.Lower(t.strategy), Text.Lower(search))
  }

  predicate MatchDirection(direction: string, t: Trade)
  {
    direction == All || t.direction == direction
  }

  predicate MatchType(marketType: string, t: Trade)
  {
    marketType == All || t.marketType.Name() == marketType
  }

  /** The strategy box: blank matches everything; otherwise the lower-cased,
      trimmed text must occur in the lower-cased strategy. */
  predicate MatchStrategy(strategy: string, t: Trade)
  {
    Text.Trim(strategy) == "" || Text.Contains(Text.Lower(t.strategy), Text.Trim(Text.Lower(strategy)))
  }

  predicate MatchMistake(mistake: string, t: Trade)
  {
    mistake == All || t.mistakeType == mistake
  }

  predicate Matches(f: Filters, t: Trade)
  {
    && MatchSearch(f.search, t)
    && MatchDirection(f.direction, t)
    && MatchType(f.marketType, t)
    && MatchStrategy(f.strategy, t)
    && MatchMistake(f.mistake, t)
  }

  function MatchesFn(f: Filters): Trade -> bool
  {
    (t: Trade) => Matches(f, t)
  }

  /** `filtered`: the trades the filters let through, in log order. */
  function Filtered(trades: seq<Trade>, f: Filters): (r: seq<Trade>)
    ensures forall t :: t in r <==> t in trades && Matches(f, t)
    ensures Seqs.IsSubseq(r, trades)
  {
    Seqs.FilterIsSubseq(trades, MatchesFn(f));
    Seqs.Filter(trades, MatchesFn(f))
  }

  /** `hasActiveFilters`: some filter is set. The filters are active exactly
      when some trade fails them: with none set every trade passes, and a set
      one rejects `Witness(f)`. A strategy box holding only white space does
      not count as set. */
  function HasActiveFilters(f: Filters): (r: bool)
    ensures !r ==> forall t :: Matches(f, t)
    ensures r ==> exists t :: !Matches(f, t)
  {
    var r := f.search != "" || f.direction != All || f.marketType != All || Text.Trim(f.strategy) != "" || f.mistake != All;
    assert r ==> !Matches(f, Witness(f)) by {
      if r {
        ActiveFilterRejectsWitness(f);
      }
    }
    r
  }

  /** A market type whose name differs from `name`. */
  function OtherMarketType(name: string): (m: MarketType)
    ensures m.Name() != name
  {
    if name == "cryptocurrency" then forex else cryptocurrency
  }

  /** A trade with empty symbol and strategy whose direction, type and
      mistake all differ from the filters' values. */
  function Witness(f: Filters): (t: Trade)
    ensures t.stockName == "" && t.strategy == ""
    ensures t.direction != f.direction && t.marketType.Name() != f.marketType && t.mistakeType != f.mistake
  {
    Trade(0, 0.0, OtherMarketType(f.marketType), f.direction + "x", "", "", 0, "", f.mistake + "x",
          false, 0.0, 0, 0.0, "", 0, 0.0, false, 0.0, 0.0)
  }

  /** Every filter that is set rejects the witness trade. */
  lemma ActiveFilterRejectsWitness(f: Filters)
    requires f.search != "" || f.direction != All || f.marketType != All || Text.Trim(f.strategy) != "" || f.mistake != All
    ensures !Matches(f, Witness(f))
  {
    var w := Witness(f);
    assert Text.Lower(w.stockName) == "" && Text.Lower(w.strategy) == "";
    if f.search != "" {
      assert !MatchSearch(f.search, w);
    } else if f.direction != All {
      assert !MatchDirection(f.direction, w);
    } else if f.marketType != All {
      assert !MatchType(f.marketType, w);
    } else if Text.Trim(f.strategy) != "" {
      Text.TrimEmptyIffBlank(f.strategy);
      Text.LowerBlank(f.strategy);
      Text.TrimEmptyIffBlank(Text.Lower(f.strategy));
      assert !MatchStrategy(f.strategy, w);
    } else {
      assert !MatchMistake(f.mistake, w);
    }
  }

  /** Without an active filter every trade is shown, in order. */
  lemma {:induction false} NoActiveFilterShowsAll(trades: seq<Trade>, f: Filters)
    requires !HasActiveFilters(f)
    ensures Filtered(trades, f) == trades
  {
    Seqs.FilterAll(trades, MatchesFn(f));
  }

  lemma TrimEmpty()
    ensures Text.Trim("") == ""
  {
    Text.TrimEmptyIffBlank("");
  }

  /** The Clear button turns every filter off. */
  lemma ClearedIsInactive()
    ensures !HasActiveFilters(Cleared)
  {
    var c := Filters("", All, All, "", All);
    assert Cleared == c;
    assert Text.Trim(c.strategy) == "";
    assert !HasActiveFilters(c);
  }

  /** After Clear every trade is shown. */
  lemma {:induction false} ClearShowsAll(trades: seq<Trade>)
    ensures Filtered(trades, Cleared) == trades
  {
    ClearedIsInactive();
    NoActiveFilterShowsAll(trades, Cleared);
  }

  /** Resetting any single filter can only enlarge the result: the result
      before is a subsequence of the result after. */
  lemma {:induction false} ResetEnlarges(trades: seq<Trade>, f: Filters)
    ensures Seqs.IsSubseq(Filtered(trades, f), Filtered(trades, f.(search := "")))
    ensures Seqs.IsSubseq(Filtered(trades, f), Filtered(trades, f.(direction := All)))
    ensures Seqs.IsSubseq(Filtered(trades, f), Filtered(trades, f.(marketType := All)))
    ensures Seqs.IsSubseq(Filtered(trades, f), Filtered(trades, f.(strategy := "")))
    ensures Seqs.IsSubseq(Filtered(trades, f), Filtered(trades, f.(mistake := All)))
  {
    TrimEmpty();
    Seqs.FilterMonotone(trades, MatchesFn(f), MatchesFn(f.(search := "")));
    Seqs.FilterMonotone(trades, MatchesFn(f), MatchesFn(f.(direction := All)));
    Seqs.FilterMonotone(trades, MatchesFn(f), MatchesFn(f.(marketType := All)));
    Seqs.FilterMonotone(trades, MatchesFn(f), MatchesFn(f.(strategy := "")));
    Seqs.FilterMonotone(trades, MatchesFn(f), MatchesFn(f.(mistake := All)));
  }

  /** A non-empty search matches exactly when it occurs, ignoring case, in
      the symbol or the strategy. */
  lemma {:induction false} SearchIsSubstringMatch(search: string, t: Trade)
    requires search != ""
    ensures MatchSearch(search, t) <==>
      || Text.IsSubstring(Text.Lower(search), Text.Lower(t.stockName))
      || Text.IsSubstring(Text.Lower(search), Text.Lower(t.strategy))
  {
    Text.ContainsIff(Text.Lower(t.stockName), Text.Lower(search));
    Text.ContainsIff(Text.Lower(t.strategy), Text.Lower(search));
  }

  /** A strategy filter of nothing but white space lets every trade through. */
  lemma BlankStrategyMatchesAll(strategy: string, t: Trade)
    requires Text.IsBlank(strategy)
    ensures MatchStrategy(strategy, t)
  {
    Text.TrimEmptyIffBlank(strategy);
  }

  /** A set drop-down is an exact comparison. */
  lemma DropDownsAreExact(f: Filters, t: Trade)
    ensures f.direction != All ==> (MatchDirection(f.direction, t) <==> t.direction == f.direction)
    ensures f.marketType != All ==> (MatchType(f.marketType, t) <==> t.marketType.Name() == f.marketType)
    ensures f.mistake != All ==> (MatchMistake(f.mistake, t) <==> t.mistakeType == f.mistake)
  {
  }

  // ---------------------------------------------------------------------------
  // tradeMarketTypes
  // ---------------------------------------------------------------------------

  function MarketNames(ts: seq<Trade>): (ns: seq<string>)
    ensures forall n :: n in ns <==> exists t :: t in ts && t.marketType.Name() == n
  {
    if |ts| == 0 then []
    else
      assert forall t :: t in ts <==> t == ts[0] || t in ts[1..];
      [ts[0].marketType.Name()] + MarketNames(ts[1..])
  }

  /** `tradeMarketTypes`: the distinct market types of the trades, each once. */
  function TradeMarketTypes(trades: seq<Trade>): (r: seq<string>)
    ensures Seqs.NoDup(r)
    ensures forall n :: n in r <==> exists t :: t in trades && t.marketType.Name() == n
  {
    Seqs.Dedup(MarketNames(trades))
  }
}
