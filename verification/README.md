# Trading journal: the front end's calculations in Dafny

The trading journal is a React front end over a backend that stores trades.
The front end holds a set of pure calculations over the list of trades, and
those are modelled here. The model covers:

- the per-trade metrics and the timestamp scaling of `lib/tradeUtils.ts`;
- the overall and monthly statistics;
- the dashboard's stats card, recent trades, recent months and the seven-day P&L chart;
- the analytics page's monthly, emotion, direction and mistake series;
- the daily-loss check of the risk page;
- the trade-log filter;
- the new-trade form: the live risk calculator, the P&L preview, the conviction labels, and submit validation and payload;
- the argument list `useAddTrade` passes on to the backend's `addTrade`;
- the strategy box's suggestions and keyboard handling;
- the CSV export.

Prices and P&L are `real`. Ids, timestamps, quantities and conviction levels
are `int`. A trade is the backend's record (`Trades.Trade`). Anything the
code leaves to the JavaScript runtime is a parameter of the model. That
covers a timestamp's calendar month and day, today's date, parsing the
form's text boxes, and number-to-text formatting.

Modules, in dependency order:

| file | module | models |
|---|---|---|
| wrappers.dfy | `Results` | `Option` and `Result` |
| seqs.dfy | `Seqs` | `filter`, `reduce`, `slice`, `reverse`, `Set` de-duplication, the stable `sort` |
| text.dfy | `Text` | `toLowerCase` (ASCII letters), `trim`, `includes` |
| trades.dfy | `Trades` | the trade record; wins and losses |
| metrics.dfy | `Metrics` | `calcRiskPerTrade`, `calcRiskRewardRatio`, `calcPnl`, timestamp scaling |
| grouping.dfy | `Grouping` | count and sum by key; partition lemmas |
| monthly_stats.dfy | `MonthlyStats` | `getMonthlyStats` |
| trade_stats.dfy | `TradeStats` | `getTradeStats` |
| analytics.dfy | `Analytics` | `monthlyData`, `emotionData`, `directionData`, `mistakeData` |
| dashboard.dfy | `Dashboard` | `stats`, `recentTrades`, `monthlyStats`, `PnLChart` |
| risk.dfy | `RiskManagement` | the daily-loss evaluation |
| trade_log.dfy | `TradeLog` | `filtered`, `hasActiveFilters`, Clear, `tradeMarketTypes` |
| new_trade.dfy | `NewTrade` | `RiskCalculator`, `livePnl`, conviction labels, `handleSubmit` |
| query_hooks.dfy | `QueryHooks` | `useAddTrade`'s call to `addTrade`, as written and corrected |
| autocomplete.dfy | `StrategyAutocomplete` | `abbreviationMatch`, `suggestions`, `handleKeyDown` |
| csv.dfy | `CsvExport` | `exportToCsv`, plus an RFC 4180 line reader used to state what the file means |

## Model

| member | source | states |
|---|---|---|
| Metrics.RiskPerTrade | frontend/src/lib/tradeUtils.ts:3-5 | the risk is non-negative for a non-negative size, and zero exactly when entry equals stop or the size is zero |
| Metrics.RiskPerTradeSymmetric | frontend/src/lib/tradeUtils.ts:3-5 | swapping entry and stop leaves the risk unchanged |
| Metrics.RiskRewardRatio | frontend/src/lib/tradeUtils.ts:7-11 | the ratio is never negative; a zero risk gives 0; otherwise ratio times the risk distance is the reward distance |
| Metrics.Pnl | frontend/src/lib/tradeUtils.ts:13-19 | with a positive size, the P&L is positive exactly when the price moved the position's way ("Buy" long, anything else short), and zero exactly when exit equals entry |
| Metrics.PnlShortMirrorsLong | frontend/src/lib/tradeUtils.ts:13-19 | every non-"Buy" direction gives the negation of the "Buy" P&L, the same as "Sell" |
| Metrics.NanosToMillis | frontend/src/lib/tradeUtils.ts:34-36 | the millisecond count brackets the nanosecond timestamp, rounding toward zero |
| Metrics.MillisToNanos | frontend/src/lib/tradeUtils.ts:40-43 | the nanosecond timestamp is a whole number of milliseconds |
| Metrics.MillisRoundTrip | frontend/src/lib/tradeUtils.ts:34-43 | scaling milliseconds up and back gives the same count |
| Metrics.NanosRoundTrip | frontend/src/lib/tradeUtils.ts:34-43 | scaling a timestamp down and back up gives it back exactly when it is a whole millisecond |
| Trades.WinRate | frontend/src/lib/tradeUtils.ts:60 | the win rate lies in [0, 100], is 0 exactly without wins and 100 exactly when every trade wins, and is the wins' share of the total in percent |
| Seqs.SortDesc | frontend/src/lib/tradeUtils.ts:64 | the descending sort is a permutation of its input ordered by non-increasing key |
| Seqs.SortIsStable | frontend/src/lib/tradeUtils.ts:64 | among elements of equal key the sort keeps input order, as `Array.prototype.sort` does |
| TradeStats.GetTradeStats | frontend/src/lib/tradeUtils.ts:45-99 | an empty list gives zero counters and no best or worst trade; otherwise the total count, the win rate of the `pnl > 0` trades over all trades (in [0, 100]), the mean stored ratio, the P&L sum, the first maximum and last minimum, and the two streaks |
| TradeStats.BestTrade | frontend/src/lib/tradeUtils.ts:64-65 | the best trade is the first trade of maximal P&L in list order, as the stable descending sort puts it first |
| TradeStats.WorstTrade | frontend/src/lib/tradeUtils.ts:64-66 | the worst trade is the last trade of minimal P&L in list order |
| TradeStats.AverageRiskReward | frontend/src/lib/tradeUtils.ts:61 | the average times the number of trades is the summed stored ratio, and it is non-negative when every ratio is |
| TradeStats.BestAndWorstBound | frontend/src/lib/tradeUtils.ts:64-66 | the best trade's P&L bounds every P&L from above, and the worst trade's from below |
| TradeStats.MostRecentFirst | frontend/src/lib/tradeUtils.ts:69 | the date-descending order is a permutation of the trades with dates non-increasing |
| TradeStats.WinStreak | frontend/src/lib/tradeUtils.ts:69-79 | the win streak is the length of the leading run of `pnl > 0` in date-descending order |
| TradeStats.LossStreak | frontend/src/lib/tradeUtils.ts:81-87 | the loss streak is the length of the leading run of `pnl <= 0` in date-descending order |
| TradeStats.StreaksExclusive | frontend/src/lib/tradeUtils.ts:69-87 | for a non-empty list exactly one streak is positive, and the two add up to at most the total |
| MonthlyStats.MonthKeys | frontend/src/lib/tradeUtils.ts:102-113 | the month keys are strictly ascending, and a key occurs exactly when some trade falls in that month |
| MonthlyStats.Bucket | frontend/src/lib/tradeUtils.ts:117-122 | a bucket has its month's trade count and P&L sum; wins count its `pnl > 0` trades and losses its `pnl <= 0` trades, which add up to the total; the win rate is wins over total in percent, in [0, 100] |
| MonthlyStats.BucketCountsTrades | frontend/src/lib/tradeUtils.ts:104-119 | the total, wins and losses are the sizes of the month's trades filtered by month, by month and `pnl > 0`, and by month and `pnl <= 0` |
| Grouping.CountKeyIsFilter | frontend/src/lib/tradeUtils.ts:104-113 | a group's count is the number of trades that carry its key |
| Grouping.CountKeyWhereIsFilter | frontend/src/lib/tradeUtils.ts:118-119 | a restricted count is the number of trades that carry the key and satisfy the predicate |
| MonthlyStats.GetMonthlyStats | frontend/src/lib/tradeUtils.ts:101-124 | buckets are strictly descending by month, one per month that has trades; each is non-empty and is that month's bucket (count, wins, losses, win rate, net P&L) |
| MonthlyStats.MonthlyStatsPartition | frontend/src/lib/tradeUtils.ts:101-124 | the bucket totals add up to the number of trades, and the bucket P&Ls to the total P&L |
| Analytics.MonthlyData | frontend/src/pages/AnalyticsPage.tsx:34-48 | the monthly series is strictly ascending by month, one entry per month that has trades, each that month's bucket |
| Analytics.MonthlyDataReversesMonthlyStats | frontend/src/pages/AnalyticsPage.tsx:34-48 | the ascending series is exactly the descending monthly statistics reversed; counts add up to the number of trades; wins never exceed trades |
| Analytics.EmotionEntryOf | frontend/src/pages/AnalyticsPage.tsx:57-61 | an entry's count is its emotion's trade count, and its average times that count is the emotion's P&L sum |
| Analytics.EmotionData | frontend/src/pages/AnalyticsPage.tsx:50-62 | one entry per distinct emotion among the trades; each count is at least 1, so the average never divides by zero |
| Analytics.EmotionCountsPartition | frontend/src/pages/AnalyticsPage.tsx:50-62 | the counts add up to the number of trades, and average times count adds up to the total P&L |
| Analytics.DirectionData | frontend/src/pages/AnalyticsPage.tsx:64-71 | at most two entries, only "Buy" and "Sell", each positive; an entry is present exactly when some trade has that direction, with the matching count; Buy comes before Sell, so a present Buy entry sits at index 0, the slice the chart colours green |
| Analytics.DirectionCounts | frontend/src/pages/AnalyticsPage.tsx:64-66 | "Buy", "Sell" and the other directions partition the trades |
| Analytics.DirectionSplitSkipsOthers | frontend/src/pages/AnalyticsPage.tsx:64-71 | the series' values plus the trades of any other direction make up all trades |
| Analytics.MistakeTypes | frontend/src/pages/AnalyticsPage.tsx:73-79 | the mistake types listed are exactly the non-empty mistake types of the trades |
| Analytics.MistakeCounts | frontend/src/pages/AnalyticsPage.tsx:73-79 | the entries' names are the distinct non-empty mistake types in first-seen order; each carries the number of trades with that mistake (at least 1) |
| Analytics.MistakeData | frontend/src/pages/AnalyticsPage.tsx:73-84 | at most 8 entries with distinct names, each a correct count of a non-empty mistake, with counts non-increasing |
| Analytics.MistakeDataKeepsMostFrequent | frontend/src/pages/AnalyticsPage.tsx:80-83 | a mistake left out of the chart means the chart is full and every shown count is at least the omitted one |
| Analytics.MistakeTiesKeepFirstSeenOrder | frontend/src/pages/AnalyticsPage.tsx:80-82 | mistakes with equal counts keep their first-seen order through the sort, and those shown of a given count are the first-seen ones of that count |
| Dashboard.GrossProfit | frontend/src/pages/DashboardPage.tsx:202 | the gross profit is never negative |
| Dashboard.GrossLoss | frontend/src/pages/DashboardPage.tsx:203 | the gross loss is never negative |
| Dashboard.ProfitFactor | frontend/src/pages/DashboardPage.tsx:204 | the factor is never negative; with a loss it times the loss is the profit; without a loss it is 999 if there is profit and 0 if not |
| Dashboard.GetDashStats | frontend/src/pages/DashboardPage.tsx:193-212 | an empty list gives all zeros; otherwise the count, the win rate of the `pnl > 0` trades (in [0, 100]), the P&L sum, the mean stored ratio and the profit factor of gross profit and loss |
| Dashboard.WinsLossesBreakeven | frontend/src/pages/DashboardPage.tsx:197-198 | wins (`pnl > 0`), losses (`pnl < 0`) and breakeven trades partition the list |
| Dashboard.NetIsProfitMinusLoss | frontend/src/pages/DashboardPage.tsx:199-203 | the net P&L is gross profit minus gross loss |
| Dashboard.ProfitFactorAboveOne | frontend/src/pages/DashboardPage.tsx:204 | the factor exceeds 1 exactly when profit exceeds loss |
| Dashboard.ProfitFactorAboveOneIffProfitable | frontend/src/pages/DashboardPage.tsx:199-204 | the factor exceeds 1 exactly when the net P&L is positive |
| Dashboard.RecentTrades | frontend/src/pages/DashboardPage.tsx:214 | at most five trades: the last ones of the list, newest first |
| Dashboard.RecentTradesAreTheTail | frontend/src/pages/DashboardPage.tsx:214 | reversed, the recent trades are exactly the tail of the list |
| Dashboard.RecentMonths | frontend/src/pages/DashboardPage.tsx:216-230 | at most three buckets, strictly descending by month, each a month with trades and equal to that month's bucket, so with its count, wins and net P&L |
| Dashboard.RecentMonthsAreTheNewest | frontend/src/pages/DashboardPage.tsx:226-228 | a month with trades is left out only when three newer months are shown |
| Dashboard.Window | frontend/src/pages/DashboardPage.tsx:72-82 | the window is the seven consecutive days ending today |
| Dashboard.PnlChart | frontend/src/pages/DashboardPage.tsx:70-91 | seven bars; each bar is the P&L of the trades on that day |
| Dashboard.FindIndex | frontend/src/pages/DashboardPage.tsx:87 | the index is that of the first occurrence of the day, and -1 exactly when the day is not in the window |
| Dashboard.ChartTotalIsWindowPnl | frontend/src/pages/DashboardPage.tsx:84-97 | the bars add up to the P&L of the trades inside the window; trades outside add nothing |
| Dashboard.MaxAbs | frontend/src/pages/DashboardPage.tsx:96 | the scale is at least 1, bounds every bar's magnitude, and is attained by a bar unless it is 1 |
| RiskManagement.Evaluate | frontend/src/pages/RiskManagementPage.tsx:80-85 | defaults 0 / 20 / 1000 without a status; the loss allowance is that percentage of the account; the percentage is 0 for a non-positive account; a breach is a P&L below minus the allowance |
| RiskManagement.BoundaryIsNotBreach | frontend/src/pages/RiskManagementPage.tsx:85 | losing exactly the allowance is not a breach; losing more is |
| RiskManagement.NoLossNoBreach | frontend/src/pages/RiskManagementPage.tsx:83-85 | with a non-negative account and limit, a non-negative P&L is never a breach |
| RiskManagement.BreachMonotone | frontend/src/pages/RiskManagementPage.tsx:85 | with the settings fixed, a lower P&L never clears a breach |
| RiskManagement.Examples | frontend/src/pages/RiskManagementPage.tsx:80-85 | 1000 at 2% breaches at -25 and not at -15; the default allowance is 200 |
| Text.TrimIdempotent | frontend/src/pages/NewTradePage.tsx:193 | trimming twice is trimming once |
| Text.Trim | frontend/src/pages/NewTradePage.tsx:194 | the result is the text with blank runs removed from both ends: it occurs in the text with only white space before and after, and neither starts nor ends with white space |
| Text.Lower | frontend/src/pages/TradeLogPage.tsx:80 | the result has the text's length and each character lower-cased |
| Text.ContainsIff | frontend/src/pages/TradeLogPage.tsx:78-81 | the scanning `includes` answers yes exactly when the text occurs at some position |
| TradeLog.Filtered | frontend/src/pages/TradeLogPage.tsx:75-90 | the shown trades are exactly those that pass all five filters, in log order |
| TradeLog.HasActiveFilters | frontend/src/pages/TradeLogPage.tsx:105-110 | the filters count as active exactly when some trade fails them: with none active every trade passes, and an active one hides at least one trade; a strategy box holding only white space is not active, because of the trim |
| TradeLog.ActiveFilterRejectsWitness | frontend/src/pages/TradeLogPage.tsx:75-90 | each filter that is set hides a trade with empty symbol and strategy and with direction, type and mistake unlike the chosen ones; for the strategy box this rests on a non-blank entry staying non-blank after lower-casing and trimming |
| Text.LowerBlank | frontend/src/pages/TradeLogPage.tsx:85-86 | lower-casing keeps a text blank or non-blank, so trimming before or after lower-casing agrees on emptiness |
| TradeLog.NoActiveFilterShowsAll | frontend/src/pages/TradeLogPage.tsx:75-110 | with no filter active every trade is shown, in order |
| TradeLog.ClearShowsAll | frontend/src/pages/TradeLogPage.tsx:183-189 | after Clear every trade is shown |
| TradeLog.ResetEnlarges | frontend/src/pages/TradeLogPage.tsx:75-90 | resetting any one filter can only add trades, keeping their order |
| TradeLog.SearchIsSubstringMatch | frontend/src/pages/TradeLogPage.tsx:78-81 | a non-empty search matches exactly when it occurs, ignoring ASCII case, in the symbol or the strategy |
| TradeLog.BlankStrategyMatchesAll | frontend/src/pages/TradeLogPage.tsx:84-86 | a strategy filter of only white space lets every trade through |
| TradeLog.DropDownsAreExact | frontend/src/pages/TradeLogPage.tsx:82-87 | a direction, type or mistake filter other than "All" is an exact comparison |
| TradeLog.TradeMarketTypes | frontend/src/pages/TradeLogPage.tsx:69-73 | the type list has no duplicates and holds exactly the trades' market types |
| NewTrade.RiskCalculator | frontend/src/pages/NewTradePage.tsx:91-97 | all figures are 0 unless entry and stop are positive; then the signed risk per share is entry minus stop, and with a positive quantity the total risk is that times the quantity; with a positive target and entry unequal to stop, ratio times (entry minus stop) is target minus entry; a non-zero ratio implies those conditions, so it is never a division by zero |
| NewTrade.CalculatorAgreesWithMetrics | frontend/src/pages/NewTradePage.tsx:91-97 | with all inputs positive, the calculator's figures are the stored risk and ratio up to sign |
| NewTrade.LongSetupIsPositive | frontend/src/pages/NewTradePage.tsx:91-97 | a stop below the entry and a target above it give a positive risk and a positive ratio |
| NewTrade.RiskClass | frontend/src/pages/NewTradePage.tsx:99 | a positive risk is shown as a loss, a negative one as profit, zero muted; never amber |
| NewTrade.RrClass | frontend/src/pages/NewTradePage.tsx:100 | a ratio of 2 and up is shown as profit, [1, 2) amber, below 1 as a loss; never muted |
| NewTrade.RrClassMonotone | frontend/src/pages/NewTradePage.tsx:100 | a better ratio never gets a worse colour; amber is [1, 2) and profit is 2 and up |
| NewTrade.LivePnl | frontend/src/pages/NewTradePage.tsx:162 | the preview exists exactly when entry, exit and quantity are positive, and is then the trade's P&L |
| NewTrade.ConvictionLabel | frontend/src/pages/NewTradePage.tsx:64-74 | every level has a non-empty label |
| NewTrade.ConvictionLabelTable | frontend/src/pages/NewTradePage.tsx:64-74 | levels 0 to 5 read "Not rated" to "Very High" in order; any other level reads "Very High" |
| NewTrade.Validate | frontend/src/pages/NewTradePage.tsx:171-186 | each error is reported exactly when its check fails and every earlier check passed |
| NewTrade.Submit | frontend/src/pages/NewTradePage.tsx:169-209 | a failed check sends nothing and reports that check; after the checks an unparsable date sends nothing; otherwise the payload has the trimmed symbol (never empty), strategy and notes, the untrimmed mistake, emotion and direction, the chosen market type, A+ and followed-plan flags and conviction (in [1, 5]), the parsed numbers and the date in nanoseconds |
| NewTrade.SubmittedPayloadIsNormal | frontend/src/pages/NewTradePage.tsx:188-208 | the submitted text fields are already trimmed, and the stored date reads back as the chosen millisecond |
| QueryHooks.BindAddTrade | frontend/src/backend.d.ts:61 | the backend binds a trade exactly when the arguments fit the declared 16-parameter signature, one argument of the declared type per parameter |
| QueryHooks.AsWrittenNeverFits | frontend/src/hooks/useQueries.ts:53-69 | the hook as written passes 15 arguments, an undefined market type, and the followed-plan flag where the strategy text belongs, so no submitted trade binds |
| QueryHooks.AddTradeArgs | frontend/src/backend.d.ts:61 | the corrected hook's arguments always fit the signature |
| QueryHooks.AddTradeArgsRoundTrip | frontend/src/pages/NewTradePage.tsx:192-209 | through the corrected hook the backend binds exactly the object the page submits |
| QueryHooks.AddTradeArgsCoverFits | frontend/src/backend.d.ts:61 | every fitting argument list is the corrected hook's list for the trade it binds, so the encoding is one-to-one |
| QueryHooks.SubmitReachesBackend | frontend/src/pages/NewTradePage.tsx:169-209 | every object `handleSubmit` sends reaches the backend unchanged through the corrected hook |
| StrategyAutocomplete.Words | frontend/src/components/StrategyAutocomplete.tsx:18 | every word of the split is non-empty and free of separators |
| StrategyAutocomplete.AbbreviationMatch | frontend/src/components/StrategyAutocomplete.tsx:16-21 | an empty query never matches; otherwise the lower-cased query must occur in the initials found by a left-to-right scan |
| StrategyAutocomplete.InitialsAreFirstLetters | frontend/src/components/StrategyAutocomplete.tsx:18-19 | the scan's initials equal the joined first letters of the split words |
| StrategyAutocomplete.AbbreviationExample | frontend/src/components/StrategyAutocomplete.tsx:12-21 | "sr" abbreviates "Support & Resistance" |
| StrategyAutocomplete.Suggestions | frontend/src/components/StrategyAutocomplete.tsx:38-45 | a blank box offers the first eight strategies in order; otherwise the suggestions are exactly the strategies containing the query or abbreviating to it, in saved order |
| StrategyAutocomplete.OwnNameIsSuggested | frontend/src/components/StrategyAutocomplete.tsx:40-44 | typing a saved strategy's name suggests it |
| StrategyAutocomplete.KeyDown | frontend/src/components/StrategyAutocomplete.tsx:76-106 | Enter picks exactly when the list is open and a row is highlighted, and then only closes the list, keeping the highlight; Enter with no row highlighted and any other key on an open list change nothing; ArrowDown on a closed non-empty list opens it on the first row; Escape on an open list closes it without a highlight; otherwise a closed or empty list is left as it is |
| StrategyAutocomplete.KeyDownKeepsRange | frontend/src/components/StrategyAutocomplete.tsx:86-94 | keys keep the highlight in [-1, n-1], and the arrows on an open list always land on a row |
| StrategyAutocomplete.ArrowsCycle | frontend/src/components/StrategyAutocomplete.tsx:87-94 | ArrowDown is the next row modulo the length; ArrowUp is the previous row modulo the length, with none going to the last |
| StrategyAutocomplete.UpUndoesDown | frontend/src/components/StrategyAutocomplete.tsx:87-94 | ArrowDown then ArrowUp returns to the highlighted row |
| StrategyAutocomplete.EscapeCloses | frontend/src/components/StrategyAutocomplete.tsx:101-104 | Escape on an open list closes it and clears the highlight |
| CsvExport.CellValues | frontend/src/lib/tradeUtils.ts:134-159 | a row has as many cells as the header, with the symbol and notes in their columns and three empty columns |
| CsvExport.LineRoundTrip | frontend/src/lib/tradeUtils.ts:157-161 | a line of comma-joined fields, each quoted or free of commas and quotes, reads back as exactly those fields' texts |
| CsvExport.Escape | frontend/src/lib/tradeUtils.ts:157 | escaping never shortens the text |
| CsvExport.EscapeQuoteFree | frontend/src/lib/tradeUtils.ts:157 | text without a quote is left unchanged |
| CsvExport.ReadQuotedOver | frontend/src/lib/tradeUtils.ts:157 | the escaped text followed by a closing quote reads back as the text, the inverse of the escaping |
| CsvExport.HeaderRoundTrip | frontend/src/lib/tradeUtils.ts:127-132 | the header line reads back as the twenty headers |
| CsvExport.NotesRoundTrip | frontend/src/lib/tradeUtils.ts:157 | the quoted notes cell reads back as the notes, quotes and commas included |
| CsvExport.RowAsWritten | frontend/src/lib/tradeUtils.ts:134-159 | the written row has twenty fields, with only the notes quoted and an empty Type cell |
| CsvExport.TypeColumnIsAlwaysEmpty | frontend/src/lib/tradeUtils.ts:140 | for every trade the written Type cell is empty, never the market type |
| CsvExport.CommaInSymbolShiftsColumns | frontend/src/lib/tradeUtils.ts:137-161 | a symbol `a,b` makes the written line read as twenty-one cells, with `b` under Type |
| CsvExport.RowAsWrittenRoundTrip | frontend/src/lib/tradeUtils.ts:134-161 | a written row whose unquoted cells are free of commas and quotes reads back as its twenty cells, with an empty Type cell |
| CsvExport.CsvLinesAsWritten | frontend/src/lib/tradeUtils.ts:161 | the file as written: the header line reading back as the headers, then one line per trade, which reads back with an empty Type cell when its unquoted cells are plain |
| CsvExport.CsvContentAsWritten | frontend/src/lib/tradeUtils.ts:161 | without trades the file as written is the header line alone |
| CsvExport.Row | frontend/src/lib/tradeUtils.ts:134-159 | the intended row quotes all twenty cells and puts the market type under Type |
| CsvExport.RowRoundTrip | frontend/src/lib/tradeUtils.ts:134-161 | every intended row reads back as exactly its twenty cells |
| CsvExport.CsvLines | frontend/src/lib/tradeUtils.ts:161 | the file as corrected: the header, then one line per trade, each reading back as that trade's cells with the market type under Type |
| CsvExport.CsvContent | frontend/src/lib/tradeUtils.ts:161 | without trades the corrected file is the header line alone |

## Left out

- Calendar arithmetic is not modelled: JavaScript `Date`, time zones, `getFullYear`/`getMonth`, `setHours`. A trade's month and day are function parameters (`monthOf`, `dayOf`), today is the `today` parameter, and month keys are integers ordered the way the `YYYY-MM` strings are.
- Locale and number formatting are left out (`toFixed`, `toLocaleString`, `Intl.NumberFormat`, month labels). The CSV takes its number and date texts from a `Format` parameter.
- Floating-point rounding is not modelled. The `parseFloat(x.toFixed(2))` roundings of the monthly, emotion and chart figures are exact reals here.
- Number parsing is left out (`parseFloat(...) || 0`, `parseInt(...) || 0`, `new Date(date).getTime()`). The form's parsed numbers and date are an input of `NewTrade.Submit`.
- `Number(bigint)` precision loss on timestamps is not modelled.
- `Object.entries` lists integer-like keys before the others. The model keeps first-seen order for emotions and mistakes.
- Only ASCII letters are lower-cased. Unicode case mapping is out of scope.
- The backend is outside this model: storage, update, delete, the strategy registry, and risk settings save, export and import (`handleSaveSettings`, `handleExport`, `handleImport`). So are the query hooks around it, except `useAddTrade`'s argument list (see Findings).
- The edit dialog's form is not modelled.
- Browser I/O is left out: the Blob download, the file name with today's date, and outside-click listeners.
- Display-only formatting (`Math.abs` of the calculator figures, colours other than the two threshold functions) is not modelled.
- React effects are left out. In particular, the highlight reset on every change of the strategy box's text (`useEffect` on `value`) is not part of `StrategyAutocomplete.KeyDown`.
- The CSV reader in `CsvExport` reads one line. Splitting a file into records at newlines outside quotes is not modelled.
- StrategyAutocomplete.AbbreviationMatch: a Dafny `char` is a Unicode scalar value, while JavaScript's `w[0]` is a UTF-16 code unit. For a word that starts with a character outside the Basic Multilingual Plane, the source takes half a surrogate pair as the initial and the model takes the whole character.
- NewTrade.Submit: the uncaught `RangeError` that `BigInt(NaN)` throws for an unparsable date is modelled as the error `InvalidDate`; what the browser then does with the rejected promise is not modelled.
- TradeLog.TradeMarketTypes: states no duplicates and the exact set of types, not that each type sits where it was first seen.
- Analytics.EmotionData: states one entry per emotion with its count and average, not that entries come in first-seen order.
- Analytics.EmotionData and Analytics.MistakeCounts: the page counts with plain JavaScript objects used as maps, which misbehave for keys such as `constructor`, `toString` or `__proto__` (an inherited property is taken as an existing count); the model treats every key alike, since the form's emotion and mistake option lists never produce such keys.
- RiskManagement.Examples, Metrics.Examples and the other example lemmas: these are worked cases, not general properties.

## Findings

| source | as written | input that shows it | evidently intended | confidence | as-written member | corrected member |
|---|---|---|---|---|---|---|
| frontend/src/lib/tradeUtils.ts:140 | the Type cell reads `t.tradeType`, which the trade record does not have, so it joins as an empty string | any trade, e.g. one with market type `stocks` | the Type column holds the market type (`String(t.marketType)`) | high, not executed | CsvExport.TypeColumnIsAlwaysEmpty | CsvExport.RowRoundTrip |
| frontend/src/lib/tradeUtils.ts:137-161 | only the notes are quoted; every other cell is joined as it is | a trade whose symbol is `BRK,B`: the line reads as 21 cells, with `B` under Type | every cell quoted the way the notes are, so each cell reads back whole | medium, not executed | CsvExport.CommaInSymbolShiftsColumns | CsvExport.RowRoundTrip |
| frontend/src/hooks/useQueries.ts:53-69 | `useAddTrade` reads `params.tradeType`, which the page's object (NewTradePage.tsx:192-209) never sets, skips `params.strategy`, and so passes 15 arguments to the 16-parameter `addTrade` (backend.d.ts:61) | any submitted trade, e.g. one with market type `stocks` and strategy `Breakout`: the market type argument is undefined and the followed-plan flag sits in the strategy position | the object's 16 fields passed in parameter order, so the backend binds the submitted trade | high, not executed | QueryHooks.AsWrittenNeverFits | QueryHooks.AddTradeArgsRoundTrip |
