/** The reductions of `pages/AnalyticsPage.tsx`: monthly P&L in calendar
    order, per-emotion averages, the Buy/Sell split and the most frequent
    mistakes. Chart rendering and the two-decimal rounding of displayed
    P&L are not modelled. */
module Analytics {
  import opened Trades
  import Seqs
  import Grouping
  import MonthlyStats

  // ---------------------------------------------------------------------------
  // monthlyData
  // ---------------------------------------------------------------------------

  /** `monthlyData`: one bucket per month that has trades, oldest month first. */
  function MonthlyData(trades: seq<Trade>, monthOf: int -> int): (r: seq<MonthlyStats.MonthBucket>)
    ensures MonthlyStats.StrictlyAscending(MonthlyStats.Keys(r))
    ensures forall k :: k in MonthlyStats.Keys(r) <==> MonthlyStats.HasTradeIn(trades, monthOf, k)
    ensures forall i :: 0 <= i < |r| ==> r[i] == MonthlyStats.Bucket(trades, MonthlyStats.MonthKeyOf(monthOf), r[i].key)
  {
    var key := MonthlyStats.MonthKeyOf(monthOf);
    var ks := MonthlyStats.MonthKeys(trades, key);
    MonthlyStats.BucketKeys(trades, key, ks);
    MonthlyStats.Buckets(trades, key, ks)
  }

  /** The analytics chart lists exactly the buckets of the trade statistics,
      in the opposite order; so it inherits their partition of the trades. */
  lemma MonthlyDataReversesMonthlyStats(trades: seq<Trade>, monthOf: int -> int)
    ensures MonthlyData(trades, monthOf) == Seqs.Reverse(MonthlyStats.GetMonthlyStats(trades, monthOf))
    ensures MonthlyStats.SumTotals(MonthlyData(trades, monthOf)) == |trades|
    ensures forall i :: 0 <= i < |MonthlyData(trades, monthOf)| ==>
      MonthlyData(trades, monthOf)[i].wins <= MonthlyData(trades, monthOf)[i].total
  {
    var key := MonthlyStats.MonthKeyOf(monthOf);
    var ks := MonthlyStats.MonthKeys(trades, key);
    assert MonthlyData(trades, monthOf) == MonthlyStats.Buckets(trades, key, ks);
    assert MonthlyStats.GetMonthlyStats(trades, monthOf) == MonthlyStats.Buckets(trades, key, Seqs.Reverse(ks));
    MonthlyStats.BucketsReverse(trades, key, ks);
    MonthlyStats.AscendingNoDup(ks);
    MonthlyStats.BucketsPartition(trades, key, ks);
  }

  // ---------------------------------------------------------------------------
  // emotionData
  // ---------------------------------------------------------------------------

  datatype EmotionEntry = EmotionEntry(emotion: string, count: nat, avgPnl: real)

  function EmotionOf(t: Trade): string { t.emotion }

  function Emotions(ts: seq<Trade>): (es: seq<string>)
    ensures |es| == |ts| && forall i :: 0 <= i < |ts| ==> es[i] == ts[i].emotion
    ensures forall e :: e in es <==> exists i :: 0 <= i < |ts| && ts[i].emotion == e
  {
    if |ts| == 0 then [] else [ts[0].emotion] + Emotions(ts[1..])
  }

  /** The entry of one emotion: its trade count and mean P&L. */
  function EmotionEntryOf(ts: seq<Trade>, e: string): (x: EmotionEntry)
    requires Grouping.CountKey(ts, EmotionOf, e) >= 1
    ensures x.emotion == e && x.count == Grouping.CountKey(ts, EmotionOf, e)
    ensures x.avgPnl * (x.count as real) == Grouping.SumKey(ts, EmotionOf, e)
  {
    MakeEntry(e, Grouping.CountKey(ts, EmotionOf, e), Grouping.SumKey(ts, EmotionOf, e))
  }

  /** The entry of `n` trades whose P&L adds up to `sum`: `sum / n` on average. */
  function MakeEntry(e: string, n: nat, sum: real): (x: EmotionEntry)
    requires n >= 1
    ensures x.emotion == e && x.count == n
    ensures x.avgPnl * (x.count as real) == sum
  {
    EmotionEntry(e, n, sum / (n as real))
  }

  /** The entries of the listed emotions, in order. The division is safe
      because each listed emotion is carried by a trade. */
  function EmotionEntries(ts: seq<Trade>, es: seq<string>): (r: seq<EmotionEntry>)
    requires forall e :: e in es ==> Grouping.CountKey(ts, EmotionOf, e) >= 1
    ensures |r| == |es|
    ensures forall i :: 0 <= i < |es| ==> r[i].emotion == es[i]
    ensures forall i :: 0 <= i < |r| ==>
      && r[i].count >= 1
      && r[i].count == Grouping.CountKey(ts, EmotionOf, r[i].emotion)
      && r[i].avgPnl == Grouping.SumKey(ts, EmotionOf, r[i].emotion) / (r[i].count as real)
  {
    if |es| == 0 then [] else [EmotionEntryOf(ts, es[0])] + EmotionEntries(ts, es[1..])
  }

  function EmotionNames(r: seq<EmotionEntry>): (es: seq<string>)
    ensures |es| == |r| && forall i :: 0 <= i < |r| ==> es[i] == r[i].emotion
  {
    if |r| == 0 then [] else [r[0].emotion] + EmotionNames(r[1..])
  }

  function SumEmotionCounts(r: seq<EmotionEntry>): nat
  {
    if |r| == 0 then 0 else r[0].count + SumEmotionCounts(r[1..])
  }

  /** Each distinct emotion of the trades is carried by at least one trade. */
  lemma EmotionsCarried(trades: seq<Trade>)
    ensures forall e :: e in Seqs.Dedup(Emotions(trades)) ==> Grouping.CountKey(trades, EmotionOf, e) >= 1
  {
    forall e | e in Seqs.Dedup(Emotions(trades))
      ensures Grouping.CountKey(trades, EmotionOf, e) >= 1
    {
      var i :| 0 <= i < |trades| && Emotions(trades)[i] == e;
      Grouping.CountKeyPositive(trades, EmotionOf, i);
    }
  }

  lemma EntryNames(ts: seq<Trade>, es: seq<string>)
    requires forall e :: e in es ==> Grouping.CountKey(ts, EmotionOf, e) >= 1
    ensures EmotionNames(EmotionEntries(ts, es)) == es
  {
    var r := EmotionEntries(ts, es);
    assert forall i :: 0 <= i < |es| ==> EmotionNames(r)[i] == es[i];
  }

  /** `emotionData`: one entry per distinct emotion, in first-seen order. */
  function EmotionData(trades: seq<Trade>): (r: seq<EmotionEntry>)
    ensures Seqs.NoDup(EmotionNames(r))
    ensures forall e :: e in EmotionNames(r) <==> exists i :: 0 <= i < |trades| && trades[i].emotion == e
    ensures forall i :: 0 <= i < |r| ==>
      && r[i].count >= 1
      && r[i].count == Grouping.CountKey(trades, EmotionOf, r[i].emotion)
      && r[i].avgPnl == Grouping.SumKey(trades, EmotionOf, r[i].emotion) / (r[i].count as real)
  {
    var es := Seqs.Dedup(Emotions(trades));
    EmotionsCarried(trades);
    EntryNames(trades, es);
    EmotionEntries(trades, es)
  }

  /** The P&L an entry stands for: its mean times its count. */
  function EntryPnl(x: EmotionEntry): real
  {
    x.avgPnl * (x.count as real)
  }

  function SumEmotionPnl(r: seq<EmotionEntry>): real
  {
    if |r| == 0 then 0.0 else EntryPnl(r[0]) + SumEmotionPnl(r[1..])
  }

  lemma {:induction false} EmotionEntryCounts(ts: seq<Trade>, es: seq<string>)
    requires forall e :: e in es ==> Grouping.CountKey(ts, EmotionOf, e) >= 1
    ensures SumEmotionCounts(EmotionEntries(ts, es)) == Grouping.TotalCount(es, ts, EmotionOf)
    decreases |es|
  {
    if |es| > 0 {
      EmotionEntryCounts(ts, es[1..]);
      assert EmotionEntries(ts, es)[1..] == EmotionEntries(ts, es[1..]);
    }
  }

  lemma {:induction false} EmotionEntryPnl(ts: seq<Trade>, es: seq<string>)
    requires forall e :: e in es ==> Grouping.CountKey(ts, EmotionOf, e) >= 1
    ensures SumEmotionPnl(EmotionEntries(ts, es)) == Grouping.TotalSum(es, ts, EmotionOf)
    decreases |es|
  {
    if |es| > 0 {
      EmotionEntryPnl(ts, es[1..]);
      var x := EmotionEntryOf(ts, es[0]);
      var rest := EmotionEntries(ts, es[1..]);
      assert EmotionEntries(ts, es) == [x] + rest;
      assert ([x] + rest)[1..] == rest;
      assert EntryPnl(x) == Grouping.SumKey(ts, EmotionOf, es[0]);
    }
  }

  /** Every trade is counted under exactly one emotion: the counts add up to
      the number of trades, and mean times count, summed, to the total P&L. */
  lemma EmotionCountsPartition(trades: seq<Trade>)
    ensures SumEmotionCounts(EmotionData(trades)) == |trades|
    ensures SumEmotionPnl(EmotionData(trades)) == TotalPnl(trades)
  {
    var es := Seqs.Dedup(Emotions(trades));
    EmotionsCarried(trades);
    EmotionEntryCounts(trades, es);
    EmotionEntryPnl(trades, es);
    forall i | 0 <= i < |trades|
      ensures EmotionOf(trades[i]) in es
    {
      assert Emotions(trades)[i] == trades[i].emotion;
    }
    Grouping.Partition(es, trades, EmotionOf);
  }

  // ---------------------------------------------------------------------------
  // directionData
  // ---------------------------------------------------------------------------

  datatype DirectionEntry = DirectionEntry(name: string, value: nat)

  predicate IsBuy(t: Trade) { t.direction == "Buy" }

  predicate IsSell(t: Trade) { t.direction == "Sell" }

  predicate IsOtherDirection(t: Trade) { t.direction != "Buy" && t.direction != "Sell" }

  predicate HasValue(d: DirectionEntry) { d.value > 0 }

  /** `directionData`: the Buy and Sell counts, in that order, dropping a
      zero count (the two-element list filtered by `value > 0`). */
  function DirectionData(trades: seq<Trade>): (r: seq<DirectionEntry>)
    ensures |r| <= 2
    ensures forall i :: 0 <= i < |r| ==> r[i].value > 0 && (r[i].name == "Buy" || r[i].name == "Sell")
    ensures (exists i :: 0 <= i < |r| && r[i].name == "Buy") <==> (exists t :: t in trades && IsBuy(t))
    ensures (exists i :: 0 <= i < |r| && r[i].name == "Sell") <==> (exists t :: t in trades && IsSell(t))
    ensures forall i :: 0 <= i < |r| && r[i].name == "Buy" ==> r[i].value == |Seqs.Filter(trades, IsBuy)|
    ensures forall i :: 0 <= i < |r| && r[i].name == "Sell" ==> r[i].value == |Seqs.Filter(trades, IsSell)|
    ensures forall i, j :: 0 <= i < j < |r| ==> r[i].name == "Buy" && r[j].name == "Sell"
  {
    NonEmptyFilter(trades, IsBuy);
    NonEmptyFilter(trades, IsSell);
    DirectionEntries(|Seqs.Filter(trades, IsBuy)|, |Seqs.Filter(trades, IsSell)|)
  }

  /** The two-entry list `[Buy, Sell]` with the zero counts dropped. */
  function DirectionEntries(buys: nat, sells: nat): (r: seq<DirectionEntry>)
    ensures |r| <= 2
    ensures forall i :: 0 <= i < |r| ==> r[i].value > 0 && (r[i].name == "Buy" || r[i].name == "Sell")
    ensures (exists i :: 0 <= i < |r| && r[i].name == "Buy") <==> buys > 0
    ensures (exists i :: 0 <= i < |r| && r[i].name == "Sell") <==> sells > 0
    ensures forall i :: 0 <= i < |r| && r[i].name == "Buy" ==> r[i].value == buys
    ensures forall i :: 0 <= i < |r| && r[i].name == "Sell" ==> r[i].value == sells
    ensures forall i, j :: 0 <= i < j < |r| ==> r[i].name == "Buy" && r[j].name == "Sell"
  {
    var buy := DirectionEntry("Buy", buys);
    var sell := DirectionEntry("Sell", sells);
    assert buy.name != sell.name by { assert |buy.name| != |sell.name|; }
    if buys > 0 && sells > 0 then
      var r := [buy, sell];
      assert r[0] == buy && r[1] == sell;
      r
    else if buys > 0 then
      var r := [buy];
      assert r[0] == buy;
      r
    else if sells > 0 then
      var r := [sell];
      assert r[0] == sell;
      r
    else []
  }

  /** A filter keeps something exactly when some element passes it. */
  lemma NonEmptyFilter(ts: seq<Trade>, p: Trade -> bool)
    ensures |Seqs.Filter(ts, p)| > 0 <==> exists t :: t in ts && p(t)
  {
    var f := Seqs.Filter(ts, p);
    if |f| > 0 {
      assert f[0] in f;
    }
  }

  lemma {:induction false} DirectionCounts(ts: seq<Trade>)
    ensures |Seqs.Filter(ts, IsBuy)| + |Seqs.Filter(ts, IsSell)| + |Seqs.Filter(ts, IsOtherDirection)| == |ts|
    decreases |ts|
  {
    if |ts| > 0 {
      DirectionCounts(ts[1..]);
    }
  }

  function SumDirectionValues(r: seq<DirectionEntry>): nat
  {
    if |r| == 0 then 0 else r[0].value + SumDirectionValues(r[1..])
  }

  /** Trades with a direction other than "Buy" or "Sell" appear in neither
      slice: the split counts everything else. */
  lemma DirectionSplitSkipsOthers(trades: seq<Trade>)
    ensures SumDirectionValues(DirectionData(trades)) + |Seqs.Filter(trades, IsOtherDirection)| == |trades|
  {
    DirectionCounts(trades);
    var r := DirectionData(trades);
    assert |r| > 0 ==> SumDirectionValues(r) == r[0].value + SumDirectionValues(r[1..]);
    assert |r| > 1 ==> SumDirectionValues(r[1..]) == r[1].value + SumDirectionValues(r[2..]);
  }

  // ---------------------------------------------------------------------------
  // mistakeData
  // ---------------------------------------------------------------------------

  datatype MistakeEntry = MistakeEntry(name: string, count: nat)

  function MistakeOf(t: Trade): string { t.mistakeType }

  function EntryCount(e: MistakeEntry): real { e.count as real }

  /** Some trade records the (non-empty) mistake type `m`. */
  ghost predicate HasMistake(ts: seq<Trade>, m: string)
  {
    m != "" && exists i :: 0 <= i < |ts| && ts[i].mistakeType == m
  }

  /** The non-empty mistake types of the trades, in order (`if (t.mistakeType)`). */
  function MistakeTypes(ts: seq<Trade>): (ms: seq<string>)
    ensures forall m :: m in ms <==> HasMistake(ts, m)
  {
    if |ts| == 0 then []
    else
      (if ts[0].mistakeType != "" then [ts[0].mistakeType] else []) + MistakeTypes(ts[1..])
  }

  function MistakeEntries(ts: seq<Trade>, ms: seq<string>): (r: seq<MistakeEntry>)
    ensures |r| == |ms|
    ensures forall i :: 0 <= i < |ms| ==> r[i] == MistakeEntry(ms[i], Grouping.CountKey(ts, MistakeOf, ms[i]))
  {
    if |ms| == 0 then [] else [MistakeEntry(ms[0], Grouping.CountKey(ts, MistakeOf, ms[0]))] + MistakeEntries(ts, ms[1..])
  }

  /** `e` names a mistake type that occurs and carries its number of trades. */
  predicate CountedMistake(ts: seq<Trade>, e: MistakeEntry)
  {
    e.name != "" && e.count >= 1 && e.count == Grouping.CountKey(ts, MistakeOf, e.name)
  }

  /** The type names of a list of entries. */
  function Names(es: seq<MistakeEntry>): (r: seq<string>)
    ensures |r| == |es|
    ensures forall i :: 0 <= i < |es| ==> r[i] == es[i].name
  {
    if |es| == 0 then [] else [es[0].name] + Names(es[1..])
  }

  /** The per-type counts before sorting: one entry per type, in the order
      each type is first seen. */
  function MistakeCounts(trades: seq<Trade>): (r: seq<MistakeEntry>)
    ensures Names(r) == Seqs.Dedup(MistakeTypes(trades))
    ensures forall i :: 0 <= i < |r| ==> CountedMistake(trades, r[i])
    ensures forall m :: HasMistake(trades, m) ==> exists i :: 0 <= i < |r| && r[i].name == m
  {
    var ms := Seqs.Dedup(MistakeTypes(trades));
    var r := MistakeEntries(trades, ms);
    forall i | 0 <= i < |r|
      ensures CountedMistake(trades, r[i])
    {
      assert ms[i] in ms;
      var j :| 0 <= j < |trades| && trades[j].mistakeType == ms[i];
      Grouping.CountKeyPositive(trades, MistakeOf, j);
    }
    forall m | HasMistake(trades, m)
      ensures exists i :: 0 <= i < |r| && r[i].name == m
    {
      assert m in ms;
      var i :| 0 <= i < |ms| && ms[i] == m;
      assert r[i].name == m;
    }
    assert Names(r) == ms;
    r
  }

  /** Distinct names make distinct entries. */
  lemma NamesNoDup(es: seq<MistakeEntry>)
    requires Seqs.NoDup(Names(es))
    ensures Seqs.NoDup(es)
  {
    assert forall i, j :: 0 <= i < j < |es| ==> Names(es)[i] != Names(es)[j];
  }

  /** Entries that carry their own type's count are equal when their names are. */
  lemma CountedNamesDistinct(trades: seq<Trade>, es: seq<MistakeEntry>)
    requires forall i :: 0 <= i < |es| ==> CountedMistake(trades, es[i])
    requires Seqs.NoDup(es)
    ensures Seqs.NoDup(Names(es))
  {
    forall i, j | 0 <= i < j < |es|
      ensures Names(es)[i] != Names(es)[j]
    {
      var a, b := es[i], es[j];
      assert a != b;
      assert a.count == Grouping.CountKey(trades, MistakeOf, a.name);
      assert b.count == Grouping.CountKey(trades, MistakeOf, b.name);
    }
  }

  /** The front of the descending sort of counted entries keeps them
      counted and descending. */
  lemma TopCounted(trades: seq<Trade>, counts: seq<MistakeEntry>, n: nat)
    requires forall i :: 0 <= i < |counts| ==> CountedMistake(trades, counts[i])
    ensures var r := Seqs.Take(Seqs.SortDesc(counts, EntryCount), n);
      && |r| <= n
      && (forall i :: 0 <= i < |r| ==> CountedMistake(trades, r[i]))
      && (forall i, j :: 0 <= i < j < |r| ==> r[i].count >= r[j].count)
  {
    var r := Seqs.Take(Seqs.SortDesc(counts, EntryCount), n);
    Seqs.TakeSorted(counts, EntryCount, n);
    CountedAmong(trades, counts, r);
    assert forall i, j :: 0 <= i < j < |r| ==> EntryCount(r[i]) >= EntryCount(r[j]);
  }

  /** Entries drawn from counted entries are counted. */
  lemma CountedAmong(trades: seq<Trade>, counts: seq<MistakeEntry>, r: seq<MistakeEntry>)
    requires forall i :: 0 <= i < |counts| ==> CountedMistake(trades, counts[i])
    requires forall i :: 0 <= i < |r| ==> r[i] in counts
    ensures forall i :: 0 <= i < |r| ==> CountedMistake(trades, r[i])
  {
    forall i | 0 <= i < |r|
      ensures CountedMistake(trades, r[i])
    {
      var k :| 0 <= k < |counts| && counts[k] == r[i];
    }
  }

  /** The same front, when the names are distinct, has distinct names. */
  lemma TopMistakes(trades: seq<Trade>, counts: seq<MistakeEntry>, n: nat)
    requires Seqs.NoDup(Names(counts))
    requires forall i :: 0 <= i < |counts| ==> CountedMistake(trades, counts[i])
    ensures var r := Seqs.Take(Seqs.SortDesc(counts, EntryCount), n);
      && |r| <= n
      && Seqs.NoDup(Names(r))
      && (forall i :: 0 <= i < |r| ==> CountedMistake(trades, r[i]))
      && (forall i, j :: 0 <= i < j < |r| ==> r[i].count >= r[j].count)
  {
    TopCounted(trades, counts, n);
    NamesNoDup(counts);
    Seqs.TakeSortedNoDup(counts, EntryCount, n);
    CountedNamesDistinct(trades, Seqs.Take(Seqs.SortDesc(counts, EntryCount), n));
  }

  /** `mistakeData`: the eight most frequent mistake types, most frequent
      first, each at most once. */
  function MistakeData(trades: seq<Trade>): (r: seq<MistakeEntry>)
    ensures |r| <= 8
    ensures Seqs.NoDup(Names(r))
    ensures forall i :: 0 <= i < |r| ==> CountedMistake(trades, r[i])
    ensures forall i, j :: 0 <= i < j < |r| ==> r[i].count >= r[j].count
  {
    var counts := MistakeCounts(trades);
    TopMistakes(trades, counts, 8);
    Seqs.Take(Seqs.SortDesc(counts, EntryCount), 8)
  }

  /** Only the least frequent types are cut: a mistake type missing from the
      list occurs no more often than any listed one, and can only be missing
      when the list is full. */
  lemma MistakeDataKeepsMostFrequent(trades: seq<Trade>, m: string)
    requires HasMistake(trades, m)
    requires forall i :: 0 <= i < |MistakeData(trades)| ==> MistakeData(trades)[i].name != m
    ensures |MistakeData(trades)| == 8
    ensures forall i :: 0 <= i < 8 ==>
      Grouping.CountKey(trades, MistakeOf, m) <= MistakeData(trades)[i].count
  {
    var counts := MistakeCounts(trades);
    var sorted := Seqs.SortDesc(counts, EntryCount);
    var r := MistakeData(trades);
    assert r == Seqs.Take(sorted, 8);
    var i :| 0 <= i < |counts| && counts[i].name == m;
    assert counts[i] !in r by {
      assert forall k :: 0 <= k < |r| ==> r[k] != counts[i];
    }
    Seqs.TakeSortedKeepsLargest(counts, EntryCount, 8, counts[i]);
  }

  /** Types of equal frequency keep their first-seen order (the sort is
      stable), so the listed types of a given count are the first-seen ones
      among all types of that count. */
  lemma MistakeTiesKeepFirstSeenOrder(trades: seq<Trade>, v: real)
    ensures Seqs.WithKey(Seqs.SortDesc(MistakeCounts(trades), EntryCount), EntryCount, v)
         == Seqs.WithKey(MistakeCounts(trades), EntryCount, v)
    ensures Seqs.WithKey(MistakeData(trades), EntryCount, v) <= Seqs.WithKey(MistakeCounts(trades), EntryCount, v)
  {
    var sorted := Seqs.SortDesc(MistakeCounts(trades), EntryCount);
    Seqs.SortIsStable(MistakeCounts(trades), EntryCount, v);
    Seqs.WithKeyTake(sorted, EntryCount, v, 8);
  }
}
