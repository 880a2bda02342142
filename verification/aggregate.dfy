/** Grouping the kept news by trading day (mean sentiment and article count),
    left-joining the groups onto the price rows, and filling missing values
    with zero. Sentiment is an exact `real`. */
module Aggregate {
  import opened Records

  datatype Option<T> = None | Some(value: T)

  /** A kept record as the grouping sees it: its trading day and sentiment score. */
  datatype DatedSentiment = DatedSentiment(tradingDay: int, sentiment: real)

  /** One row of the per-day mean table (`news_by_day`). */
  datatype DayGroup = DayGroup(date: int, avgSentiment: real)

  /** One row of the per-day size table. */
  datatype DaySize = DaySize(date: int, size: nat)

  /** One row of the left join before missing values are filled: `None` stands for NaN. */
  datatype MergedRow = MergedRow(date: int, closePrice: real, avgSentiment: Option<real>)

  /** Some kept record falls on trading day `d`. */
  predicate HasNewsOn(news: seq<DatedSentiment>, d: int) {
    exists i :: 0 <= i < |news| && news[i].tradingDay == d
  }

  lemma HasNewsOnSnoc(news: seq<DatedSentiment>, x: DatedSentiment, d: int)
    ensures HasNewsOn(news + [x], d) <==> HasNewsOn(news, d) || x.tradingDay == d
  {
    var all := news + [x];
    if HasNewsOn(all, d) && x.tradingDay != d {
      var i :| 0 <= i < |all| && all[i].tradingDay == d;
      assert news[i].tradingDay == d;
    }
    if x.tradingDay == d {
      assert all[|news|].tradingDay == d;
    }
    if HasNewsOn(news, d) {
      var i :| 0 <= i < |news| && news[i].tradingDay == d;
      assert all[i].tradingDay == d;
    }
  }

  /** The trading days of the news, in order. */
  function Days(news: seq<DatedSentiment>): (days: seq<int>)
    ensures |days| == |news|
    ensures forall i :: 0 <= i < |news| ==> days[i] == news[i].tradingDay
  {
    seq(|news|, i requires 0 <= i < |news| => news[i].tradingDay)
  }

  /** The number of kept records whose trading day is `d` (the group size). */
  function CountOn(news: seq<DatedSentiment>, d: int): (n: nat)
    ensures n <= |news|
    ensures n > 0 <==> HasNewsOn(news, d)
  {
    if news == [] then 0
    else
      var init := news[..|news| - 1];
      var last := news[|news| - 1];
      HasNewsOnSnoc(init, last, d);
      assert init + [last] == news;
      CountOn(init, d) + (if last.tradingDay == d then 1 else 0)
  }

  /** The sum of the sentiment scores of the kept records on trading day `d`;
      a day without news sums to 0. */
  function SumOn(news: seq<DatedSentiment>, d: int): (s: real)
    ensures !HasNewsOn(news, d) ==> s == 0.0
  {
    if news == [] then 0.0
    else
      var init := news[..|news| - 1];
      var last := news[|news| - 1];
      HasNewsOnSnoc(init, last, d);
      assert init + [last] == news;
      SumOn(init, d) + (if last.tradingDay == d then last.sentiment else 0.0)
  }

  /** The mean sentiment on trading day `d`, or 0 when no record falls on it:
      multiplied by the day's count it gives back the day's sum. */
  function MeanOrZero(news: seq<DatedSentiment>, d: int): (m: real)
    ensures m * CountOn(news, d) as real == SumOn(news, d)
    ensures !HasNewsOn(news, d) ==> m == 0.0
  {
    var n := CountOn(news, d);
    if n == 0 then 0.0 else SumOn(news, d) / n as real
  }

  /** When every score lies in `[lo, hi]`, a day's sum lies between `lo` and
      `hi` times its count. */
  lemma {:induction false} SumOnBounds(news: seq<DatedSentiment>, d: int, lo: real, hi: real)
    requires forall i :: 0 <= i < |news| ==> lo <= news[i].sentiment <= hi
    ensures ScaledBetween(SumOn(news, d), CountOn(news, d) as real, lo, hi)
  {
    if news != [] {
      var init := news[..|news| - 1];
      var last := news[|news| - 1];
      SumOnBounds(init, d, lo, hi);
      var x := if last.tradingDay == d then last.sentiment else 0.0;
      var step := if last.tradingDay == d then 1.0 else 0.0;
      AddScore(SumOn(init, d), CountOn(init, d) as real, x, step, lo, hi, SumOn(news, d), CountOn(news, d) as real);
    }
  }

  /** `sum` lies between `lo` and `hi` times `count`. */
  predicate ScaledBetween(sum: real, count: real, lo: real, hi: real) {
    lo * count <= sum <= hi * count
  }

  /** Adding a score in `[lo, hi]` to a bounded sum (`step` 1), or nothing
      (`step` 0), keeps the sum bounded. */
  lemma AddScore(sum: real, count: real, x: real, step: real, lo: real, hi: real, newSum: real, newCount: real)
    requires ScaledBetween(sum, count, lo, hi)
    requires (step == 1.0 && lo <= x <= hi) || (step == 0.0 && x == 0.0)
    requires newSum == sum + x && newCount == count + step
    ensures ScaledBetween(newSum, newCount, lo, hi)
  {
  }

  /** The mean of a day with news lies within the range of the scores. */
  lemma MeanWithinScores(news: seq<DatedSentiment>, d: int, lo: real, hi: real)
    requires forall i :: 0 <= i < |news| ==> lo <= news[i].sentiment <= hi
    requires HasNewsOn(news, d)
    ensures lo <= MeanOrZero(news, d) <= hi
  {
    SumOnBounds(news, d, lo, hi);
    DivideBounds(SumOn(news, d), CountOn(news, d) as real, lo, hi);
  }

  lemma DivideBounds(sum: real, count: real, lo: real, hi: real)
    requires count > 0.0
    requires ScaledBetween(sum, count, lo, hi)
    ensures lo <= sum / count <= hi
  {
  }

  /** The group size is the number of times `d` occurs among the trading days. */
  lemma {:induction false} CountOnIsMultiplicity(news: seq<DatedSentiment>, d: int)
    ensures CountOn(news, d) == multiset(Days(news))[d]
  {
    if news != [] {
      var init := news[..|news| - 1];
      CountOnIsMultiplicity(init, d);
      assert Days(news) == Days(init) + [news[|news| - 1].tradingDay];
    }
  }

  ghost predicate StrictlyIncreasing(s: seq<int>) {
    forall i, j :: 0 <= i < j < |s| ==> s[i] < s[j]
  }

  /** Inserts `d` into an ascending list of distinct keys, unless it is already there. */
  function InsertKey(keys: seq<int>, d: int): (r: seq<int>)
    requires StrictlyIncreasing(keys)
    ensures StrictlyIncreasing(r)
    ensures forall x :: x in r <==> x in keys || x == d
  {
    if keys == [] then [d]
    else if d < keys[0] then [d] + keys
    else if d == keys[0] then keys
    else
      var rest := InsertKey(keys[1..], d);
      assert forall x :: x in keys <==> x == keys[0] || x in keys[1..];
      forall k | 0 <= k < |rest| ensures keys[0] < rest[k] {
        assert rest[k] in rest;
        if rest[k] != d {
          var j :| 0 <= j < |keys[1..]| && keys[1..][j] == rest[k];
          assert keys[j + 1] == rest[k];
        }
      }
      [keys[0]] + rest
  }

  /** The distinct trading days of the news in ascending order: the group keys. */
  function GroupKeys(news: seq<DatedSentiment>): (keys: seq<int>)
    ensures StrictlyIncreasing(keys)
    ensures forall d :: d in keys <==> HasNewsOn(news, d)
  {
    if news == [] then []
    else
      var init := news[..|news| - 1];
      var last := news[|news| - 1];
      assert init + [last] == news;
      forall d ensures HasNewsOn(news, d) <==> HasNewsOn(init, d) || last.tradingDay == d {
        HasNewsOnSnoc(init, last, d);
      }
      InsertKey(GroupKeys(init), last.tradingDay)
  }

  lemma KeysHaveNews(news: seq<DatedSentiment>, keys: seq<int>)
    requires keys == GroupKeys(news)
    ensures forall k :: 0 <= k < |keys| ==> CountOn(news, keys[k]) > 0
  {
  }

  lemma KeyIndex(news: seq<DatedSentiment>, keys: seq<int>, d: int) returns (k: int)
    requires keys == GroupKeys(news)
    requires HasNewsOn(news, d)
    ensures 0 <= k < |keys| && keys[k] == d
  {
    assert d in keys;
    k :| 0 <= k < |keys| && keys[k] == d;
  }

  /** The per-day mean table: one row per distinct trading day, ascending,
      holding the mean sentiment of that day's records. */
  function NewsByDay(news: seq<DatedSentiment>): (groups: seq<DayGroup>)
    ensures forall i, j :: 0 <= i < j < |groups| ==> groups[i].date < groups[j].date
    ensures forall k :: 0 <= k < |groups| ==>
      CountOn(news, groups[k].date) > 0 && groups[k].avgSentiment == MeanOrZero(news, groups[k].date)
    ensures forall d :: HasNewsOn(news, d) ==> exists k :: 0 <= k < |groups| && groups[k].date == d
  {
    var keys := GroupKeys(news);
    KeysHaveNews(news, keys);
    var groups := seq(|keys|, k requires 0 <= k < |keys| => DayGroup(keys[k], SumOn(news, keys[k]) / CountOn(news, keys[k]) as real));
    forall d | HasNewsOn(news, d) ensures exists k :: 0 <= k < |groups| && groups[k].date == d {
      var k := KeyIndex(news, keys, d);
      assert groups[k].date == d;
    }
    groups
  }

  /** The per-day size table: one row per distinct trading day, ascending,
      holding the number of that day's records. */
  function SizeByDay(news: seq<DatedSentiment>): (sizes: seq<DaySize>)
    ensures forall i, j :: 0 <= i < j < |sizes| ==> sizes[i].date < sizes[j].date
    ensures forall k :: 0 <= k < |sizes| ==> sizes[k].size == CountOn(news, sizes[k].date) && sizes[k].size > 0
    ensures forall d :: HasNewsOn(news, d) ==> exists k :: 0 <= k < |sizes| && sizes[k].date == d
  {
    var keys := GroupKeys(news);
    KeysHaveNews(news, keys);
    var sizes := seq(|keys|, k requires 0 <= k < |keys| => DaySize(keys[k], CountOn(news, keys[k])));
    forall d | HasNewsOn(news, d) ensures exists k :: 0 <= k < |sizes| && sizes[k].date == d {
      var k := KeyIndex(news, keys, d);
      assert sizes[k].date == d;
    }
    sizes
  }

  /** The rows of the right-hand table whose date is `d`, in table order. */
  function Matches(groups: seq<DayGroup>, d: int): (m: seq<DayGroup>)
    ensures |m| <= |groups|
    ensures forall k :: 0 <= k < |m| ==> m[k].date == d && m[k] in groups
  {
    if groups == [] then []
    else
      var last := groups[|groups| - 1];
      Matches(groups[..|groups| - 1], d) + (if last.date == d then [last] else [])
  }

  /** The left join of one price row: one merged row per matching group, or a
      single row with a missing sentiment when nothing matches. */
  function JoinRow(p: PriceRow, groups: seq<DayGroup>): (rows: seq<MergedRow>)
    ensures |rows| >= 1
    ensures forall k :: 0 <= k < |rows| ==> rows[k].date == p.date && rows[k].closePrice == p.closePrice
    ensures forall k :: 0 <= k < |rows| ==> (rows[k].avgSentiment == None <==> Matches(groups, p.date) == [])
  {
    var m := Matches(groups, p.date);
    if m == [] then [MergedRow(p.date, p.closePrice, None)]
    else seq(|m|, k requires 0 <= k < |m| => MergedRow(p.date, p.closePrice, Some(m[k].avgSentiment)))
  }

  /** `pd.merge(prices, groups, on="date", how="left")`: the rows of each
      price row's join, in price order. It never drops a price row, and every
      row it produces carries the date and price of some price row. */
  function LeftJoin(prices: seq<PriceRow>, groups: seq<DayGroup>): (joined: seq<MergedRow>)
    ensures |joined| >= |prices|
    ensures forall j :: 0 <= j < |joined| ==> PriceRow(joined[j].date, joined[j].closePrice) in prices
  {
    if prices == [] then []
    else LeftJoin(prices[..|prices| - 1], groups) + JoinRow(prices[|prices| - 1], groups)
  }

  ghost predicate DistinctDates(groups: seq<DayGroup>) {
    forall i, j :: 0 <= i < j < |groups| ==> groups[i].date != groups[j].date
  }

  /** With distinct dates on the right, a date matches the one row holding it, or none. */
  lemma {:induction false} MatchesOfDistinct(groups: seq<DayGroup>, d: int)
    requires DistinctDates(groups)
    ensures Matches(groups, d) == [] <==> forall k :: 0 <= k < |groups| ==> groups[k].date != d
    ensures forall k :: 0 <= k < |groups| && groups[k].date == d ==> Matches(groups, d) == [groups[k]]
  {
    if groups != [] {
      var init := groups[..|groups| - 1];
      var last := groups[|groups| - 1];
      MatchesOfDistinct(init, d);
      if last.date == d {
        assert forall k :: 0 <= k < |init| ==> init[k].date != d;
      }
    }
  }

  /** `row` is the joined row of price row `p`: same date and price, and the
      sentiment of the group holding that date, missing when no group does. */
  ghost predicate JoinedRow(row: MergedRow, p: PriceRow, groups: seq<DayGroup>) {
    && row.date == p.date
    && row.closePrice == p.closePrice
    && (row.avgSentiment == None <==> forall k :: 0 <= k < |groups| ==> groups[k].date != p.date)
    && (forall k :: 0 <= k < |groups| && groups[k].date == p.date ==> row.avgSentiment == Some(groups[k].avgSentiment))
  }

  /** With distinct dates on the right, one price row joins to exactly one row. */
  lemma JoinRowOfDistinct(p: PriceRow, groups: seq<DayGroup>)
    requires DistinctDates(groups)
    ensures |JoinRow(p, groups)| == 1 && JoinedRow(JoinRow(p, groups)[0], p, groups)
  {
    MatchesOfDistinct(groups, p.date);
  }

  /** With distinct dates on the right, the left join keeps exactly one row per
      price row, with the same date and price in the same order, and the
      sentiment of the group on that date, or a missing value when there is none. */
  lemma {:induction false} LeftJoinOneRowPerPrice(prices: seq<PriceRow>, groups: seq<DayGroup>)
    requires DistinctDates(groups)
    ensures |LeftJoin(prices, groups)| == |prices|
    ensures forall i :: 0 <= i < |prices| ==> JoinedRow(LeftJoin(prices, groups)[i], prices[i], groups)
  {
    if prices != [] {
      var init := prices[..|prices| - 1];
      var last := prices[|prices| - 1];
      LeftJoinOneRowPerPrice(init, groups);
      JoinRowOfDistinct(last, groups);
      var joined := LeftJoin(prices, groups);
      assert joined == LeftJoin(init, groups) + JoinRow(last, groups);
      forall i | 0 <= i < |prices|
        ensures JoinedRow(joined[i], prices[i], groups)
      {
        if i < |init| {
          assert joined[i] == LeftJoin(init, groups)[i];
          assert prices[i] == init[i];
        }
      }
    }
  }

  /** `fillna(0)` on one sentiment value: a present value is kept, and the
      result is 0 exactly when the value is missing or is itself 0. */
  function FillNa(v: Option<real>): (r: real)
    ensures v.Some? ==> r == v.value
    ensures r == 0.0 <==> v == None || v == Some(0.0)
  {
    match v
    case None => 0.0
    case Some(x) => x
  }

  /** The size of day `d` in the size table, or 0 when the table has no row for it. */
  function SizeOf(sizes: seq<DaySize>, d: int): nat {
    if sizes == [] then 0
    else if sizes[0].date == d then sizes[0].size
    else SizeOf(sizes[1..], d)
  }

  ghost predicate DistinctSizeDates(sizes: seq<DaySize>) {
    forall i, j :: 0 <= i < j < |sizes| ==> sizes[i].date != sizes[j].date
  }

  lemma {:induction false} SizeOfLookup(sizes: seq<DaySize>, d: int)
    requires DistinctSizeDates(sizes)
    ensures (forall k :: 0 <= k < |sizes| ==> sizes[k].date != d) ==> SizeOf(sizes, d) == 0
    ensures forall k :: 0 <= k < |sizes| && sizes[k].date == d ==> SizeOf(sizes, d) == sizes[k].size
  {
    if sizes != [] {
      var rest := sizes[1..];
      SizeOfLookup(rest, d);
      forall k | 1 <= k < |sizes| && sizes[k].date == d
        ensures SizeOf(sizes, d) == sizes[k].size
      {
        assert rest[k - 1] == sizes[k];
      }
      if forall k :: 0 <= k < |sizes| ==> sizes[k].date != d {
        assert forall k :: 0 <= k < |rest| ==> rest[k] == sizes[k + 1];
      }
    }
  }

  /** `reindex(dates).fillna(0)` of the size table (whose dates are distinct, as
      a reindexed index must be): one size per requested date, the size of the
      row holding that date, or 0 when no row does. */
  function Reindex(sizes: seq<DaySize>, dates: seq<int>): (counts: seq<nat>)
    requires DistinctSizeDates(sizes)
    ensures |counts| == |dates|
    ensures forall i :: 0 <= i < |dates| ==>
      (forall k :: 0 <= k < |sizes| ==> sizes[k].date != dates[i]) ==> counts[i] == 0
    ensures forall i, k :: 0 <= i < |dates| && 0 <= k < |sizes| && sizes[k].date == dates[i] ==>
      counts[i] == sizes[k].size
  {
    forall i | 0 <= i < |dates| {
      SizeOfLookup(sizes, dates[i]);
    }
    seq(|dates|, i requires 0 <= i < |dates| => SizeOf(sizes, dates[i]))
  }

  /** The final table: the left join of the price rows with the per-day means,
      missing sentiment filled with 0, and the per-day sizes reindexed on the
      joined dates (missing sizes filled with 0) as the article count. */
  function FinalTable(prices: seq<PriceRow>, news: seq<DatedSentiment>): (table: seq<FinalRow>)
    ensures |table| == |prices|
    ensures forall i :: 0 <= i < |prices| ==> table[i].date == prices[i].date && table[i].closePrice == prices[i].closePrice
  {
    LeftJoinOneRowPerPrice(prices, NewsByDay(news));
    var merged := LeftJoin(prices, NewsByDay(news));
    var counts := Reindex(SizeByDay(news), seq(|merged|, i requires 0 <= i < |merged| => merged[i].date));
    seq(|merged|, i requires 0 <= i < |merged| =>
      FinalRow(merged[i].date, merged[i].closePrice, FillNa(merged[i].avgSentiment), counts[i]))
  }

  /** One row of the final table: the date and price of price row `i`, the
      number of kept records on that date, and their mean sentiment or 0. */
  lemma FinalRowAt(prices: seq<PriceRow>, news: seq<DatedSentiment>, i: int)
    requires 0 <= i < |prices|
    ensures |FinalTable(prices, news)| == |prices|
    ensures FinalTable(prices, news)[i]
      == FinalRow(prices[i].date, prices[i].closePrice, MeanOrZero(news, prices[i].date), CountOn(news, prices[i].date))
  {
    var groups := NewsByDay(news);
    var sizes := SizeByDay(news);
    LeftJoinOneRowPerPrice(prices, groups);
    var merged := LeftJoin(prices, groups);
    var dates := seq(|merged|, j requires 0 <= j < |merged| => merged[j].date);
    var counts := Reindex(sizes, dates);
    var d := prices[i].date;
    assert dates[i] == d;
    if HasNewsOn(news, d) {
      var k :| 0 <= k < |groups| && groups[k].date == d;
      var s :| 0 <= s < |sizes| && sizes[s].date == d;
      assert merged[i].avgSentiment == Some(groups[k].avgSentiment);
      assert counts[i] == sizes[s].size;
    } else {
      assert forall k :: 0 <= k < |groups| ==> groups[k].date != d;
      assert forall k :: 0 <= k < |sizes| ==> sizes[k].date != d;
      assert merged[i].avgSentiment == None;
      assert counts[i] == 0;
    }
  }

  /** The final table has one row per price row, with the same date and price in
      the same order; its article count is the number of kept records on that
      date and its sentiment is their mean, or 0 when there are none. */
  lemma FinalTableRows(prices: seq<PriceRow>, news: seq<DatedSentiment>)
    ensures |FinalTable(prices, news)| == |prices|
    ensures forall i :: 0 <= i < |prices| ==>
      FinalTable(prices, news)[i]
      == FinalRow(prices[i].date, prices[i].closePrice, MeanOrZero(news, prices[i].date), CountOn(news, prices[i].date))
  {
    LeftJoinOneRowPerPrice(prices, NewsByDay(news));
    forall i | 0 <= i < |prices|
      ensures FinalTable(prices, news)[i]
        == FinalRow(prices[i].date, prices[i].closePrice, MeanOrZero(news, prices[i].date), CountOn(news, prices[i].date))
    {
      FinalRowAt(prices, news, i);
    }
  }

  /** A price date with no kept news gets sentiment exactly 0 and count exactly 0. */
  lemma NoNewsDefaultsToZero(prices: seq<PriceRow>, news: seq<DatedSentiment>, i: int)
    requires 0 <= i < |prices|
    requires !HasNewsOn(news, prices[i].date)
    ensures i < |FinalTable(prices, news)|
    ensures FinalTable(prices, news)[i].avgSentiment == 0.0
    ensures FinalTable(prices, news)[i].newsCount == 0
  {
    FinalRowAt(prices, news, i);
  }
}
