/** The pipeline from news records and price rows to the final table: filter by
    entity, resolve trading days, group, left-join and fill. */
module Pipeline {
  import opened Calendar
  import opened Records
  import opened TradingDay
  import opened EntityFilter
  import opened Aggregate

  /** Attaches to each kept record its trading day (the `trading_day` column). */
  function Tag(kept: seq<NewsRecord>, days: seq<int>): (news: seq<DatedSentiment>)
    requires |days| == |kept|
    ensures |news| == |kept|
    ensures forall i :: 0 <= i < |kept| ==> news[i].tradingDay == days[i] && news[i].sentiment == kept[i].sentiment
  {
    seq(|kept|, i requires 0 <= i < |kept| => DatedSentiment(days[i], kept[i].sentiment))
  }

  /** How a run ends: the table is built, or the run stops with a `KeyError`
      because the cleaned news table has no `timestamp_utc` column. That is the
      case when the filter keeps nothing: a table built from an empty list of
      rows has no columns at all. */
  datatype Outcome = MissingTimestampColumn | Completed(table: seq<FinalRow>)

  /** Runs the whole pipeline. The kept records are those with a matching
      organisation entity, in input order. When none is kept the run stops
      before resolving any trading day. Otherwise there is one trading day per
      kept record, and the final table has one row per price row, whose count
      is the number of kept records resolving to its date and whose sentiment
      is their mean, or 0 when there are none. */
  method Run(ner: string -> seq<Entity>, records: seq<NewsRecord>, prices: seq<PriceRow>)
    returns (goodNews: seq<NewsRecord>, tradingDays: seq<int>, outcome: Outcome)
    ensures goodNews == Kept(ner, records)
    ensures outcome == MissingTimestampColumn <==> goodNews == []
    ensures |tradingDays| == |goodNews|
    ensures forall i :: 0 <= i < |goodNews| ==> tradingDays[i] == ResolveTradingDay(goodNews[i].timestampUtc)
    ensures outcome.Completed? ==> |outcome.table| == |prices|
    ensures outcome.Completed? ==> forall i :: 0 <= i < |prices| ==>
      var news := Tag(goodNews, tradingDays);
      outcome.table[i] == FinalRow(prices[i].date, prices[i].closePrice, MeanOrZero(news, prices[i].date), CountOn(news, prices[i].date))
  {
    goodNews := FilterByEntity(ner, records);
    if goodNews == [] {
      tradingDays := [];
      outcome := MissingTimestampColumn;
      return;
    }
    tradingDays := TradingDays(goodNews);
    var news := Tag(goodNews, tradingDays);
    FinalTableRows(prices, news);
    outcome := Completed(FinalTable(prices, news));
  }

  /** No kept record resolves to a Saturday or Sunday, so a price row dated on a
      weekend always gets sentiment 0 and count 0. */
  lemma WeekendPriceRowsHaveNoNews(kept: seq<NewsRecord>, days: seq<int>, prices: seq<PriceRow>, i: int)
    requires |days| == |kept|
    requires forall j :: 0 <= j < |kept| ==> days[j] == ResolveTradingDay(kept[j].timestampUtc)
    requires 0 <= i < |prices| && IsWeekend(prices[i].date)
    ensures i < |FinalTable(prices, Tag(kept, days))|
    ensures FinalTable(prices, Tag(kept, days))[i].avgSentiment == 0.0
    ensures FinalTable(prices, Tag(kept, days))[i].newsCount == 0
  {
    var news := Tag(kept, days);
    assert !HasNewsOn(news, prices[i].date);
    NoNewsDefaultsToZero(prices, news, i);
  }
}
