/** Resolving a news timestamp to the Indian-market trading day it first affects. */
module TradingDay {
  import opened Calendar
  import opened Records

  /** The market closes at 15:30:00 local time: 55800 seconds into the day. */
  const MARKET_CLOSE_SECONDS: int := 15 * 3600 + 30 * 60

  /** The trading day of a UTC instant: convert to Kolkata time; a Saturday or
      Sunday moves on to the next Monday; a week day strictly after the close
      moves on one day, and on to Monday if that lands on a weekend; anything
      else keeps the local date. */
  function ResolveTradingDay(utcSeconds: int): (day: int)
    ensures !IsWeekend(day)
    ensures ToKolkata(utcSeconds).date <= day <= ToKolkata(utcSeconds).date + 3
  {
    var local := ToKolkata(utcSeconds);
    var weekday := Weekday(local.date);
    if weekday >= SATURDAY then
      local.date + (7 - weekday)
    else if local.secondOfDay > MARKET_CLOSE_SECONDS then
      var next := local.date + 1;
      var nextWeekday := Weekday(next);
      if nextWeekday >= SATURDAY then
        next + (7 - nextWeekday)
      else
        next
    else
      local.date
  }

  /** The date the news counts from: the local date, or the day after when it
      arrives strictly after the close. */
  function EffectiveDate(local: LocalDateTime): int {
    if local.secondOfDay > MARKET_CLOSE_SECONDS then local.date + 1 else local.date
  }

  /** `day` is the first week day on or after `from`. */
  ghost predicate IsFirstTradingDayFrom(from: int, day: int) {
    && from <= day
    && !IsWeekend(day)
    && forall d :: from <= d < day ==> IsWeekend(d)
  }

  /** At most one day is the first week day on or after a given date. */
  lemma FirstTradingDayUnique(from: int, day1: int, day2: int)
    requires IsFirstTradingDayFrom(from, day1)
    requires IsFirstTradingDayFrom(from, day2)
    ensures day1 == day2
  {
  }

  /** The resolver agrees with the reference rule: the trading day is the first
      week day on or after the effective date. */
  lemma ResolveIsFirstTradingDay(utcSeconds: int)
    ensures IsFirstTradingDayFrom(EffectiveDate(ToKolkata(utcSeconds)), ResolveTradingDay(utcSeconds))
  {
  }

  /** A local Saturday resolves to the Monday two days later, a local Sunday to
      the Monday one day later, whatever the time of day. */
  lemma ResolveWeekend(utcSeconds: int)
    requires IsWeekend(ToKolkata(utcSeconds).date)
    ensures var date := ToKolkata(utcSeconds).date;
      ResolveTradingDay(utcSeconds) == date + (if Weekday(date) == SATURDAY then 2 else 1)
    ensures Weekday(ResolveTradingDay(utcSeconds)) == MONDAY
  {
  }

  /** A week day at or before 15:30:00 local time keeps its local date; the
      comparison is strict, so exactly 15:30:00 stays on the same day. */
  lemma ResolveAtOrBeforeClose(utcSeconds: int)
    requires !IsWeekend(ToKolkata(utcSeconds).date)
    requires ToKolkata(utcSeconds).secondOfDay <= MARKET_CLOSE_SECONDS
    ensures ResolveTradingDay(utcSeconds) == ToKolkata(utcSeconds).date
  {
  }

  /** After the close, Monday to Thursday move to the next day and Friday moves
      to the following Monday, three days later. */
  lemma ResolveAfterClose(utcSeconds: int)
    requires !IsWeekend(ToKolkata(utcSeconds).date)
    requires ToKolkata(utcSeconds).secondOfDay > MARKET_CLOSE_SECONDS
    ensures var date := ToKolkata(utcSeconds).date;
      ResolveTradingDay(utcSeconds) == date + (if Weekday(date) == FRIDAY then 3 else 1)
  {
  }

  /** The resolver depends on the instant only through its Kolkata local reading. */
  lemma ResolveByLocalTime(utcSeconds: int, date: int, secondOfDay: int)
    requires 0 <= secondOfDay < SECONDS_PER_DAY
    requires date * SECONDS_PER_DAY + secondOfDay == utcSeconds + KOLKATA_OFFSET_SECONDS
    ensures IsFirstTradingDayFrom(EffectiveDate(LocalDateTime(date, secondOfDay)), ResolveTradingDay(utcSeconds))
  {
  }

  /** The rule on instants around the 2024-01-15 week (day 19737 is Monday
      2024-01-15; `h` hours UTC is `h * 3600` seconds into the day). */
  lemma SampleInstants()
    // Tuesday 18:00 UTC is 23:30 local, after the close: Wednesday.
    ensures ResolveTradingDay(19738 * SECONDS_PER_DAY + 18 * 3600) == 19739
    // Thursday 15:00 UTC is 20:30 local: Friday.
    ensures ResolveTradingDay(19740 * SECONDS_PER_DAY + 15 * 3600) == 19741
    // Friday 08:00 UTC is 13:30 local, before the close: Friday.
    ensures ResolveTradingDay(19741 * SECONDS_PER_DAY + 8 * 3600) == 19741
    // Friday 12:00 UTC is 17:30 local: the following Monday.
    ensures ResolveTradingDay(19741 * SECONDS_PER_DAY + 12 * 3600) == 19744
    // Friday 20:00 UTC is already Saturday 01:30 local: Monday.
    ensures ResolveTradingDay(19741 * SECONDS_PER_DAY + 20 * 3600) == 19744
    // Monday 10:00:00 UTC is exactly 15:30:00 local: the same day; one second later: Tuesday.
    ensures ResolveTradingDay(19737 * SECONDS_PER_DAY + 10 * 3600) == 19737
    ensures ResolveTradingDay(19737 * SECONDS_PER_DAY + 10 * 3600 + 1) == 19738
  {
  }

  /** The pass over the kept records: one trading day per record, in order. */
  method TradingDays(kept: seq<NewsRecord>) returns (days: seq<int>)
    ensures |days| == |kept|
    ensures forall i :: 0 <= i < |kept| ==> days[i] == ResolveTradingDay(kept[i].timestampUtc)
  {
    days := [];
    for i := 0 to |kept|
      invariant |days| == i
      invariant forall j :: 0 <= j < i ==> days[j] == ResolveTradingDay(kept[j].timestampUtc)
    {
      var day := ResolveTradingDay(kept[i].timestampUtc);
      days := days + [day];
    }
  }
}
