# News-sentiment trading-day pipeline, modelled in Dafny

This project models the data-handling core of `mann_submission.py`. The script does four things with in-memory tables:

- It filters fake news headlines by named-entity recognition. A record is kept when some `ORG` entity of its headline contains the company name, ignoring case.
- It maps each kept record's UTC timestamp to the Indian-market trading day the news first affects. It converts to Asia/Kolkata time, applies the 15:30 market close and rolls weekends forward to Monday.
- It groups the kept records by trading day and computes the mean sentiment and the article count.
- It left-joins those groups onto the price rows and fills missing values with 0.

Modules, one file each:

- `Calendar` (`calendar.dfy`): day numbers and week days. Day 0 is 1970-01-01, a Thursday. Week days are numbered as in Python's `date.weekday()`, Monday 0 to Sunday 6. A UTC instant is converted to Kolkata wall-clock time with the fixed +05:30 offset.
- `Records` (`records.dfy`): news records, entities, price rows and final rows.
- `TradingDay` (`trading_day.dfy`): the resolver, a pure function, and the loop that builds `trading_days`, a method.
- `EntityFilter` (`entity_filter.dfy`): the entity loop and the record loop, as methods. They are proved against the specification function `Kept`.
- `Aggregate` (`aggregate.dfy`): group-by mean and size, the left join, `fillna(0)` and `reindex`, as functions with lemmas.
- `Pipeline` (`pipeline.dfy`): the whole run, from records and prices to the final table.

Representation choices:

- Timestamps are whole seconds since the epoch.
- Dates are integer day numbers on both sides of the join.
- Sentiment and prices are exact `real` values.
- The entity recogniser is a parameter `ner: string -> seq<Entity>`, applied to each headline as the script applies its language model.

The resolver is also tied to an independent reference rule. Take the "effective date": the local date, or the next day when the news arrives strictly after 15:30:00. The trading day is the first Monday-to-Friday day on or after the effective date (`ResolveIsFirstTradingDay`, `FirstTradingDayUnique`).

Line 77 adds a `Timedelta` to a `date`; in Python that gives a `date`, so both branches of the post-close roll-over return a plain calendar date, as modelled here.

When the filter keeps no record, line 59 builds a table from an empty list of rows, and that table has no columns. Line 68 then reads its `timestamp_utc` column and the script stops with a `KeyError`. `Pipeline.Run` models this as the outcome `MissingTimestampColumn`, and builds a table only when at least one record is kept.

Every operation is a deterministic function or method of its inputs. Running the pipeline twice on the same input therefore gives the same table.

## Model

| member | source | states |
|---|---|---|
| Calendar.WeekdayPeriodic | mann_submission.py:70 | `Calendar.Weekday` numbers the week as `date.weekday()` does: the day `k` days (0 to 6) into any whole week counted from Monday 2024-01-15 has week day `k`, so Monday is 0, Saturday 5 and Sunday 6. |
| Calendar.ToKolkata | mann_submission.py:64-69 | The local reading is the UTC instant shifted by +05:30 (19800 s), split into a date and a second of day in [0, 86400). |
| Calendar.ToKolkataUnique | mann_submission.py:64-69 | That split is the only date and second of day the shifted instant decomposes into. |
| TradingDay.ResolveTradingDay | mann_submission.py:69-79 | The resolved trading day is never a Saturday or Sunday. It lies between the local date and the local date + 3 days inclusive. |
| TradingDay.ResolveIsFirstTradingDay | mann_submission.py:69-79 | The resolved day is the first week day on or after the effective date. The effective date is the local date, or the next day when strictly after 15:30:00. |
| TradingDay.FirstTradingDayUnique | mann_submission.py:70-77 | The reference rule determines the day uniquely. |
| TradingDay.ResolveByLocalTime | mann_submission.py:64-79 | The result depends on the instant only through its Kolkata date and time of day. |
| TradingDay.ResolveWeekend | mann_submission.py:70-73 | A local Saturday resolves to date + 2 and a local Sunday to date + 1, a Monday in both cases, whatever the time of day. |
| TradingDay.ResolveAtOrBeforeClose | mann_submission.py:74-79 | A week day at or before 15:30:00 keeps its local date. The strict `>` keeps exactly 15:30:00 on the same day. |
| TradingDay.ResolveAfterClose | mann_submission.py:74-77 | A week day strictly after 15:30:00 resolves to the next day for Monday to Thursday, and to the Monday 3 days later for Friday. |
| TradingDay.SampleInstants | mann_submission.py:69-79 | The rule gives the expected day on concrete instants of the 2024-01-15 week, including the exact 15:30:00 boundary and a Friday evening that is already Saturday locally. |
| TradingDay.TradingDays | mann_submission.py:67-80 | The loop yields exactly one trading day per kept record, in order: the resolved day of that record's timestamp. |
| EntityFilter.Lower | mann_submission.py:53 | Lower-casing keeps the length, leaves no upper-case ASCII letter, and keeps every other character as it is. |
| EntityFilter.LowerEqualIffSameIgnoringCase | mann_submission.py:53 | Two strings lower-case to the same string iff they have the same length and agree at each position up to ASCII case. |
| EntityFilter.Contains | mann_submission.py:53 | A found name is never longer than the text, the empty name is found in every text, and a name as long as the text is found iff it equals the text. |
| EntityFilter.ContainsIffSplit | mann_submission.py:53 | A name is found in a text iff the text splits into some prefix, the name, and some suffix. |
| EntityFilter.FindOrg | mann_submission.py:51-55 | The entity loop with `break` finds a match iff some entity is labelled `ORG` and its lower-cased text contains the lower-cased company name. |
| EntityFilter.Kept | mann_submission.py:47-59 | The kept records are never more than the input records, and each of them has a matching organisation entity. |
| EntityFilter.FilterByEntity | mann_submission.py:47-57 | The record loop keeps exactly `Kept`: the records whose headline has a matching entity, in input order. |
| EntityFilter.KeptIsSubsequence | mann_submission.py:47-59 | The kept records are a subsequence of the input. Order is preserved and nothing is added or reordered. |
| EntityFilter.KeptCount | mann_submission.py:47-59 | Each record occurs among the kept records as often as in the input if it passes the entity check, and never otherwise. |
| EntityFilter.KeptIdempotent | mann_submission.py:47-59 | Filtering the kept records again keeps all of them. |
| Aggregate.CountOn | mann_submission.py:102 | A day's group size is at most the number of records, and is positive iff some record falls on that day. |
| Aggregate.CountOnIsMultiplicity | mann_submission.py:102 | The group size of a day equals the number of times that day occurs among the trading days. |
| Aggregate.SumOn | mann_submission.py:97 | The sentiment sum of a day with no kept record is 0. |
| Aggregate.MeanOrZero | mann_submission.py:97-101 | The mean times the day's count is the day's sum, and the mean of a day with no kept record is 0. |
| Aggregate.SumOnBounds | mann_submission.py:97 | When every score lies in `[lo, hi]`, a day's sum lies between `lo` and `hi` times its count. |
| Aggregate.MeanWithinScores | mann_submission.py:97 | The mean of a day with news lies within the range of the scores. |
| Aggregate.InsertKey | mann_submission.py:97 | Inserting a key keeps the key list strictly ascending and adds exactly that key. |
| Aggregate.GroupKeys | mann_submission.py:97 | The group keys are strictly ascending, and a day is a key iff some kept record falls on it. |
| Aggregate.NewsByDay | mann_submission.py:97-98 | There is one row per day with news, in ascending date order, holding the mean sentiment of that day's records. |
| Aggregate.SizeByDay | mann_submission.py:102 | There is one row per day with news, in ascending date order, holding that day's record count. |
| Aggregate.MatchesOfDistinct | mann_submission.py:100 | When the right-hand dates are distinct, a date matches exactly the row holding it, or nothing. |
| Aggregate.JoinRowOfDistinct | mann_submission.py:100 | When the right-hand dates are distinct, one price row joins to exactly one row, with its date and price and the matching group's sentiment, or a missing one. |
| Aggregate.Matches | mann_submission.py:100 | The matches of a date are right-hand rows holding that date, and never more than the right-hand table. |
| Aggregate.JoinRow | mann_submission.py:100 | A price row joins to at least one row. Each carries the price row's date and price, and its sentiment is missing iff no right-hand row matches. |
| Aggregate.LeftJoin | mann_submission.py:100 | A left join never has fewer rows than the left table, and every row carries the date and price of some price row. |
| Aggregate.LeftJoinOneRowPerPrice | mann_submission.py:100 | When the right-hand dates are distinct, the join has one row per price row, with the same date and price in the same order. Its sentiment is the matching group's value, and is missing iff no group has that date. |
| Aggregate.FillNa | mann_submission.py:101 | A present value is kept. The result is 0 iff the value is missing or is itself 0. |
| Aggregate.Reindex | mann_submission.py:102 | There is one count per requested date: the size of the row holding that date, or 0 when no row does. |
| Aggregate.FinalTable | mann_submission.py:100-102 | The final table has one row per price row, with the same date and price, in the same order. |
| Aggregate.FinalRowAt | mann_submission.py:97-102 | Final row `i` carries price row `i`'s date and price, the number of kept records on that date, and their mean sentiment (0 when none). |
| Aggregate.FinalTableRows | mann_submission.py:97-102 | The final table has exactly one row per price row, and every row is as described for `FinalRowAt`. |
| Aggregate.NoNewsDefaultsToZero | mann_submission.py:101-102 | A price date with no kept news gets sentiment exactly 0 and count exactly 0. |
| Pipeline.Run | mann_submission.py:47-102 | The whole run: the filter keeps `Kept`. The run stops with the missing-column outcome iff nothing is kept. Otherwise there is one trading day per kept record and one final row per price row, with the count and mean of the kept records resolving to its date. |
| Pipeline.WeekendPriceRowsHaveNoNews | mann_submission.py:67-102 | No record resolves to a weekend, so a weekend-dated price row always gets sentiment 0 and count 0. |

## Left out

- Loading the spaCy language model and running entity recognition (lines 4, 11-13, 50, 52) belong to a foreign library. The recogniser is the parameter `ner`.
- The timezone database (pytz, lines 6, 64) is replaced by the fixed +05:30 offset. Asia/Kolkata has had no daylight saving since 1945, so the offset is exact for the dates concerned.
- Sub-second precision of timestamps is not modelled. Instants are whole seconds, so a news item a fraction of a second after 15:30:00 is not distinguished from one at 15:30:00.
- `EntityFilter.Lower` is ASCII lower-casing only. Python's `str.lower` also folds non-ASCII letters.
- Aggregate.Reindex requires the size table's dates to be distinct. pandas raises an error when reindexing on duplicate labels, and the group-by table never has any.
- The date types of the join are not modelled. The news side holds Python `date` objects and the price side `datetime64` values, and pandas may refuse to merge them or may fail to match them. The model uses one integer day type on both sides, so equal dates match.
- The article count `news_count` is a natural number here. In pandas the column becomes floating point after `fillna(0)`, with the same values.
- Floating-point rounding of the mean is not modelled. Sentiment is an exact `real`.
- The hard-coded sample tables (lines 15-44, 86-94) are fixture data and are not modelled. Line 87 produces 6 business dates, and line 90 lists 8 prices, so `pd.DataFrame` at line 92 raises a `ValueError` on columns of different lengths as written.
- The ADF stationarity test (lines 106-118), SQLite persistence (lines 120-124), the plot (lines 126-135), the NumPy summary statistics (lines 137-141) and the `print` logging are not modelled. They are foreign numeric code, file I/O, UI and console output.
