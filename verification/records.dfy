/** The rows the pipeline works on: news records, the named entities found in
    a headline, price rows and rows of the final merged table. */
module Records {

  /** One row of the news table: headline, company it is filed under, UTC
      timestamp in seconds since the epoch, and sentiment score. */
  datatype NewsRecord = NewsRecord(headline: string, company: string, timestampUtc: int, sentiment: real)

  /** One named entity recognised in a headline: its text and its label, `kind` here (`ORG`, `PERSON`, ...). */
  datatype Entity = Entity(text: string, kind: string)

  /** One row of the price table: a trading date (day number) and the closing price. */
  datatype PriceRow = PriceRow(date: int, closePrice: real)

  /** One row of the final table: the price row with average sentiment and article count for its date. */
  datatype FinalRow = FinalRow(date: int, closePrice: real, avgSentiment: real, newsCount: nat)
}
