/** Records shared by the dashboard's components: the market-data coin record,
    a portfolio holding and the coin-detail record. Prices, amounts and
    percentages are exact reals. */
module CryptoTypes {

  datatype Option<+T> = None | Some(value: T)

  /** One coin of the market listing. The four optional figures may be
      missing from the listing (the API sends null). */
  datatype Coin = Coin(
    id: string,
    symbol: string,
    name: string,
    currentPrice: real,
    priceChangePercentage24h: real,
    marketCapRank: int,
    marketCapChangePercentage24h: Option<real>,
    totalSupply: Option<real>,
    maxSupply: Option<real>,
    fullyDilutedValuation: Option<real>
  )

  /** One recorded purchase. Symbol and name are copies taken when the
      holding was entered; purchaseDate is an ISO timestamp string. */
  datatype Holding = Holding(
    coinId: string,
    symbol: string,
    name: string,
    amount: real,
    purchasePrice: real,
    purchaseDate: string
  )

  /** The part of the coin-detail response the detail view reads. */
  datatype Description = Description(en: Option<string>)
  datatype CoinDetailRecord = CoinDetailRecord(description: Option<Description>)
}
