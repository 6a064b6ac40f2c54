/**
 * The records the batch works on. Dictionary fields that may be missing
 * are `Option`s; a field that is present holds a string.
 */
module Records {
  import opened Wrappers

  /** One coin asset as the assets endpoint returns it; amounts are decimal strings. */
  datatype Asset = Asset(
    symbol: Option<string>,
    name: Option<string>,
    marketCapUsd: Option<string>,
    volumeUsd24Hr: Option<string>,
    priceUsd: Option<string>)

  /** One (coin, exchange) trading pair as the markets endpoint returns it. */
  datatype Market = Market(baseSymbol: Option<string>, exchangeId: Option<string>)

  /** A coin that passed every gate of the filter, with its parsed amounts and tier counts. */
  datatype AcceptedCoin = AcceptedCoin(
    name: string,
    symbol: string,
    marketCap: real,
    volume: real,
    price: real,
    tier1: nat,
    tier2: nat)
}
