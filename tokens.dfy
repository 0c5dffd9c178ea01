/**
 * The token record the bot builds from one asset of the market API's JSON.
 * Identity and market fields never change after construction; the derived
 * fields are filled in later (extrema by the ticker workflow once candles
 * arrive, percentage changes by the currency conversion), so they are
 * mutable and start out absent.
 */
module Tokens {
  import opened Wrappers

  class TokenInfo {
    const assetId: int
    const ticker: string
    const rank: int
    const creationTimestamp: int
    const price: real
    const price1d: real
    const price7d: real
    const volume1d: real
    const marketCap: real

    var highest24h: Option<real>
    var lowest24h: Option<real>
    var highest7d: Option<real>
    var lowest7d: Option<real>
    var change24Hrs: Option<real>
    var change7Days: Option<real>

    constructor (assetId: int, ticker: string, rank: int, creationTimestamp: int,
                 price: real, price1d: real, price7d: real, volume1d: real, marketCap: real)
      ensures this.assetId == assetId && this.ticker == ticker && this.rank == rank
      ensures this.creationTimestamp == creationTimestamp
      ensures this.price == price && this.price1d == price1d && this.price7d == price7d
      ensures this.volume1d == volume1d && this.marketCap == marketCap
      ensures highest24h == None && lowest24h == None && highest7d == None && lowest7d == None
      ensures change24Hrs == None && change7Days == None
    {
      this.assetId := assetId;
      this.ticker := ticker;
      this.rank := rank;
      this.creationTimestamp := creationTimestamp;
      this.price := price;
      this.price1d := price1d;
      this.price7d := price7d;
      this.volume1d := volume1d;
      this.marketCap := marketCap;
      highest24h, lowest24h, highest7d, lowest7d := None, None, None, None;
      change24Hrs, change7Days := None, None;
    }
  }
}
