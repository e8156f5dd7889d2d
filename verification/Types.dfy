/** src/types.rs and src/lib.rs: the domain types that cross component boundaries. */
module Types {
  import opened Prelude

  const DEPTH: nat := 10

  const MAX_EXCHANGES: nat := 2

  /** Exchange ids are bytes; only those below MAX_EXCHANGES name an exchange. */
  const BINANCE_ID: byte := 0
  const BITSTAMP_ID: byte := 1

  datatype RawLevel = RawLevel(price: u64, amount: u64)

  datatype Level = Level(price: u64, amount: u64, exchangeId: byte)

  /** Times are nanoseconds on one monotone clock. */
  datatype OrderBook = OrderBook(exchangeId: byte, bids: seq<RawLevel>, asks: seq<RawLevel>, decodeStart: nat)

  datatype Summary = Summary(spreadRaw: int, bids: seq<Level>, asks: seq<Level>)
}
