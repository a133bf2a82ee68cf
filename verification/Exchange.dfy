/** Values shared by every part of the model: what the exchange reports and the constants of one market. */
module Exchange {

  datatype Option<+T> = None | Some(value: T)

  /** A price, lot or tick that the exchange never reports as zero. */
  type Positive = r: real | r > 0.0 witness 1.0

  /** What a volume is worth at a price. */
  function Worth(volume: real, price: real): real { volume * price }

  datatype Side = Buy | Sell

  /** One executed order. `time` is in milliseconds. */
  datatype Trade = Trade(side: Side, price: real, volume: real, baseVolume: real, fee: real, time: nat)

  /** An order or trade as reported; the market it belongs to travels beside it. */
  datatype OrderConfig = OrderConfig(
    orderId: nat, side: Side, price: real, currencyVolume: real, baseVolume: real, fee: real, remaining: real,
    time: nat, updated: nat)

  datatype OrderEntry = OrderEntry(marketId: string, params: OrderConfig)

  /** Keys the storages search by. */
  function HasId(id: nat): OrderEntry -> bool { (o: OrderEntry) => o.params.orderId == id }
  function InMarket(id: string): OrderEntry -> bool { (o: OrderEntry) => o.marketId == id }
  function Is(id: string): string -> bool { (x: string) => x == id }
  function TimeOf(): OrderEntry -> int { (o: OrderEntry) => o.params.time }

  /** A batch entry is stored if its market is subscribed and known. */
  function Admissible(filters: seq<string>, markets: set<string>): OrderEntry -> bool {
    (o: OrderEntry) => o.marketId in filters && o.marketId in markets
  }

  predicate UniqueIds(data: seq<OrderEntry>) {
    forall i, j | 0 <= i < j < |data| :: data[i].params.orderId != data[j].params.orderId
  }

  /** The per-market constants: exchange rules and what the user typed in for the pair. */
  datatype Params = Params(
    tradeFee: real,
    tickSize: Positive,
    lot: Positive,
    minNotional: real,
    minBasePrice: real,
    tradeSumm: real,
    profit: real)
}
