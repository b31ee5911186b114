/**
 * The plain records the engine works on: orders, trades and the two sides
 * of the book.
 */
module Types {

  datatype Option<T> = None | Some(value: T)

  /** An order's identifier: the client's string, compared only for equality. */
  datatype OrderId = OrderId(name: string)

  /** The engine compares the side string with "BUY"; every other value is a sell. */
  datatype Side = Buy | Sell

  function Opposite(side: Side): (r: Side)
    ensures r != side
  {
    match side
    case Buy => Sell
    case Sell => Buy
  }

  /**
   * A limit order. Prices are scaled integers: the engine only compares them
   * and uses them as level keys. `quantity` is the remaining quantity; the
   * engine lowers it on every fill.
   */
  datatype Order = Order(orderId: OrderId, side: Side, price: int, quantity: int)

  /** An executed fill; `tradeId` is the engine's counter value for it. */
  datatype Trade = Trade(tradeId: nat, buyOrderId: OrderId, sellOrderId: OrderId, price: int, quantity: int)

  /** Total executed quantity of a sequence of trades. */
  function TradedQuantity(ts: seq<Trade>): int
  {
    if ts == [] then 0 else ts[0].quantity + TradedQuantity(ts[1..])
  }
}
