/** Identifiers, bounded integers and the two outgoing message formats of the exchange. */
module ExchangeTypes {

  /** Unsigned 64-bit identifiers; the largest value marks an absent one. */
  const ORDER_ID_INVALID: OrderId := 0xFFFF_FFFF_FFFF_FFFF
  const PRIORITY_INVALID: Priority := 0xFFFF_FFFF_FFFF_FFFF
  const PRICE_INVALID: Price := 0x7FFF_FFFF_FFFF_FFFF
  const QUANTITY_INVALID: Quantity := 0xFFFF_FFFF

  type OrderId = nat
  type ClientId = nat
  type TickerId = nat
  type Priority = nat
  type Price = p: int | -0x8000_0000_0000_0000 <= p < 0x8000_0000_0000_0000
  type Quantity = q: int | 0 <= q < 0x1_0000_0000

  datatype Side = INVALID | BUY | SELL

  datatype ResponseType = ACCEPTED | CANCELED | FILLED | CANCEL_REJECTED

  datatype ClientResponse = ClientResponse(
    kind: ResponseType,
    client: ClientId,
    ticker: TickerId,
    clientOrderId: OrderId,
    marketOrderId: OrderId,
    side: Side,
    price: Price,
    execQty: Quantity,
    leftQty: Quantity)

  datatype UpdateType = ADD | MODIFY | CANCEL | TRADE

  datatype MarketUpdate = MarketUpdate(
    kind: UpdateType,
    orderId: OrderId,
    ticker: TickerId,
    side: Side,
    price: Price,
    qty: Quantity,
    priority: Priority)

  function Opposite(side: Side): Side {
    match side
    case BUY => SELL
    case SELL => BUY
    case INVALID => INVALID
  }

  function Min(a: Quantity, b: Quantity): Quantity {
    if a <= b then a else b
  }
}
