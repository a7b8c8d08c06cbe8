/** What one add, one match call and one cancel do to the book, stated on the two flat
    sequences of resting orders, best price first and oldest first within a price. */
module BookSpec {
  import opened ExchangeTypes
  import opened Sequences

  /** A resting order, without its links. */
  datatype Order = Order(
    ticker: TickerId,
    client: ClientId,
    oid: OrderId,
    moid: OrderId,
    side: Side,
    price: Price,
    qty: Quantity,
    priority: Priority)
  {
    predicate HasKey(c: ClientId, o: OrderId) {
      client == c && oid == o
    }
  }

  /** The incoming order of an add, once it has its market order id. */
  datatype Taker = Taker(
    ticker: TickerId,
    client: ClientId,
    oid: OrderId,
    moid: OrderId,
    side: Side,
    price: Price)

  /** The resting orders, the next market order id and everything sent so far. */
  datatype Market = Market(
    bids: seq<Order>,
    asks: seq<Order>,
    nextId: nat,
    responses: seq<ClientResponse>,
    updates: seq<MarketUpdate>)
  {
    function On(side: Side): seq<Order> {
      if side == BUY then bids else asks
    }

    function With(side: Side, s: seq<Order>): Market {
      if side == BUY then this.(bids := s) else this.(asks := s)
    }

    function Send(rs: seq<ClientResponse>, us: seq<MarketUpdate>): Market {
      this.(responses := responses + rs, updates := updates + us)
    }
  }

  datatype Matched = Matched(market: Market, leaves: Quantity)

  const EMPTY := Market([], [], 1, [], [])

  /** p is strictly better than q for orders resting on side. */
  predicate Better(side: Side, p: Price, q: Price) {
    if side == BUY then p > q else p < q
  }

  /** An incoming order of the given side and limit trades with a resting order at price p. */
  predicate Crosses(side: Side, limit: Price, p: Price) {
    if side == BUY then p <= limit else p >= limit
  }

  predicate CanFill(m: Market, t: Taker, leaves: Quantity) {
    var opp := m.On(Opposite(t.side));
    leaves > 0 && opp != [] && Crosses(t.side, t.price, opp[0].price)
  }

  function FillResponses(t: Taker, o: Order, fill: Quantity, takerLeft: Quantity): seq<ClientResponse>
    requires fill <= o.qty
  {
    [ClientResponse(FILLED, t.client, t.ticker, t.oid, t.moid, t.side, o.price, fill, takerLeft),
     ClientResponse(FILLED, o.client, t.ticker, o.oid, o.moid, o.side, o.price, fill, o.qty - fill)]
  }

  function FillUpdates(t: Taker, o: Order, fill: Quantity): seq<MarketUpdate>
    requires fill <= o.qty
  {
    [MarketUpdate(TRADE, ORDER_ID_INVALID, t.ticker, t.side, o.price, fill, PRIORITY_INVALID),
     if o.qty == fill
     then MarketUpdate(CANCEL, o.moid, t.ticker, o.side, o.price, o.qty, PRIORITY_INVALID)
     else MarketUpdate(MODIFY, o.moid, t.ticker, o.side, o.price, o.qty - fill, o.priority)]
  }

  /** The opposite side after trading fill with its first order. */
  function AfterFill(opp: seq<Order>, fill: Quantity): seq<Order>
    requires opp != [] && fill <= opp[0].qty
  {
    if opp[0].qty == fill then opp[1..] else [opp[0].(qty := opp[0].qty - fill)] + opp[1..]
  }

  /** One match call against the first opposite order. */
  function FillStep(m: Market, t: Taker, leaves: Quantity): Matched
    requires m.On(Opposite(t.side)) != []
  {
    var opp := m.On(Opposite(t.side));
    var fill := Min(leaves, opp[0].qty);
    Matched(m.With(Opposite(t.side), AfterFill(opp, fill))
            .Send(FillResponses(t, opp[0], fill, leaves - fill), FillUpdates(t, opp[0], fill)),
            leaves - fill)
  }

  function MatchLoop(m: Market, t: Taker, leaves: Quantity): Matched
    requires t.side != INVALID
    decreases |m.On(Opposite(t.side))|, leaves
  {
    if CanFill(m, t, leaves) then
      var r := FillStep(m, t, leaves);
      MatchLoop(r.market, t, r.leaves)
    else
      Matched(m, leaves)
  }

  /** Priority given to a new order: the one of the last order at its price, or 1. */
  function NextPriority(s: seq<Order>, price: Price): Priority {
    if s == [] then 1
    else if s[|s| - 1].price == price then s[|s| - 1].priority
    else NextPriority(s[..|s| - 1], price)
  }

  /** Insertion behind every order that is at least as good. */
  function Insert(side: Side, s: seq<Order>, o: Order): seq<Order> {
    if s == [] || Better(side, o.price, s[0].price) then [o] + s
    else [s[0]] + Insert(side, s[1..], o)
  }

  /** Position of the order with this key by linear search, or |s|. */
  function Search(s: seq<Order>, c: ClientId, o: OrderId): (i: nat)
    ensures i <= |s|
    ensures i < |s| ==> s[i].HasKey(c, o)
    ensures forall k :: 0 <= k < i ==> !s[k].HasKey(c, o)
  {
    if s == [] || s[0].HasKey(c, o) then 0 else 1 + Search(s[1..], c, o)
  }

  datatype Request =
    | New(client: ClientId, oid: OrderId, ticker: TickerId, side: Side, price: Price, qty: Quantity)
    | Cancel(client: ClientId, oid: OrderId, ticker: TickerId)

  function TakerOf(m: Market, r: Request): Taker
    requires r.New?
  {
    Taker(r.ticker, r.client, r.oid, m.nextId, r.side, r.price)
  }

  /** The id is assigned and the order acknowledged. */
  function Accept(m: Market, r: Request): Market
    requires r.New?
  {
    m.(nextId := m.nextId + 1)
    .Send([ClientResponse(ACCEPTED, r.client, r.ticker, r.oid, m.nextId, r.side, r.price, 0, r.qty)], [])
  }

  function OrderOf(m: Market, t: Taker, leaves: Quantity): Order {
    Order(t.ticker, t.client, t.oid, t.moid, t.side, t.price, leaves, NextPriority(m.On(t.side), t.price))
  }

  function AddUpdate(o: Order): MarketUpdate {
    MarketUpdate(ADD, o.moid, o.ticker, o.side, o.price, o.qty, o.priority)
  }

  /** What was not filled rests on the order's own side. */
  function Rest(m: Market, t: Taker, leaves: Quantity): Market {
    var o := OrderOf(m, t, leaves);
    m.With(t.side, Insert(t.side, m.On(t.side), o)).Send([], [AddUpdate(o)])
  }

  /** The state in which add decides whether the rest of the order must be stored. */
  function MatchPhase(m: Market, r: Request): Matched
    requires r.New? && r.side != INVALID
  {
    MatchLoop(Accept(m, r), TakerOf(m, r), r.qty)
  }

  function AddStep(m: Market, r: Request): Market
    requires r.New? && r.side != INVALID
  {
    var after := MatchPhase(m, r);
    if after.leaves == 0 then after.market else Rest(after.market, TakerOf(m, r), after.leaves)
  }

  function Rejected(r: Request): ClientResponse
    requires r.Cancel?
  {
    ClientResponse(CANCEL_REJECTED, r.client, r.ticker, r.oid, ORDER_ID_INVALID, INVALID,
                   PRICE_INVALID, QUANTITY_INVALID, QUANTITY_INVALID)
  }

  function Canceled(r: Request, o: Order): ClientResponse
    requires r.Cancel?
  {
    ClientResponse(CANCELED, r.client, r.ticker, r.oid, o.moid, o.side, o.price, QUANTITY_INVALID, o.qty)
  }

  function CancelUpdate(r: Request, o: Order): MarketUpdate
    requires r.Cancel?
  {
    MarketUpdate(CANCEL, o.moid, r.ticker, o.side, o.price, 0, o.priority)
  }

  function CancelAt(m: Market, r: Request, side: Side, i: nat): Market
    requires r.Cancel? && i < |m.On(side)|
  {
    var o := m.On(side)[i];
    m.With(side, RemoveAt(m.On(side), i)).Send([Canceled(r, o)], [CancelUpdate(r, o)])
  }

  function CancelStep(m: Market, r: Request): Market
    requires r.Cancel?
  {
    var i := Search(m.bids, r.client, r.oid);
    var j := Search(m.asks, r.client, r.oid);
    if i < |m.bids| then CancelAt(m, r, BUY, i)
    else if j < |m.asks| then CancelAt(m, r, SELL, j)
    else m.Send([Rejected(r)], [])
  }

  ghost predicate KeyFree(m: Market, c: ClientId, o: OrderId) {
    && (forall i :: 0 <= i < |m.bids| ==> !m.bids[i].HasKey(c, o))
    && (forall i :: 0 <= i < |m.asks| ==> !m.asks[i].HasKey(c, o))
  }

  /** What the book relies on: a real side, and an unused (client, order id) for what is left
      to store after matching. */
  ghost predicate Admissible(m: Market, r: Request) {
    r.New? ==>
      && r.side != INVALID
      && (MatchPhase(m, r).leaves > 0 ==> KeyFree(MatchPhase(m, r).market, r.client, r.oid))
  }

  function Step(m: Market, r: Request): Market
    requires r.New? ==> r.side != INVALID
  {
    if r.New? then AddStep(m, r) else CancelStep(m, r)
  }

  ghost predicate AdmissibleRun(m: Market, rs: seq<Request>)
    decreases |rs|
  {
    rs != [] ==> Admissible(m, rs[0]) && AdmissibleRun(Step(m, rs[0]), rs[1..])
  }

  /** The market after serving the requests in order. */
  ghost function Run(m: Market, rs: seq<Request>): Market
    requires AdmissibleRun(m, rs)
    decreases |rs|
  {
    if rs == [] then m else Run(Step(m, rs[0]), rs[1..])
  }
}
