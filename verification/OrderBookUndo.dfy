/** Adding and canceling on the linked book itself: everything but the pool cursors, the id
    counter and the message streams is as before, even when a level came and went. */
module OrderBookUndo {
  import opened ExchangeTypes
  import opened BookSpec
  import opened BookInvariants
  import opened BookMemory
  import opened BookTables
  import opened BookAbstraction
  import opened CancelTheorems
  import opened OrderBooks

  /** An order that trades nothing is added and canceled. */
  method AddThenCancelInPlace(book: MEOrderBook, client: ClientId, oid: OrderId, ticker: TickerId, side: Side,
                              price: Price, qty: Quantity) returns (fatal: bool)
    requires book.Valid() && side != INVALID && book.nextMarketOrderId < ORDER_ID_INVALID && qty > 0
    requires book.priceOrdersAtPrice.Length > 0
    requires var r := New(client, oid, ticker, side, price, qty);
             && !CanFill(book.State(), TakerOf(book.State(), r), qty)
             && Storable(MatchPhase(book.State(), r), r, book.priceOrdersAtPrice.Length,
                         book.cidOidToOrder.Length, book.orderIds)
    modifies book, book.orderPool, book.orderPool.objects, book.orderPool.isFree, book.levelPool,
             book.levelPool.objects, book.levelPool.isFree, book.priceOrdersAtPrice, book.cidOidToOrder
    ensures fatal <==> RunsOut(MatchPhase(old(book.State()), New(client, oid, ticker, side, price, qty)),
                               New(client, oid, ticker, side, price, qty),
                               book.orderPool.isFree.Length, book.levelPool.isFree.Length)
    ensures !fatal ==>
              && book.Valid()
              && book.lists == old(book.lists)
              && book.State().bids == old(book.State().bids) && book.State().asks == old(book.State().asks)
              && book.orderPool.isFree[..] == old(book.orderPool.isFree[..])
              && book.levelPool.isFree[..] == old(book.levelPool.isFree[..])
              && book.priceOrdersAtPrice[..] == old(book.priceOrdersAtPrice[..])
              && book.cidOidToOrder[..] == old(book.cidOidToOrder[..])
              && book.bidsByPrice == old(book.bidsByPrice) && book.asksByPrice == old(book.asksByPrice)
  {
    hide ListsOk, IndexOk, Good, Storable, CanFill, RunsOut, Extends, MatchPhase, Vals, AddStep, CancelStep, KeyFree;
    ghost var r := New(client, oid, ticker, side, price, qty);
    ghost var s0, m0, ls0 := book.State(), book.Mem(), book.lists;
    QuietStorable(s0, r, book.priceOrdersAtPrice.Length, book.cidOidToOrder.Length, book.orderIds);
    QuietAddThenCancel(s0, r);
    fatal := book.Add(client, oid, ticker, side, price, qty);
    if fatal {
      return;
    }
    ghost var m1, ls1 := book.Mem(), book.lists;
    ghost var x := book.cidOidToOrder[client][oid];
    var threw := book.Cancel(client, oid, ticker);
    ListsRestored(m1, ls0, book.lists, ls1, side, x);
    ListsDetermine(m0, book.Mem(), ls0);
  }

  lemma QuietStorable(m: Market, r: Request, tableSize: nat, clients: nat, orderIds: nat)
    requires r.New? && r.side != INVALID && r.qty > 0 && tableSize > 0
    requires !CanFill(m, TakerOf(m, r), r.qty)
    requires Storable(MatchPhase(m, r), r, tableSize, clients, orderIds)
    ensures KeyFree(m, r.client, r.oid)
  {
    QuietMatch(m, r);
  }

  lemma ListsRestored(m: Memory, a: Lists, b: Lists, big: Lists, side: Side, x: int)
    requires ListsOk(m, big, -1, -1) && side != INVALID && Extends(a, big, side, x)
    requires exists s :: s != INVALID && Extends(b, big, s, x)
    ensures a == b
  {
    var s :| s != INVALID && Extends(b, big, s, x);
    OnePlace(m.orders, m.levels, a, b, big, side, s, x);
  }
}
