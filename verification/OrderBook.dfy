/** The limit order book as the exchange runs it: pool slots, in-place links, index tables. */
module OrderBooks {
  import opened ExchangeTypes
  import opened BookSpec
  import opened Sequences
  import opened BookInvariants
  import opened Rings
  import opened BookMemory
  import opened BookTables
  import opened BookAbstraction
  import opened MemPools
  import opened CancelTheorems

  /** Every row of the id table has n entries. */
  ghost predicate RowsOk(index: seq<seq<int>>, n: nat) {
    forall c :: 0 <= c < |index| ==> |index[c]| == n
  }

  lemma FreshRows(index: seq<seq<int>>, n: nat)
    requires forall c :: 0 <= c < |index| ==> |index[c]| == n
    ensures RowsOk(index, n)
  {
  }

  /** What the parts of a match call do in turn is the match step. */
  lemma MatchParts(m: Market, t: Taker, leaves: Quantity)
    requires t.side != INVALID && CanFill(m, t, leaves)
    ensures var side := Opposite(t.side);
            var s := m.On(side);
            var fill := Min(leaves, s[0].qty);
            var reduced := m.With(side, [s[0].(qty := s[0].qty - fill)] + s[1..]);
            var told := reduced.Send(FillResponses(t, s[0], fill, leaves - fill), FillUpdates(t, s[0], fill));
            FillStep(m, t, leaves)
              == Matched(if told.On(side)[0].qty == 0 then told.With(side, told.On(side)[1..]) else told, leaves - fill)
  {
  }

  /** A match call takes an order off the book or uses up the incoming one. */
  lemma StepShrinks(m: Market, t: Taker, leaves: Quantity)
    requires t.side != INVALID && CanFill(m, t, leaves)
    ensures var r := FillStep(m, t, leaves);
            && MatchLoop(m, t, leaves) == MatchLoop(r.market, t, r.leaves)
            && |r.market.On(Opposite(t.side))| <= |m.On(Opposite(t.side))|
            && (|r.market.On(Opposite(t.side))| < |m.On(Opposite(t.side))| || r.leaves == 0)
  {
  }

  class MEOrderBook {
    const orderPool: MemPool<MEOrder>
    const levelPool: MemPool<MEOrdersAtPrice>
    const orderIds: nat
    const cidOidToOrder: array<seq<int>>
    const priceOrdersAtPrice: array<int>
    var bidsByPrice: int
    var asksByPrice: int
    var nextMarketOrderId: nat
    var responses: seq<ClientResponse>
    var updates: seq<MarketUpdate>
    ghost var lists: Lists

    /** The six arrays are different objects. */
    ghost predicate Separate() {
      && priceOrdersAtPrice.Length > 0
      && orderPool as object != levelPool
      && orderPool.isFree != levelPool.isFree
      && orderPool.objects as object != levelPool.objects
      && orderPool.objects as object != cidOidToOrder && orderPool.objects as object != priceOrdersAtPrice
      && levelPool.objects as object != cidOidToOrder && levelPool.objects as object != priceOrdersAtPrice
      && cidOidToOrder as object != priceOrdersAtPrice
    }

    /** An empty book whose two tables are all null (lines 14 and 18 of include/me_order_book.h
        leave their entries uninitialized). */
    constructor (orderIds: nat, priceLevels: nat, clients: nat)
      requires orderIds > 0 && priceLevels > 0
      ensures Valid() && State() == EMPTY
      ensures orderPool.isFree.Length == orderIds && levelPool.isFree.Length == priceLevels
      ensures priceOrdersAtPrice.Length == priceLevels
      ensures cidOidToOrder.Length == clients && this.orderIds == orderIds
      ensures fresh(orderPool) && fresh(orderPool.objects) && fresh(orderPool.isFree)
      ensures fresh(levelPool) && fresh(levelPool.objects) && fresh(levelPool.isFree)
      ensures fresh(cidOidToOrder) && fresh(priceOrdersAtPrice)
    {
      this.orderIds := orderIds;
      orderPool := new MemPool<MEOrder>(orderIds);
      levelPool := new MemPool<MEOrdersAtPrice>(priceLevels);
      cidOidToOrder := new seq<int>[clients](_ => seq(orderIds, _ => -1));
      priceOrdersAtPrice := new int[priceLevels](_ => -1);
      bidsByPrice, asksByPrice := -1, -1;
      nextMarketOrderId := 1;
      responses, updates := [], [];
      lists := Lists([], []);
      new;
      hide ListsOk, IndexOk, Good, MarketOf, RowsOk;
      FreshRows(cidOidToOrder[..], orderIds);
      assert StorageOk();
      FreshMemory(Mem());
      assert Core();
    }

    ghost function Mem(): Memory
      reads this, orderPool.objects, orderPool.isFree, levelPool.objects, levelPool.isFree,
            cidOidToOrder, priceOrdersAtPrice
    {
      Memory(orderPool.objects[..], orderPool.isFree[..], levelPool.objects[..], levelPool.isFree[..],
             priceOrdersAtPrice[..], cidOidToOrder[..], bidsByPrice, asksByPrice)
    }

    /** The flat sequences and streams that the book stands for. */
    ghost function State(): Market
      reads this, orderPool.objects, orderPool.isFree, levelPool.objects, levelPool.isFree,
            cidOidToOrder, priceOrdersAtPrice
    {
      MarketOf(Mem(), lists, nextMarketOrderId, responses, updates)
    }

    /** Rings, pools and both tables agree. */
    ghost predicate Core()
      reads this, orderPool, orderPool.objects, orderPool.isFree, levelPool, levelPool.objects, levelPool.isFree,
            cidOidToOrder, priceOrdersAtPrice
    {
      StorageOk() && ListsOk(Mem(), lists, -1, -1) && IndexOk(orderPool.objects[..], cidOidToOrder[..], lists)
    }

    ghost predicate Valid()
      reads this, orderPool, orderPool.objects, orderPool.isFree, levelPool, levelPool.objects, levelPool.isFree,
            cidOidToOrder, priceOrdersAtPrice
    {
      Core() && Good(State())
    }

    /** What a pool's exit leaves behind: rings and tables agree, but for the slot x of an order
        that has not joined them and, if y is not -1, the slot of the level meant for it. */
    ghost predicate Exited()
      reads this, orderPool.objects, orderPool.isFree, levelPool.objects, levelPool.isFree,
            cidOidToOrder, priceOrdersAtPrice
    {
      exists x, y :: LeftOver(Mem(), lists, x, y)
    }

    /** The pools are usable and every client has a full row of order ids. */
    ghost predicate StorageOk()
      reads orderPool, orderPool.isFree, levelPool, levelPool.isFree, cidOidToOrder
    {
      Separate() && orderPool.Valid() && levelPool.Valid() && RowsOk(cidOidToOrder[..], orderIds)
    }

    method SendClientResponse(r: ClientResponse)
      modifies this`responses
      ensures responses == old(responses) + [r]
    {
      responses := responses + [r];
    }

    method SendMarketUpdate(u: MarketUpdate)
      modifies this`updates
      ensures updates == old(updates) + [u]
    {
      updates := updates + [u];
    }

    function GetOrdersAtPrice(price: Price): int
      requires priceOrdersAtPrice.Length > 0
      reads priceOrdersAtPrice
    {
      priceOrdersAtPrice[PriceToIndex(price, priceOrdersAtPrice.Length)]
    }

    method RemoveOrdersAtPrice(side: Side, price: Price, ghost i: nat)
      requires StorageOk() && ListsOk(Mem(), lists, -1, -1) && side != INVALID
      requires i < |lists.On(side)| && |lists.On(side)[i].fifo| == 1
      requires 0 <= lists.On(side)[i].slot < levelPool.objects.Length
      requires levelPool.objects[lists.On(side)[i].slot].value.price == price
      modifies this`bidsByPrice, this`asksByPrice, this`lists, levelPool.objects, levelPool.isFree, priceOrdersAtPrice
      ensures StorageOk()
      ensures lists == old(lists.With(side, RemoveAt(lists.On(side), i)))
      ensures ListsOk(Mem(), lists, old(lists.On(side)[i].fifo[0]), -1)
      ensures Minus(old(lists), lists, old(lists.On(side)[i].fifo[0]))
    {
      hide ListsOk, Minus, Unlink, PriceToIndex, RowsOk;
      ghost var m0, ls0 := Mem(), lists;
      ghost var g := lists.On(side);
      LevelFound(m0, ls0, -1, -1, side, i);
      DropKeepsLists(m0, ls0, side, i);
      var best := if side == BUY then bidsByPrice else asksByPrice;
      var l := GetOrdersAtPrice(price);
      if levelPool.objects[l].next == l {
        if side == BUY { bidsByPrice := -1; } else { asksByPrice := -1; }
      } else {
        var next := levelPool.objects[l].next;
        UnlinkInPlace(levelPool.objects, l);
        if l == best {
          if side == BUY { bidsByPrice := next; } else { asksByPrice := next; }
        }
      }
      priceOrdersAtPrice[PriceToIndex(price, priceOrdersAtPrice.Length)] := -1;
      levelPool.Deallocate(l);
      lists := lists.With(side, RemoveAt(g, i));
      assert Mem() == Dropped(m0, ls0, side, i);
    }

    /** The order leaves its level, and the level its side if that was its last order. */
    method DetachOrder(order: int, ghost side: Side, ghost i: nat, ghost j: nat)
      requires StorageOk() && ListsOk(Mem(), lists, -1, -1) && side != INVALID
      requires i < |lists.On(side)| && j < |lists.On(side)[i].fifo| && lists.On(side)[i].fifo[j] == order
      modifies this`bidsByPrice, this`asksByPrice, this`lists, orderPool.objects,
               levelPool.objects, levelPool.isFree, priceOrdersAtPrice
      ensures StorageOk()
      ensures lists == old(lists.With(side, WithoutOrder(lists.On(side), i, j)))
      ensures ListsOk(Mem(), lists, order, -1)
      ensures Minus(old(lists), lists, order)
      ensures SameValues(old(orderPool.objects[..]), orderPool.objects[..])
    {
      hide ListsOk, Minus, Unlink, PriceToIndex;
      ghost var m0, ls0 := Mem(), lists;
      ghost var l := ls0.On(side)[i];
      OrderFound(m0, ls0, -1, -1, side, i, j);
      LevelFound(m0, ls0, -1, -1, side, i);
      var price := orderPool.objects[order].value.price;
      var ordersAtPrice := GetOrdersAtPrice(price);
      if orderPool.objects[order].prev == order {
        RemoveOrdersAtPrice(orderPool.objects[order].value.side, price, i);
      } else {
        UnlinkKeepsLists(m0, ls0, side, i, j);
        var orderAfter := orderPool.objects[order].next;
        UnlinkInPlace(orderPool.objects, order);
        if levelPool.objects[ordersAtPrice].value.first == order {
          var level := levelPool.objects[ordersAtPrice];
          levelPool.objects[ordersAtPrice] := level.(value := level.value.(first := orderAfter));
        }
        lists := lists.With(side, WithoutOrder(lists.On(side), i, j));
        assert Mem().levels == Refirst(m0.levels, l.slot, RemoveAt(l.fifo, j)[0]);
      }
    }

    /** The order leaves the book and its slot the pool: the flat side loses the order that a
        linear search for its key finds. */
    method RemoveOrder(order: int, ghost side: Side, ghost i: nat, ghost j: nat)
      requires Core() && side != INVALID
      requires i < |lists.On(side)| && j < |lists.On(side)[i].fifo| && lists.On(side)[i].fifo[j] == order
      requires 0 <= order < orderPool.objects.Length
      modifies this`bidsByPrice, this`asksByPrice, this`lists, orderPool.objects, orderPool.isFree,
               levelPool.objects, levelPool.isFree, priceOrdersAtPrice, cidOidToOrder
      ensures Core()
      ensures lists == old(lists.With(side, WithoutOrder(lists.On(side), i, j)))
      ensures var o := old(orderPool.objects[order].value);
              var before := old(State().On(side));
              && Search(before, o.client, o.oid) < |before|
              && before[Search(before, o.client, o.oid)] == o
              && State() == old(State()).With(side, RemoveAt(before, Search(before, o.client, o.oid)))
    {
      hide ListsOk, Minus, IndexOk, RemoveAt, Vals, WithoutOrder;
      ghost var m0, ls0 := Mem(), lists;
      OrderFound(m0, ls0, -1, -1, side, i, j);
      DetachOrder(order, side, i, j);
      ghost var m1 := Mem();
      RemovalMarket(m0, ls0, m1, side, i, j, nextMarketOrderId, responses, updates);
      var o := orderPool.objects[order].value;
      RetireOrder(m1, ls0, lists, order, m0.orders);
      cidOidToOrder[o.client] := cidOidToOrder[o.client][o.oid := -1];
      orderPool.Deallocate(order);
      assert Mem() == Retired(m1, order);
    }

    /** The four messages of a trade; order is the resting order before it. */
    method ReportTrade(t: Taker, order: Order, fillQty: Quantity, left: Quantity)
      requires Core() && fillQty <= order.qty
      modifies this`responses, this`updates
      ensures Core()
      ensures State() == old(State()).Send(FillResponses(t, order, fillQty, left), FillUpdates(t, order, fillQty))
    {
      hide ListsOk, IndexOk, RowsOk, Vals, Flat;
      SendClientResponse(ClientResponse(FILLED, t.client, t.ticker, t.oid, t.moid, t.side,
                                        order.price, fillQty, left));
      SendClientResponse(ClientResponse(FILLED, order.client, t.ticker, order.oid, order.moid, order.side,
                                        order.price, fillQty, order.qty - fillQty));
      SendMarketUpdate(MarketUpdate(TRADE, ORDER_ID_INVALID, t.ticker, t.side, order.price, fillQty, PRIORITY_INVALID));
      if order.qty - fillQty == 0 {
        SendMarketUpdate(MarketUpdate(CANCEL, order.moid, t.ticker, order.side, order.price,
                                      order.qty, PRIORITY_INVALID));
      } else {
        SendMarketUpdate(MarketUpdate(MODIFY, order.moid, t.ticker, order.side, order.price,
                                      order.qty - fillQty, order.priority));
      }
    }

    /** The first order of a side is down to qty. */
    method ReduceQuantity(itr: int, qty: Quantity, ghost side: Side)
      requires Core() && side != INVALID && lists.On(side) != [] && lists.On(side)[0].fifo != []
      requires itr == lists.On(side)[0].fifo[0] && 0 <= itr < orderPool.objects.Length
      requires State().On(side) != []
      modifies orderPool.objects
      ensures Core() && 0 <= itr < orderPool.objects.Length
      ensures orderPool.objects[itr]
           == old(orderPool.objects[itr]).(value := old(orderPool.objects[itr].value).(qty := qty))
      ensures var s := old(State().On(side));
              State() == old(State()).With(side, [s[0].(qty := qty)] + s[1..])
    {
      hide ListsOk, IndexOk, Vals;
      ghost var m0 := Mem();
      ReduceHead(m0, lists, side, qty, nextMarketOrderId, responses, updates);
      orderPool.objects[itr] := orderPool.objects[itr].(value := orderPool.objects[itr].value.(qty := qty));
      assert Mem() == Reduced(m0, itr, qty);
    }

    /** The first order of a side leaves the book if nothing is left of it. */
    method DropEmptied(itr: int, ghost side: Side)
      requires Core() && side != INVALID && lists.On(side) != [] && lists.On(side)[0].fifo != []
      requires itr == lists.On(side)[0].fifo[0] && 0 <= itr < orderPool.objects.Length
      requires State().On(side) != []
      modifies this`bidsByPrice, this`asksByPrice, this`lists, orderPool.objects, orderPool.isFree,
               levelPool.objects, levelPool.isFree, priceOrdersAtPrice, cidOidToOrder
      ensures Core()
      ensures var s := old(State().On(side));
              State() == if s[0].qty == 0 then old(State()).With(side, s[1..]) else old(State())
    {
      hide ListsOk, IndexOk, RowsOk, Vals, Flat, RemoveAt, WithoutOrder;
      ghost var s := State().On(side);
      HeadFound(Mem(), lists, side);
      FirstKey(s);
      if orderPool.objects[itr].value.qty == 0 {
        RemoveOrder(itr, side, 0, 0);
      }
    }

    /** One trade against the first opposite order. */
    method Match(t: Taker, itr: int, leaves: Quantity) returns (left: Quantity)
      requires Core() && t.side != INVALID && CanFill(State(), t, leaves)
      requires lists.On(Opposite(t.side)) != [] && lists.On(Opposite(t.side))[0].fifo != []
      requires itr == lists.On(Opposite(t.side))[0].fifo[0] && 0 <= itr < orderPool.objects.Length
      modifies this`bidsByPrice, this`asksByPrice, this`lists, this`responses, this`updates,
               orderPool.objects, orderPool.isFree, levelPool.objects, levelPool.isFree,
               priceOrdersAtPrice, cidOidToOrder
      ensures Core()
      ensures Matched(State(), left) == FillStep(old(State()), t, leaves)
    {
      hide ListsOk, IndexOk, RowsOk, Vals, Flat, Crosses, FillResponses, FillUpdates, FillStep,
           Market.Send, Market.With, CanFill, Separate;
      MatchParts(State(), t, leaves);
      ghost var side := Opposite(t.side);
      HeadFound(Mem(), lists, side);
      var order := orderPool.objects[itr].value;
      var fillQty := Min(leaves, order.qty);
      left := leaves - fillQty;
      ReduceQuantity(itr, order.qty - fillQty, side);
      ReportTrade(t, order, fillQty, left);
      DropEmptied(itr, side);
    }

    /** The incoming order trades with the other side as far as its limit allows. */
    method CheckForMatch(t: Taker, qty: Quantity) returns (leaves: Quantity)
      requires Core() && t.side != INVALID
      modifies this`bidsByPrice, this`asksByPrice, this`lists, this`responses, this`updates,
               orderPool.objects, orderPool.isFree, levelPool.objects, levelPool.isFree,
               priceOrdersAtPrice, cidOidToOrder
      ensures Core()
      ensures Matched(State(), leaves) == MatchLoop(old(State()), t, qty)
      ensures !CanFill(old(State()), t, qty) ==> lists == old(lists)
    {
      hide ListsOk, IndexOk, Vals, Search, RemoveAt, FillStep;
      ghost var s0 := State();
      leaves := qty;
      HeadFound(Mem(), lists, Opposite(t.side));
      if t.side == BUY {
        while leaves > 0 && asksByPrice != -1
          invariant Core()
          invariant MatchLoop(State(), t, leaves) == MatchLoop(s0, t, qty)
          invariant asksByPrice == -1 <==> State().asks == []
          invariant !CanFill(s0, t, qty) ==> lists == old(lists) && State() == s0 && leaves == qty
          decreases |State().asks|, leaves
        {
          HeadFound(Mem(), lists, SELL);
          var askItr := levelPool.objects[asksByPrice].value.first;
          if t.price < orderPool.objects[askItr].value.price {
            break;
          }
          StepShrinks(State(), t, leaves);
          leaves := Match(t, askItr, leaves);
          HeadFound(Mem(), lists, SELL);
        }
      }
      if t.side == SELL {
        while leaves > 0 && bidsByPrice != -1
          invariant Core()
          invariant MatchLoop(State(), t, leaves) == MatchLoop(s0, t, qty)
          invariant bidsByPrice == -1 <==> State().bids == []
          invariant !CanFill(s0, t, qty) ==> lists == old(lists) && State() == s0 && leaves == qty
          decreases |State().bids|, leaves
        {
          HeadFound(Mem(), lists, BUY);
          var bidItr := levelPool.objects[bidsByPrice].value.first;
          if t.price > orderPool.objects[bidItr].value.price {
            break;
          }
          StepShrinks(State(), t, leaves);
          leaves := Match(t, bidItr, leaves);
          HeadFound(Mem(), lists, BUY);
        }
      }
    }

    /** Walks the ring from the best level to the first level that is worse than the price, or all
        the way round. The flag is assigned on every turn (lines 88 and 94 of the source declare a
        new one, which leaves the outer flag as it was). */
    method FindPlace(side: Side, price: Price, best: int, ghost g: seq<LevelList>)
        returns (target: int, addAfter: bool, ghost k: nat)
      requires SideOk(orderPool.objects[..], levelPool.objects[..], side, g) && side != INVALID
      requires g != [] && best == g[0].slot
      requires forall i :: 0 <= i < |g| ==>
                 0 <= g[i].slot < levelPool.objects.Length && levelPool.objects[g[i].slot].value.price != price
      ensures k <= |g| && (addAfter <==> k == |g|)
      ensures target == if k == |g| then g[0].slot else g[k].slot
      ensures addAfter <==>
                forall i :: 0 <= i < |g| ==> Better(side, levelPool.objects[g[i].slot].value.price, price)
      ensures addAfter ==> target == best
      ensures !addAfter ==> 0 <= target < levelPool.objects.Length
                            && Better(side, price, levelPool.objects[target].value.price)
      ensures forall i :: 0 <= i < k ==> Better(side, levelPool.objects[g[i].slot].value.price, price)
      ensures forall i :: k <= i < |g| ==> Better(side, price, levelPool.objects[g[i].slot].value.price)
    {
      hide Ring, LevelOk;
      ghost var levels := levelPool.objects[..];
      target, k := best, 0;
      addAfter := WorseThan(side, price, levelPool.objects[target].value.price);
      if addAfter {
        LevelNeighbours(orderPool.objects[..], levels, side, g, 0);
        target, k := levelPool.objects[target].next, 1;
        addAfter := WorseThan(side, price, levelPool.objects[target].value.price);
      }
      while addAfter && target != best
        invariant k <= |g| && target == if k == |g| then g[0].slot else g[k].slot
        invariant addAfter <==> WorseThan(side, price, levels[target].value.price)
        invariant forall i :: 0 <= i < k ==> Better(side, levels[g[i].slot].value.price, price)
        invariant addAfter ==> 0 < k
        decreases |g| - k
      {
        LevelNeighbours(orderPool.objects[..], levels, side, g, k);
        target, k := levelPool.objects[target].next, k + 1;
        addAfter := WorseThan(side, price, levelPool.objects[target].value.price);
      }
      if k < |g| {
        LevelNeighbours(orderPool.objects[..], levels, side, g, k);
        if !addAfter {
          WorseFromHere(orderPool.objects[..], levels, side, g, k, price);
        }
      }
    }

    /** Links a new level into the non-empty ring of its side; the head moves exactly when the new
        price is better. A better ask is a lower one (line 115 of the source compares the other way
        round). */
    method LinkLevel(side: Side, y: int, best: int, ghost e: LevelList, ghost g: seq<LevelList>) returns (ghost k: nat)
      requires SideOk(orderPool.objects[..], levelPool.objects[..], side, g) && side != INVALID
      requires g != [] && best == g[0].slot && best == (if side == BUY then bidsByPrice else asksByPrice)
      requires e.slot == y && 0 <= y < levelPool.objects.Length
      requires forall i :: 0 <= i < |g| ==>
                 && 0 <= g[i].slot < levelPool.objects.Length
                 && levelPool.objects[g[i].slot].value.price != levelPool.objects[y].value.price
      modifies this`bidsByPrice, this`asksByPrice, levelPool.objects
      ensures PlaceOf(old(levelPool.objects[..]), side, g, k, e)
      ensures Within(Slots(g), levelPool.objects.Length)
      ensures levelPool.objects[..]
           == Link(old(levelPool.objects[..]), Slots(g)[Left(k, |g|)], Slots(g)[Right(k, |g|)], y)
      ensures bidsByPrice == if side == BUY && k == 0 then y else old(bidsByPrice)
      ensures asksByPrice == if side == SELL && k == 0 then y else old(asksByPrice)
    {
      hide LevelOk, Link, Slots, Tower;
      ghost var levels := levelPool.objects[..];
      var price, bestPrice := levelPool.objects[y].value.price, levelPool.objects[best].value.price;
      var target, addAfter;
      target, addAfter, k := FindPlace(side, price, best, g);
      PlaceNeighbours(orderPool.objects[..], levels, side, g, k);
      if addAfter {
        if target == best {
          target := levelPool.objects[target].prev;
        }
        LinkInPlace(levelPool.objects, target, levelPool.objects[target].next, y);
      } else {
        LinkInPlace(levelPool.objects, levelPool.objects[target].prev, target, y);
        if side == BUY && price > bestPrice {
          bidsByPrice := y;
        }
        if side == SELL && price < bestPrice {
          asksByPrice := y;
        }
      }
    }

    /** A new level goes into the table and to its place in the ring of its side. BUY levels belong
        to bids and SELL levels to asks (lines 76-79 of the source have the sides the other way
        round). */
    method AddOrderAtPrice(y: int, ghost x: int) returns (ghost k: nat)
      requires StorageOk() && ListsOk(Mem(), lists, x, y) && !InLists(lists, x) && !InLevels(lists, y)
      requires 0 <= y < levelPool.objects.Length && levelPool.objects[y].value.side != INVALID
      requires LevelOk(orderPool.objects[..], levelPool.objects[..], levelPool.objects[y].value.side, LevelList(y, [x]))
      requires priceOrdersAtPrice.Length > 0 && GetOrdersAtPrice(levelPool.objects[y].value.price) == -1
      modifies this`bidsByPrice, this`asksByPrice, this`lists, levelPool.objects, priceOrdersAtPrice
      ensures StorageOk() && ListsOk(Mem(), lists, -1, -1) && Plus(old(lists), lists, x)
      ensures var v := old(levelPool.objects[y].value);
              var g := old(lists.On(v.side));
              && PlaceOf(old(levelPool.objects[..]), v.side, g, k, LevelList(y, [x]))
              && lists == old(lists).With(v.side, Inserted(g, k, LevelList(y, [x])))
    {
      hide ListsOk, LevelOk, SideOk, Plus, InLists, InLevels, PriceToIndex, Link, Slots;
      ghost var m0, ls0 := Mem(), lists;
      var side, price := levelPool.objects[y].value.side, levelPool.objects[y].value.price;
      ghost var g := lists.On(side);
      ghost var e := LevelList(y, [x]);
      NoLevelAt(m0, ls0, x, y, side, price);
      HeadFollows(m0, ls0, x, y, side);
      priceOrdersAtPrice[PriceToIndex(price, priceOrdersAtPrice.Length)] := y;
      var best := if side == BUY then bidsByPrice else asksByPrice;
      if best == -1 {
        k := 0;
        if side == BUY { bidsByPrice := y; } else { asksByPrice := y; }
        levelPool.objects[y] := levelPool.objects[y].(prev := y, next := y);
      } else {
        k := LinkLevel(side, y, best, e, g);
      }
      GrowKeepsLists(m0, ls0, side, k, y, x);
      lists := lists.With(side, Inserted(g, k, e));
      assert Mem() == Grown(m0, ls0, side, k, e);
    }

    /** A level for an order whose price has none yet; fatal stands for the exit of the level pool. */
    method AddNewLevel(x: int) returns (fatal: bool)
      requires StorageOk() && ListsOk(Mem(), lists, x, -1) && !InLists(lists, x)
      requires 0 <= x < orderPool.objects.Length && orderPool.objects[x].value.side != INVALID
      requires priceOrdersAtPrice.Length > 0 && GetOrdersAtPrice(orderPool.objects[x].value.price) == -1
      modifies this`bidsByPrice, this`asksByPrice, this`lists, orderPool.objects,
               levelPool`nextFreeIndex, levelPool.objects, levelPool.isFree, priceOrdersAtPrice
      ensures fatal <==> old(|lists.bids| + |lists.asks| + 1) == levelPool.isFree.Length
      ensures fatal ==> Stuck(old(Mem()), old(lists), Mem(), lists, x)
      ensures !fatal ==> StorageOk()
                         && Joined(old(Mem()), old(lists), Mem(), lists, old(orderPool.objects[x].value.side), x)
    {
      hide ListsOk, LevelOk, Plus, InLists, InLevels, PriceToIndex, PlaceOf, Joined, Take, IndexOk;
      ghost var m0, ls0 := Mem(), lists;
      var o := orderPool.objects[x].value;
      orderPool.objects[x] := Node(o, x, x);
      var y;
      y, fatal := levelPool.Allocate(Node(PriceLevel(o.side, o.price, x), -1, -1));
      ghost var m1 := Mem();
      assert m1 == WithLevel(m0, x, y);
      LevelTaken(m0, ls0, x, y);
      if fatal {
        assert ListsOk(m1, lists, x, y);
        return;
      }
      ghost var k := AddOrderAtPrice(y, x);
      LevelJoins(m0, ls0, m1, o.side, k, y, x, Mem());
    }

    /** The order goes to the end of the level of its price. */
    method AppendToLevel(x: int, l: int, ghost i: nat)
      requires StorageOk() && ListsOk(Mem(), lists, x, -1) && !InLists(lists, x)
      requires 0 <= x < orderPool.objects.Length && orderPool.objects[x].value.side != INVALID
      requires i < |lists.On(orderPool.objects[x].value.side)|
      requires 0 <= l < levelPool.objects.Length && lists.On(orderPool.objects[x].value.side)[i].slot == l
      requires levelPool.objects[l].value.price == orderPool.objects[x].value.price
      requires IdsBelow(State(), orderPool.objects[x].value.moid)
      modifies this`lists, orderPool.objects
      ensures StorageOk()
      ensures Joined(old(Mem()), old(lists), Mem(), lists, old(orderPool.objects[x].value.side), x)
    {
      hide ListsOk, InLists, Joined, Link, Older, IdsBelow;
      ghost var m0, ls0 := Mem(), lists;
      ghost var side := orderPool.objects[x].value.side;
      ghost var fifo := lists.On(side)[i].fifo;
      NewestOf(m0, ls0, side, i, x, nextMarketOrderId, responses, updates);
      AppendJoins(m0, ls0, side, i, x);
      OrderFound(m0, ls0, x, -1, side, i, 0);
      OrderFound(m0, ls0, x, -1, side, i, |fifo| - 1);
      FirstAndLast(m0, ls0, x, side, i);
      var first := levelPool.objects[l].value.first;
      LinkInPlace(orderPool.objects, orderPool.objects[first].prev, first, x);
      lists := lists.With(side, lists.On(side)[i := LevelList(l, fifo + [x])]);
    }

    /** The order joins the level of its price, or a new one. */
    method PlaceOrder(x: int) returns (fatal: bool)
      requires StorageOk() && ListsOk(Mem(), lists, x, -1) && !InLists(lists, x)
      requires 0 <= x < orderPool.objects.Length && orderPool.objects[x].value.side != INVALID
      requires var o := orderPool.objects[x].value;
               && IdsBelow(State(), o.moid)
               && NoCollision(State().On(o.side), o.price, priceOrdersAtPrice.Length)
               && NoCollision(State().On(Opposite(o.side)), o.price, priceOrdersAtPrice.Length)
               && !HasPrice(State().On(Opposite(o.side)), o.price)
      modifies this`bidsByPrice, this`asksByPrice, this`lists, orderPool.objects,
               levelPool`nextFreeIndex, levelPool.objects, levelPool.isFree, priceOrdersAtPrice
      ensures var o := old(orderPool.objects[x].value);
              && (fatal <==> !old(HasPrice(State().On(o.side), o.price))
                             && old(|lists.bids| + |lists.asks| + 1) == levelPool.isFree.Length)
              && (fatal ==> Stuck(old(Mem()), old(lists), Mem(), lists, x))
              && (!fatal ==> StorageOk() && Joined(old(Mem()), old(lists), Mem(), lists, o.side, x))
    {
      hide ListsOk, InLists, Joined, Stuck, IdsBelow, NoCollision, HasPrice, PriceToIndex, RowsOk, Vals;
      ghost var m0, ls0 := Mem(), lists;
      var o := orderPool.objects[x].value;
      ghost var i := PriceFound(m0, ls0, x, -1, o.side, o.price);
      var l := GetOrdersAtPrice(o.price);
      if l == -1 {
        fatal := AddNewLevel(x);
      } else {
        fatal := false;
        AppendToLevel(x, l, i);
      }
    }

    /** The order joins the lists and the id table. */
    method AddOrder(x: int) returns (fatal: bool)
      requires StorageOk() && ListsOk(Mem(), lists, x, -1) && !InLists(lists, x)
      requires IndexOk(orderPool.objects[..], cidOidToOrder[..], lists)
      requires 0 <= x < orderPool.objects.Length && orderPool.objects[x].value.side != INVALID
      requires var o := orderPool.objects[x].value;
               && IdsBelow(State(), o.moid)
               && NoCollision(State().On(o.side), o.price, priceOrdersAtPrice.Length)
               && NoCollision(State().On(Opposite(o.side)), o.price, priceOrdersAtPrice.Length)
               && !HasPrice(State().On(Opposite(o.side)), o.price)
               && o.client < cidOidToOrder.Length && o.oid < orderIds
               && cidOidToOrder[o.client][o.oid] == -1
      modifies this`bidsByPrice, this`asksByPrice, this`lists, orderPool.objects,
               levelPool`nextFreeIndex, levelPool.objects, levelPool.isFree, priceOrdersAtPrice, cidOidToOrder
      ensures var o := old(orderPool.objects[x].value);
              && (fatal <==> !old(HasPrice(State().On(o.side), o.price))
                             && old(|lists.bids| + |lists.asks| + 1) == levelPool.isFree.Length)
              && (fatal ==> State() == old(State()) && Exited())
              && (!fatal ==>
                    && Core()
                    && State() == old(State()).With(o.side, Insert(o.side, old(State().On(o.side)), o))
                    && cidOidToOrder[o.client][o.oid] == x && Extends(old(lists), lists, o.side, x))
    {
      hide ListsOk, InLists, Joined, Stuck, LeftOver, IdsBelow, IndexOk, NoCollision, HasPrice, Insert, Vals, Extends;
      ghost var m0, ls0 := Mem(), lists;
      var o := orderPool.objects[x].value;
      fatal := PlaceOrder(x);
      if fatal {
        ghost var y := StuckMarket(m0, ls0, Mem(), lists, x, nextMarketOrderId, responses, updates);
        return;
      }
      ghost var m1 := Mem();
      JoinedMarket(m0, ls0, m1, lists, o.side, x, nextMarketOrderId, responses, updates);
      cidOidToOrder[o.client] := cidOidToOrder[o.client][o.oid := x];
      assert Mem() == Known(m1, x);
    }

    method GenerateNewMarketOrderId() returns (id: OrderId)
      modifies this`nextMarketOrderId
      ensures id == old(nextMarketOrderId) && nextMarketOrderId == old(nextMarketOrderId) + 1
    {
      id := nextMarketOrderId;
      nextMarketOrderId := nextMarketOrderId + 1;
    }

    /** The priority of the last order at the price, or 1 when there is none (lines 51-53 of the
        source dereference the absent level). */
    method GetNextPriority(price: Price, ghost side: Side) returns (priority: Priority)
      requires Core() && side != INVALID && priceOrdersAtPrice.Length > 0
      requires NoCollision(State().On(side), price, priceOrdersAtPrice.Length)
      requires NoCollision(State().On(Opposite(side)), price, priceOrdersAtPrice.Length)
      requires !HasPrice(State().On(Opposite(side)), price)
      ensures priority == NextPriority(State().On(side), price)
    {
      hide ListsOk, IndexOk, NoCollision, HasPrice, PriceToIndex, Vals, NextPriority;
      ghost var i := PriceFound(Mem(), lists, -1, -1, side, price);
      var l := GetOrdersAtPrice(price);
      HeadFollows(Mem(), lists, -1, -1, side);
      if l == -1 {
        PriorityWithoutLevel(orderPool.objects[..], levelPool.objects[..], side, lists.On(side), price);
        return 1;
      }
      FirstAndLast(Mem(), lists, -1, side, i);
      PriorityOfLevel(orderPool.objects[..], levelPool.objects[..], side, lists.On(side), i);
      var first := levelPool.objects[l].value.first;
      return orderPool.objects[orderPool.objects[first].prev].value.priority;
    }

    /** A resting order leaves the book on its client's request. */
    method CancelResting(client: ClientId, oid: OrderId, ticker: TickerId, exchangeOrder: int)
      requires Core() && InLists(lists, exchangeOrder) && 0 <= exchangeOrder < orderPool.objects.Length
      requires orderPool.objects[exchangeOrder].value.HasKey(client, oid)
      modifies this`bidsByPrice, this`asksByPrice, this`lists, this`responses, this`updates,
               orderPool.objects, orderPool.isFree, levelPool.objects, levelPool.isFree,
               priceOrdersAtPrice, cidOidToOrder
      ensures Core()
      ensures var r := Request.Cancel(client, oid, ticker);
              var side := old(orderPool.objects[exchangeOrder].value.side);
              var k := Search(old(State()).On(side), client, oid);
              && side != INVALID && k < |old(State()).On(side)|
              && State() == CancelAt(old(State()), r, side, k)
              && Extends(lists, old(lists), side, exchangeOrder)
    {
      hide ListsOk, IndexOk, InLists, Vals, Search, RemoveAt;
      var o := orderPool.objects[exchangeOrder].value;
      var response := ClientResponse(CANCELED, client, ticker, oid, o.moid, o.side, o.price, QUANTITY_INVALID, o.qty);
      var update := MarketUpdate(CANCEL, o.moid, ticker, o.side, o.price, 0, o.priority);
      ghost var side, i, j := WhereIs(Mem(), lists, exchangeOrder);
      RemoveOrder(exchangeOrder, side, i, j);
      SendMarketUpdate(update);
      SendClientResponse(response);
      assert ExtendsAt(lists, old(lists), side, exchangeOrder, i, j);
    }

    /** Cancels a resting order, or says that there is none. An order id beyond the table throws
        out of range, before anything has happened. */
    method Cancel(client: ClientId, oid: OrderId, ticker: TickerId) returns (threw: bool)
      requires Valid()
      modifies this`bidsByPrice, this`asksByPrice, this`lists, this`responses, this`updates,
               orderPool.objects, orderPool.isFree, levelPool.objects, levelPool.isFree,
               priceOrdersAtPrice, cidOidToOrder
      ensures threw <==> client < cidOidToOrder.Length && oid >= orderIds
      ensures State() == if threw then old(State()) else CancelStep(old(State()), Request.Cancel(client, oid, ticker))
      ensures Valid()
      ensures !threw && client < cidOidToOrder.Length && old(cidOidToOrder[client][oid]) != -1 ==>
                exists side :: side != INVALID && Extends(lists, old(lists), side, old(cidOidToOrder[client][oid]))
    {
      hide ListsOk, IndexOk, InLists, Good, Vals, Search, RemoveAt, KeyFree, Extends;
      ghost var s0 := State();
      ghost var r := Request.Cancel(client, oid, ticker);
      var isCancelable := client < cidOidToOrder.Length;
      var exchangeOrder := -1;
      if isCancelable {
        if oid >= |cidOidToOrder[client]| {
          return true;
        }
        exchangeOrder := cidOidToOrder[client][oid];
        isCancelable := exchangeOrder != -1;
      }
      if !isCancelable {
        CellEmpty(Mem(), lists, client, oid, nextMarketOrderId, responses, updates);
        CancelNowhere(s0, r);
        SendClientResponse(ClientResponse(CANCEL_REJECTED, client, ticker, oid, ORDER_ID_INVALID, INVALID,
                                          PRICE_INVALID, QUANTITY_INVALID, QUANTITY_INVALID));
      } else {
        CellShows(Mem(), lists, client, oid, nextMarketOrderId, responses, updates);
        ghost var side := orderPool.objects[exchangeOrder].value.side;
        CancelResting(client, oid, ticker, exchangeOrder);
        CancelOnSide(s0, r, side);
      }
      StepKeepsGood(s0, r);
      return false;
    }

    /** Storing what matching left: fatal stands for the exit of one of the pools. */
    method StoreRest(t: Taker, leaves: Quantity) returns (fatal: bool)
      requires Core() && t.side != INVALID && priceOrdersAtPrice.Length > 0 && IdsBelow(State(), t.moid)
      requires NoCollision(State().On(t.side), t.price, priceOrdersAtPrice.Length)
      requires NoCollision(State().On(Opposite(t.side)), t.price, priceOrdersAtPrice.Length)
      requires !HasPrice(State().On(Opposite(t.side)), t.price) && KeyFree(State(), t.client, t.oid)
      requires t.client < cidOidToOrder.Length && t.oid < orderIds
      modifies this`bidsByPrice, this`asksByPrice, this`lists, this`updates,
               orderPool`nextFreeIndex, orderPool.objects, orderPool.isFree,
               levelPool`nextFreeIndex, levelPool.objects, levelPool.isFree, priceOrdersAtPrice, cidOidToOrder
      ensures fatal ==> State() == old(State()) && Exited()
      ensures fatal <==> || old(|State().bids| + |State().asks| + 1) == orderPool.isFree.Length
                         || (!old(HasPrice(State().On(t.side), t.price))
                             && old(|lists.bids| + |lists.asks| + 1) == levelPool.isFree.Length)
      ensures !fatal ==>
                && Core() && State() == BookSpec.Rest(old(State()), t, leaves)
                && cidOidToOrder[t.client][t.oid] != -1
                && Extends(old(lists), lists, t.side, cidOidToOrder[t.client][t.oid])
    {
      hide ListsOk, IndexOk, InLists, NoCollision, HasPrice, KeyFree, IdsBelow, Vals, NextPriority, Insert, Take, Flat,
           Market.With, Extends;
      ghost var m0, s0 := Mem(), State();
      CellOfFreeKey(m0, lists, t.client, t.oid, nextMarketOrderId, responses, updates);
      var priority := GetNextPriority(t.price, t.side);
      var o := Order(t.ticker, t.client, t.oid, t.moid, t.side, t.price, leaves, priority);
      var x;
      x, fatal := orderPool.Allocate(Node(o, -1, -1));
      OrderTaken(m0, lists, x, Node(o, -1, -1), nextMarketOrderId, responses, updates);
      assert Mem() == m0.(orders := m0.orders[x := Node(o, -1, -1)], orderFree := m0.orderFree[x := false]);
      if fatal {
        assert LeftOver(Mem(), lists, x, -1);
        return;
      }
      fatal := AddOrder(x);
      if !fatal {
        SendMarketUpdate(MarketUpdate(ADD, t.moid, t.ticker, t.side, t.price, leaves, priority));
      }
    }

    /** A new order: acknowledged, matched, and what is left stored (line 34 of the source calls
        the checkForMatch without arguments, which has no definition). A fatal exit leaves the
        market as matching did. */
    method Add(client: ClientId, oid: OrderId, ticker: TickerId, side: Side, price: Price, qty: Quantity)
        returns (fatal: bool)
      requires Valid() && side != INVALID && nextMarketOrderId < ORDER_ID_INVALID
      requires priceOrdersAtPrice.Length > 0
      requires var r := New(client, oid, ticker, side, price, qty);
               Storable(MatchPhase(State(), r), r, priceOrdersAtPrice.Length, cidOidToOrder.Length, orderIds)
      modifies this`bidsByPrice, this`asksByPrice, this`lists, this`responses, this`updates, this`nextMarketOrderId,
               orderPool`nextFreeIndex, orderPool.objects, orderPool.isFree,
               levelPool`nextFreeIndex, levelPool.objects, levelPool.isFree, priceOrdersAtPrice, cidOidToOrder
      ensures var r := New(client, oid, ticker, side, price, qty);
              && (fatal <==> RunsOut(MatchPhase(old(State()), r), r, orderPool.isFree.Length, levelPool.isFree.Length))
              && (!fatal ==> Valid() && State() == AddStep(old(State()), r))
              && (fatal ==> State() == MatchPhase(old(State()), r).market && Exited())
              && (!fatal && qty > 0 && !CanFill(old(State()), TakerOf(old(State()), r), qty) ==>
                    && client < cidOidToOrder.Length && oid < orderIds
                    && cidOidToOrder[client][oid] != -1
                    && Extends(old(lists), lists, side, cidOidToOrder[client][oid]))
    {
      hide ListsOk, IndexOk, Good, NoCollision, HasPrice, KeyFree, Vals, LevelCount, BookSpec.Rest, Extends,
           MatchLoop, CanFill, RowsOk, Flat, Market.With;
      ghost var s0 := State();
      ghost var r := New(client, oid, ticker, side, price, qty);
      MatchPhaseGood(s0, r);
      if !CanFill(s0, TakerOf(s0, r), qty) {
        QuietMatch(s0, r);
      }
      var marketOrderId := GenerateNewMarketOrderId();
      SendClientResponse(ClientResponse(ACCEPTED, client, ticker, oid, marketOrderId, side, price, 0, qty));
      assert s0.updates + [] == s0.updates;
      assert State() == Accept(s0, r);
      var t := Taker(ticker, client, oid, marketOrderId, side, price);
      var leaves := CheckForMatch(t, qty);
      fatal := false;
      if leaves != 0 {
        NoOppositePrice(s0, r);
        CountLevels(Mem(), lists, -1, -1);
        fatal := StoreRest(t, leaves);
      }
      if !fatal {
        StepKeepsGood(s0, r);
      }
    }
  }
}
