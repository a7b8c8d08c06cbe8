/** Cancel answers what a linear search of the resting orders would, and takes back an add. */
module CancelTheorems {
  import opened ExchangeTypes
  import opened BookSpec
  import opened Sequences
  import opened BookInvariants

  lemma {:induction false} SearchFinds(s: seq<Order>, c: ClientId, o: OrderId, k: nat)
    requires k < |s| && s[k].HasKey(c, o)
    requires forall i :: 0 <= i < k ==> !s[i].HasKey(c, o)
    ensures Search(s, c, o) == k
  {
    var i := Search(s, c, o);
    assert i <= k;
  }

  lemma SearchFails(s: seq<Order>, c: ClientId, o: OrderId)
    requires forall i :: 0 <= i < |s| ==> !s[i].HasKey(c, o)
    ensures Search(s, c, o) == |s|
  {
  }

  /** The response that the order is gone, to the client that asked, with the quantity it had left. */
  predicate SaysCanceled(r: Request, o: Order, a: ClientResponse)
    requires r.Cancel?
  {
    && a.kind == CANCELED && a.client == r.client && a.clientOrderId == r.oid && a.ticker == r.ticker
    && a.marketOrderId == o.moid && a.side == o.side && a.price == o.price
    && a.execQty == QUANTITY_INVALID && a.leftQty == o.qty
  }

  /** The update that it is gone. */
  predicate ShowsCanceled(r: Request, o: Order, u: MarketUpdate)
    requires r.Cancel?
  {
    && u.kind == CANCEL && u.orderId == o.moid && u.ticker == r.ticker && u.side == o.side
    && u.price == o.price && u.qty == 0 && u.priority == o.priority
  }

  /** The response that there is no such order, to the client that asked. */
  predicate SaysRejected(r: Request, a: ClientResponse)
    requires r.Cancel?
  {
    && a.kind == CANCEL_REJECTED && a.client == r.client && a.clientOrderId == r.oid && a.ticker == r.ticker
    && a.marketOrderId == ORDER_ID_INVALID && a.side == INVALID && a.price == PRICE_INVALID
    && a.execQty == QUANTITY_INVALID && a.leftQty == QUANTITY_INVALID
  }

  /** Order k of side s has the key; t is s without it; the last update is that of its cancel. */
  ghost predicate CanceledFrom(m: Market, m': Market, r: Request, s: seq<Order>, t: seq<Order>, k: int)
    requires r.Cancel?
  {
    && 0 <= k < |s| && s[k].client == r.client && s[k].oid == r.oid
    && t == s[..k] + s[k + 1..]
    && |m'.responses| == |m.responses| + 1 && SaysCanceled(r, s[k], m'.responses[|m.responses|])
    && |m'.updates| == |m.updates| + 1 && m'.updates[..|m.updates|] == m.updates
    && ShowsCanceled(r, s[k], m'.updates[|m.updates|])
  }

  /** The last response is CANCEL_REJECTED exactly when no resting order has the key, and then
      nothing changes; otherwise the one order with the key, and no other, is gone, and the
      response and the update report it with its remaining quantity. */
  lemma CancelDecides(m: Market, r: Request)
    requires Good(m) && r.Cancel?
    ensures var m' := CancelStep(m, r);
            && |m'.responses| == |m.responses| + 1 && m'.responses[..|m.responses|] == m.responses
            && (m'.responses[|m.responses|].kind == CANCEL_REJECTED <==> KeyFree(m, r.client, r.oid))
            && (KeyFree(m, r.client, r.oid) ==>
                  && m'.bids == m.bids && m'.asks == m.asks && m'.updates == m.updates
                  && SaysRejected(r, m'.responses[|m.responses|]))
            && (!KeyFree(m, r.client, r.oid) ==>
                  && KeyFree(m', r.client, r.oid)
                  && (|| (m'.asks == m.asks && exists k :: CanceledFrom(m, m', r, m.bids, m'.bids, k))
                      || (m'.bids == m.bids && exists k :: CanceledFrom(m, m', r, m.asks, m'.asks, k))))
  {
    var m' := CancelStep(m, r);
    var i := Search(m.bids, r.client, r.oid);
    var j := Search(m.asks, r.client, r.oid);
    if i < |m.bids| {
      RestHaveOtherKeys(m, BUY, i, r);
      assert CanceledFrom(m, m', r, m.bids, m'.bids, i);
    } else if j < |m.asks| {
      RestHaveOtherKeys(m, SELL, j, r);
      assert CanceledFrom(m, m', r, m.asks, m'.asks, j);
    } else {
      assert m.updates + [] == m.updates;
    }
  }

  lemma RestHaveOtherKeys(m: Market, side: Side, k: nat, r: Request)
    requires Good(m) && side != INVALID && k < |m.On(side)| && m.On(side)[k].HasKey(r.client, r.oid)
    ensures KeyFree(m.With(side, RemoveAt(m.On(side), k)), r.client, r.oid)
  {
    var s := m.On(side);
    var t := RemoveAt(s, k);
    forall i | 0 <= i < |t| ensures !t[i].HasKey(r.client, r.oid) {
      if i < k { assert Apart(s[i], s[k]); } else { assert Apart(s[k], s[i + 1]); }
    }
    var u := m.On(Opposite(side));
    forall j | 0 <= j < |u| ensures !u[j].HasKey(r.client, r.oid) {
      if side == BUY { assert Apart(s[k], u[j]); } else { assert Apart(u[j], s[k]); }
    }
  }

  /** Cancel works on the side where the search succeeds. */
  lemma CancelOnSide(m: Market, r: Request, side: Side)
    requires Good(m) && r.Cancel? && side != INVALID
    requires Search(m.On(side), r.client, r.oid) < |m.On(side)|
    ensures CancelStep(m, r) == CancelAt(m, r, side, Search(m.On(side), r.client, r.oid))
  {
    if side == SELL {
      var j := Search(m.asks, r.client, r.oid);
      forall i | 0 <= i < |m.bids| ensures !m.bids[i].HasKey(r.client, r.oid) {
        assert Apart(m.bids[i], m.asks[j]);
      }
      SearchFails(m.bids, r.client, r.oid);
    }
  }

  /** Cancel without a matching order only answers. */
  lemma CancelNowhere(m: Market, r: Request)
    requires r.Cancel? && KeyFree(m, r.client, r.oid)
    ensures CancelStep(m, r) == m.Send([Rejected(r)], [])
  {
    SearchFails(m.bids, r.client, r.oid);
    SearchFails(m.asks, r.client, r.oid);
  }

  lemma RemoveInserted(s: seq<Order>, o: Order, k: nat)
    requires k <= |s|
    ensures RemoveAt(s[..k] + [o] + s[k..], k) == s
  {
  }

  lemma InsertThenRemove(side: Side, s: seq<Order>, o: Order)
    requires Sorted(side, s) && forall i :: 0 <= i < |s| ==> !s[i].HasKey(o.client, o.oid)
    ensures var t := Insert(side, s, o);
            Search(t, o.client, o.oid) < |t| && t[Search(t, o.client, o.oid)] == o
            && RemoveAt(t, Search(t, o.client, o.oid)) == s
  {
    var k := InsertSplits(side, s, o);
    var t := s[..k] + [o] + s[k..];
    SearchFinds(t, o.client, o.oid, k);
    RemoveInserted(s, o, k);
  }

  lemma CancelAtUndoes(m: Market, t: Taker, leaves: Quantity, c: Request, i: nat)
    requires c.Cancel? && i < |Rest(m, t, leaves).On(t.side)|
    requires Rest(m, t, leaves).On(t.side)[i] == OrderOf(m, t, leaves)
    requires RemoveAt(Rest(m, t, leaves).On(t.side), i) == m.On(t.side)
    ensures var o := OrderOf(m, t, leaves);
            CancelAt(Rest(m, t, leaves), c, t.side, i)
            == m.Send([Canceled(c, o)], [AddUpdate(o), CancelUpdate(c, o)])
  {
    var o := OrderOf(m, t, leaves);
    assert m.responses + [] == m.responses;
    assert m.updates + [AddUpdate(o)] + [CancelUpdate(c, o)] == m.updates + [AddUpdate(o), CancelUpdate(c, o)];
  }

  lemma RestThenCancel(m: Market, t: Taker, leaves: Quantity, c: Request)
    requires t.side != INVALID && Sorted(t.side, m.On(t.side)) && KeyFree(m, t.client, t.oid)
    requires c == Cancel(t.client, t.oid, t.ticker)
    ensures var o := OrderOf(m, t, leaves);
            CancelStep(Rest(m, t, leaves), c)
            == m.Send([Canceled(c, o)], [AddUpdate(o), CancelUpdate(c, o)])
  {
    var o := OrderOf(m, t, leaves);
    var s := Insert(t.side, m.On(t.side), o);
    var i := Search(s, t.client, t.oid);
    InsertThenRemove(t.side, m.On(t.side), o);
    if t.side == SELL {
      SearchFails(m.bids, t.client, t.oid);
    }
    CancelAtUndoes(m, t, leaves, c, i);
  }

  /** Canceling what an add stored gives back the book as matching left it. */
  lemma AddThenCancel(m: Market, r: Request)
    requires Good(m) && r.New? && Admissible(m, r) && MatchPhase(m, r).leaves > 0
    ensures var p := MatchPhase(m, r);
            var c := Cancel(r.client, r.oid, r.ticker);
            var o := OrderOf(p.market, TakerOf(m, r), p.leaves);
            CancelStep(AddStep(m, r), c)
            == p.market.Send([Canceled(c, o)], [AddUpdate(o), CancelUpdate(c, o)])
  {
    MatchPhaseGood(m, r);
    var p := MatchPhase(m, r);
    RestThenCancel(p.market, TakerOf(m, r), p.leaves, Cancel(r.client, r.oid, r.ticker));
  }

  /** An order that cannot trade passes matching untouched. */
  lemma QuietMatch(m: Market, r: Request)
    requires r.New? && r.side != INVALID && !CanFill(m, TakerOf(m, r), r.qty)
    ensures MatchPhase(m, r) == Matched(Accept(m, r), r.qty)
    ensures !CanFill(Accept(m, r), TakerOf(m, r), r.qty)
  {
  }

  /** In particular an add that trades nothing, then its cancel, leaves both sides as they were. */
  lemma QuietAddThenCancel(m: Market, r: Request)
    requires Good(m) && r.New? && r.side != INVALID && r.qty > 0 && KeyFree(m, r.client, r.oid)
    requires !CanFill(m, TakerOf(m, r), r.qty)
    ensures var m' := CancelStep(AddStep(m, r), Cancel(r.client, r.oid, r.ticker));
            m'.bids == m.bids && m'.asks == m.asks
  {
    QuietMatch(m, r);
    AddThenCancel(m, r);
  }
}
