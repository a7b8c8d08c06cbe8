/** The reference matcher: walk the opposite orders from best and oldest, trade while the limit
    allows. The match loop of the book is proved to be this, and this is proved to be
    price-time priority in closed form. */
module PriceTime {
  import opened ExchangeTypes
  import opened BookSpec
  import opened BookInvariants

  /** One trade: the resting order before it, the traded quantity, what the taker has left. */
  datatype Trade = Trade(maker: Order, qty: Quantity, takerLeft: Quantity)

  datatype Outcome = Outcome(leaves: Quantity, trades: seq<Trade>, resting: seq<Order>)

  /** What a limit means: a buyer pays no more than it, a seller gets no less. */
  predicate Acceptable(side: Side, limit: Price, p: Price) {
    (side == BUY ==> p <= limit) && (side == SELL ==> p >= limit)
  }

  function MatchAll(side: Side, limit: Price, leaves: Quantity, opp: seq<Order>): Outcome
    decreases |opp|
  {
    if leaves == 0 || opp == [] || !Acceptable(side, limit, opp[0].price) then
      Outcome(leaves, [], opp)
    else if opp[0].qty <= leaves then
      var rest := MatchAll(side, limit, leaves - opp[0].qty, opp[1..]);
      Outcome(rest.leaves, [Trade(opp[0], opp[0].qty, leaves - opp[0].qty)] + rest.trades, rest.resting)
    else
      Outcome(0, [Trade(opp[0], leaves, 0)], [opp[0].(qty := opp[0].qty - leaves)] + opp[1..])
  }

  ghost predicate TradesOk(ts: seq<Trade>) {
    forall i :: 0 <= i < |ts| ==> ts[i].qty <= ts[i].maker.qty
  }

  function ResponsesOf(t: Taker, ts: seq<Trade>): seq<ClientResponse>
    requires TradesOk(ts)
  {
    if ts == [] then []
    else FillResponses(t, ts[0].maker, ts[0].qty, ts[0].takerLeft) + ResponsesOf(t, ts[1..])
  }

  function UpdatesOf(t: Taker, ts: seq<Trade>): seq<MarketUpdate>
    requires TradesOk(ts)
  {
    if ts == [] then []
    else FillUpdates(t, ts[0].maker, ts[0].qty) + UpdatesOf(t, ts[1..])
  }

  lemma {:induction false} MatchAllTradesOk(side: Side, limit: Price, leaves: Quantity, opp: seq<Order>)
    ensures TradesOk(MatchAll(side, limit, leaves, opp).trades)
    decreases |opp|
  {
    if leaves > 0 && opp != [] && Acceptable(side, limit, opp[0].price) && opp[0].qty <= leaves {
      MatchAllTradesOk(side, limit, leaves - opp[0].qty, opp[1..]);
    }
  }

  ghost predicate Positive(s: seq<Order>) {
    forall i :: 0 <= i < |s| ==> 0 < s[i].qty
  }

  /** The book after the reference matcher ran for this taker. */
  ghost function Settled(m: Market, t: Taker, r: Outcome): Market
    requires TradesOk(r.trades)
  {
    m.With(Opposite(t.side), r.resting).Send(ResponsesOf(t, r.trades), UpdatesOf(t, r.trades))
  }

  lemma SettledNothing(m: Market, t: Taker)
    requires t.side != INVALID
    ensures Settled(m, t, Outcome(0, [], m.On(Opposite(t.side)))) == m
  {
    assert m.responses + [] == m.responses && m.updates + [] == m.updates;
  }

  lemma SettledCons(m: Market, t: Taker, leaves: Quantity, rest: Outcome)
    requires t.side != INVALID && CanFill(m, t, leaves) && TradesOk(rest.trades)
    ensures var opp := m.On(Opposite(t.side));
            var step := FillStep(m, t, leaves);
            var one := Trade(opp[0], leaves - step.leaves, step.leaves);
            TradesOk([one] + rest.trades) &&
            Settled(step.market, t, rest)
            == Settled(m, t, Outcome(rest.leaves, [one] + rest.trades, rest.resting))
  {
    hide FillResponses, FillUpdates, AfterFill, Crosses;
    var opp := m.On(Opposite(t.side));
    var step := FillStep(m, t, leaves);
    var one := Trade(opp[0], leaves - step.leaves, step.leaves);
    var ts := [one] + rest.trades;
    assert ts[1..] == rest.trades;
    assert m.responses + (FillResponses(t, opp[0], one.qty, step.leaves) + ResponsesOf(t, rest.trades))
        == (m.responses + FillResponses(t, opp[0], one.qty, step.leaves)) + ResponsesOf(t, rest.trades);
    assert m.updates + (FillUpdates(t, opp[0], one.qty) + UpdatesOf(t, rest.trades))
        == (m.updates + FillUpdates(t, opp[0], one.qty)) + UpdatesOf(t, rest.trades);
  }

  lemma LastTrade(m: Market, t: Taker, leaves: Quantity)
    requires t.side != INVALID && CanFill(m, t, leaves) && leaves < m.On(Opposite(t.side))[0].qty
    ensures var r := MatchAll(t.side, t.price, leaves, m.On(Opposite(t.side)));
            TradesOk(r.trades) && MatchLoop(m, t, leaves) == Matched(Settled(m, t, r), r.leaves)
  {
    var opp := m.On(Opposite(t.side));
    var step := FillStep(m, t, leaves);
    var rest := Outcome(0, [], AfterFill(opp, leaves));
    SettledNothing(step.market, t);
    SettledCons(m, t, leaves, rest);
    assert [Trade(opp[0], leaves, 0)] + [] == [Trade(opp[0], leaves, 0)];
  }

  /** The match loop over the book returns the residual, trades, messages and remaining book of
      the reference matcher. */
  lemma {:induction false} MatchLoopIsMatchAll(m: Market, t: Taker, leaves: Quantity)
    requires t.side != INVALID && Positive(m.On(Opposite(t.side)))
    ensures var r := MatchAll(t.side, t.price, leaves, m.On(Opposite(t.side)));
            TradesOk(r.trades) && MatchLoop(m, t, leaves) == Matched(Settled(m, t, r), r.leaves)
    decreases |m.On(Opposite(t.side))|
  {
    var opp := m.On(Opposite(t.side));
    MatchAllTradesOk(t.side, t.price, leaves, opp);
    if !CanFill(m, t, leaves) {
      SettledNothing(m, t);
    } else if opp[0].qty <= leaves {
      var step := FillStep(m, t, leaves);
      var rest := MatchAll(t.side, t.price, step.leaves, opp[1..]);
      assert step.market.On(Opposite(t.side)) == opp[1..];
      MatchLoopIsMatchAll(step.market, t, step.leaves);
      SettledCons(m, t, leaves, rest);
    } else {
      LastTrade(m, t, leaves);
    }
  }

  // ----- what the reference matcher achieves -----

  /** Quantity on offer at acceptable prices, anywhere in the sequence. */
  ghost function CrossingQty(side: Side, limit: Price, s: seq<Order>): nat {
    if s == [] then 0
    else (if Acceptable(side, limit, s[0].price) then s[0].qty else 0) + CrossingQty(side, limit, s[1..])
  }

  ghost function TradedQty(ts: seq<Trade>): nat {
    if ts == [] then 0 else ts[0].qty + TradedQty(ts[1..])
  }

  lemma {:induction false} NoneCrossing(side: Side, limit: Price, s: seq<Order>)
    requires Sorted(Opposite(side), s) && side != INVALID
    requires s != [] ==> !Acceptable(side, limit, s[0].price)
    ensures CrossingQty(side, limit, s) == 0
  {
    if s != [] {
      if |s| > 1 {
        assert Before(Opposite(side), s[0], s[1]);
      }
      SortedTail(Opposite(side), s);
      NoneCrossing(side, limit, s[1..]);
    }
  }

  /** The residual is the incoming quantity minus everything acceptable on offer, floored at
      zero, and what was traded accounts for the difference. */
  lemma {:induction false} Residual(side: Side, limit: Price, leaves: Quantity, opp: seq<Order>)
    requires Sorted(Opposite(side), opp) && side != INVALID
    ensures var r := MatchAll(side, limit, leaves, opp);
            var offer := CrossingQty(side, limit, opp);
            && r.leaves == (if offer <= leaves then leaves - offer else 0)
            && TradedQty(r.trades) == leaves - r.leaves
    decreases |opp|
  {
    var r := MatchAll(side, limit, leaves, opp);
    if leaves == 0 {
    } else if opp == [] || !Acceptable(side, limit, opp[0].price) {
      NoneCrossing(side, limit, opp);
    } else if opp[0].qty <= leaves {
      SortedTail(Opposite(side), opp);
      Residual(side, limit, leaves - opp[0].qty, opp[1..]);
      assert r.trades[1..] == MatchAll(side, limit, leaves - opp[0].qty, opp[1..]).trades;
    } else {
      assert r.trades[1..] == [];
    }
  }

  /** The makers are the first orders of s, in order; all but the last fully filled. */
  ghost predicate Served(ts: seq<Trade>, s: seq<Order>) {
    && |ts| <= |s|
    && (forall i :: 0 <= i < |ts| ==> ts[i].maker == s[i] && 0 < ts[i].qty <= s[i].qty)
    && (forall i :: 0 <= i < |ts| - 1 ==> ts[i].qty == s[i].qty)
  }

  /** The book those trades leave: the rest untouched, the last maker keeping what was not taken. */
  ghost function Leftover(ts: seq<Trade>, s: seq<Order>): seq<Order>
    requires Served(ts, s)
  {
    var n := |ts|;
    if n == 0 || ts[n - 1].qty == s[n - 1].qty then s[n..]
    else [s[n - 1].(qty := s[n - 1].qty - ts[n - 1].qty)] + s[n..]
  }

  lemma ServedCons(t: Trade, ts: seq<Trade>, s: seq<Order>)
    requires s != [] && t.maker == s[0] && 0 < t.qty == s[0].qty && Served(ts, s[1..])
    ensures Served([t] + ts, s) && Leftover([t] + ts, s) == Leftover(ts, s[1..])
  {
    var us := [t] + ts;
    assert forall i :: 1 <= i < |us| ==> us[i] == ts[i - 1] && s[i] == s[1..][i - 1];
    assert s[1..][|ts|..] == s[|us|..];
  }

  lemma ServedOnce(s: seq<Order>, qty: Quantity)
    requires s != [] && 0 < qty < s[0].qty
    ensures Served([], s) && Leftover([], s) == s
    ensures var ts := [Trade(s[0], qty, 0)];
            Served(ts, s) && Leftover(ts, s) == [s[0].(qty := s[0].qty - qty)] + s[1..]
  {
  }

  /** The trades are those of price-time priority and the book is what they leave; only when the
      incoming order is used up can the last maker stay. */
  ghost predicate Fair(r: Outcome, s: seq<Order>) {
    && Served(r.trades, s)
    && r.resting == Leftover(r.trades, s)
    && (|r.trades| + |r.resting| == |s| || (r.leaves == 0 && |r.trades| + |r.resting| == |s| + 1))
  }

  /** Price-time priority: the makers are a prefix of the book in order, all but the last fully
      filled, and the rest of the book is untouched. So there is one match call per order
      removed, and at most one more. */
  lemma {:induction false} PriorityRespected(side: Side, limit: Price, leaves: Quantity, opp: seq<Order>)
    requires Positive(opp)
    ensures Fair(MatchAll(side, limit, leaves, opp), opp)
    decreases |opp|
  {
    if leaves == 0 || opp == [] || !Acceptable(side, limit, opp[0].price) {
      assert opp[0..] == opp;
    } else if opp[0].qty <= leaves {
      PriorityRespected(side, limit, leaves - opp[0].qty, opp[1..]);
      var rest := MatchAll(side, limit, leaves - opp[0].qty, opp[1..]);
      ServedCons(Trade(opp[0], opp[0].qty, leaves - opp[0].qty), rest.trades, opp);
    } else {
      ServedOnce(opp, leaves);
    }
  }

  /** From one trade to the next the price stays or gets worse for the incoming side. */
  ghost predicate NeverImproves(side: Side, ts: seq<Trade>) {
    forall i, j :: 0 <= i < j < |ts| ==>
      if side == BUY then ts[i].maker.price <= ts[j].maker.price else ts[i].maker.price >= ts[j].maker.price
  }

  lemma {:induction false} TradesAcceptable(side: Side, limit: Price, leaves: Quantity, opp: seq<Order>)
    ensures var ts := MatchAll(side, limit, leaves, opp).trades;
            && |ts| <= |opp|
            && forall i :: 0 <= i < |ts| ==> ts[i].maker == opp[i] && Acceptable(side, limit, ts[i].maker.price)
    decreases |opp|
  {
    if leaves > 0 && opp != [] && Acceptable(side, limit, opp[0].price) && opp[0].qty <= leaves {
      TradesAcceptable(side, limit, leaves - opp[0].qty, opp[1..]);
      var ts := MatchAll(side, limit, leaves, opp).trades;
      var rest := MatchAll(side, limit, leaves - opp[0].qty, opp[1..]).trades;
      assert forall i :: 1 <= i < |ts| ==> ts[i] == rest[i - 1] && opp[i] == opp[1..][i - 1];
    }
  }

  /** Trade prices are acceptable to the incoming order and never improve from one trade to the
      next: non-decreasing for a buyer, non-increasing for a seller. */
  lemma TradePrices(side: Side, limit: Price, leaves: Quantity, opp: seq<Order>)
    requires side != INVALID && Sorted(Opposite(side), opp)
    ensures var ts := MatchAll(side, limit, leaves, opp).trades;
            && (forall i :: 0 <= i < |ts| ==>
                  if side == BUY then ts[i].maker.price <= limit else ts[i].maker.price >= limit)
            && NeverImproves(side, ts)
  {
    hide MatchAll;
    TradesAcceptable(side, limit, leaves, opp);
    var ts := MatchAll(side, limit, leaves, opp).trades;
    forall i, j | 0 <= i < j < |ts| ensures
      if side == BUY then ts[i].maker.price <= ts[j].maker.price else ts[i].maker.price >= ts[j].maker.price
    {
      assert Before(Opposite(side), opp[i], opp[j]);
    }
  }

  /** If anything is left of the incoming order, every price left is beyond its limit. */
  lemma {:induction false} OutOfReach(side: Side, limit: Price, leaves: Quantity, opp: seq<Order>)
    requires Sorted(Opposite(side), opp) && side != INVALID
    ensures var r := MatchAll(side, limit, leaves, opp);
            r.leaves > 0 ==>
              forall i :: 0 <= i < |r.resting| ==>
                if side == BUY then limit < r.resting[i].price else r.resting[i].price < limit
    decreases |opp|
  {
    if leaves > 0 && opp != [] {
      if !Acceptable(side, limit, opp[0].price) {
        forall i | 0 <= i < |opp| ensures if side == BUY then limit < opp[i].price else opp[i].price < limit {
          assert i > 0 ==> Before(Opposite(side), opp[0], opp[i]);
        }
      } else if opp[0].qty <= leaves {
        SortedTail(Opposite(side), opp);
        OutOfReach(side, limit, leaves - opp[0].qty, opp[1..]);
      }
    }
  }

  lemma GoodOpposite(m: Market, side: Side)
    requires Good(m) && side != INVALID
    ensures Positive(m.On(side)) && Sorted(side, m.On(side))
  {
    forall i | 0 <= i < |m.On(side)| ensures 0 < m.On(side)[i].qty {
      assert OrderGood(side, m.On(side)[i], m.nextId);
    }
  }

  /** The matching inside an add, from any reachable book: the reference matcher, hence
      price-time priority, the closed-form residual, and acceptable prices that never improve. */
  lemma AddMatchesByPriceAndTime(m: Market, r: Request)
    requires Good(m) && r.New? && r.side != INVALID
    ensures var opp := m.On(Opposite(r.side));
            var ref := MatchAll(r.side, r.price, r.qty, opp);
            var offer := CrossingQty(r.side, r.price, opp);
            && TradesOk(ref.trades)
            && MatchPhase(m, r) == Matched(Settled(Accept(m, r), TakerOf(m, r), ref), ref.leaves)
            && Fair(ref, opp)
            && ref.leaves == (if offer <= r.qty then r.qty - offer else 0)
            && TradedQty(ref.trades) == r.qty - ref.leaves
            && (forall i :: 0 <= i < |ref.trades| ==>
                  var p := ref.trades[i].maker.price; if r.side == BUY then p <= r.price else p >= r.price)
            && NeverImproves(r.side, ref.trades)
            && (ref.leaves > 0 ==>
                  forall i :: 0 <= i < |ref.resting| ==>
                    var p := ref.resting[i].price; if r.side == BUY then r.price < p else p < r.price)
  {
    hide Good, Settled, MatchAll, MatchLoop, Fair, CrossingQty, TradedQty, NeverImproves, Sorted, Positive, TradesOk;
    var a := Accept(m, r);
    var opp := m.On(Opposite(r.side));
    GoodOpposite(m, Opposite(r.side));
    assert a.On(Opposite(r.side)) == opp;
    MatchLoopIsMatchAll(a, TakerOf(m, r), r.qty);
    PriorityRespected(r.side, r.price, r.qty, opp);
    Residual(r.side, r.price, r.qty, opp);
    TradePrices(r.side, r.price, r.qty, opp);
    OutOfReach(r.side, r.price, r.qty, opp);
  }
}
