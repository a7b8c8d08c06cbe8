/** What the two outgoing streams say, read without the code that writes them: every request has
    its answer, every response names an accepted order, every match is reported alike to both
    clients and to the market, and every update fits the book that the updates before it give. */
module Messages {
  import opened ExchangeTypes
  import opened BookSpec
  import opened Sequences
  import opened BookInvariants
  import opened Replay
  import opened Ledger

  // ----- parts of a stream -----

  function Select(rs: seq<ClientResponse>, kinds: set<ResponseType>): seq<ClientResponse> {
    if rs == [] then []
    else
      var r := rs[|rs| - 1];
      Select(rs[..|rs| - 1], kinds) + if r.kind in kinds then [r] else []
  }

  /** Acknowledgement number k is that of market order id k + 1. */
  function Acks(rs: seq<ClientResponse>): seq<ClientResponse> {
    Select(rs, {ACCEPTED})
  }

  function Answers(rs: seq<ClientResponse>): seq<ClientResponse> {
    Select(rs, {ACCEPTED, CANCELED, CANCEL_REJECTED})
  }

  predicate AfterTrade(us: seq<MarketUpdate>) {
    us != [] && us[|us| - 1].kind == TRADE
  }

  function Trades(us: seq<MarketUpdate>): seq<MarketUpdate> {
    if us == [] then []
    else Trades(us[..|us| - 1]) + if us[|us| - 1].kind == TRADE then [us[|us| - 1]] else []
  }

  /** The updates that come directly after a TRADE. */
  function Effects(us: seq<MarketUpdate>): seq<MarketUpdate> {
    if us == [] then []
    else Effects(us[..|us| - 1]) + if AfterTrade(us[..|us| - 1]) then [us[|us| - 1]] else []
  }

  /** The CANCELs that do not. */
  function Withdrawals(us: seq<MarketUpdate>): seq<MarketUpdate> {
    if us == [] then []
    else
      var u := us[|us| - 1];
      Withdrawals(us[..|us| - 1]) + if u.kind == CANCEL && !AfterTrade(us[..|us| - 1]) then [u] else []
  }

  /** The last response tells one client of a match, and the other is still to be told. */
  predicate HalfTold(rs: seq<ClientResponse>) {
    rs != [] && rs[|rs| - 1].kind == FILLED && !HalfTold(rs[..|rs| - 1])
  }

  // ----- what the streams say -----

  /** An answer is addressed to the client and the order of its request; an acknowledgement
      repeats the whole order. */
  predicate AnswerTo(q: Request, a: ClientResponse) {
    match q
    case New(client, oid, ticker, side, price, qty) =>
      && a.kind == ACCEPTED && a.client == client && a.clientOrderId == oid && a.ticker == ticker
      && a.side == side && a.price == price && a.execQty == 0 && a.leftQty == qty
    case Cancel(client, oid, ticker) =>
      && (a.kind == CANCELED || a.kind == CANCEL_REJECTED)
      && a.client == client && a.clientOrderId == oid && a.ticker == ticker
  }

  /** Every request has exactly one answer, in the order of the requests. */
  ghost predicate Answered(qs: seq<Request>, rs: seq<ClientResponse>) {
    && |Answers(rs)| == |qs|
    && forall i :: 0 <= i < |qs| ==> AnswerTo(qs[i], Answers(rs)[i])
  }

  /** The response is about an acknowledged order, its client, its client order id and its side. */
  predicate About(acks: seq<ClientResponse>, r: ClientResponse) {
    && 1 <= r.marketOrderId <= |acks|
    && var a := acks[r.marketOrderId - 1];
    r.client == a.client && r.clientOrderId == a.clientOrderId && r.side == a.side
  }

  /** No acknowledged order of this client with this client order id is open. */
  ghost predicate NoneOpen(before: seq<ClientResponse>, client: ClientId, oid: OrderId) {
    forall id :: 1 <= id <= |Acks(before)| ==>
      var a := Acks(before)[id - 1];
      a.client == client && a.clientOrderId == oid ==> Open(before, id) == 0
  }

  /** A FILLED is within the limit that was acknowledged. The first of a match goes to the order
      acknowledged last; the second to an older one on the other side, at the limit that order
      rests at, with the price, quantity and ticker of the first. */
  ghost predicate FillTrue(before: seq<ClientResponse>, r: ClientResponse)
    requires About(Acks(before), r)
  {
    var a := Acks(before)[r.marketOrderId - 1];
    && (r.side == BUY || r.side == SELL)
    && (r.side == BUY ==> r.price <= a.price) && (r.side == SELL ==> r.price >= a.price)
    && 0 < r.execQty <= a.leftQty
    && if HalfTold(before) then
         var first := before[|before| - 1];
         && r.marketOrderId < first.marketOrderId && r.side != first.side
         && r.price == a.price && r.price == first.price
         && r.execQty == first.execQty && r.ticker == first.ticker
       else
         r.marketOrderId == |Acks(before)| && r.ticker == a.ticker
  }

  ghost predicate ResponseTrue(before: seq<ClientResponse>, r: ClientResponse) {
    && (r.kind != FILLED ==> !HalfTold(before))
    && match r.kind
       case ACCEPTED => r.marketOrderId == |Acks(before)| + 1
       case FILLED => About(Acks(before), r) && FillTrue(before, r)
       case CANCELED =>
         && About(Acks(before), r) && r.price == Acks(before)[r.marketOrderId - 1].price
         && r.execQty == QUANTITY_INVALID && 0 < r.leftQty
       case CANCEL_REJECTED =>
         && NoneOpen(before, r.client, r.clientOrderId)
         && r.marketOrderId == ORDER_ID_INVALID && r.side == INVALID && r.price == PRICE_INVALID
         && r.execQty == QUANTITY_INVALID && r.leftQty == QUANTITY_INVALID
  }

  ghost predicate ResponsesTrue(rs: seq<ClientResponse>) {
    forall k :: 0 <= k < |rs| ==> ResponseTrue(rs[..k], rs[k])
  }

  /** An update fits the book that replaying the earlier ones gives: ADD brings a new order, TRADE
      is followed by the MODIFY or CANCEL of an order on the other side at the traded price that
      has the traded quantity less, and any other CANCEL takes out an order whole. */
  predicate UpdateTrue(before: seq<MarketUpdate>, u: MarketUpdate) {
    var book := Replayed(before);
    && (u.kind == ADD || u.kind == TRADE ==> !AfterTrade(before) && 0 < u.qty)
    && (u.kind == ADD ==> u.orderId !in book && u.priority == 1)
    && (u.kind == TRADE ==> u.orderId == ORDER_ID_INVALID && u.priority == PRIORITY_INVALID)
    && (u.kind == MODIFY ==> AfterTrade(before))
    && (u.kind == MODIFY || u.kind == CANCEL ==>
          && u.orderId in book
          && var quote := book[u.orderId];
          && u.side == quote.side && u.price == quote.price
          && if AfterTrade(before) then
               var trade := before[|before| - 1];
               && u.side != trade.side && u.price == trade.price && u.ticker == trade.ticker
               && (u.kind == MODIFY ==> u.qty == quote.qty - trade.qty && 0 < u.qty && u.priority == quote.priority)
               && (u.kind == CANCEL ==> u.qty == quote.qty == trade.qty && u.priority == PRIORITY_INVALID)
             else
               u.qty == 0 && u.priority == quote.priority)
  }

  ghost predicate UpdatesTrue(us: seq<MarketUpdate>) {
    forall k :: 0 <= k < |us| ==> UpdateTrue(us[..k], us[k])
  }

  /** One match in both streams: two FILLED, the TRADE, and what becomes of the resting order. */
  predicate Deal(first: ClientResponse, second: ClientResponse, trade: MarketUpdate, effect: MarketUpdate) {
    && trade.side == first.side && trade.price == first.price && trade.qty == first.execQty
    && trade.ticker == first.ticker
    && effect.orderId == second.marketOrderId && effect.side == second.side && effect.price == second.price
    && (effect.kind == CANCEL <==> second.leftQty == 0) && (effect.kind == MODIFY ==> effect.qty == second.leftQty)
  }

  ghost predicate DealsTold(rs: seq<ClientResponse>, us: seq<MarketUpdate>) {
    var fills, trades, effects := Select(rs, {FILLED}), Trades(us), Effects(us);
    && |fills| == 2 * |trades| && |effects| == |trades|
    && forall k :: 0 <= k < |trades| ==> Deal(fills[2 * k], fills[2 * k + 1], trades[k], effects[k])
  }

  /** A CANCELED and the update that takes the order out. */
  predicate Withdrawal(r: ClientResponse, u: MarketUpdate) {
    r.marketOrderId == u.orderId && r.ticker == u.ticker && r.side == u.side && r.price == u.price
  }

  ghost predicate WithdrawalsTold(rs: seq<ClientResponse>, us: seq<MarketUpdate>) {
    && |Select(rs, {CANCELED})| == |Withdrawals(us)|
    && forall k :: 0 <= k < |Withdrawals(us)| ==> Withdrawal(Select(rs, {CANCELED})[k], Withdrawals(us)[k])
  }

  /** An ADD shows an acknowledged order. */
  predicate AddAbout(acks: seq<ClientResponse>, u: MarketUpdate) {
    && 1 <= u.orderId <= |acks|
    && var a := acks[u.orderId - 1];
    u.ticker == a.ticker && u.side == a.side && u.price == a.price
  }

  ghost predicate AddsTold(rs: seq<ClientResponse>, us: seq<MarketUpdate>) {
    forall k :: 0 <= k < |us| && us[k].kind == ADD ==> AddAbout(Acks(rs), us[k])
  }

  /** A resting order is as it was acknowledged. */
  predicate OrderAbout(acks: seq<ClientResponse>, o: Order) {
    && 1 <= o.moid <= |acks|
    && var a := acks[o.moid - 1];
    && o.client == a.client && o.oid == a.clientOrderId && o.ticker == a.ticker
    && o.side == a.side && o.price == a.price && o.qty <= a.leftQty
  }

  ghost predicate SideAbout(acks: seq<ClientResponse>, s: seq<Order>) {
    forall i :: 0 <= i < |s| ==> OrderAbout(acks, s[i])
  }

  ghost predicate BookAbout(m: Market) {
    SideAbout(Acks(m.responses), m.bids) && SideAbout(Acks(m.responses), m.asks)
  }

  /** Everything above, of the streams of a market that has served these requests. */
  ghost predicate Recorded(m: Market, qs: seq<Request>) {
    && Answered(qs, m.responses)
    && ResponsesTrue(m.responses) && !HalfTold(m.responses) && |Acks(m.responses)| + 1 == m.nextId
    && UpdatesTrue(m.updates) && !AfterTrade(m.updates)
    && DealsTold(m.responses, m.updates)
    && WithdrawalsTold(m.responses, m.updates)
    && AddsTold(m.responses, m.updates)
    && BookAbout(m)
  }

  // ----- one more message -----

  lemma SelectSnoc(rs: seq<ClientResponse>, r: ClientResponse, kinds: set<ResponseType>)
    ensures Select(rs + [r], kinds) == Select(rs, kinds) + if r.kind in kinds then [r] else []
  {
    assert (rs + [r])[..|rs|] == rs;
  }

  lemma HalfToldSnoc(rs: seq<ClientResponse>, r: ClientResponse)
    ensures HalfTold(rs + [r]) <==> r.kind == FILLED && !HalfTold(rs)
  {
    assert (rs + [r])[..|rs|] == rs;
  }

  lemma ResponsesSnoc(rs: seq<ClientResponse>, r: ClientResponse)
    requires ResponsesTrue(rs) && ResponseTrue(rs, r)
    ensures ResponsesTrue(rs + [r])
  {
    hide ResponseTrue;
    var q := rs + [r];
    forall k | 0 <= k < |q| ensures ResponseTrue(q[..k], q[k]) {
      assert q[..k] == if k < |rs| then rs[..k] else rs;
    }
  }

  lemma UpdatesSnoc(us: seq<MarketUpdate>, u: MarketUpdate)
    requires UpdatesTrue(us) && UpdateTrue(us, u)
    ensures UpdatesTrue(us + [u])
  {
    hide UpdateTrue;
    var q := us + [u];
    forall k | 0 <= k < |q| ensures UpdateTrue(q[..k], q[k]) {
      assert q[..k] == if k < |us| then us[..k] else us;
    }
  }

  lemma PartsSnoc(us: seq<MarketUpdate>, u: MarketUpdate)
    ensures Trades(us + [u]) == Trades(us) + if u.kind == TRADE then [u] else []
    ensures Effects(us + [u]) == Effects(us) + if AfterTrade(us) then [u] else []
    ensures Withdrawals(us + [u]) == Withdrawals(us) + if u.kind == CANCEL && !AfterTrade(us) then [u] else []
    ensures AfterTrade(us + [u]) <==> u.kind == TRADE
  {
    assert (us + [u])[..|us|] == us;
  }

  lemma AddsSnoc(rs: seq<ClientResponse>, us: seq<MarketUpdate>, rs': seq<ClientResponse>, u: MarketUpdate)
    requires AddsTold(rs, us) && Acks(rs') == Acks(rs) && (u.kind == ADD ==> AddAbout(Acks(rs), u))
    ensures AddsTold(rs', us + [u])
  {
  }

  /** More acknowledgements leave what was said about the earlier ones. */
  lemma AcksGrow(acks: seq<ClientResponse>, more: seq<ClientResponse>, s: seq<Order>)
    requires SideAbout(acks, s)
    ensures SideAbout(acks + more, s)
  {
    forall i | 0 <= i < |s| ensures OrderAbout(acks + more, s[i]) {
      assert OrderAbout(acks, s[i]);
    }
  }

  // ----- an order is acknowledged -----

  /** The incoming order is the one acknowledged last. */
  ghost predicate Incoming(m: Market, t: Taker, qty: Quantity) {
    var acks := Acks(m.responses);
    && 1 <= t.moid == |acks|
    && var a := acks[t.moid - 1];
    && a.client == t.client && a.clientOrderId == t.oid && a.ticker == t.ticker
    && a.side == t.side && a.price == t.price && qty <= a.leftQty
  }

  lemma AnsweredSnoc(qs: seq<Request>, rs: seq<ClientResponse>, q: Request, r: ClientResponse)
    requires Answered(qs, rs) && AnswerTo(q, r)
    ensures Answered(qs + [q], rs + [r])
  {
    SelectSnoc(rs, r, {ACCEPTED, CANCELED, CANCEL_REJECTED});
  }

  lemma AcceptRecorded(m: Market, qs: seq<Request>, q: Request)
    requires Recorded(m, qs) && q.New?
    ensures Recorded(Accept(m, q), qs + [q]) && Incoming(Accept(m, q), TakerOf(m, q), q.qty)
  {
    hide ResponsesTrue, UpdatesTrue, Answered, SideAbout;
    var rs, a := m.responses, Accept(m, q);
    var r := a.responses[|rs|];
    assert a.responses == rs + [r] && a.updates == m.updates;
    AnsweredSnoc(qs, rs, q, r);
    ResponsesSnoc(rs, r);
    HalfToldSnoc(rs, r);
    SelectSnoc(rs, r, {ACCEPTED});
    SelectSnoc(rs, r, {FILLED});
    SelectSnoc(rs, r, {CANCELED});
    AcksGrow(Acks(rs), [r], m.bids);
    AcksGrow(Acks(rs), [r], m.asks);
  }

  // ----- one match -----

  lemma FirstIsTrue(m: Market, t: Taker, leaves: Quantity)
    requires Good(m) && t.side != INVALID && CanFill(m, t, leaves) && IdsBelow(m, t.moid)
    requires !HalfTold(m.responses) && BookAbout(m) && Incoming(m, t, leaves)
    ensures ResponseTrue(m.responses, FillStep(m, t, leaves).market.responses[|m.responses|])
  {
    hide Good, IdsBelow, Select, AfterFill;
    HeadAbout(m, t);
  }

  lemma SecondIsTrue(m: Market, t: Taker, leaves: Quantity)
    requires Good(m) && t.side != INVALID && CanFill(m, t, leaves) && IdsBelow(m, t.moid)
    requires !HalfTold(m.responses) && BookAbout(m) && Incoming(m, t, leaves)
    ensures var rs := FillStep(m, t, leaves).market.responses;
            ResponseTrue(m.responses + [rs[|m.responses|]], rs[|m.responses| + 1])
  {
    hide Good, IdsBelow, Select, AfterFill, HalfTold;
    var x := FillStep(m, t, leaves).market.responses[|m.responses|];
    HeadAbout(m, t);
    HalfToldSnoc(m.responses, x);
    SelectSnoc(m.responses, x, {ACCEPTED});
  }

  lemma FillResponsesTrue(m: Market, t: Taker, leaves: Quantity)
    requires Good(m) && t.side != INVALID && CanFill(m, t, leaves) && IdsBelow(m, t.moid)
    requires ResponsesTrue(m.responses) && !HalfTold(m.responses) && BookAbout(m) && Incoming(m, t, leaves)
    ensures var rs := FillStep(m, t, leaves).market.responses;
            && ResponsesTrue(rs) && !HalfTold(rs)
            && |rs| == |m.responses| + 2
            && rs == m.responses + [rs[|rs| - 2]] + [rs[|rs| - 1]]
            && rs[|rs| - 2].kind == FILLED && rs[|rs| - 1].kind == FILLED
            && Acks(rs) == Acks(m.responses)
  {
    hide ResponsesTrue, ResponseTrue, Good, IdsBelow, BookAbout;
    FirstIsTrue(m, t, leaves);
    SecondIsTrue(m, t, leaves);
    var rs := m.responses;
    var after := FillStep(m, t, leaves).market.responses;
    var x, y := after[|rs|], after[|rs| + 1];
    assert after == rs + [x] + [y];
    HalfToldSnoc(rs, x);
    HalfToldSnoc(rs + [x], y);
    SelectSnoc(rs, x, {ACCEPTED});
    SelectSnoc(rs + [x], y, {ACCEPTED});
    ResponsesSnoc(rs, x);
    ResponsesSnoc(rs + [x], y);
  }

  lemma HeadAbout(m: Market, t: Taker)
    requires Good(m) && t.side != INVALID && IdsBelow(m, t.moid) && BookAbout(m) && m.On(Opposite(t.side)) != []
    ensures var o := m.On(Opposite(t.side))[0];
            && OrderAbout(Acks(m.responses), o) && OrderGood(Opposite(t.side), o, m.nextId) && o.moid < t.moid
  {
  }

  lemma TradeIsTrue(m: Market, t: Taker, leaves: Quantity)
    requires Good(m) && t.side != INVALID && CanFill(m, t, leaves) && !AfterTrade(m.updates)
    ensures UpdateTrue(m.updates, FillStep(m, t, leaves).market.updates[|m.updates|])
  {
    assert OrderGood(Opposite(t.side), m.On(Opposite(t.side))[0], m.nextId);
  }

  lemma EffectIsTrue(m: Market, t: Taker, leaves: Quantity)
    requires Good(m) && t.side != INVALID && CanFill(m, t, leaves) && Faithful(m)
    ensures var us := FillStep(m, t, leaves).market.updates;
            UpdateTrue(m.updates + [us[|m.updates|]], us[|m.updates| + 1])
  {
    hide Replayed;
    assert OrderGood(Opposite(t.side), m.On(Opposite(t.side))[0], m.nextId);
    ReplayedSnoc(m.updates, FillStep(m, t, leaves).market.updates[|m.updates|]);
  }

  lemma FillUpdatesTrue(m: Market, t: Taker, leaves: Quantity)
    requires Good(m) && t.side != INVALID && CanFill(m, t, leaves) && Faithful(m)
    requires UpdatesTrue(m.updates) && !AfterTrade(m.updates)
    ensures var us := FillStep(m, t, leaves).market.updates;
            && UpdatesTrue(us) && !AfterTrade(us)
            && |us| == |m.updates| + 2
            && us == m.updates + [us[|us| - 2]] + [us[|us| - 1]]
            && us[|us| - 2].kind == TRADE && (us[|us| - 1].kind == MODIFY || us[|us| - 1].kind == CANCEL)
  {
    hide UpdatesTrue, UpdateTrue, Good, Faithful;
    TradeIsTrue(m, t, leaves);
    EffectIsTrue(m, t, leaves);
    var us := m.updates;
    var after := FillStep(m, t, leaves).market.updates;
    var x, y := after[|us|], after[|us| + 1];
    assert after == us + [x] + [y];
    UpdatesSnoc(us, x);
    UpdatesSnoc(us + [x], y);
  }

  lemma DealsSnoc(rs: seq<ClientResponse>, us: seq<MarketUpdate>, x: ClientResponse, y: ClientResponse,
                  u: MarketUpdate, v: MarketUpdate)
    requires DealsTold(rs, us) && WithdrawalsTold(rs, us) && !AfterTrade(us)
    requires x.kind == FILLED && y.kind == FILLED && u.kind == TRADE && v.kind != TRADE && Deal(x, y, u, v)
    ensures DealsTold(rs + [x] + [y], us + [u] + [v]) && WithdrawalsTold(rs + [x] + [y], us + [u] + [v])
  {
    hide Select, Trades, Effects, Withdrawals, Deal, Withdrawal;
    SelectSnoc(rs, x, {FILLED});
    SelectSnoc(rs + [x], y, {FILLED});
    SelectSnoc(rs, x, {CANCELED});
    SelectSnoc(rs + [x], y, {CANCELED});
    PartsSnoc(us, u);
    PartsSnoc(us + [u], v);
  }

  lemma FillRecorded(m: Market, t: Taker, leaves: Quantity, qs: seq<Request>)
    requires Good(m) && Faithful(m) && t.side != INVALID && CanFill(m, t, leaves) && IdsBelow(m, t.moid)
    requires Recorded(m, qs) && Incoming(m, t, leaves)
    ensures var r := FillStep(m, t, leaves); Recorded(r.market, qs) && Incoming(r.market, t, r.leaves)
  {
    hide Good, IdsBelow, Faithful, ResponsesTrue, UpdatesTrue, DealsTold, WithdrawalsTold, AddsTold;
    var r := FillStep(m, t, leaves);
    var rs, us := r.market.responses, r.market.updates;
    FillResponsesTrue(m, t, leaves);
    FillUpdatesTrue(m, t, leaves);
    HeadAbout(m, t);
    var x, y, u, v := rs[|rs| - 2], rs[|rs| - 1], us[|us| - 2], us[|us| - 1];
    DealsSnoc(m.responses, m.updates, x, y, u, v);
    AddsSnoc(m.responses, m.updates, m.responses, u);
    AddsSnoc(m.responses, m.updates + [u], rs, v);
    SelectSnoc(m.responses, x, {ACCEPTED, CANCELED, CANCEL_REJECTED});
    SelectSnoc(m.responses + [x], y, {ACCEPTED, CANCELED, CANCEL_REJECTED});
  }

  lemma {:induction false} MatchRecorded(m: Market, t: Taker, leaves: Quantity, qs: seq<Request>)
    requires Good(m) && Faithful(m) && t.side != INVALID && IdsBelow(m, t.moid)
    requires Recorded(m, qs) && Incoming(m, t, leaves)
    ensures var r := MatchLoop(m, t, leaves); Recorded(r.market, qs) && Incoming(r.market, t, r.leaves)
    decreases |m.On(Opposite(t.side))|, leaves
  {
    hide Good, Faithful, Recorded, Incoming;
    if CanFill(m, t, leaves) {
      var r := FillStep(m, t, leaves);
      FillRecorded(m, t, leaves, qs);
      FillFaithful(m, t, leaves);
      FillKeepsGood(m, t, leaves);
      MatchRecorded(r.market, t, r.leaves, qs);
    }
  }

  // ----- the rest is stored, an order is canceled -----

  lemma InsertAbout(acks: seq<ClientResponse>, side: Side, s: seq<Order>, o: Order)
    requires SideAbout(acks, s) && Sorted(side, s) && OrderAbout(acks, o)
    ensures SideAbout(acks, Insert(side, s, o))
  {
    var k := InsertSplits(side, s, o);
  }

  lemma AddIsTrue(m: Market, t: Taker, leaves: Quantity)
    requires Good(m) && Faithful(m) && t.side != INVALID && IdsBelow(m, t.moid) && 0 < leaves
    requires !AfterTrade(m.updates) && Incoming(m, t, leaves)
    ensures var o := OrderOf(m, t, leaves);
            && UpdateTrue(m.updates, AddUpdate(o))
            && AddAbout(Acks(m.responses), AddUpdate(o)) && OrderAbout(Acks(m.responses), o)
  {
    hide NextPriority, Replayed;
    GoodPriority(m, t.side, t.price);
    NotYetQuoted(m, t.moid);
  }

  lemma RestRecorded(m: Market, t: Taker, leaves: Quantity, qs: seq<Request>)
    requires Good(m) && Faithful(m) && t.side != INVALID && IdsBelow(m, t.moid) && 0 < leaves
    requires Recorded(m, qs) && Incoming(m, t, leaves)
    ensures Recorded(Rest(m, t, leaves), qs)
  {
    hide Good, Faithful, ResponsesTrue, UpdatesTrue, UpdateTrue, DealsTold, WithdrawalsTold, AddsTold, Answered,
         NextPriority, Insert, SideAbout, OrderAbout, AddAbout, Select;
    var o := OrderOf(m, t, leaves);
    var u := AddUpdate(o);
    var us := m.updates;
    assert m.responses + [] == m.responses;
    AddIsTrue(m, t, leaves);
    UpdatesSnoc(us, u);
    PartsSnoc(us, u);
    DealsKept(m.responses, us, u);
    WithdrawalsKept(m.responses, us, u);
    AddsSnoc(m.responses, us, m.responses, u);
    GoodSorted(m, t.side);
    InsertAbout(Acks(m.responses), t.side, m.On(t.side), o);
  }

  lemma GoodSorted(m: Market, side: Side)
    requires Good(m) && side != INVALID
    ensures Sorted(side, m.On(side))
  {
  }

  lemma GoodPriority(m: Market, side: Side, price: Price)
    requires Good(m) && side != INVALID
    ensures NextPriority(m.On(side), price) == 1
  {
    forall i | 0 <= i < |m.On(side)| ensures m.On(side)[i].priority == 1 {
      assert OrderGood(side, m.On(side)[i], m.nextId);
    }
    PriorityIsOne(m.On(side), price);
  }

  lemma NotYetQuoted(m: Market, id: OrderId)
    requires Faithful(m) && IdsBelow(m, id)
    ensures id !in Replayed(m.updates)
  {
  }

  /** An update that no match caused changes nothing about the matches. */
  lemma DealsKept(rs: seq<ClientResponse>, us: seq<MarketUpdate>, u: MarketUpdate)
    requires DealsTold(rs, us) && !AfterTrade(us) && u.kind != TRADE
    ensures DealsTold(rs, us + [u])
  {
    PartsSnoc(us, u);
  }

  lemma WithdrawalsKept(rs: seq<ClientResponse>, us: seq<MarketUpdate>, u: MarketUpdate)
    requires WithdrawalsTold(rs, us) && u.kind != CANCEL
    ensures WithdrawalsTold(rs, us + [u])
  {
    PartsSnoc(us, u);
  }

  lemma AnswerKeeps(rs: seq<ClientResponse>, us: seq<MarketUpdate>, r: ClientResponse)
    requires DealsTold(rs, us) && r.kind != FILLED
    ensures DealsTold(rs + [r], us)
  {
    SelectSnoc(rs, r, {FILLED});
  }

  lemma CancelResponseTrue(m: Market, q: Request, side: Side, i: nat)
    requires Good(m) && BookAbout(m) && !HalfTold(m.responses)
    requires q.Cancel? && side != INVALID && i < |m.On(side)| && m.On(side)[i].HasKey(q.client, q.oid)
    ensures ResponseTrue(m.responses, Canceled(q, m.On(side)[i])) && AnswerTo(q, Canceled(q, m.On(side)[i]))
  {
    assert OrderGood(side, m.On(side)[i], m.nextId) && OrderAbout(Acks(m.responses), m.On(side)[i]);
  }

  lemma CancelUpdateTrue(m: Market, q: Request, side: Side, i: nat)
    requires Faithful(m) && !AfterTrade(m.updates)
    requires q.Cancel? && side != INVALID && i < |m.On(side)|
    ensures UpdateTrue(m.updates, CancelUpdate(q, m.On(side)[i]))
  {
  }

  lemma WithdrawalsSnoc(rs: seq<ClientResponse>, us: seq<MarketUpdate>, r: ClientResponse, u: MarketUpdate)
    requires WithdrawalsTold(rs, us) && !AfterTrade(us)
    requires r.kind == CANCELED && u.kind == CANCEL && Withdrawal(r, u)
    ensures WithdrawalsTold(rs + [r], us + [u])
  {
    hide Select, Withdrawals, AfterTrade, Withdrawal;
    SelectSnoc(rs, r, {CANCELED});
    PartsSnoc(us, u);
  }

  lemma CancelRecorded(m: Market, qs: seq<Request>, q: Request, side: Side, i: nat)
    requires Good(m) && Faithful(m) && Recorded(m, qs)
    requires q.Cancel? && side != INVALID && i < |m.On(side)| && m.On(side)[i].HasKey(q.client, q.oid)
    ensures Recorded(CancelAt(m, q, side, i), qs + [q])
  {
    hide Good, Faithful, ResponsesTrue, ResponseTrue, UpdatesTrue, UpdateTrue, DealsTold, WithdrawalsTold, Answered,
         AddsTold, SideAbout, OrderAbout, RemoveAt, Select;
    var o := m.On(side)[i];
    var r, u := Canceled(q, o), CancelUpdate(q, o);
    CancelResponseTrue(m, q, side, i);
    CancelUpdateTrue(m, q, side, i);
    AnsweredSnoc(qs, m.responses, q, r);
    ResponsesSnoc(m.responses, r);
    HalfToldSnoc(m.responses, r);
    SelectSnoc(m.responses, r, {ACCEPTED});
    UpdatesSnoc(m.updates, u);
    PartsSnoc(m.updates, u);
    AnswerKeeps(m.responses, m.updates, r);
    DealsKept(m.responses + [r], m.updates, u);
    WithdrawalsSnoc(m.responses, m.updates, r, u);
    RemoveAbout(Acks(m.responses), m.On(side), i);
    assert Acks(m.responses + [r]) == Acks(m.responses);
    AddsSnoc(m.responses, m.updates, m.responses + [r], u);
  }

  lemma RemoveAbout(acks: seq<ClientResponse>, s: seq<Order>, i: nat)
    requires SideAbout(acks, s) && i < |s|
    ensures SideAbout(acks, RemoveAt(s, i))
  {
    forall k | 0 <= k < |RemoveAt(s, i)| ensures OrderAbout(acks, RemoveAt(s, i)[k]) {
      assert OrderAbout(acks, s[if k < i then k else k + 1]);
    }
  }

  /** An order with a free key rests nowhere, so nothing of it is open. */
  lemma FreeKeyNoneOpen(m: Market, client: ClientId, oid: OrderId)
    requires Balanced(m, 0, 0) && BookAbout(m) && KeyFree(m, client, oid)
    ensures NoneOpen(m.responses, client, oid)
  {
    var acks := Acks(m.responses);
    forall id | 1 <= id <= |acks| && acks[id - 1].client == client && acks[id - 1].clientOrderId == oid
      ensures Open(m.responses, id) == 0
    {
      forall i | 0 <= i < |m.bids| ensures m.bids[i].moid != id { assert OrderAbout(acks, m.bids[i]); }
      forall i | 0 <= i < |m.asks| ensures m.asks[i].moid != id { assert OrderAbout(acks, m.asks[i]); }
      RestingNone(m.bids, id);
      RestingNone(m.asks, id);
      assert Open(m.responses, id) == Held(m, id) + if id == 0 then 0 else 0;
    }
  }

  lemma RejectRecorded(m: Market, qs: seq<Request>, q: Request)
    requires Recorded(m, qs) && Balanced(m, 0, 0) && q.Cancel? && KeyFree(m, q.client, q.oid)
    ensures Recorded(m.Send([Rejected(q)], []), qs + [q])
  {
    hide ResponsesTrue, UpdatesTrue, DealsTold, Answered, Balanced, KeyFree, NoneOpen;
    var r := Rejected(q);
    assert m.updates + [] == m.updates;
    FreeKeyNoneOpen(m, q.client, q.oid);
    AnsweredSnoc(qs, m.responses, q, r);
    ResponsesSnoc(m.responses, r);
    HalfToldSnoc(m.responses, r);
    SelectSnoc(m.responses, r, {ACCEPTED});
    SelectSnoc(m.responses, r, {CANCELED});
    AnswerKeeps(m.responses, m.updates, r);
  }

  // ----- steps and runs -----

  /** The matching inside an add. */
  lemma MatchPhaseRecorded(m: Market, qs: seq<Request>, q: Request)
    requires Good(m) && Faithful(m) && Recorded(m, qs) && q.New? && q.side != INVALID
    ensures var p := MatchPhase(m, q);
            && Recorded(p.market, qs + [q]) && Incoming(p.market, TakerOf(m, q), p.leaves)
            && Faithful(p.market)
  {
    hide Good, Recorded, Incoming, MatchLoop, IdsBelow;
    var a, t := Accept(m, q), TakerOf(m, q);
    AcceptRecorded(m, qs, q);
    AcceptKeepsGood(m, q);
    GoodIdsBelow(m);
    AcceptIdsBelow(m, q);
    assert Faithful(a) by { assert a.updates == m.updates; }
    MatchRecorded(a, t, q.qty, qs + [q]);
    MatchFaithful(a, t, q.qty);
  }

  lemma StepRecorded(m: Market, qs: seq<Request>, q: Request)
    requires Good(m) && Faithful(m) && Balanced(m, 0, 0) && Recorded(m, qs) && Admissible(m, q)
    ensures Recorded(Step(m, q), qs + [q])
  {
    hide Good, Faithful, Balanced, Recorded, Incoming, MatchPhase, CancelAt, IdsBelow;
    if q.New? {
      MatchPhaseRecorded(m, qs, q);
      MatchPhaseGood(m, q);
      var p := MatchPhase(m, q);
      if p.leaves > 0 {
        RestRecorded(p.market, TakerOf(m, q), p.leaves, qs + [q]);
      }
    } else {
      var i := Search(m.bids, q.client, q.oid);
      var j := Search(m.asks, q.client, q.oid);
      if i < |m.bids| {
        CancelRecorded(m, qs, q, BUY, i);
      } else if j < |m.asks| {
        CancelRecorded(m, qs, q, SELL, j);
      } else {
        RejectRecorded(m, qs, q);
      }
    }
  }

  lemma {:induction false} RunRecorded(m: Market, done: seq<Request>, qs: seq<Request>)
    requires Good(m) && Faithful(m) && Accounted(m, 0, 0) && Recorded(m, done) && AdmissibleRun(m, qs)
    ensures Recorded(Run(m, qs), done + qs)
    decreases |qs|
  {
    hide Good, Faithful, Accounted, Recorded, MatchPhase, KeyFree;
    if qs == [] {
      assert done + qs == done;
    } else {
      AccountedBalanced(m);
      StepRecorded(m, done, qs[0]);
      StepKeepsGood(m, qs[0]);
      StepFaithful(m, qs[0]);
      StepAccounted(m, qs[0]);
      RunRecorded(Step(m, qs[0]), done + [qs[0]], qs[1..]);
      assert done + [qs[0]] + qs[1..] == done + qs;
    }
  }

  lemma AccountedBalanced(m: Market)
    requires Accounted(m, 0, 0)
    ensures Balanced(m, 0, 0)
  {
  }

  lemma EmptyRecorded()
    ensures Recorded(EMPTY, []) && Faithful(EMPTY)
  {
  }

  /** After any admissible run from the empty book the streams record it truly. */
  lemma StreamsTrue(qs: seq<Request>)
    requires AdmissibleRun(EMPTY, qs)
    ensures Recorded(Run(EMPTY, qs), qs)
  {
    hide Good, Faithful, Accounted, Recorded, Run, AdmissibleRun;
    EmptyAccounted();
    EmptyRecorded();
    RunRecorded(EMPTY, [], qs);
    assert [] + qs == qs;
  }

  // ----- market order id k is the k-th add -----

  function News(qs: seq<Request>): seq<Request> {
    if qs == [] then []
    else News(qs[..|qs| - 1]) + if qs[|qs| - 1].New? then [qs[|qs| - 1]] else []
  }

  lemma {:induction false} AcksAmongAnswers(rs: seq<ClientResponse>)
    ensures Acks(rs) == Select(Answers(rs), {ACCEPTED})
  {
    if rs != [] {
      var r, before := rs[|rs| - 1], Answers(rs[..|rs| - 1]);
      AcksAmongAnswers(rs[..|rs| - 1]);
      SelectSnoc(before, r, {ACCEPTED});
      assert Answers(rs) == if r.kind == FILLED then before else before + [r];
    }
  }

  lemma {:induction false} AcceptedNews(qs: seq<Request>, answers: seq<ClientResponse>)
    requires |answers| == |qs| && forall i :: 0 <= i < |qs| ==> AnswerTo(qs[i], answers[i])
    ensures var acks := Select(answers, {ACCEPTED});
            |acks| == |News(qs)| && forall k :: 0 <= k < |acks| ==> AnswerTo(News(qs)[k], acks[k])
  {
    if qs != [] {
      AcceptedNews(qs[..|qs| - 1], answers[..|qs| - 1]);
      assert AnswerTo(qs[|qs| - 1], answers[|qs| - 1]);
    }
  }

  /** The order with market order id k is the k-th order that was added, acknowledged as it was. */
  lemma AcksAreNews(qs: seq<Request>, rs: seq<ClientResponse>)
    requires Answered(qs, rs)
    ensures |Acks(rs)| == |News(qs)|
    ensures forall k :: 0 <= k < |News(qs)| ==> News(qs)[k].New? && AnswerTo(News(qs)[k], Acks(rs)[k])
  {
    AcksAmongAnswers(rs);
    AcceptedNews(qs, Answers(rs));
    NewsAreNew(qs);
  }

  lemma {:induction false} NewsAreNew(qs: seq<Request>)
    ensures forall k :: 0 <= k < |News(qs)| ==> News(qs)[k].New?
  {
    if qs != [] {
      NewsAreNew(qs[..|qs| - 1]);
    }
  }

  // ----- tickers -----

  /** Everything sent and everything resting is about one ticker. */
  ghost predicate Only(m: Market, ticker: TickerId) {
    && (forall i :: 0 <= i < |m.responses| ==> m.responses[i].ticker == ticker)
    && (forall i :: 0 <= i < |m.updates| ==> m.updates[i].ticker == ticker)
    && (forall i :: 0 <= i < |m.bids| ==> m.bids[i].ticker == ticker)
    && (forall i :: 0 <= i < |m.asks| ==> m.asks[i].ticker == ticker)
  }

  lemma {:induction false} MatchOnly(m: Market, t: Taker, leaves: Quantity)
    requires Only(m, t.ticker) && t.side != INVALID
    ensures Only(MatchLoop(m, t, leaves).market, t.ticker)
    decreases |m.On(Opposite(t.side))|, leaves
  {
    if CanFill(m, t, leaves) {
      var r := FillStep(m, t, leaves);
      MatchOnly(r.market, t, r.leaves);
    }
  }

  lemma {:induction false} InsertOnly(side: Side, s: seq<Order>, o: Order)
    requires forall i :: 0 <= i < |s| ==> s[i].ticker == o.ticker
    ensures forall i :: 0 <= i < |Insert(side, s, o)| ==> Insert(side, s, o)[i].ticker == o.ticker
  {
    if s != [] && !Better(side, o.price, s[0].price) {
      InsertOnly(side, s[1..], o);
    }
  }

  lemma StepOnly(m: Market, q: Request)
    requires Only(m, q.ticker) && (q.New? ==> q.side != INVALID)
    ensures Only(Step(m, q), q.ticker)
  {
    hide MatchLoop, Insert, NextPriority, Search;
    if q.New? {
      MatchOnly(Accept(m, q), TakerOf(m, q), q.qty);
      var p := MatchPhase(m, q);
      InsertOnly(q.side, p.market.On(q.side), OrderOf(p.market, TakerOf(m, q), p.leaves));
    }
  }

  /** A book whose requests all carry its ticker speaks of that ticker only. */
  lemma {:induction false} RunOnly(m: Market, qs: seq<Request>, ticker: TickerId)
    requires Only(m, ticker) && AdmissibleRun(m, qs)
    requires forall i :: 0 <= i < |qs| ==> qs[i].ticker == ticker
    ensures Only(Run(m, qs), ticker)
    decreases |qs|
  {
    hide Only, MatchPhase, KeyFree;
    if qs != [] {
      StepOnly(m, qs[0]);
      RunOnly(Step(m, qs[0]), qs[1..], ticker);
    }
  }

  /** The last response is about an acknowledged order, and has its ticker if and only if it is
      the given one. */
  ghost predicate NamesTicker(acks: seq<ClientResponse>, rs: seq<ClientResponse>, ticker: TickerId) {
    && rs != []
    && var r := rs[|rs| - 1];
    && About(acks, r)
    && (r.ticker == acks[r.marketOrderId - 1].ticker <==> ticker == acks[r.marketOrderId - 1].ticker)
  }

  lemma CancelAtTicker(m: Market, q: Request, side: Side, i: nat)
    requires q.Cancel? && side != INVALID && i < |m.On(side)| && m.On(side)[i].HasKey(q.client, q.oid) && BookAbout(m)
    ensures NamesTicker(Acks(m.responses), CancelAt(m, q, side, i).responses, q.ticker)
  {
    hide Select, RemoveAt;
    assert OrderAbout(Acks(m.responses), m.On(side)[i]);
  }

  /** The ticker of a CANCELED is that of its request: it is the acknowledged one if and only if
      the request names that. */
  lemma CancelTicker(m: Market, q: Request)
    requires q.Cancel? && !KeyFree(m, q.client, q.oid) && BookAbout(m)
    ensures NamesTicker(Acks(m.responses), CancelStep(m, q).responses, q.ticker)
  {
    hide BookAbout, NamesTicker, CancelAt, Select;
    var i := Search(m.bids, q.client, q.oid);
    var j := Search(m.asks, q.client, q.oid);
    if i < |m.bids| {
      CancelAtTicker(m, q, BUY, i);
    } else {
      CancelAtTicker(m, q, SELL, j);
    }
  }

  /** An order acknowledged for ticker 1 that is canceled under ticker 2. */
  lemma CancelNamesAnotherTicker()
    ensures var qs := [New(3, 7, 1, BUY, 100, 5), Cancel(3, 7, 2)];
            && AdmissibleRun(EMPTY, qs)
            && var rs := Run(EMPTY, qs).responses;
            && |rs| == 2 && rs[0].kind == ACCEPTED && rs[0].ticker == 1
            && rs[1].kind == CANCELED && rs[1].marketOrderId == rs[0].marketOrderId && rs[1].ticker == 2
  {
    var n, c := New(3, 7, 1, BUY, 100, 5), Cancel(3, 7, 2);
    assert [n, c][1..] == [c] && [c][1..] == [];
    var m := Step(EMPTY, n);
    assert m.bids == [Order(1, 3, 7, 1, BUY, 100, 5, 1)];
    assert Search(m.bids, 3, 7) == 0;
  }
}
