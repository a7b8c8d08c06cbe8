/** The client responses account for every share: per order over whole runs, and between
    buyers and sellers. */
module Ledger {
  import opened ExchangeTypes
  import opened BookSpec
  import opened Sequences
  import opened BookInvariants

  /** Quantity a response reports: what was executed for a FILLED, what is left otherwise. */
  function Reported(r: ClientResponse): nat {
    if r.kind == FILLED then r.execQty else r.leftQty
  }

  /** Total reported by responses of one kind for one market order id. */
  function Total(rs: seq<ClientResponse>, kind: ResponseType, id: OrderId): nat {
    if rs == [] then 0
    else
      var r := rs[|rs| - 1];
      Total(rs[..|rs| - 1], kind, id) + if r.kind == kind && r.marketOrderId == id then Reported(r) else 0
  }

  /** Accepted minus filled minus canceled. */
  function Open(rs: seq<ClientResponse>, id: OrderId): int {
    Total(rs, ACCEPTED, id) - Total(rs, FILLED, id) - Total(rs, CANCELED, id)
  }

  function Resting(s: seq<Order>, id: OrderId): nat {
    if s == [] then 0 else (if s[0].moid == id then s[0].qty else 0) + Resting(s[1..], id)
  }

  function Held(m: Market, id: OrderId): nat {
    Resting(m.bids, id) + Resting(m.asks, id)
  }

  /** Every order's open quantity is what rests of it; the incoming one has leaves on top. */
  ghost predicate Balanced(m: Market, taker: OrderId, leaves: nat) {
    forall id :: Open(m.responses, id) == Held(m, id) + if id == taker then leaves else 0
  }

  /** Each FILLED and each CANCELED reports the right quantity left at its place in the stream. */
  ghost predicate LeftsTrue(rs: seq<ClientResponse>) {
    forall k :: 0 <= k < |rs| ==> LeftTrue(rs[..k], rs[k])
  }

  predicate LeftTrue(before: seq<ClientResponse>, r: ClientResponse) {
    match r.kind
    case FILLED => r.leftQty == Open(before, r.marketOrderId) - r.execQty
    case CANCELED => r.leftQty == Open(before, r.marketOrderId)
    case ACCEPTED => Open(before, r.marketOrderId) == 0 && r.execQty == 0
    case CANCEL_REJECTED => r.marketOrderId == ORDER_ID_INVALID
  }

  lemma TotalSnoc(rs: seq<ClientResponse>, r: ClientResponse, kind: ResponseType, id: OrderId)
    ensures Total(rs + [r], kind, id)
         == Total(rs, kind, id) + if r.kind == kind && r.marketOrderId == id then Reported(r) else 0
  {
    assert (rs + [r])[..|rs|] == rs;
  }

  /** How a response changes the open quantity of its order. */
  function Effect(r: ClientResponse): int {
    match r.kind
    case ACCEPTED => r.leftQty
    case FILLED => 0 - r.execQty
    case CANCELED => 0 - r.leftQty
    case CANCEL_REJECTED => 0
  }

  lemma OpenSnoc(rs: seq<ClientResponse>, r: ClientResponse, id: OrderId)
    ensures Open(rs + [r], id)
         == Open(rs, id) + if r.marketOrderId == id then Effect(r) else 0
  {
    TotalSnoc(rs, r, ACCEPTED, id);
    TotalSnoc(rs, r, FILLED, id);
    TotalSnoc(rs, r, CANCELED, id);
  }

  lemma LeftsSnoc(rs: seq<ClientResponse>, r: ClientResponse)
    requires LeftsTrue(rs) && LeftTrue(rs, r)
    ensures LeftsTrue(rs + [r])
  {
    var q := rs + [r];
    forall k | 0 <= k < |q| ensures LeftTrue(q[..k], q[k]) {
      if k < |rs| { assert q[..k] == rs[..k]; } else { assert q[..k] == rs; }
    }
  }

  // ----- resting quantity under the updates of a side -----

  lemma {:induction false} RestingConcat(s: seq<Order>, t: seq<Order>, id: OrderId)
    ensures Resting(s + t, id) == Resting(s, id) + Resting(t, id)
  {
    if s == [] {
      assert s + t == t;
    } else {
      assert (s + t)[1..] == s[1..] + t;
      RestingConcat(s[1..], t, id);
    }
  }

  lemma RestingOne(o: Order, id: OrderId)
    ensures Resting([o], id) == if o.moid == id then o.qty else 0
  {
  }

  lemma RestingRemove(s: seq<Order>, k: nat, id: OrderId)
    requires k < |s|
    ensures Resting(RemoveAt(s, k), id) == Resting(s, id) - if s[k].moid == id then s[k].qty else 0
  {
    assert s == s[..k] + [s[k]] + s[k + 1..];
    RestingConcat(s[..k] + [s[k]], s[k + 1..], id);
    RestingConcat(s[..k], [s[k]], id);
    RestingConcat(s[..k], s[k + 1..], id);
    RestingOne(s[k], id);
  }

  lemma RestingInsert(s: seq<Order>, k: nat, o: Order, id: OrderId)
    requires k <= |s|
    ensures Resting(s[..k] + [o] + s[k..], id) == Resting(s, id) + if o.moid == id then o.qty else 0
  {
    assert s == s[..k] + s[k..];
    RestingConcat(s[..k], s[k..], id);
    RestingConcat(s[..k] + [o], s[k..], id);
    RestingConcat(s[..k], [o], id);
    RestingOne(o, id);
  }

  lemma RestingAfterFill(opp: seq<Order>, fill: Quantity, id: OrderId)
    requires opp != [] && fill <= opp[0].qty
    ensures Resting(AfterFill(opp, fill), id) == Resting(opp, id) - if opp[0].moid == id then fill else 0
  {
    var t := AfterFill(opp, fill);
    if opp[0].qty != fill { assert t[1..] == opp[1..]; }
  }

  /** An order with this id rests on the side at most once. */
  lemma {:induction false} RestingUnique(s: seq<Order>, k: nat)
    requires k < |s| && Distinct(s)
    ensures Resting(s, s[k].moid) == s[k].qty
  {
    if k == 0 {
      assert forall i :: 0 <= i < |s[1..]| ==> Apart(s[0], s[1..][i]);
      RestingNone(s[1..], s[0].moid);
    } else {
      assert Apart(s[0], s[k]);
      assert forall i, j :: 0 <= i < j < |s[1..]| ==> s[1..][i] == s[i + 1] && s[1..][j] == s[j + 1];
      RestingUnique(s[1..], k - 1);
    }
  }

  lemma {:induction false} RestingNone(s: seq<Order>, id: OrderId)
    requires forall i :: 0 <= i < |s| ==> s[i].moid != id
    ensures Resting(s, id) == 0
  {
    if s != [] {
      RestingNone(s[1..], id);
    }
  }

  lemma HeldUnique(m: Market, side: Side, k: nat)
    requires Good(m) && side != INVALID && k < |m.On(side)|
    ensures Held(m, m.On(side)[k].moid) == m.On(side)[k].qty
  {
    var s, t, id := m.On(side), m.On(Opposite(side)), m.On(side)[k].moid;
    RestingUnique(s, k);
    forall j | 0 <= j < |t| ensures t[j].moid != id {
      if side == BUY { assert Apart(m.bids[k], m.asks[j]); } else { assert Apart(m.bids[j], m.asks[k]); }
    }
    RestingNone(t, id);
  }

  lemma HeldNone(m: Market, id: OrderId)
    requires IdsBelow(m, id)
    ensures Held(m, id) == 0
  {
    RestingNone(m.bids, id);
    RestingNone(m.asks, id);
  }

  // ----- one match call -----

  ghost predicate Accounted(m: Market, taker: OrderId, leaves: nat) {
    Balanced(m, taker, leaves) && LeftsTrue(m.responses)
  }

  lemma FillBalanced(m: Market, t: Taker, leaves: Quantity)
    requires t.side != INVALID && CanFill(m, t, leaves) && Balanced(m, t.moid, leaves)
    ensures var r := FillStep(m, t, leaves); Balanced(r.market, t.moid, r.leaves)
  {
    var r := FillStep(m, t, leaves);
    var opp := m.On(Opposite(t.side));
    var fill := Min(leaves, opp[0].qty);
    var rs := FillResponses(t, opp[0], fill, leaves - fill);
    assert r.market.responses == (m.responses + [rs[0]]) + [rs[1]];
    forall id ensures Open(r.market.responses, id)
                   == Held(r.market, id) + if id == t.moid then r.leaves else 0
    {
      OpenSnoc(m.responses + [rs[0]], rs[1], id);
      OpenSnoc(m.responses, rs[0], id);
      RestingAfterFill(opp, fill, id);
      assert Open(m.responses, id) == Held(m, id) + if id == t.moid then leaves else 0;
    }
  }

  lemma FillLeftsTrue(m: Market, t: Taker, leaves: Quantity)
    requires Good(m) && t.side != INVALID && CanFill(m, t, leaves) && IdsBelow(m, t.moid)
    requires Accounted(m, t.moid, leaves)
    ensures LeftsTrue(FillStep(m, t, leaves).market.responses)
  {
    var r := FillStep(m, t, leaves);
    var side := Opposite(t.side);
    var o := m.On(side)[0];
    var fill := Min(leaves, o.qty);
    var rs := FillResponses(t, o, fill, leaves - fill);
    assert r.market.responses == (m.responses + [rs[0]]) + [rs[1]];
    HeldNone(m, t.moid);
    HeldUnique(m, side, 0);
    assert Open(m.responses, t.moid) == leaves;
    assert Open(m.responses, o.moid) == o.qty;
    LeftsSnoc(m.responses, rs[0]);
    OpenSnoc(m.responses, rs[0], o.moid);
    LeftsSnoc(m.responses + [rs[0]], rs[1]);
  }

  lemma {:induction false} MatchAccounted(m: Market, t: Taker, leaves: Quantity)
    requires Good(m) && t.side != INVALID && IdsBelow(m, t.moid) && Accounted(m, t.moid, leaves)
    ensures var r := MatchLoop(m, t, leaves); Accounted(r.market, t.moid, r.leaves)
    decreases |m.On(Opposite(t.side))|, leaves
  {
    if CanFill(m, t, leaves) {
      var r := FillStep(m, t, leaves);
      FillBalanced(m, t, leaves);
      FillLeftsTrue(m, t, leaves);
      FillKeepsGood(m, t, leaves);
      MatchAccounted(r.market, t, r.leaves);
    }
  }

  // ----- steps and runs -----

  lemma AcceptAccounted(m: Market, r: Request)
    requires Good(m) && r.New? && Accounted(m, 0, 0)
    ensures Accounted(Accept(m, r), m.nextId, r.qty)
  {
    var a := Accept(m, r);
    var c := a.responses[|m.responses|];
    assert a.responses == m.responses + [c];
    GoodIdsBelow(m);
    HeldNone(m, m.nextId);
    assert Open(m.responses, m.nextId) == 0;
    LeftsSnoc(m.responses, c);
    forall id ensures Open(a.responses, id) == Held(a, id) + if id == m.nextId then r.qty else 0 {
      OpenSnoc(m.responses, c, id);
      assert Open(m.responses, id) == Held(m, id) + if id == 0 then 0 else 0;
    }
  }

  lemma RestAccounted(m: Market, t: Taker, leaves: Quantity)
    requires Good(m) && t.side != INVALID && Accounted(m, t.moid, leaves)
    ensures Accounted(Rest(m, t, leaves), 0, 0)
  {
    var m' := Rest(m, t, leaves);
    var o := OrderOf(m, t, leaves);
    var s := m.On(t.side);
    var k := InsertSplits(t.side, s, o);
    assert m'.responses == m.responses;
    forall id ensures Open(m'.responses, id) == Held(m', id) + if id == 0 then 0 else 0 {
      RestingInsert(s, k, o, id);
      assert Open(m.responses, id) == Held(m, id) + if id == t.moid then leaves else 0;
    }
  }

  lemma CancelAccounted(m: Market, r: Request, side: Side, i: nat)
    requires Good(m) && r.Cancel? && side != INVALID && i < |m.On(side)| && Accounted(m, 0, 0)
    ensures Accounted(CancelAt(m, r, side, i), 0, 0)
  {
    hide Good, Total, Resting, LeftsTrue;
    var m' := CancelAt(m, r, side, i);
    var o := m.On(side)[i];
    HeldUnique(m, side, i);
    assert Open(m.responses, o.moid) == o.qty + if o.moid == 0 then 0 else 0;
    LeftsSnoc(m.responses, Canceled(r, o));
    forall id ensures Open(m'.responses, id) == Held(m', id) + if id == 0 then 0 else 0 {
      OpenSnoc(m.responses, Canceled(r, o), id);
      RestingRemove(m.On(side), i, id);
      assert Open(m.responses, id) == Held(m, id) + if id == 0 then 0 else 0;
    }
  }

  lemma RejectAccounted(m: Market, r: Request)
    requires r.Cancel? && Accounted(m, 0, 0)
    ensures Accounted(m.Send([Rejected(r)], []), 0, 0)
  {
    var m' := m.Send([Rejected(r)], []);
    LeftsSnoc(m.responses, Rejected(r));
    forall id ensures Open(m'.responses, id) == Held(m', id) + if id == 0 then 0 else 0 {
      OpenSnoc(m.responses, Rejected(r), id);
      assert Open(m.responses, id) == Held(m, id) + if id == 0 then 0 else 0;
    }
  }

  lemma AddAccounted(m: Market, r: Request)
    requires Good(m) && r.New? && r.side != INVALID && Accounted(m, 0, 0)
    ensures Accounted(AddStep(m, r), 0, 0)
  {
    hide Accounted, Good, MatchLoop, IdsBelow, Rest;
    AcceptAccounted(m, r);
    AcceptKeepsGood(m, r);
    GoodIdsBelow(m);
    AcceptIdsBelow(m, r);
    MatchAccounted(Accept(m, r), TakerOf(m, r), r.qty);
    MatchPhaseGood(m, r);
    var p := MatchPhase(m, r);
    if p.leaves > 0 {
      RestAccounted(p.market, TakerOf(m, r), p.leaves);
    } else {
      NothingLeft(p.market, m.nextId);
    }
  }

  lemma AcceptIdsBelow(m: Market, r: Request)
    requires r.New? && IdsBelow(m, m.nextId)
    ensures IdsBelow(Accept(m, r), m.nextId)
  {
  }

  lemma StepAccounted(m: Market, r: Request)
    requires Good(m) && Admissible(m, r) && Accounted(m, 0, 0)
    ensures Accounted(Step(m, r), 0, 0)
  {
    hide Accounted, Good, CancelAt, AddStep, MatchPhase;
    if r.New? {
      AddAccounted(m, r);
    } else {
      var i := Search(m.bids, r.client, r.oid);
      var j := Search(m.asks, r.client, r.oid);
      if i < |m.bids| {
        CancelAccounted(m, r, BUY, i);
      } else if j < |m.asks| {
        CancelAccounted(m, r, SELL, j);
      } else {
        RejectAccounted(m, r);
      }
    }
  }

  lemma NothingLeft(m: Market, id: OrderId)
    requires Accounted(m, id, 0)
    ensures Accounted(m, 0, 0)
  {
    forall k ensures Open(m.responses, k) == Held(m, k) + if k == 0 then 0 else 0 {
      assert Open(m.responses, k) == Held(m, k) + if k == id then 0 else 0;
    }
  }

  lemma {:induction false} RunAccounted(m: Market, rs: seq<Request>)
    requires Good(m) && AdmissibleRun(m, rs) && Accounted(m, 0, 0)
    ensures Accounted(Run(m, rs), 0, 0)
    decreases |rs|
  {
    if rs != [] {
      StepAccounted(m, rs[0]);
      StepKeepsGood(m, rs[0]);
      RunAccounted(Step(m, rs[0]), rs[1..]);
    }
  }

  // ----- one acknowledgement per id -----

  function Accepts(rs: seq<ClientResponse>): seq<OrderId> {
    if rs == [] then []
    else
      var r := rs[|rs| - 1];
      Accepts(rs[..|rs| - 1]) + if r.kind == ACCEPTED then [r.marketOrderId] else []
  }

  /** The acknowledgements carry the ids 1, 2, 3, ... in the order they were given out. */
  ghost predicate AcceptsInOrder(m: Market) {
    && |Accepts(m.responses)| + 1 == m.nextId
    && forall k :: 0 <= k < |Accepts(m.responses)| ==> Accepts(m.responses)[k] == k + 1
  }

  lemma AcceptsSnoc(rs: seq<ClientResponse>, r: ClientResponse)
    ensures Accepts(rs + [r]) == Accepts(rs) + if r.kind == ACCEPTED then [r.marketOrderId] else []
  {
    assert (rs + [r])[..|rs|] == rs;
  }

  lemma {:induction false} MatchAccepts(m: Market, t: Taker, leaves: Quantity)
    requires t.side != INVALID
    ensures Accepts(MatchLoop(m, t, leaves).market.responses) == Accepts(m.responses)
    ensures MatchLoop(m, t, leaves).market.nextId == m.nextId
    decreases |m.On(Opposite(t.side))|, leaves
  {
    if CanFill(m, t, leaves) {
      var r := FillStep(m, t, leaves);
      var o := m.On(Opposite(t.side))[0];
      var rs := FillResponses(t, o, Min(leaves, o.qty), r.leaves);
      assert r.market.responses == (m.responses + [rs[0]]) + [rs[1]];
      AcceptsSnoc(m.responses + [rs[0]], rs[1]);
      AcceptsSnoc(m.responses, rs[0]);
      MatchAccepts(r.market, t, r.leaves);
    }
  }

  lemma AcceptAccepts(m: Market, r: Request)
    requires AcceptsInOrder(m) && r.New?
    ensures AcceptsInOrder(Accept(m, r))
  {
    var a := Accept(m, r);
    AcceptsSnoc(m.responses, a.responses[|m.responses|]);
  }

  lemma CancelAccepts(m: Market, r: Request)
    requires r.Cancel?
    ensures Accepts(CancelStep(m, r).responses) == Accepts(m.responses)
    ensures CancelStep(m, r).nextId == m.nextId
  {
    var m' := CancelStep(m, r);
    var c := m'.responses[|m.responses|];
    assert m'.responses == m.responses + [c];
    AcceptsSnoc(m.responses, c);
  }

  lemma StepAccepts(m: Market, r: Request)
    requires AcceptsInOrder(m) && Admissible(m, r)
    ensures AcceptsInOrder(Step(m, r))
  {
    if r.New? {
      AcceptAccepts(m, r);
      MatchAccepts(Accept(m, r), TakerOf(m, r), r.qty);
      var p := MatchPhase(m, r).market;
      assert p.responses + [] == p.responses;
    } else {
      CancelAccepts(m, r);
    }
  }

  lemma {:induction false} RunAccepts(m: Market, rs: seq<Request>)
    requires AcceptsInOrder(m) && AdmissibleRun(m, rs)
    ensures AcceptsInOrder(Run(m, rs))
    decreases |rs|
  {
    if rs != [] {
      StepAccepts(m, rs[0]);
      RunAccepts(Step(m, rs[0]), rs[1..]);
    }
  }

  lemma EmptyAccounted()
    ensures Good(EMPTY) && Accounted(EMPTY, 0, 0) && AcceptsInOrder(EMPTY)
  {
    forall id ensures Open(EMPTY.responses, id) == Held(EMPTY, id) + if id == 0 then 0 else 0 {
    }
  }

  /** After any admissible run, for every market order id: accepted equals filled plus canceled
      plus resting. */
  lemma OrderLedger(rs: seq<Request>, id: OrderId)
    requires AdmissibleRun(EMPTY, rs)
    ensures var m := Run(EMPTY, rs);
            Total(m.responses, ACCEPTED, id)
            == Total(m.responses, FILLED, id) + Total(m.responses, CANCELED, id) + Held(m, id)
  {
    EmptyAccounted();
    RunAccounted(EMPTY, rs);
    LedgerOf(Run(EMPTY, rs), id);
  }

  /** After any admissible run every response reported the true quantity left: a FILLED the
      previous one minus what it executed, a CANCELED all of it. */
  lemma ReportedLeftsTrue(rs: seq<Request>)
    requires AdmissibleRun(EMPTY, rs)
    ensures LeftsTrue(Run(EMPTY, rs).responses)
  {
    EmptyAccounted();
    RunAccounted(EMPTY, rs);
  }

  /** After any admissible run every market order id given out was accepted once, in order. */
  lemma AcceptedOnce(rs: seq<Request>)
    requires AdmissibleRun(EMPTY, rs)
    ensures AcceptsInOrder(Run(EMPTY, rs))
  {
    EmptyAccounted();
    RunAccepts(EMPTY, rs);
  }

  lemma LedgerOf(m: Market, id: OrderId)
    requires Balanced(m, 0, 0)
    ensures Total(m.responses, ACCEPTED, id)
            == Total(m.responses, FILLED, id) + Total(m.responses, CANCELED, id) + Held(m, id)
  {
    assert Open(m.responses, id) == Held(m, id) + if id == 0 then 0 else 0;
  }

  // ----- buyers and sellers -----

  /** Quantity executed for one side of the market. */
  function Executed(rs: seq<ClientResponse>, side: Side): nat {
    if rs == [] then 0
    else
      var r := rs[|rs| - 1];
      Executed(rs[..|rs| - 1], side) + if r.kind == FILLED && r.side == side then r.execQty else 0
  }

  function Traded(us: seq<MarketUpdate>): nat {
    if us == [] then 0
    else Traded(us[..|us| - 1]) + if us[|us| - 1].kind == TRADE then us[|us| - 1].qty else 0
  }

  function Value(price: Price, qty: Quantity): int {
    price * qty
  }

  /** Money that one side of the market was told of. */
  function Paid(rs: seq<ClientResponse>, side: Side): int {
    if rs == [] then 0
    else
      var r := rs[|rs| - 1];
      Paid(rs[..|rs| - 1], side) + if r.kind == FILLED && r.side == side then Value(r.price, r.execQty) else 0
  }

  function Turnover(us: seq<MarketUpdate>): int {
    if us == [] then 0
    else
      var u := us[|us| - 1];
      Turnover(us[..|us| - 1]) + if u.kind == TRADE then Value(u.price, u.qty) else 0
  }

  /** Buyers and sellers and the market data agree on quantities and on money. */
  ghost predicate Even(m: Market) {
    && Executed(m.responses, BUY) == Executed(m.responses, SELL) == Traded(m.updates)
    && Paid(m.responses, BUY) == Paid(m.responses, SELL) == Turnover(m.updates)
  }

  lemma ExecutedSnoc(rs: seq<ClientResponse>, r: ClientResponse, side: Side)
    ensures Executed(rs + [r], side)
         == Executed(rs, side) + if r.kind == FILLED && r.side == side then r.execQty else 0
    ensures Paid(rs + [r], side)
         == Paid(rs, side) + if r.kind == FILLED && r.side == side then Value(r.price, r.execQty) else 0
  {
    assert (rs + [r])[..|rs|] == rs;
  }

  lemma TradedSnoc(us: seq<MarketUpdate>, u: MarketUpdate)
    ensures Traded(us + [u]) == Traded(us) + if u.kind == TRADE then u.qty else 0
    ensures Turnover(us + [u]) == Turnover(us) + if u.kind == TRADE then Value(u.price, u.qty) else 0
  {
    assert (us + [u])[..|us|] == us;
  }

  lemma HeadSide(m: Market, side: Side)
    requires Good(m) && side != INVALID && m.On(side) != []
    ensures m.On(side)[0].side == side
  {
    assert OrderGood(side, m.On(side)[0], m.nextId);
  }

  lemma ExecutedTwo(rs: seq<ClientResponse>, r: ClientResponse, q: ClientResponse, side: Side)
    requires r.kind == q.kind == FILLED && r.execQty == q.execQty && r.price == q.price
    requires r.side != INVALID && q.side == Opposite(r.side) && side != INVALID
    ensures Executed(rs + [r, q], side) == Executed(rs, side) + r.execQty
    ensures Paid(rs + [r, q], side) == Paid(rs, side) + Value(r.price, r.execQty)
  {
    assert rs + [r, q] == (rs + [r]) + [q];
    ExecutedSnoc(rs + [r], q, side);
    ExecutedSnoc(rs, r, side);
  }

  lemma TradedTwo(us: seq<MarketUpdate>, u: MarketUpdate, v: MarketUpdate)
    requires u.kind == TRADE && v.kind != TRADE
    ensures Traded(us + [u, v]) == Traded(us) + u.qty
    ensures Turnover(us + [u, v]) == Turnover(us) + Value(u.price, u.qty)
  {
    assert us + [u, v] == (us + [u]) + [v];
    TradedSnoc(us + [u], v);
    TradedSnoc(us, u);
  }

  lemma FillEven(m: Market, t: Taker, leaves: Quantity)
    requires Even(m) && t.side != INVALID && CanFill(m, t, leaves)
    requires m.On(Opposite(t.side))[0].side == Opposite(t.side)
    ensures Even(FillStep(m, t, leaves).market)
  {
    hide Executed, Traded, Paid, Turnover, Value, AfterFill;
    var o := m.On(Opposite(t.side))[0];
    var fill := Min(leaves, o.qty);
    var rs, us := FillResponses(t, o, fill, leaves - fill), FillUpdates(t, o, fill);
    ExecutedTwo(m.responses, rs[0], rs[1], BUY);
    ExecutedTwo(m.responses, rs[0], rs[1], SELL);
    TradedTwo(m.updates, us[0], us[1]);
  }

  lemma {:induction false} MatchEven(m: Market, t: Taker, leaves: Quantity)
    requires Good(m) && Even(m) && t.side != INVALID
    ensures Even(MatchLoop(m, t, leaves).market)
    decreases |m.On(Opposite(t.side))|, leaves
  {
    if CanFill(m, t, leaves) {
      HeadSide(m, Opposite(t.side));
      FillEven(m, t, leaves);
      FillKeepsGood(m, t, leaves);
      MatchEven(FillStep(m, t, leaves).market, t, FillStep(m, t, leaves).leaves);
    }
  }

  /** A message that is neither a fill nor a trade changes no total. */
  lemma SendEven(m: Market, rs: seq<ClientResponse>, us: seq<MarketUpdate>)
    requires |rs| <= 1 && |us| <= 1
    requires rs != [] ==> rs[0].kind != FILLED
    requires us != [] ==> us[0].kind != TRADE
    ensures Even(m.Send(rs, us)) == Even(m)
  {
    if rs != [] {
      assert rs == [rs[0]];
      ExecutedSnoc(m.responses, rs[0], BUY);
      ExecutedSnoc(m.responses, rs[0], SELL);
    } else {
      assert m.responses + rs == m.responses;
    }
    if us != [] {
      assert us == [us[0]];
      TradedSnoc(m.updates, us[0]);
    } else {
      assert m.updates + us == m.updates;
    }
  }

  lemma AcceptEven(m: Market, r: Request)
    requires Even(m) && r.New?
    ensures Even(Accept(m, r))
  {
    SendEven(m.(nextId := m.nextId + 1), [Accept(m, r).responses[|m.responses|]], []);
  }

  lemma StepEven(m: Market, r: Request)
    requires Good(m) && Even(m) && Admissible(m, r)
    ensures Even(Step(m, r))
  {
    if r.New? {
      AcceptKeepsGood(m, r);
      AcceptEven(m, r);
      MatchEven(Accept(m, r), TakerOf(m, r), r.qty);
      var p := MatchPhase(m, r);
      var o := OrderOf(p.market, TakerOf(m, r), p.leaves);
      SendEven(p.market.With(r.side, Insert(r.side, p.market.On(r.side), o)), [], [AddUpdate(o)]);
    } else {
      var i := Search(m.bids, r.client, r.oid);
      var j := Search(m.asks, r.client, r.oid);
      if i < |m.bids| {
        SendEven(m.With(BUY, RemoveAt(m.bids, i)), [Canceled(r, m.bids[i])], [CancelUpdate(r, m.bids[i])]);
      } else if j < |m.asks| {
        SendEven(m.With(SELL, RemoveAt(m.asks, j)), [Canceled(r, m.asks[j])], [CancelUpdate(r, m.asks[j])]);
      } else {
        SendEven(m, [Rejected(r)], []);
      }
    }
  }

  lemma {:induction false} RunEven(m: Market, rs: seq<Request>)
    requires Good(m) && Even(m) && AdmissibleRun(m, rs)
    ensures Even(Run(m, rs))
    decreases |rs|
  {
    if rs != [] {
      StepEven(m, rs[0]);
      StepKeepsGood(m, rs[0]);
      RunEven(Step(m, rs[0]), rs[1..]);
    }
  }

  /** After any admissible run buyers were reported exactly the quantity and the money that sellers
      were, and both what the market data reported as traded. */
  lemma TradeBalance(rs: seq<Request>)
    requires AdmissibleRun(EMPTY, rs)
    ensures var m := Run(EMPTY, rs);
            && Executed(m.responses, BUY) == Executed(m.responses, SELL) == Traded(m.updates)
            && Paid(m.responses, BUY) == Paid(m.responses, SELL) == Turnover(m.updates)
  {
    RunEven(EMPTY, rs);
  }
}
