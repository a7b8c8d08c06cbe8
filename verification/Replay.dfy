/** The market data stream carries the book: a subscriber that applies ADD, MODIFY and CANCEL
    and ignores TRADE holds exactly the resting orders. */
module Replay {
  import opened ExchangeTypes
  import opened BookSpec
  import opened Sequences
  import opened BookInvariants

  /** What a subscriber knows about one order. */
  datatype Quote = Quote(side: Side, price: Price, qty: Quantity, priority: Priority)

  function Apply(b: map<OrderId, Quote>, u: MarketUpdate): map<OrderId, Quote> {
    match u.kind
    case ADD => b[u.orderId := Quote(u.side, u.price, u.qty, u.priority)]
    case MODIFY => b[u.orderId := Quote(u.side, u.price, u.qty, u.priority)]
    case CANCEL => b - {u.orderId}
    case TRADE => b
  }

  function Replayed(us: seq<MarketUpdate>): map<OrderId, Quote> {
    if us == [] then map[] else Apply(Replayed(us[..|us| - 1]), us[|us| - 1])
  }

  function QuoteOf(o: Order): Quote {
    Quote(o.side, o.price, o.qty, o.priority)
  }

  /** b holds the quotes of the orders of s and t and nothing else. */
  ghost predicate Shows(b: map<OrderId, Quote>, s: seq<Order>, t: seq<Order>) {
    && (forall i :: 0 <= i < |s| ==> s[i].moid in b && b[s[i].moid] == QuoteOf(s[i]))
    && (forall i :: 0 <= i < |t| ==> t[i].moid in b && b[t[i].moid] == QuoteOf(t[i]))
    && (forall id :: id in b ==> HasId(s, id) || HasId(t, id))
  }

  ghost predicate HasId(s: seq<Order>, id: OrderId) {
    exists i :: 0 <= i < |s| && s[i].moid == id
  }

  ghost predicate Faithful(m: Market) {
    Shows(Replayed(m.updates), m.bids, m.asks)
  }

  lemma ReplayedSnoc(us: seq<MarketUpdate>, u: MarketUpdate)
    ensures Replayed(us + [u]) == Apply(Replayed(us), u)
  {
    assert (us + [u])[..|us|] == us;
  }

  lemma ReplayedTwo(us: seq<MarketUpdate>, u: MarketUpdate, v: MarketUpdate)
    ensures Replayed(us + [u, v]) == Apply(Apply(Replayed(us), u), v)
  {
    assert us + [u, v] == (us + [u]) + [v];
    ReplayedSnoc(us + [u], v);
    ReplayedSnoc(us, u);
  }

  lemma ShowsSwap(b: map<OrderId, Quote>, s: seq<Order>, t: seq<Order>)
    requires Shows(b, s, t)
    ensures Shows(b, t, s)
  {
  }

  lemma HasIdRemoved(s: seq<Order>, k: nat, id: OrderId)
    requires k < |s| && HasId(s, id) && id != s[k].moid
    ensures HasId(RemoveAt(s, k), id)
  {
    var i :| 0 <= i < |s| && s[i].moid == id;
    assert RemoveAt(s, k)[if i < k then i else i - 1] == s[i];
  }

  /** Taking out one order and its id. */
  lemma ShowsRemove(b: map<OrderId, Quote>, s: seq<Order>, t: seq<Order>, k: nat)
    requires Shows(b, s, t) && k < |s| && Distinct(s)
    requires forall j :: 0 <= j < |t| ==> t[j].moid != s[k].moid
    ensures Shows(b - {s[k].moid}, RemoveAt(s, k), t)
  {
    var r := RemoveAt(s, k);
    var b' := b - {s[k].moid};
    forall i | 0 <= i < |r| ensures r[i].moid in b' && b'[r[i].moid] == QuoteOf(r[i]) {
      if i < k { assert Apart(s[i], s[k]); } else { assert Apart(s[k], s[i + 1]); }
    }
    forall id | id in b' ensures HasId(r, id) || HasId(t, id) {
      if HasId(s, id) { HasIdRemoved(s, k, id); }
    }
  }

  /** Replacing the first order by one with the same id. */
  lemma ShowsModify(b: map<OrderId, Quote>, s: seq<Order>, t: seq<Order>, o: Order)
    requires s != [] && Shows(b, s, t) && Distinct(s) && o.moid == s[0].moid
    requires forall j :: 0 <= j < |t| ==> t[j].moid != o.moid
    ensures Shows(b[o.moid := QuoteOf(o)], [o] + s[1..], t)
  {
    var r := [o] + s[1..];
    var b' := b[o.moid := QuoteOf(o)];
    forall i | 0 <= i < |r| ensures r[i].moid in b' && b'[r[i].moid] == QuoteOf(r[i]) {
      if i > 0 { assert Apart(s[0], s[i]); }
    }
    forall id | id in b' ensures HasId(r, id) || HasId(t, id) {
      if id == o.moid {
        assert r[0].moid == id;
      } else if !HasId(t, id) {
        assert HasId(s, id);
        var i :| 0 <= i < |s| && s[i].moid == id;
        assert r[i].moid == id;
      }
    }
  }

  /** Putting in an order whose id is new. */
  lemma ShowsInsert(b: map<OrderId, Quote>, s: seq<Order>, t: seq<Order>, o: Order, k: nat)
    requires Shows(b, s, t) && k <= |s|
    requires forall i :: 0 <= i < |s| ==> s[i].moid != o.moid
    requires forall j :: 0 <= j < |t| ==> t[j].moid != o.moid
    ensures Shows(b[o.moid := QuoteOf(o)], s[..k] + [o] + s[k..], t)
  {
    var r := s[..k] + [o] + s[k..];
    var b' := b[o.moid := QuoteOf(o)];
    assert r[k] == o;
    forall i | 0 <= i < |r| ensures r[i].moid in b' && b'[r[i].moid] == QuoteOf(r[i]) {
      if i < k { assert r[i] == s[i]; } else if i > k { assert r[i] == s[i - 1]; }
    }
    forall id | id in b' ensures HasId(r, id) || HasId(t, id) {
      if id != o.moid && !HasId(t, id) {
        assert HasId(s, id);
        var i :| 0 <= i < |s| && s[i].moid == id;
        assert r[if i < k then i else i + 1].moid == id;
      }
    }
  }

  /** The ids on the other side differ from every id on this one. */
  lemma IdsApart(m: Market, side: Side, k: nat)
    requires Good(m) && side != INVALID && k < |m.On(side)|
    ensures forall j :: 0 <= j < |m.On(Opposite(side))| ==> m.On(Opposite(side))[j].moid != m.On(side)[k].moid
  {
    forall j | 0 <= j < |m.On(Opposite(side))| ensures m.On(Opposite(side))[j].moid != m.On(side)[k].moid {
      if side == BUY { assert Apart(m.bids[k], m.asks[j]); } else { assert Apart(m.bids[j], m.asks[k]); }
    }
  }

  /** The two updates of a match call do to the replayed book what the call does to the side. */
  lemma FillShows(b: map<OrderId, Quote>, s: seq<Order>, other: seq<Order>, t: Taker, fill: Quantity)
    requires s != [] && fill <= s[0].qty && Shows(b, s, other) && Distinct(s)
    requires forall j :: 0 <= j < |other| ==> other[j].moid != s[0].moid
    ensures var us := FillUpdates(t, s[0], fill);
            Shows(Apply(Apply(b, us[0]), us[1]), AfterFill(s, fill), other)
  {
    if s[0].qty == fill {
      ShowsRemove(b, s, other, 0);
      assert RemoveAt(s, 0) == s[1..];
    } else {
      ShowsModify(b, s, other, s[0].(qty := s[0].qty - fill));
    }
  }

  lemma FillFaithful(m: Market, t: Taker, leaves: Quantity)
    requires Good(m) && Faithful(m) && t.side != INVALID && CanFill(m, t, leaves)
    ensures Faithful(FillStep(m, t, leaves).market)
  {
    var side := Opposite(t.side);
    var s := m.On(side);
    var fill := Min(leaves, s[0].qty);
    var us := FillUpdates(t, s[0], fill);
    var b := Replayed(m.updates);
    IdsApart(m, side, 0);
    ReplayedTwo(m.updates, us[0], us[1]);
    if side == BUY {
      FillShows(b, m.bids, m.asks, t, fill);
    } else {
      ShowsSwap(b, m.bids, m.asks);
      FillShows(b, m.asks, m.bids, t, fill);
      ShowsSwap(Apply(Apply(b, us[0]), us[1]), AfterFill(m.asks, fill), m.bids);
    }
  }

  lemma {:induction false} MatchFaithful(m: Market, t: Taker, leaves: Quantity)
    requires Good(m) && Faithful(m) && t.side != INVALID
    ensures Faithful(MatchLoop(m, t, leaves).market)
    decreases |m.On(Opposite(t.side))|, leaves
  {
    if CanFill(m, t, leaves) {
      var r := FillStep(m, t, leaves);
      FillFaithful(m, t, leaves);
      FillKeepsGood(m, t, leaves);
      MatchFaithful(r.market, t, r.leaves);
    }
  }

  lemma InsertShows(b: map<OrderId, Quote>, side: Side, s: seq<Order>, other: seq<Order>, o: Order)
    requires Shows(b, s, other) && Sorted(side, s)
    requires forall i :: 0 <= i < |s| ==> s[i].moid < o.moid
    requires forall j :: 0 <= j < |other| ==> other[j].moid < o.moid
    ensures Shows(Apply(b, AddUpdate(o)), Insert(side, s, o), other)
  {
    var k := InsertSplits(side, s, o);
    ShowsInsert(b, s, other, o, k);
  }

  lemma RestFaithful(m: Market, t: Taker, leaves: Quantity)
    requires Good(m) && Faithful(m) && t.side != INVALID && IdsBelow(m, t.moid)
    ensures Faithful(Rest(m, t, leaves))
  {
    var o := OrderOf(m, t, leaves);
    var b := Replayed(m.updates);
    ReplayedSnoc(m.updates, AddUpdate(o));
    if t.side == BUY {
      InsertShows(b, BUY, m.bids, m.asks, o);
    } else {
      ShowsSwap(b, m.bids, m.asks);
      InsertShows(b, SELL, m.asks, m.bids, o);
      ShowsSwap(Apply(b, AddUpdate(o)), Insert(SELL, m.asks, o), m.bids);
    }
  }

  lemma CancelFaithful(m: Market, r: Request, side: Side, i: nat)
    requires Good(m) && Faithful(m) && r.Cancel? && side != INVALID && i < |m.On(side)|
    ensures Faithful(CancelAt(m, r, side, i))
  {
    var s := m.On(side);
    IdsApart(m, side, i);
    ReplayedSnoc(m.updates, CancelUpdate(r, s[i]));
    assert Shows(Replayed(m.updates), s, m.On(Opposite(side)));
    ShowsRemove(Replayed(m.updates), s, m.On(Opposite(side)), i);
  }

  lemma StepFaithful(m: Market, r: Request)
    requires Good(m) && Faithful(m) && Admissible(m, r)
    ensures Faithful(Step(m, r))
  {
    hide Good, Shows, Replayed, MatchLoop, CancelAt, Rest, IdsBelow, KeyFree;
    if r.New? {
      AcceptKeepsGood(m, r);
      var a := Accept(m, r);
      assert a.updates == m.updates;
      MatchFaithful(a, TakerOf(m, r), r.qty);
      MatchPhaseGood(m, r);
      var p := MatchPhase(m, r);
      if p.leaves > 0 {
        RestFaithful(p.market, TakerOf(m, r), p.leaves);
      }
    } else {
      var i := Search(m.bids, r.client, r.oid);
      var j := Search(m.asks, r.client, r.oid);
      if i < |m.bids| {
        CancelFaithful(m, r, BUY, i);
      } else if j < |m.asks| {
        CancelFaithful(m, r, SELL, j);
      } else {
        assert m.updates + [] == m.updates;
      }
    }
  }

  lemma {:induction false} RunFaithful(m: Market, rs: seq<Request>)
    requires Good(m) && Faithful(m) && AdmissibleRun(m, rs)
    ensures Faithful(Run(m, rs))
    decreases |rs|
  {
    if rs != [] {
      StepFaithful(m, rs[0]);
      StepKeepsGood(m, rs[0]);
      RunFaithful(Step(m, rs[0]), rs[1..]);
    }
  }

  /** From the empty book, after any admissible run, replaying the updates gives the book. */
  lemma MarketDataReplay(rs: seq<Request>)
    requires AdmissibleRun(EMPTY, rs)
    ensures var m := Run(EMPTY, rs); Shows(Replayed(m.updates), m.bids, m.asks)
  {
    RunFaithful(EMPTY, rs);
  }
}
