/** Which runs of requests the pools and tables of a book can serve, and where the others end. */
module Capacity {
  import opened ExchangeTypes
  import opened BookSpec
  import opened Sequences
  import opened BookInvariants
  import opened BookAbstraction

  /** The capacities a book is built with. */
  datatype Sizes = Sizes(orderSlots: nat, levelSlots: nat, tableSize: nat, clients: nat, orderIds: nat)

  /** The process does not survive the request: a pool runs out, or cancel throws. */
  ghost predicate Stops(m: Market, r: Request, z: Sizes)
    requires r.New? ==> r.side != INVALID
  {
    if r.New? then RunsOut(MatchPhase(m, r), r, z.orderSlots, z.levelSlots)
    else r.client < z.clients && r.oid >= z.orderIds
  }

  /** What the book relies on for one request. */
  ghost predicate Expected(m: Market, r: Request, z: Sizes)
    requires z.tableSize > 0
  {
    r.New? ==>
      && r.side != INVALID && m.nextId < ORDER_ID_INVALID
      && Storable(MatchPhase(m, r), r, z.tableSize, z.clients, z.orderIds)
  }

  /** What the book relies on for a run, as far as it gets. */
  ghost predicate ExpectedRun(m: Market, rs: seq<Request>, z: Sizes)
    requires z.tableSize > 0
    decreases |rs|
  {
    rs != [] ==> Expected(m, rs[0], z) && (!Stops(m, rs[0], z) ==> ExpectedRun(Step(m, rs[0]), rs[1..], z))
  }

  /** How many requests are served before one stops the process. */
  ghost function Lasts(m: Market, rs: seq<Request>, z: Sizes): nat
    requires z.tableSize > 0 && ExpectedRun(m, rs, z)
    decreases |rs|
  {
    if rs == [] || Stops(m, rs[0], z) then 0 else 1 + Lasts(Step(m, rs[0]), rs[1..], z)
  }

  /** The market when a request stops the process: an add has matched and stored nothing, a cancel
      has done nothing. */
  function StoppedBy(m: Market, r: Request): Market
    requires r.New? ==> r.side != INVALID
  {
    if r.New? then MatchPhase(m, r).market else m
  }

  /** The first so many requests are served; the next one, if there is one, stops the process, in
      the given market. */
  ghost predicate EndsIn(m: Market, rs: seq<Request>, z: Sizes, served: nat, end: Market)
    requires z.tableSize > 0
  {
    && served <= |rs| && AdmissibleRun(m, rs[..served])
    && var last := Run(m, rs[..served]);
    if served == |rs| then end == last
    else Expected(last, rs[served], z) && Stops(last, rs[served], z) && end == StoppedBy(last, rs[served])
  }

  lemma EndsAtOnce(m: Market, rs: seq<Request>, z: Sizes)
    requires z.tableSize > 0 && ExpectedRun(m, rs, z) && (rs == [] || Stops(m, rs[0], z))
    ensures EndsIn(m, rs, z, 0, if rs == [] then m else StoppedBy(m, rs[0]))
  {
    assert rs[..0] == [];
  }

  lemma EndsLater(m: Market, rs: seq<Request>, z: Sizes, served: nat, end: Market)
    requires rs != [] && z.tableSize > 0 && Expected(m, rs[0], z)
    requires EndsIn(Step(m, rs[0]), rs[1..], z, served, end)
    ensures EndsIn(m, rs, z, served + 1, end)
  {
    hide MatchPhase, Step, Stops, StoppedBy, NoCollision;
    assert rs[..served + 1][1..] == rs[1..][..served];
  }

  // ----- counting orders -----

  function Adds(rs: seq<Request>): nat {
    if rs == [] then 0 else (if rs[0].New? then 1 else 0) + Adds(rs[1..])
  }

  function RestingCount(m: Market): nat {
    |m.bids| + |m.asks|
  }

  // ----- counting prices -----

  function Prices(s: seq<Order>): set<Price> {
    set o | o in s :: o.price
  }

  function AllPrices(m: Market): set<Price> {
    Prices(m.bids) + Prices(m.asks)
  }

  function AddedPrices(rs: seq<Request>): set<Price> {
    set r | r in rs && r.New? :: r.price
  }

  lemma PricesOfFirst(s: seq<Order>)
    requires s != []
    ensures Prices(s) == {s[0].price} + Prices(s[1..]) && s[0].price in Prices(s)
  {
    assert s == [s[0]] + s[1..];
  }

  /** On a sorted side a price does not come back. */
  lemma PricePassed(side: Side, s: seq<Order>)
    requires Sorted(side, s) && |s| > 1 && s[0].price != s[1].price
    ensures s[0].price !in Prices(s[1..])
  {
    forall k | 1 <= k < |s| ensures s[k].price != s[0].price {
      assert Before(side, s[0], s[1]);
      assert k > 1 ==> Before(side, s[1], s[k]);
    }
  }

  lemma {:induction false} LevelsArePrices(side: Side, s: seq<Order>)
    requires Sorted(side, s)
    ensures LevelCount(s) == |Prices(s)|
  {
    if s != [] {
      PricesOfFirst(s);
      SortedTail(side, s);
      LevelsArePrices(side, s[1..]);
      hide Prices, Sorted;
      if |s| > 1 {
        if s[0].price == s[1].price {
          PricesOfFirst(s[1..]);
        } else {
          PricePassed(side, s);
        }
      } else {
        NoPrices(s[1..]);
      }
    }
  }

  lemma NoPrices(s: seq<Order>)
    requires s == []
    ensures Prices(s) == {}
  {
  }

  /** Matching adds no order and no price. */
  lemma {:induction false} MatchNeverGrows(m: Market, t: Taker, leaves: Quantity)
    requires t.side != INVALID
    ensures var r := MatchLoop(m, t, leaves).market;
            RestingCount(r) <= RestingCount(m) && AllPrices(r) <= AllPrices(m)
    decreases |m.On(Opposite(t.side))|, leaves
  {
    if CanFill(m, t, leaves) {
      var r := FillStep(m, t, leaves);
      var opp := m.On(Opposite(t.side));
      assert Prices(AfterFill(opp, Min(leaves, opp[0].qty))) <= Prices(opp) by {
        assert opp == [opp[0]] + opp[1..];
      }
      MatchNeverGrows(r.market, t, r.leaves);
    }
  }

  lemma {:induction false} InsertGrowsByOne(side: Side, s: seq<Order>, o: Order)
    ensures |Insert(side, s, o)| == |s| + 1 && Prices(Insert(side, s, o)) == Prices(s) + {o.price}
  {
    if s != [] {
      assert s == [s[0]] + s[1..];
      if !Better(side, o.price, s[0].price) {
        InsertGrowsByOne(side, s[1..], o);
        var r := Insert(side, s[1..], o);
        assert Prices([s[0]] + r) == {s[0].price} + Prices(r);
      }
    }
  }

  /** An add brings at most one order and its own price; a cancel brings nothing. */
  lemma StepGrowsByOne(m: Market, r: Request)
    requires r.New? ==> r.side != INVALID
    ensures RestingCount(Step(m, r)) <= RestingCount(m) + Adds([r])
    ensures AllPrices(Step(m, r)) <= AllPrices(m) + AddedPrices([r])
  {
    hide Search;
    if r.New? {
      var p := MatchPhase(m, r);
      MatchNeverGrows(Accept(m, r), TakerOf(m, r), r.qty);
      InsertGrowsByOne(r.side, p.market.On(r.side), OrderOf(p.market, TakerOf(m, r), p.leaves));
      assert r in [r];
    }
  }

  /** The levels of both sides and a new one have different prices. */
  lemma LevelsFit(m: Market, r: Request, ps: set<Price>)
    requires Good(m) && r.New? && r.side != INVALID
    requires AllPrices(m) <= ps && r.price in ps
    ensures var p := MatchPhase(m, r);
            p.leaves > 0 && !HasPrice(p.market.On(r.side), r.price) ==>
              LevelCount(p.market.bids) + LevelCount(p.market.asks) + 1 <= |ps|
  {
    hide Prices, LevelCount, HasPrice, MatchLoop, Crosses, Distinct, Across;
    var p := MatchPhase(m, r);
    var b, a := Prices(p.market.bids), Prices(p.market.asks);
    MatchPhaseGood(m, r);
    MatchNeverGrows(Accept(m, r), TakerOf(m, r), r.qty);
    LevelsArePrices(BUY, p.market.bids);
    LevelsArePrices(SELL, p.market.asks);
    if p.leaves > 0 && !HasPrice(p.market.On(r.side), r.price) {
      NoOppositePrice(m, r);
      SidesApart(p.market.bids, p.market.asks);
      NotAmong(p.market.bids, r.price);
      NotAmong(p.market.asks, r.price);
      assert |b + a + {r.price}| == |b| + |a| + 1;
      SubsetCount(b + a + {r.price}, ps);
    }
  }

  lemma SidesApart(bids: seq<Order>, asks: seq<Order>)
    requires Uncrossed(bids, asks)
    ensures Prices(bids) !! Prices(asks)
  {
  }

  lemma NotAmong(s: seq<Order>, price: Price)
    requires !HasPrice(s, price)
    ensures price !in Prices(s)
  {
  }

  lemma {:induction false} SubsetCount(a: set<Price>, b: set<Price>)
    requires a <= b
    ensures |a| <= |b|
  {
    if a != {} {
      var x :| x in a;
      SubsetCount(a - {x}, b - {x});
    }
  }

  /** No request stops the process while the pools have slots to spare for it. */
  lemma FittingStep(m: Market, r: Request, z: Sizes, ps: set<Price>)
    requires Good(m) && z.tableSize > 0 && Expected(m, r, z)
    requires RestingCount(m) + Adds([r]) < z.orderSlots
    requires AllPrices(m) + AddedPrices([r]) <= ps && |ps| < z.levelSlots
    requires r.Cancel? && r.client < z.clients ==> r.oid < z.orderIds
    ensures !Stops(m, r, z) && Admissible(m, r)
  {
    hide Good, Storable;
    if r.New? {
      assert r in [r];
      MatchNeverGrows(Accept(m, r), TakerOf(m, r), r.qty);
      LevelsFit(m, r, ps);
    }
    ExpectedIsAdmissible(m, r, z);
  }

  lemma ExpectedIsAdmissible(m: Market, r: Request, z: Sizes)
    requires z.tableSize > 0 && Expected(m, r, z)
    ensures Admissible(m, r)
  {
  }

  /** A run is served to its end if the resting orders and the adds together are fewer than the
      order slots, the resting prices and the added ones together are fewer than the level slots,
      and no cancel names an order id beyond the table of a known client. */
  lemma {:induction false} FittingRunLasts(m: Market, rs: seq<Request>, z: Sizes)
    requires Good(m) && z.tableSize > 0 && ExpectedRun(m, rs, z)
    requires RestingCount(m) + Adds(rs) < z.orderSlots
    requires |AllPrices(m) + AddedPrices(rs)| < z.levelSlots
    requires forall i :: 0 <= i < |rs| && rs[i].Cancel? && rs[i].client < z.clients ==> rs[i].oid < z.orderIds
    ensures Lasts(m, rs, z) == |rs|
    decreases |rs|
  {
    hide Good, Storable, Stops, Step, Admissible, Prices;
    if rs != [] {
      var r, m' := rs[0], Step(m, rs[0]);
      var ps := AllPrices(m) + AddedPrices(rs);
      assert rs == [r] + rs[1..];
      assert Adds([r]) + Adds(rs[1..]) == Adds(rs);
      FittingStep(m, r, z, ps);
      StepGrowsByOne(m, r);
      StepKeepsGood(m, r);
      SubsetCount(AllPrices(m') + AddedPrices(rs[1..]), ps);
      FittingRunLasts(m', rs[1..], z);
    }
  }
}
