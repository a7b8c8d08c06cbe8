/** What holds of the book in every reachable state: both sides sorted by price and time,
    nothing crossed, nothing empty, ids unique. */
module BookInvariants {
  import opened ExchangeTypes
  import opened BookSpec
  import opened Sequences

  /** a is served before b: better price, or same price and older. */
  predicate Before(side: Side, a: Order, b: Order) {
    Better(side, a.price, b.price) || (a.price == b.price && a.moid < b.moid)
  }

  ghost predicate Sorted(side: Side, s: seq<Order>) {
    forall i, j :: 0 <= i < j < |s| ==> Before(side, s[i], s[j])
  }

  lemma SortedTail(side: Side, s: seq<Order>)
    requires Sorted(side, s) && s != []
    ensures Sorted(side, s[1..])
  {
    forall i, j | 0 <= i < j < |s[1..]| ensures Before(side, s[1..][i], s[1..][j]) {
      assert Before(side, s[i + 1], s[j + 1]);
    }
  }

  predicate OrderGood(side: Side, o: Order, nextId: nat) {
    o.side == side && 0 < o.qty && 0 < o.moid < nextId && o.priority == 1
  }

  ghost predicate SideGood(side: Side, s: seq<Order>, nextId: nat) {
    Sorted(side, s) && forall i :: 0 <= i < |s| ==> OrderGood(side, s[i], nextId)
  }

  predicate Apart(a: Order, b: Order) {
    a.moid != b.moid && !a.HasKey(b.client, b.oid)
  }

  ghost predicate Distinct(s: seq<Order>) {
    forall i, j :: 0 <= i < j < |s| ==> Apart(s[i], s[j])
  }

  ghost predicate Uncrossed(bids: seq<Order>, asks: seq<Order>) {
    forall i, j :: 0 <= i < |bids| && 0 <= j < |asks| ==> bids[i].price < asks[j].price
  }

  ghost predicate Across(s: seq<Order>, t: seq<Order>) {
    forall i, j :: 0 <= i < |s| && 0 <= j < |t| ==> Apart(s[i], t[j])
  }

  ghost predicate Good(m: Market) {
    && 0 < m.nextId
    && SideGood(BUY, m.bids, m.nextId) && SideGood(SELL, m.asks, m.nextId)
    && Distinct(m.bids) && Distinct(m.asks) && Across(m.bids, m.asks)
    && Uncrossed(m.bids, m.asks)
  }

  /** What Good says about one side alone. */
  ghost predicate OneSide(side: Side, s: seq<Order>, nextId: nat) {
    SideGood(side, s, nextId) && Distinct(s)
  }

  /** What Good says about the two sides together. */
  ghost predicate TwoSides(bids: seq<Order>, asks: seq<Order>) {
    Across(bids, asks) && Uncrossed(bids, asks)
  }

  /** Every resting market order id lies below the bound. */
  ghost predicate IdsBelow(m: Market, bound: nat) {
    && (forall i :: 0 <= i < |m.bids| ==> m.bids[i].moid < bound)
    && (forall i :: 0 <= i < |m.asks| ==> m.asks[i].moid < bound)
  }

  // ----- a subsequence of a good side, quantities lowered, is good -----

  /** Same order, possibly with a smaller remaining quantity. */
  predicate SameButQty(a: Order, b: Order) {
    a == b.(qty := a.qty) && 0 < a.qty <= b.qty
  }

  /** t consists of the orders of s at the increasing positions f, possibly partly filled. */
  ghost predicate Embeds(t: seq<Order>, s: seq<Order>, f: seq<nat>) {
    && |f| == |t|
    && (forall i :: 0 <= i < |f| ==> f[i] < |s| && SameButQty(t[i], s[f[i]]))
    && (forall i, j :: 0 <= i < j < |f| ==> f[i] < f[j])
  }

  lemma EmbedOneSide(side: Side, t: seq<Order>, s: seq<Order>, f: seq<nat>, nextId: nat)
    requires OneSide(side, s, nextId) && Embeds(t, s, f)
    ensures OneSide(side, t, nextId)
  {
    forall i, j | 0 <= i < j < |t| ensures Before(side, t[i], t[j]) && Apart(t[i], t[j]) {
      assert Before(side, s[f[i]], s[f[j]]) && Apart(s[f[i]], s[f[j]]);
    }
  }

  lemma EmbedBids(t: seq<Order>, s: seq<Order>, f: seq<nat>, asks: seq<Order>)
    requires TwoSides(s, asks) && Embeds(t, s, f)
    ensures TwoSides(t, asks)
  {
    forall i, j | 0 <= i < |t| && 0 <= j < |asks| ensures Apart(t[i], asks[j]) && t[i].price < asks[j].price {
      assert Apart(s[f[i]], asks[j]) && s[f[i]].price < asks[j].price;
    }
  }

  lemma EmbedAsks(t: seq<Order>, s: seq<Order>, f: seq<nat>, bids: seq<Order>)
    requires TwoSides(bids, s) && Embeds(t, s, f)
    ensures TwoSides(bids, t)
  {
    forall i, j | 0 <= i < |bids| && 0 <= j < |t| ensures Apart(bids[i], t[j]) && bids[i].price < t[j].price {
      assert Apart(bids[i], s[f[j]]) && bids[i].price < s[f[j]].price;
    }
  }

  /** Shrinking one side keeps the market good. */
  lemma ShrinkGood(m: Market, side: Side, t: seq<Order>, f: seq<nat>)
    requires Good(m) && Embeds(t, m.On(side), f)
    ensures Good(m.With(side, t))
  {
    if side == BUY {
      EmbedOneSide(BUY, t, m.bids, f, m.nextId);
      EmbedBids(t, m.bids, f, m.asks);
    } else {
      EmbedOneSide(SELL, t, m.asks, f, m.nextId);
      EmbedAsks(t, m.asks, f, m.bids);
    }
  }

  lemma {:induction false} FillEmbeds(opp: seq<Order>, fill: Quantity) returns (f: seq<nat>)
    requires opp != [] && fill <= opp[0].qty && forall i :: 0 <= i < |opp| ==> 0 < opp[i].qty
    ensures Embeds(AfterFill(opp, fill), opp, f)
  {
    var t := AfterFill(opp, fill);
    if opp[0].qty == fill {
      f := seq(|t|, i requires 0 <= i => i + 1);
    } else {
      f := seq(|t|, i requires 0 <= i => i);
    }
  }

  lemma {:induction false} RemoveEmbeds(s: seq<Order>, k: nat) returns (f: seq<nat>)
    requires k < |s| && forall i :: 0 <= i < |s| ==> 0 < s[i].qty
    ensures Embeds(RemoveAt(s, k), s, f)
  {
    f := seq(|s| - 1, i requires 0 <= i => if i < k then i else i + 1);
  }

  // ----- matching -----

  lemma FillKeepsGood(m: Market, t: Taker, leaves: Quantity)
    requires Good(m) && t.side != INVALID && CanFill(m, t, leaves)
    ensures Good(FillStep(m, t, leaves).market)
  {
    var side := Opposite(t.side);
    var opp := m.On(side);
    var fill := Min(leaves, opp[0].qty);
    assert forall i :: 0 <= i < |opp| ==> OrderGood(side, opp[i], m.nextId);
    var f := FillEmbeds(opp, fill);
    ShrinkGood(m, side, AfterFill(opp, fill), f);
  }

  /** Matching keeps the market good and, if anything of the incoming order is left, leaves no
      opposite order that it could still trade with. */
  lemma {:induction false} MatchKeepsGood(m: Market, t: Taker, leaves: Quantity)
    requires Good(m) && t.side != INVALID
    ensures var r := MatchLoop(m, t, leaves);
            && Good(r.market)
            && r.leaves <= leaves
            && r.market.nextId == m.nextId
            && r.market.On(t.side) == m.On(t.side)
            && (r.leaves > 0 ==>
                  forall i :: 0 <= i < |r.market.On(Opposite(t.side))| ==>
                    var p := r.market.On(Opposite(t.side))[i].price;
                    if t.side == BUY then t.price < p else p < t.price)
    decreases |m.On(Opposite(t.side))|, leaves
  {
    if CanFill(m, t, leaves) {
      FillKeepsGood(m, t, leaves);
      var r := FillStep(m, t, leaves);
      MatchKeepsGood(r.market, t, r.leaves);
    } else {
      var opp := m.On(Opposite(t.side));
      forall i | 0 <= i < |opp| && leaves > 0
        ensures if t.side == BUY then t.price < opp[i].price else opp[i].price < t.price
      {
        assert i == 0 || Before(Opposite(t.side), opp[0], opp[i]);
      }
    }
  }

  // ----- insertion -----

  /** Where Insert puts the order: behind everything at least as good, before the first worse. */
  lemma {:induction false} InsertSplits(side: Side, s: seq<Order>, o: Order) returns (k: nat)
    requires Sorted(side, s)
    ensures k <= |s| && Insert(side, s, o) == s[..k] + [o] + s[k..]
    ensures forall i :: 0 <= i < k ==> !Better(side, o.price, s[i].price)
    ensures forall i :: k <= i < |s| ==> Better(side, o.price, s[i].price)
  {
    if s == [] {
      k := 0;
    } else if Better(side, o.price, s[0].price) {
      k := 0;
      forall i | 0 <= i < |s| ensures Better(side, o.price, s[i].price) {
        assert i == 0 || Before(side, s[0], s[i]);
      }
    } else {
      var j := InsertSplits(side, s[1..], o);
      k := j + 1;
      assert s[..k] == [s[0]] + s[1..][..j];
      assert s[k..] == s[1..][j..];
      forall i | k <= i < |s| ensures Better(side, o.price, s[i].price) {
        assert s[i] == s[1..][i - 1];
      }
    }
  }

  /** A split at which everything before is at least as good and everything after is worse
      is the one Insert uses. */
  lemma {:induction false} InsertAt(side: Side, p: seq<Order>, q: seq<Order>, o: Order)
    requires forall i :: 0 <= i < |p| ==> !Better(side, o.price, p[i].price)
    requires q != [] ==> Better(side, o.price, q[0].price)
    ensures Insert(side, p + q, o) == p + [o] + q
  {
    if p == [] {
      assert p + q == q;
    } else {
      InsertAt(side, p[1..], q, o);
      assert (p + q)[1..] == p[1..] + q;
      assert [p[0]] + (p[1..] + [o] + q) == p + [o] + q;
    }
  }

  /** Inserting before position k keeps a pairwise property that the new order has with
      everything before and after it. */
  lemma InsertSorted(side: Side, s: seq<Order>, o: Order, k: nat)
    requires k <= |s| && Sorted(side, s)
    requires forall i :: 0 <= i < k ==> Before(side, s[i], o)
    requires forall i :: k <= i < |s| ==> Before(side, o, s[i])
    ensures Sorted(side, s[..k] + [o] + s[k..])
  {
  }

  lemma InsertDistinct(s: seq<Order>, o: Order, k: nat)
    requires k <= |s| && Distinct(s)
    requires forall i :: 0 <= i < |s| ==> Apart(o, s[i])
    ensures Distinct(s[..k] + [o] + s[k..])
  {
  }

  lemma InsertOneSide(side: Side, s: seq<Order>, o: Order, nextId: nat)
    requires OneSide(side, s, nextId)
    requires OrderGood(side, o, nextId) && forall i :: 0 <= i < |s| ==> Apart(o, s[i]) && s[i].moid < o.moid
    ensures OneSide(side, Insert(side, s, o), nextId)
  {
    var k := InsertSplits(side, s, o);
    forall i | 0 <= i < k ensures Before(side, s[i], o) {
      assert !Better(side, o.price, s[i].price);
    }
    InsertSorted(side, s, o, k);
    InsertDistinct(s, o, k);
  }

  /** Insert adds exactly the new order. */
  lemma InsertAddsOne(side: Side, s: seq<Order>, o: Order)
    requires Sorted(side, s)
    ensures multiset(Insert(side, s, o)) == multiset(s) + multiset{o}
  {
    hide Sorted, Better, Insert;
    var k := InsertSplits(side, s, o);
    SplitAddsOne(s, o, k);
  }

  lemma SplitAddsOne(s: seq<Order>, o: Order, k: nat)
    requires k <= |s|
    ensures multiset(s[..k] + [o] + s[k..]) == multiset(s) + multiset{o}
  {
    assert s == s[..k] + s[k..];
  }

  lemma {:induction false} PriorityIsOne(s: seq<Order>, price: Price)
    requires forall i :: 0 <= i < |s| ==> s[i].priority == 1
    ensures NextPriority(s, price) == 1
  {
    if s == [] {
    } else if s[|s| - 1].price == price {
    } else {
      PriorityIsOne(s[..|s| - 1], price);
    }
  }

  lemma InsertAcross(side: Side, s: seq<Order>, o: Order, opp: seq<Order>)
    requires side != INVALID && Sorted(side, s)
    requires if side == BUY then TwoSides(s, opp) else TwoSides(opp, s)
    requires forall i :: 0 <= i < |opp| ==> Apart(o, opp[i])
                                            && (if side == BUY then o.price < opp[i].price else opp[i].price < o.price)
    ensures if side == BUY then TwoSides(Insert(side, s, o), opp) else TwoSides(opp, Insert(side, s, o))
  {
    var k := InsertSplits(side, s, o);
    var r := s[..k] + [o] + s[k..];
    forall i, j | 0 <= i < |r| && 0 <= j < |opp|
      ensures Apart(r[i], opp[j]) && (if side == BUY then r[i].price < opp[j].price else opp[j].price < r[i].price)
    {
      if i == k {
        assert Apart(o, opp[j]);
      } else {
        var a := if i < k then i else i - 1;
        assert r[i] == s[a];
        if side == BUY {
          assert Apart(s[a], opp[j]);
        } else {
          assert Apart(opp[j], s[a]);
        }
      }
    }
  }

  lemma RestKeepsGood(m: Market, t: Taker, leaves: Quantity)
    requires Good(m) && t.side != INVALID && leaves > 0
    requires 0 < t.moid < m.nextId && KeyFree(m, t.client, t.oid) && IdsBelow(m, t.moid)
    requires forall i :: 0 <= i < |m.On(Opposite(t.side))| ==>
               var p := m.On(Opposite(t.side))[i].price;
               if t.side == BUY then t.price < p else p < t.price
    ensures Good(Rest(m, t, leaves))
  {
    var s := m.On(t.side);
    var opp := m.On(Opposite(t.side));
    var o := OrderOf(m, t, leaves);
    assert forall i :: 0 <= i < |s| ==> OrderGood(t.side, s[i], m.nextId);
    PriorityIsOne(s, t.price);
    assert forall i :: 0 <= i < |s| ==> Apart(o, s[i]);
    assert forall i :: 0 <= i < |opp| ==> Apart(o, opp[i]);
    InsertOneSide(t.side, s, o, m.nextId);
    InsertAcross(t.side, s, o, opp);
  }

  // ----- every market order id below the bound stays below it -----

  lemma GoodIdsBelow(m: Market)
    requires Good(m)
    ensures IdsBelow(m, m.nextId)
  {
    forall i | 0 <= i < |m.bids| ensures m.bids[i].moid < m.nextId {
      assert OrderGood(BUY, m.bids[i], m.nextId);
    }
    forall i | 0 <= i < |m.asks| ensures m.asks[i].moid < m.nextId {
      assert OrderGood(SELL, m.asks[i], m.nextId);
    }
  }

  lemma {:induction false} MatchKeepsIdsBelow(m: Market, t: Taker, leaves: Quantity, bound: nat)
    requires t.side != INVALID && IdsBelow(m, bound)
    ensures IdsBelow(MatchLoop(m, t, leaves).market, bound)
    decreases |m.On(Opposite(t.side))|, leaves
  {
    if CanFill(m, t, leaves) {
      var r := FillStep(m, t, leaves);
      MatchKeepsIdsBelow(r.market, t, r.leaves, bound);
    }
  }

  // ----- steps and runs -----

  lemma AcceptKeepsGood(m: Market, r: Request)
    requires Good(m) && r.New?
    ensures Good(Accept(m, r))
  {
    var a := Accept(m, r);
    assert a.bids == m.bids && a.asks == m.asks;
    forall i | 0 <= i < |m.bids| ensures OrderGood(BUY, m.bids[i], a.nextId) {
      assert OrderGood(BUY, m.bids[i], m.nextId);
    }
    forall i | 0 <= i < |m.asks| ensures OrderGood(SELL, m.asks[i], a.nextId) {
      assert OrderGood(SELL, m.asks[i], m.nextId);
    }
  }

  /** The state after matching inside an add. */
  lemma MatchPhaseGood(m: Market, r: Request)
    requires Good(m) && r.New? && r.side != INVALID
    ensures var p := MatchPhase(m, r);
            && Good(p.market)
            && p.leaves <= r.qty
            && p.market.nextId == m.nextId + 1
            && p.market.On(r.side) == m.On(r.side)
            && IdsBelow(p.market, m.nextId)
            && (p.leaves > 0 ==>
                  forall i :: 0 <= i < |p.market.On(Opposite(r.side))| ==>
                    var q := p.market.On(Opposite(r.side))[i].price;
                    if r.side == BUY then r.price < q else q < r.price)
  {
    AcceptKeepsGood(m, r);
    MatchKeepsGood(Accept(m, r), TakerOf(m, r), r.qty);
    GoodIdsBelow(m);
    MatchKeepsIdsBelow(Accept(m, r), TakerOf(m, r), r.qty, m.nextId);
  }

  lemma StepKeepsGood(m: Market, r: Request)
    requires Good(m) && Admissible(m, r)
    ensures Good(Step(m, r))
  {
    if r.New? {
      MatchPhaseGood(m, r);
      var p := MatchPhase(m, r);
      if p.leaves > 0 {
        RestKeepsGood(p.market, TakerOf(m, r), p.leaves);
      }
    } else {
      var i := Search(m.bids, r.client, r.oid);
      var j := Search(m.asks, r.client, r.oid);
      if i < |m.bids| {
        assert forall k :: 0 <= k < |m.bids| ==> OrderGood(BUY, m.bids[k], m.nextId);
        var f := RemoveEmbeds(m.bids, i);
        ShrinkGood(m, BUY, RemoveAt(m.bids, i), f);
      } else if j < |m.asks| {
        assert forall k :: 0 <= k < |m.asks| ==> OrderGood(SELL, m.asks[k], m.nextId);
        var f := RemoveEmbeds(m.asks, j);
        ShrinkGood(m, SELL, RemoveAt(m.asks, j), f);
      }
    }
  }

  /** Every reachable book is uncrossed, sorted by price and time, and free of empty orders. */
  lemma {:induction false} RunKeepsGood(m: Market, rs: seq<Request>)
    requires Good(m) && AdmissibleRun(m, rs)
    ensures Good(Run(m, rs))
    decreases |rs|
  {
    if rs != [] {
      StepKeepsGood(m, rs[0]);
      RunKeepsGood(Step(m, rs[0]), rs[1..]);
    }
  }

  /** No price is live on both sides, and along each side better prices come first, then older
      orders; the priority numbers say nothing about time, they are all 1. */
  lemma TimePriority(rs: seq<Request>)
    requires AdmissibleRun(EMPTY, rs)
    ensures var m := Run(EMPTY, rs);
            && (forall i, j :: 0 <= i < |m.bids| && 0 <= j < |m.asks| ==> m.bids[i].price < m.asks[j].price)
            && (forall i, j :: 0 <= i < j < |m.bids| ==>
                  && m.bids[i].price >= m.bids[j].price
                  && (m.bids[i].price == m.bids[j].price ==> m.bids[i].moid < m.bids[j].moid))
            && (forall i, j :: 0 <= i < j < |m.asks| ==>
                  && m.asks[i].price <= m.asks[j].price
                  && (m.asks[i].price == m.asks[j].price ==> m.asks[i].moid < m.asks[j].moid))
            && (forall i :: 0 <= i < |m.bids| ==> m.bids[i].priority == 1 && m.bids[i].qty > 0)
            && (forall i :: 0 <= i < |m.asks| ==> m.asks[i].priority == 1 && m.asks[i].qty > 0)
  {
    RunKeepsGood(EMPTY, rs);
    var m := Run(EMPTY, rs);
    SideOrdered(BUY, m.bids, m.nextId);
    SideOrdered(SELL, m.asks, m.nextId);
  }

  lemma SideOrdered(side: Side, s: seq<Order>, nextId: nat)
    requires SideGood(side, s, nextId) && side != INVALID
    ensures forall i, j :: 0 <= i < j < |s| ==>
              && !Better(side, s[j].price, s[i].price)
              && (s[i].price == s[j].price ==> s[i].moid < s[j].moid)
    ensures forall i :: 0 <= i < |s| ==> s[i].priority == 1 && s[i].qty > 0
  {
    forall i, j | 0 <= i < j < |s|
      ensures !Better(side, s[j].price, s[i].price) && (s[i].price == s[j].price ==> s[i].moid < s[j].moid)
    {
      assert Before(side, s[i], s[j]);
    }
    forall i | 0 <= i < |s| ensures s[i].priority == 1 && s[i].qty > 0 {
      assert OrderGood(side, s[i], nextId);
    }
  }
}
