/** The flat sequences of orders that the linked representation stands for. */
module BookAbstraction {
  import opened ExchangeTypes
  import opened BookSpec
  import opened Sequences
  import opened BookInvariants
  import opened Rings
  import opened BookMemory
  import opened BookTables
  import CancelTheorems
  import MemPools

  const NO_ORDER := Order(0, 0, 0, 0, INVALID, 0, 0, 0)

  function ValueAt(orders: seq<MEOrder>, x: int): Order {
    if 0 <= x < |orders| then orders[x].value else NO_ORDER
  }

  function Vals(orders: seq<MEOrder>, f: seq<int>): (s: seq<Order>)
    ensures |s| == |f|
  {
    seq(|f|, i requires 0 <= i < |f| => ValueAt(orders, f[i]))
  }

  function MarketOf(m: Memory, ls: Lists, nextId: nat, rs: seq<ClientResponse>, us: seq<MarketUpdate>): Market {
    Market(Vals(m.orders, Flat(ls.bids)), Vals(m.orders, Flat(ls.asks)), nextId, rs, us)
  }

  lemma ValsConcat(orders: seq<MEOrder>, f: seq<int>, g: seq<int>)
    ensures Vals(orders, f + g) == Vals(orders, f) + Vals(orders, g)
  {
  }

  lemma ValsSame(a: seq<MEOrder>, b: seq<MEOrder>, f: seq<int>)
    requires |a| == |b|
    requires forall x :: 0 <= x < |a| && x in f ==> a[x].value == b[x].value
    ensures Vals(a, f) == Vals(b, f)
  {
    forall i | 0 <= i < |f| ensures ValueAt(a, f[i]) == ValueAt(b, f[i]) {
      assert f[i] in f;
    }
  }

  // ----- removal -----

  lemma SeqCut(a: seq<int>, f: seq<int>, b: seq<int>, j: nat)
    requires j < |f|
    ensures a + f + b == (a + f[..j]) + [f[j]] + (f[j + 1..] + b)
    ensures a + RemoveAt(f, j) + b == (a + f[..j]) + (f[j + 1..] + b)
  {
  }

  /** The cut of the flat sequence at order j of level i. */
  lemma FlatAround(g: seq<LevelList>, i: nat, j: nat) returns (p: seq<int>, q: seq<int>)
    requires i < |g| && j < |g[i].fifo|
    ensures p == Flat(g[..i]) + g[i].fifo[..j]
    ensures Flat(g) == p + [g[i].fifo[j]] + q
    ensures Flat(WithoutOrder(g, i, j)) == p + q
  {
    var f := g[i].fifo;
    p, q := Flat(g[..i]) + f[..j], f[j + 1..] + Flat(g[i + 1..]);
    FlatSplit(g, i);
    FlatWithoutOrder(g, i, j);
    SeqCut(Flat(g[..i]), f, Flat(g[i + 1..]), j);
  }

  /** Orders at different slots have different keys. */
  lemma KeysApart(orders: seq<MEOrder>, index: seq<seq<int>>, ls: Lists, x: int, y: int)
    requires IndexOk(orders, index, ls) && InLists(ls, x) && InLists(ls, y) && x != y
    ensures 0 <= x < |orders| && 0 <= y < |orders|
    ensures !orders[y].value.HasKey(orders[x].value.client, orders[x].value.oid)
  {
    assert Indexed(orders, index, x) && Indexed(orders, index, y);
  }

  /** A linear search of the flat side stops at the order with the key. */
  lemma SearchHits(orders: seq<MEOrder>, index: seq<seq<int>>, ls: Lists, side: Side, p: seq<int>, x: int, q: seq<int>)
    requires IndexOk(orders, index, ls) && side != INVALID && 0 <= x < |orders|
    requires Flat(ls.On(side)) == p + [x] + q && x !in p
    ensures var s := Vals(orders, Flat(ls.On(side)));
            Search(s, orders[x].value.client, orders[x].value.oid) == |p|
  {
    var f := Flat(ls.On(side));
    var s := Vals(orders, f);
    assert f[|p|] == x && x in f;
    InSide(ls, side, x);
    forall k | 0 <= k < |p| ensures !s[k].HasKey(orders[x].value.client, orders[x].value.oid) {
      assert f[k] == p[k] && p[k] in p && f[k] in f;
      InSide(ls, side, f[k]);
      KeysApart(orders, index, ls, x, f[k]);
    }
    CancelTheorems.SearchFinds(s, orders[x].value.client, orders[x].value.oid, |p|);
  }

  /** Removing order j of level i removes the order that the search finds. */
  lemma RemovalIsSpec(a: seq<MEOrder>, b: seq<MEOrder>, levels: seq<MEOrdersAtPrice>, index: seq<seq<int>>, ls: Lists,
                      side: Side, i: nat, j: nat)
    requires SidesOk(a, levels, ls) && IndexOk(a, index, ls) && side != INVALID
    requires i < |ls.On(side)| && j < |ls.On(side)[i].fifo|
    requires |a| == |b| && forall y :: 0 <= y < |a| ==> a[y].value == b[y].value
    ensures var x := ls.On(side)[i].fifo[j];
            var s := Vals(a, Flat(ls.On(side)));
            && 0 <= x < |a|
            && var k := Search(s, a[x].value.client, a[x].value.oid);
            && k < |s| && s[k] == a[x].value
            && Vals(b, Flat(WithoutOrder(ls.On(side), i, j))) == RemoveAt(s, k)
  {
    var g := ls.On(side);
    var x := g[i].fifo[j];
    var p, q := FlatAround(g, i, j);
    OneSideOk(a, levels, ls, side);
    assert LevelOk(a, levels, side, g[i]);
    assert OrderAt(a, x, side, levels[g[i].slot].value.price);
    NotElsewhere(a, levels, side, g, i, x);
    FifoInjective(a, g[i].fifo, side, levels[g[i].slot].value.price);
    assert x !in p;
    SearchHits(a, index, ls, side, p, x, q);
    ValsSame(a, b, p + q);
    ValsConcat(a, p + [x], q);
    ValsConcat(a, p, [x]);
    ValsConcat(a, p, q);
    var s := Vals(a, Flat(g));
    assert s[..|p|] == Vals(a, p) && s[|p| + 1..] == Vals(a, q);
  }

  /** The market after order j of level i is out of the lists, values untouched. */
  lemma RemovalMarket(m: Memory, ls: Lists, b: Memory, side: Side, i: nat, j: nat, nextId: nat,
                      rs: seq<ClientResponse>, us: seq<MarketUpdate>)
    requires ListsOk(m, ls, -1, -1) && IndexOk(m.orders, m.index, ls) && side != INVALID
    requires i < |ls.On(side)| && j < |ls.On(side)[i].fifo|
    requires SameValues(m.orders, b.orders)
    ensures var x := ls.On(side)[i].fifo[j];
            var before := MarketOf(m, ls, nextId, rs, us);
            var after := MarketOf(b, ls.With(side, WithoutOrder(ls.On(side), i, j)), nextId, rs, us);
            && 0 <= x < |m.orders|
            && var k := Search(before.On(side), m.orders[x].value.client, m.orders[x].value.oid);
            && k < |before.On(side)| && before.On(side)[k] == m.orders[x].value
            && after == before.With(side, RemoveAt(before.On(side), k))
  {
    RemovalIsSpec(m.orders, b.orders, m.levels, m.index, ls, side, i, j);
    OtherValues(m.orders, b.orders, ls, BUY);
    OtherValues(m.orders, b.orders, ls, SELL);
  }

  lemma OtherValues(a: seq<MEOrder>, b: seq<MEOrder>, ls: Lists, side: Side)
    requires |a| == |b| && forall y :: 0 <= y < |a| ==> a[y].value == b[y].value
    ensures Vals(a, Flat(ls.On(side))) == Vals(b, Flat(ls.On(side)))
  {
    ValsSame(a, b, Flat(ls.On(side)));
  }

  // ----- the head and its quantity -----

  lemma HeadIsFirst(orders: seq<MEOrder>, levels: seq<MEOrdersAtPrice>, side: Side, g: seq<LevelList>)
    requires SideOk(orders, levels, side, g) && g != []
    ensures g[0].fifo != [] && 0 <= g[0].slot < |levels| && levels[g[0].slot].value.first == g[0].fifo[0]
    ensures 0 <= g[0].fifo[0] < |orders|
    ensures Flat(g) != [] && Flat(g)[0] == g[0].fifo[0]
    ensures Vals(orders, Flat(g))[0] == orders[g[0].fifo[0]].value
  {
    assert LevelOk(orders, levels, side, g[0]);
    assert OrderAt(orders, g[0].fifo[0], side, levels[g[0].slot].value.price);
  }

  lemma QtyOfHead(orders: seq<MEOrder>, levels: seq<MEOrdersAtPrice>, side: Side, g: seq<LevelList>, qty: Quantity)
    requires SideOk(orders, levels, side, g) && g != []
    ensures 0 <= Flat(g)[0] < |orders|
    ensures var x := Flat(g)[0];
            var b := orders[x := orders[x].(value := orders[x].value.(qty := qty))];
            var s := Vals(orders, Flat(g));
            Vals(b, Flat(g)) == [s[0].(qty := qty)] + s[1..]
  {
    HeadIsFirst(orders, levels, side, g);
    var p, q := FlatAround(g, 0, 0);
    var x := Flat(g)[0];
    var b := orders[x := orders[x].(value := orders[x].value.(qty := qty))];
    assert LevelOk(orders, levels, side, g[0]);
    NotElsewhere(orders, levels, side, g, 0, x);
    FifoInjective(orders, g[0].fifo, side, levels[g[0].slot].value.price);
    RestOfHead(g, x);
    assert Flat(g) == [x] + Flat(g)[1..];
    ValsSame(orders, b, Flat(g)[1..]);
    ValsConcat(orders, [x], Flat(g)[1..]);
    ValsConcat(b, [x], Flat(g)[1..]);
  }

  lemma RestOfHead(g: seq<LevelList>, x: int)
    requires g != [] && g[0].fifo != [] && x == g[0].fifo[0] && Injective(g[0].fifo) && x !in Flat(g[1..])
    ensures x !in Flat(g)[1..]
  {
    assert Flat(g)[1..] == g[0].fifo[1..] + Flat(g[1..]);
  }

  /** What the code finds at the head of a side. */
  lemma HeadFound(m: Memory, ls: Lists, side: Side)
    requires ListsOk(m, ls, -1, -1) && side != INVALID
    ensures var g := ls.On(side);
            var s := Vals(m.orders, Flat(g));
            && (m.Head(side) == -1 <==> g == [])
            && (g == [] <==> s == [])
            && (g != [] ==>
                  && 0 <= m.Head(side) < |m.levels|
                  && g[0].fifo != []
                  && m.levels[m.Head(side)].value.first == g[0].fifo[0]
                  && 0 <= g[0].fifo[0] < |m.orders|
                  && m.orders[g[0].fifo[0]].value == s[0])
  {
    var g := ls.On(side);
    OneSideOk(m.orders, m.levels, ls, side);
    if g != [] {
      HeadIsFirst(m.orders, m.levels, side, g);
    }
  }

  /** The memory after the first order of a side is down to qty. */
  function Reduced(m: Memory, x: int, qty: Quantity): Memory
    requires 0 <= x < |m.orders|
  {
    m.(orders := m.orders[x := m.orders[x].(value := m.orders[x].value.(qty := qty))])
  }

  lemma ReduceHead(m: Memory, ls: Lists, side: Side, qty: Quantity, nextId: nat,
                   rs: seq<ClientResponse>, us: seq<MarketUpdate>)
    requires ListsOk(m, ls, -1, -1) && IndexOk(m.orders, m.index, ls) && side != INVALID && ls.On(side) != []
    ensures ls.On(side)[0].fifo != [] && 0 <= ls.On(side)[0].fifo[0] < |m.orders|
    ensures var b := Reduced(m, ls.On(side)[0].fifo[0], qty);
            var before := MarketOf(m, ls, nextId, rs, us);
            && ListsOk(b, ls, -1, -1)
            && IndexOk(b.orders, b.index, ls)
            && before.On(side) != []
            && MarketOf(b, ls, nextId, rs, us)
               == before.With(side, [before.On(side)[0].(qty := qty)] + before.On(side)[1..])
  {
    var g := ls.On(side);
    HeadFound(m, ls, side);
    var x := g[0].fifo[0];
    var b := Reduced(m, x, qty);
    QtyKeepsLists(m, ls, -1, -1, x, qty);
    IndexFrame(m.orders, b.orders, m.index, ls);
    OneSideOk(m.orders, m.levels, ls, side);
    HeadIsFirst(m.orders, m.levels, side, g);
    QtyOfHead(m.orders, m.levels, side, g, qty);
    InFlat(g, 0, x);
    OrderSides(m.orders, m.levels, ls, side, x);
    ValsSame(m.orders, b.orders, Flat(ls.On(Opposite(side))));
  }

  /** Taking the emptied head out of the side is what a full fill does. */
  lemma FirstKey(s: seq<Order>)
    requires s != []
    ensures Search(s, s[0].client, s[0].oid) == 0 && RemoveAt(s, 0) == s[1..]
  {
    assert s[0].HasKey(s[0].client, s[0].oid);
  }

  // ----- insertion -----

  /** Every order before level i has a better price. */
  lemma PricesBefore(orders: seq<MEOrder>, levels: seq<MEOrdersAtPrice>, side: Side, g: seq<LevelList>, i: nat,
                     price: Price)
    requires Tower(orders, levels, side, g) && i <= |g|
    requires forall k :: 0 <= k < i ==> Better(side, levels[g[k].slot].value.price, price)
    ensures forall n :: 0 <= n < |Flat(g[..i])| ==> Better(side, Vals(orders, Flat(g[..i]))[n].price, price)
  {
    var f := Flat(g[..i]);
    forall n | 0 <= n < |f| ensures Better(side, Vals(orders, f)[n].price, price) {
      assert f[n] in f;
      var k, j := Locate(g[..i], f[n]);
      assert LevelOk(orders, levels, side, g[k]);
      assert OrderAt(orders, g[k].fifo[j], side, levels[g[k].slot].value.price);
    }
  }

  lemma PricesAfter(orders: seq<MEOrder>, levels: seq<MEOrdersAtPrice>, side: Side, g: seq<LevelList>, i: nat,
                    price: Price)
    requires Tower(orders, levels, side, g) && i <= |g|
    requires forall k :: i <= k < |g| ==> Better(side, price, levels[g[k].slot].value.price)
    ensures forall n :: 0 <= n < |Flat(g[i..])| ==> Better(side, price, Vals(orders, Flat(g[i..]))[n].price)
  {
    var f := Flat(g[i..]);
    forall n | 0 <= n < |f| ensures Better(side, price, Vals(orders, f)[n].price) {
      assert f[n] in f;
      var k, j := Locate(g[i..], f[n]);
      assert LevelOk(orders, levels, side, g[i + k]);
      assert OrderAt(orders, g[i + k].fifo[j], side, levels[g[i + k].slot].value.price);
    }
  }

  /** Everything at or before level i is at least as good as its price, everything after worse. */
  lemma PricesAround(orders: seq<MEOrder>, levels: seq<MEOrdersAtPrice>, side: Side, g: seq<LevelList>, i: nat)
    requires Tower(orders, levels, side, g) && i < |g| && side != INVALID
    ensures var price := levels[g[i].slot].value.price;
            var p := Vals(orders, Flat(g[..i]) + g[i].fifo);
            var q := Vals(orders, Flat(g[i + 1..]));
            && (forall n :: 0 <= n < |p| ==> !Better(side, price, p[n].price))
            && (forall n :: 0 <= n < |q| ==> Better(side, price, q[n].price))
            && p != [] && p[|p| - 1] == ValueAt(orders, g[i].fifo[|g[i].fifo| - 1])
            && p[|p| - 1].price == price
  {
    assert LevelOk(orders, levels, side, g[i]);
    var price := levels[g[i].slot].value.price;
    forall k | 0 <= k < i ensures Better(side, levels[g[k].slot].value.price, price) {
      assert Ahead(levels, side, g[k], g[i]);
    }
    forall k | i < k < |g| ensures Better(side, price, levels[g[k].slot].value.price) {
      assert Ahead(levels, side, g[i], g[k]);
    }
    PricesBefore(orders, levels, side, g, i, price);
    PricesAfter(orders, levels, side, g, i + 1, price);
    ValsConcat(orders, Flat(g[..i]), g[i].fifo);
    forall n | 0 <= n < |g[i].fifo| ensures Vals(orders, g[i].fifo)[n].price == price {
      assert OrderAt(orders, g[i].fifo[n], side, price);
    }
  }

  /** A slot put between at-least-as-good and worse orders is where Insert puts its order. */
  lemma InsertVals(orders: seq<MEOrder>, side: Side, p: seq<int>, x: int, q: seq<int>)
    requires forall n :: 0 <= n < |p| ==> !Better(side, ValueAt(orders, x).price, Vals(orders, p)[n].price)
    requires forall n :: 0 <= n < |q| ==> Better(side, ValueAt(orders, x).price, Vals(orders, q)[n].price)
    ensures Vals(orders, p + [x] + q) == Insert(side, Vals(orders, p + q), ValueAt(orders, x))
  {
    ValsConcat(orders, p, q);
    ValsConcat(orders, p + [x], q);
    ValsConcat(orders, p, [x]);
    assert Vals(orders, [x]) == [ValueAt(orders, x)];
    InsertAt(side, Vals(orders, p), Vals(orders, q), ValueAt(orders, x));
  }

  /** Appending to the level of its price is Insert. */
  lemma AppendIsInsert(orders: seq<MEOrder>, levels: seq<MEOrdersAtPrice>, side: Side, g: seq<LevelList>,
                       i: nat, x: int)
    requires Tower(orders, levels, side, g) && i < |g| && side != INVALID && 0 <= x < |orders|
    requires orders[x].value.price == levels[g[i].slot].value.price
    ensures Vals(orders, Flat(g[i := LevelList(g[i].slot, g[i].fifo + [x])]))
         == Insert(side, Vals(orders, Flat(g)), orders[x].value)
  {
    hide Flat, Vals, Insert, Ring, LevelOk, Better;
    var p, q := Flat(g[..i]) + g[i].fifo, Flat(g[i + 1..]);
    PricesAround(orders, levels, side, g, i);
    FlatSplit(g, i);
    FlatPlus(g, i, x);
    InsertVals(orders, side, p, x, q);
    assert Flat(g[i := LevelList(g[i].slot, g[i].fifo + [x])]) == p + [x] + q;
  }

  /** The last order of the level of a price has the priority that the next order gets. */
  lemma PriorityOfLevel(orders: seq<MEOrder>, levels: seq<MEOrdersAtPrice>, side: Side, g: seq<LevelList>, i: nat)
    requires Tower(orders, levels, side, g) && i < |g| && side != INVALID
    ensures g[i].fifo != []
    ensures NextPriority(Vals(orders, Flat(g)), levels[g[i].slot].value.price)
         == ValueAt(orders, g[i].fifo[|g[i].fifo| - 1]).priority
  {
    hide Flat, Vals, NextPriority, Ring;
    assert LevelOk(orders, levels, side, g[i]);
    var p, q := Flat(g[..i]) + g[i].fifo, Flat(g[i + 1..]);
    PricesAround(orders, levels, side, g, i);
    FlatSplit(g, i);
    ValsConcat(orders, p, q);
    PriorityOfLast(Vals(orders, p), Vals(orders, q), levels[g[i].slot].value.price);
  }

  lemma {:induction false} PriorityOfLast(p: seq<Order>, q: seq<Order>, price: Price)
    requires p != [] && p[|p| - 1].price == price
    requires forall n :: 0 <= n < |q| ==> q[n].price != price
    ensures NextPriority(p + q, price) == p[|p| - 1].priority
    decreases |q|
  {
    if q == [] {
      assert p + q == p;
    } else {
      var r := q[..|q| - 1];
      assert (p + q)[..|p + q| - 1] == p + r;
      PriorityOfLast(p, r, price);
    }
  }

  lemma {:induction false} PriorityOfNone(s: seq<Order>, price: Price)
    requires forall n :: 0 <= n < |s| ==> s[n].price != price
    ensures NextPriority(s, price) == 1
  {
    if s != [] {
      PriorityOfNone(s[..|s| - 1], price);
    }
  }

  /** A new level at its place is Insert. */
  lemma GrowIsInsert(orders: seq<MEOrder>, levels: seq<MEOrdersAtPrice>, side: Side, g: seq<LevelList>, i: nat,
                     y: int, x: int)
    requires Tower(orders, levels, side, g) && side != INVALID && 0 <= x < |orders| && 0 <= y < |levels|
    requires PlaceOf(levels, side, g, i, LevelList(y, [x])) && orders[x].value.price == levels[y].value.price
    ensures Vals(orders, Flat(Inserted(g, i, LevelList(y, [x]))))
         == Insert(side, Vals(orders, Flat(g)), orders[x].value)
  {
    var price := orders[x].value.price;
    forall k | 0 <= k < i ensures Better(side, levels[g[k].slot].value.price, price) {
      assert Ahead(levels, side, g[k], LevelList(y, [x]));
    }
    forall k | i <= k < |g| ensures Better(side, price, levels[g[k].slot].value.price) {
      assert Ahead(levels, side, LevelList(y, [x]), g[k]);
    }
    PricesBefore(orders, levels, side, g, i, price);
    PricesAfter(orders, levels, side, g, i, price);
    FlatCut(g, i);
    FlatInserted(g, i, LevelList(y, [x]));
    InsertVals(orders, side, Flat(g[..i]), x, Flat(g[i..]));
  }

  /** Without a level of the price, the next order gets priority 1. */
  lemma PriorityWithoutLevel(orders: seq<MEOrder>, levels: seq<MEOrdersAtPrice>, side: Side, g: seq<LevelList>,
                             price: Price)
    requires Tower(orders, levels, side, g)
    requires forall i :: 0 <= i < |g| ==> levels[g[i].slot].value.price != price
    ensures NextPriority(Vals(orders, Flat(g)), price) == 1
  {
    var f := Flat(g);
    forall n | 0 <= n < |f| ensures Vals(orders, f)[n].price != price {
      assert f[n] in f;
      var k, j := Locate(g, f[n]);
      assert LevelOk(orders, levels, side, g[k]);
      assert OrderAt(orders, g[k].fifo[j], side, levels[g[k].slot].value.price);
    }
    PriorityOfNone(Vals(orders, f), price);
  }

  // ----- counting -----

  /** Number of price levels of a sorted side. */
  function LevelCount(s: seq<Order>): nat {
    if s == [] then 0
    else (if |s| == 1 || s[0].price != s[1].price then 1 else 0) + LevelCount(s[1..])
  }

  lemma {:induction false} LevelCountFront(f: seq<Order>, s: seq<Order>)
    requires f != [] && forall i :: 0 <= i < |f| ==> f[i].price == f[0].price
    requires s != [] ==> s[0].price != f[0].price
    ensures LevelCount(f + s) == 1 + LevelCount(s)
    decreases |f|
  {
    if |f| == 1 {
      assert (f + s)[1..] == s;
    } else {
      assert (f + s)[1..] == f[1..] + s;
      assert (f + s)[1] == f[1];
      LevelCountFront(f[1..], s);
    }
  }

  lemma TowerTail(orders: seq<MEOrder>, levels: seq<MEOrdersAtPrice>, side: Side, g: seq<LevelList>)
    requires Tower(orders, levels, side, g) && g != []
    ensures Tower(orders, levels, side, g[1..])
  {
    forall i | 0 <= i < |g[1..]| ensures LevelOk(orders, levels, side, g[1..][i]) {
      assert LevelOk(orders, levels, side, g[i + 1]);
    }
    forall i, j | 0 <= i < j < |g[1..]| ensures Ahead(levels, side, g[1..][i], g[1..][j]) {
      assert Ahead(levels, side, g[i + 1], g[j + 1]);
    }
  }

  lemma LevelPrices(orders: seq<MEOrder>, levels: seq<MEOrdersAtPrice>, side: Side, l: LevelList)
    requires LevelOk(orders, levels, side, l)
    ensures l.fifo != []
    ensures forall i :: 0 <= i < |l.fifo| ==> Vals(orders, l.fifo)[i].price == levels[l.slot].value.price
  {
    forall i | 0 <= i < |l.fifo| ensures Vals(orders, l.fifo)[i].price == levels[l.slot].value.price {
      assert OrderAt(orders, l.fifo[i], side, levels[l.slot].value.price);
    }
  }

  lemma {:induction false} LevelsCounted(orders: seq<MEOrder>, levels: seq<MEOrdersAtPrice>, side: Side,
                                         g: seq<LevelList>)
    requires Tower(orders, levels, side, g) && side != INVALID
    ensures LevelCount(Vals(orders, Flat(g))) == |g|
  {
    if g != [] {
      var s := Vals(orders, Flat(g[1..]));
      TowerTail(orders, levels, side, g);
      LevelsCounted(orders, levels, side, g[1..]);
      assert LevelOk(orders, levels, side, g[0]);
      LevelPrices(orders, levels, side, g[0]);
      ValsConcat(orders, g[0].fifo, Flat(g[1..]));
      if |g| > 1 {
        assert LevelOk(orders, levels, side, g[1]) && Ahead(levels, side, g[0], g[1]);
        LevelPrices(orders, levels, side, g[1]);
        assert Flat(g[1..])[0] == g[1].fifo[0];
      }
      LevelCountFront(Vals(orders, g[0].fifo), s);
    }
  }

  lemma {:induction false} FlatInjective(orders: seq<MEOrder>, levels: seq<MEOrdersAtPrice>, side: Side,
                                         g: seq<LevelList>)
    requires Tower(orders, levels, side, g)
    ensures Injective(Flat(g))
  {
    if g != [] {
      TowerTail(orders, levels, side, g);
      FlatInjective(orders, levels, side, g[1..]);
      assert LevelOk(orders, levels, side, g[0]);
      FifoInjective(orders, g[0].fifo, side, levels[g[0].slot].value.price);
      forall x | x in g[0].fifo ensures x !in Flat(g[1..]) {
        forall p | 0 <= p < |g[1..]| ensures x !in g[1..][p].fifo {
          LevelsApart(orders, levels, side, g, 0, p + 1, x);
        }
        NotInFlat(g[1..], x);
      }
      InjectiveConcat(g[0].fifo, Flat(g[1..]));
    }
  }

  lemma InjectiveConcat(f: seq<int>, h: seq<int>)
    requires Injective(f) && Injective(h) && forall x :: x in f ==> x !in h
    ensures Injective(f + h)
  {
    forall i, j | 0 <= i < j < |f + h| ensures (f + h)[i] != (f + h)[j] {
      if i < |f| <= j {
        assert f[i] in f && h[j - |f|] in h;
      }
    }
  }

  function Below(n: nat): (s: set<int>)
    ensures |s| == n && forall x :: x in s <==> 0 <= x < n
  {
    if n == 0 then {} else Below(n - 1) + {n - 1}
  }

  function Elements(s: seq<int>): set<int> {
    set x | x in s
  }

  lemma {:induction false} InjectiveSize(s: seq<int>)
    requires Injective(s)
    ensures |Elements(s)| == |s|
  {
    if s != [] {
      var t := s[..|s| - 1];
      InjectiveSize(t);
      assert s[|s| - 1] !in t;
      assert Elements(s) == Elements(t) + {s[|s| - 1]};
    }
  }

  lemma SubsetOfSameSize(a: set<int>, b: set<int>)
    requires a <= b
    ensures |a| == |b| <==> a == b
  {
    assert b == a + (b - a);
  }

  /** Distinct slots cover a pool of n exactly when there are n of them. */
  lemma Covers(s: seq<int>, n: nat)
    requires Injective(s) && Within(s, n)
    ensures |s| == n <==> forall x :: 0 <= x < n ==> x in s
  {
    InjectiveSize(s);
    assert Elements(s) <= Below(n) by {
      forall x | x in s ensures 0 <= x < n {
        var i :| 0 <= i < |s| && s[i] == x;
      }
    }
    SubsetOfSameSize(Elements(s), Below(n));
    if forall x :: 0 <= x < n ==> x in s {
      assert Elements(s) == Below(n);
    }
    if |s| == n {
      forall x | 0 <= x < n ensures x in s {
        assert x in Below(n);
      }
    }
  }

  // ----- pools run out -----

  lemma SlotsWithin(levels: seq<MEOrdersAtPrice>, g: seq<LevelList>)
    requires Ring(levels, Slots(g))
    ensures Within(Slots(g), |levels|)
  {
  }

  /** The level pool is full exactly when all its slots are levels of the two sides, plus the one
      being added. */
  lemma LevelsExhausted(m: Memory, ls: Lists, order: int, y: int)
    requires ListsOk(m, ls, order, y) && !InLevels(ls, y) && 0 <= y < |m.levels|
    ensures MemPools.Exhausted(m.levelFree)
       <==> |ls.bids| + |ls.asks| + 1 == |m.levelFree|
  {
    hide Injective, Within, MemPools.Exhausted, OrdersLive, TableOk, LevelOk, Ahead;
    SlotsInjective(m.orders, m.levels, BUY, ls.bids);
    SlotsInjective(m.orders, m.levels, SELL, ls.asks);
    forall z | z in Slots(ls.bids) ensures z !in Slots(ls.asks) {
      LevelSides(m.orders, m.levels, ls, BUY, z);
    }
    SlotsWithin(m.levels, ls.bids);
    SlotsWithin(m.levels, ls.asks);
    CoversLive(m.levelFree, Slots(ls.bids), Slots(ls.asks), y);
  }

  /** Slots of two lists and one more are those in use; they are all when there are so many. */
  lemma CoversLive(free: seq<bool>, s: seq<int>, t: seq<int>, x: int)
    requires Injective(s) && Within(s, |free|) && Injective(t) && Within(t, |free|) && 0 <= x < |free|
    requires x !in s && x !in t && forall z :: z in s ==> z !in t
    requires forall k :: 0 <= k < |free| ==> (!free[k] <==> k in s || k in t || k == x)
    ensures MemPools.Exhausted(free) <==> |s| + |t| + 1 == |free|
  {
    InjectiveConcat(s, t);
    InjectiveConcat(s + t, [x]);
    var all := s + t + [x];
    Covers(all, |free|);
    assert forall k :: k in all <==> k in s || k in t || k == x;
  }

  lemma FlatWithin(orders: seq<MEOrder>, levels: seq<MEOrdersAtPrice>, side: Side, g: seq<LevelList>)
    requires SideOk(orders, levels, side, g)
    ensures Within(Flat(g), |orders|)
  {
    forall i | 0 <= i < |Flat(g)| ensures 0 <= Flat(g)[i] < |orders| {
      FlatOrder(orders, levels, side, g, Flat(g)[i]);
    }
  }

  /** The order pool is full exactly when all its slots are resting orders, plus the one being
      added. */
  lemma OrdersExhausted(m: Memory, ls: Lists, x: int)
    requires ListsOk(m, ls, x, -1) && !InLists(ls, x) && 0 <= x < |m.orders|
    ensures MemPools.Exhausted(m.orderFree)
       <==> |Flat(ls.bids)| + |Flat(ls.asks)| + 1 == |m.orderFree|
  {
    hide Flat, Tower, Ring, Injective, Within, MemPools.Exhausted, LevelsLive, TableOk;
    FlatInjective(m.orders, m.levels, BUY, ls.bids);
    FlatInjective(m.orders, m.levels, SELL, ls.asks);
    forall z | z in Flat(ls.bids) ensures z !in Flat(ls.asks) {
      OrderSides(m.orders, m.levels, ls, BUY, z);
    }
    FlatWithin(m.orders, m.levels, BUY, ls.bids);
    FlatWithin(m.orders, m.levels, SELL, ls.asks);
    CoversLive(m.orderFree, Flat(ls.bids), Flat(ls.asks), x);
  }

  // ----- looking a price up -----

  /** No resting order has another price with the same table index. */
  ghost predicate NoCollision(s: seq<Order>, price: Price, n: nat)
    requires n > 0
  {
    forall k :: 0 <= k < |s| ==> PriceToIndex(s[k].price, n) == PriceToIndex(price, n) ==> s[k].price == price
  }

  ghost predicate HasPrice(s: seq<Order>, price: Price) {
    exists k :: 0 <= k < |s| && s[k].price == price
  }

  /** Every level shows its price in the flat side. */
  lemma LevelShows(orders: seq<MEOrder>, levels: seq<MEOrdersAtPrice>, side: Side, g: seq<LevelList>, i: nat)
      returns (k: nat)
    requires Tower(orders, levels, side, g) && i < |g|
    ensures k < |Flat(g)| && 0 <= g[i].slot < |levels|
    ensures Vals(orders, Flat(g))[k].price == levels[g[i].slot].value.price
  {
    assert LevelOk(orders, levels, side, g[i]);
    assert OrderAt(orders, g[i].fifo[0], side, levels[g[i].slot].value.price);
    FlatSplit(g, i);
    k := |Flat(g[..i])|;
    assert Flat(g)[k] == g[i].fifo[0];
  }

  /** A price in the flat side is the price of a level. */
  lemma PriceHasLevel(orders: seq<MEOrder>, levels: seq<MEOrdersAtPrice>, side: Side, g: seq<LevelList>, k: nat)
      returns (i: nat)
    requires Tower(orders, levels, side, g) && k < |Flat(g)|
    ensures i < |g| && 0 <= g[i].slot < |levels|
    ensures Vals(orders, Flat(g))[k].price == levels[g[i].slot].value.price
  {
    var x := Flat(g)[k];
    assert x in Flat(g);
    var p, j := Locate(g, x);
    i := p;
    assert LevelOk(orders, levels, side, g[i]);
    assert OrderAt(orders, g[i].fifo[j], side, levels[g[i].slot].value.price);
  }

  /** The price table has an entry for the price exactly when the own side has a level of that
      price, and then it is that level. */
  lemma PriceFound(m: Memory, ls: Lists, order: int, level: int, side: Side, price: Price) returns (i: nat)
    requires ListsOk(m, ls, order, level) && side != INVALID
    requires NoCollision(Vals(m.orders, Flat(ls.On(side))), price, |m.table|)
    requires NoCollision(Vals(m.orders, Flat(ls.On(Opposite(side)))), price, |m.table|)
    requires !HasPrice(Vals(m.orders, Flat(ls.On(Opposite(side)))), price)
    ensures var g := ls.On(side);
            var y := m.table[PriceToIndex(price, |m.table|)];
            && (y != -1 <==> HasPrice(Vals(m.orders, Flat(g)), price))
            && (y != -1 ==> i < |g| && g[i].slot == y && 0 <= y < |m.levels| && m.levels[y].value.price == price)
            && (y == -1 ==> forall k :: 0 <= k < |g| ==>
                              0 <= g[k].slot < |m.levels| && m.levels[g[k].slot].value.price != price)
  {
    var g := ls.On(side);
    var y := m.table[PriceToIndex(price, |m.table|)];
    OneSideOk(m.orders, m.levels, ls, side);
    i := 0;
    if y == -1 {
      forall k | 0 <= k < |g| ensures 0 <= g[k].slot < |m.levels| && m.levels[g[k].slot].value.price != price {
        LevelFound(m, ls, order, level, side, k);
      }
      NoLevelNoPrice(m.orders, m.levels, side, g, price);
    } else {
      i := EntrySide(m, ls, order, level, side, price);
      var k := LevelShows(m.orders, m.levels, side, g, i);
    }
  }

  lemma NoLevelNoPrice(orders: seq<MEOrder>, levels: seq<MEOrdersAtPrice>, side: Side, g: seq<LevelList>, price: Price)
    requires Tower(orders, levels, side, g)
    requires forall k :: 0 <= k < |g| ==> 0 <= g[k].slot < |levels| && levels[g[k].slot].value.price != price
    ensures !HasPrice(Vals(orders, Flat(g)), price)
  {
    forall k | 0 <= k < |Flat(g)| ensures Vals(orders, Flat(g))[k].price != price {
      var i := PriceHasLevel(orders, levels, side, g, k);
    }
  }

  /** An entry of the price table is not a level of the other side. */
  lemma EntryNotOpposite(m: Memory, ls: Lists, side: Side, price: Price)
    requires SidesOk(m.orders, m.levels, ls) && side != INVALID && |m.table| > 0
    requires NoCollision(Vals(m.orders, Flat(ls.On(side))), price, |m.table|)
    requires !HasPrice(Vals(m.orders, Flat(ls.On(side))), price)
    ensures forall j :: 0 <= j < |ls.On(side)| ==>
              && 0 <= ls.On(side)[j].slot < |m.levels|
              && PriceToIndex(m.levels[ls.On(side)[j].slot].value.price, |m.table|) != PriceToIndex(price, |m.table|)
  {
    var h := ls.On(side);
    OneSideOk(m.orders, m.levels, ls, side);
    forall j | 0 <= j < |h| ensures 0 <= h[j].slot < |m.levels|
        && PriceToIndex(m.levels[h[j].slot].value.price, |m.table|) != PriceToIndex(price, |m.table|)
    {
      var k := LevelShows(m.orders, m.levels, side, h, j);
      assert Vals(m.orders, Flat(h))[k].price != price;
    }
  }

  /** An entry of the price table belongs to a level of the own side, of exactly that price. */
  lemma EntrySide(m: Memory, ls: Lists, order: int, level: int, side: Side, price: Price) returns (i: nat)
    requires ListsOk(m, ls, order, level) && side != INVALID
    requires NoCollision(Vals(m.orders, Flat(ls.On(side))), price, |m.table|)
    requires NoCollision(Vals(m.orders, Flat(ls.On(Opposite(side)))), price, |m.table|)
    requires !HasPrice(Vals(m.orders, Flat(ls.On(Opposite(side)))), price)
    requires m.table[PriceToIndex(price, |m.table|)] != -1
    ensures var g := ls.On(side);
            var y := m.table[PriceToIndex(price, |m.table|)];
            i < |g| && g[i].slot == y && 0 <= y < |m.levels| && m.levels[y].value.price == price
  {
    var c := PriceToIndex(price, |m.table|);
    var y := m.table[c];
    OneSideOk(m.orders, m.levels, ls, side);
    assert EntryOk(m.levels, m.table, ls, c);
    InSide(ls, side, y);
    EntryNotOpposite(m, ls, Opposite(side), price);
    assert y in Slots(ls.On(side));
    i :| 0 <= i < |ls.On(side)| && Slots(ls.On(side))[i] == y;
    var k := LevelShows(m.orders, m.levels, side, ls.On(side), i);
  }

  // ----- an order joins the book -----

  /** Order x has joined the lists of its side where Insert puts it; contents and the id table
      are as before. */
  ghost predicate Joined(m0: Memory, ls0: Lists, m1: Memory, ls1: Lists, side: Side, x: int) {
    && ListsOk(m1, ls1, -1, -1) && Plus(ls0, ls1, x)
    && SameValues(m0.orders, m1.orders) && m1.index == m0.index
    && side != INVALID && 0 <= x < |m0.orders|
    && Extends(ls0, ls1, side, x) && ls1.On(Opposite(side)) == ls0.On(Opposite(side))
    && Vals(m1.orders, Flat(ls1.On(side)))
       == Insert(side, Vals(m0.orders, Flat(ls0.On(side))), m0.orders[x].value)
  }

  /** Every order of level i is older than x. */
  lemma NewestOf(m: Memory, ls: Lists, side: Side, i: nat, x: int, nextId: nat,
                 rs: seq<ClientResponse>, us: seq<MarketUpdate>)
    requires ListsOk(m, ls, x, -1) && side != INVALID && i < |ls.On(side)| && 0 <= x < |m.orders|
    requires IdsBelow(MarketOf(m, ls, nextId, rs, us), m.orders[x].value.moid)
    ensures forall j :: 0 <= j < |ls.On(side)[i].fifo| ==> Older(m.orders, ls.On(side)[i].fifo[j], x)
  {
    hide ListsOk;
    var g := ls.On(side);
    forall j | 0 <= j < |g[i].fifo| ensures Older(m.orders, g[i].fifo[j], x) {
      OrderFound(m, ls, x, -1, side, i, j);
      FlatIndex(g, i, j);
      assert Vals(m.orders, Flat(g))[|Flat(g[..i])| + j] == m.orders[g[i].fifo[j]].value;
    }
  }

  lemma AppendJoins(m: Memory, ls: Lists, side: Side, i: nat, x: int)
    requires ListsOk(m, ls, x, -1) && side != INVALID && i < |ls.On(side)| && !InLists(ls, x)
    requires 0 <= ls.On(side)[i].slot < |m.levels|
    requires OrderAt(m.orders, x, side, m.levels[ls.On(side)[i].slot].value.price)
    requires forall j :: 0 <= j < |ls.On(side)[i].fifo| ==> Older(m.orders, ls.On(side)[i].fifo[j], x)
    ensures var l := ls.On(side)[i];
            && l.fifo != [] && Within(l.fifo, |m.orders|)
            && Joined(m, ls, m.(orders := Link(m.orders, l.fifo[|l.fifo| - 1], l.fifo[0], x)),
                      ls.With(side, ls.On(side)[i := LevelList(l.slot, l.fifo + [x])]), side, x)
  {
    hide Flat, Vals, Insert, Tower, IndexOk, Extends, Plus, TableOk, OrdersLive, LevelsLive, Older, Link;
    var g := ls.On(side);
    var l := g[i];
    AppendKeepsLists(m, ls, side, i, x);
    OneSideOk(m.orders, m.levels, ls, side);
    AppendIsInsert(m.orders, m.levels, side, g, i, x);
    AppendExtends(ls, side, i, x);
    var b := Link(m.orders, l.fifo[|l.fifo| - 1], l.fifo[0], x);
    ValsSame(m.orders, b, Flat(g[i := LevelList(l.slot, l.fifo + [x])]));
  }

  /** The memory after x is linked to itself and level slot y taken for it. */
  function WithLevel(m: Memory, x: int, y: int): Memory
    requires 0 <= x < |m.orders| && 0 <= y < |m.levels| == |m.levelFree|
  {
    var o := m.orders[x].value;
    m.(orders := m.orders[x := Node(o, x, x)],
       levels := m.levels[y := Node(PriceLevel(o.side, o.price, x), -1, -1)],
       levelFree := m.levelFree[y := false])
  }

  lemma LevelTaken(m: Memory, ls: Lists, x: int, y: int)
    requires ListsOk(m, ls, x, -1) && !InLists(ls, x) && 0 <= x < |m.orders|
    requires 0 <= y < |m.levels| && m.levelFree[y]
    ensures !InLevels(ls, y)
    ensures var b := WithLevel(m, x, y);
            && ListsOk(b, ls, x, y)
            && LevelOk(b.orders, b.levels, m.orders[x].value.side, LevelList(y, [x]))
            && (MemPools.Exhausted(b.levelFree)
                <==> |ls.bids| + |ls.asks| + 1 == |b.levelFree|)
  {
    var o := m.orders[x].value;
    var m1 := m.(orders := m.orders[x := Node(o, x, x)]);
    TouchOrder(m, ls, x, Node(o, x, x));
    TakeLevel(m1, ls, x, y, Node(PriceLevel(o.side, o.price, x), -1, -1));
    FifoSingle(m1.orders, x);
    LevelsExhausted(WithLevel(m, x, y), ls, x, y);
  }

  /** A new level for x, linked in at its place, is Insert. */
  lemma LevelJoins(m: Memory, ls: Lists, b: Memory, side: Side, k: nat, y: int, x: int, after: Memory)
    requires ListsOk(m, ls, x, -1) && side != INVALID && 0 <= x < |m.orders| && 0 <= y < |m.levels| == |m.levelFree|
    requires b == WithLevel(m, x, y) && m.orders[x].value.side == side
    requires SidesOk(b.orders, b.levels, ls)
    requires PlaceOf(b.levels, side, ls.On(side), k, LevelList(y, [x]))
    requires after.orders == b.orders && after.index == m.index
    requires ListsOk(after, ls.With(side, Inserted(ls.On(side), k, LevelList(y, [x]))), -1, -1)
    requires Plus(ls, ls.With(side, Inserted(ls.On(side), k, LevelList(y, [x]))), x)
    ensures Joined(m, ls, after, ls.With(side, Inserted(ls.On(side), k, LevelList(y, [x]))), side, x)
  {
    hide Flat, Vals, Insert, Tower, ListsOk, Extends, Plus, Ahead;
    OneSideOk(b.orders, b.levels, ls, side);
    GrowIsInsert(b.orders, b.levels, side, ls.On(side), k, y, x);
    GrowExtends(ls, side, k, y, x);
    ValsSame(m.orders, b.orders, Flat(ls.On(side)));
  }

  /** No level could be had for order x: it is in no list, its level slot may be taken, and the
      lists and the contents of all orders are as before. */
  ghost predicate Stuck(m0: Memory, ls0: Lists, m1: Memory, ls1: Lists, x: int) {
    && ls1 == ls0 && SameValues(m0.orders, m1.orders) && m1.index == m0.index
    && exists y :: ListsOk(m1, ls1, x, y)
  }

  /** Everything agrees but for order slot x and, if y is not -1, level slot y, which are taken and
      in no list. */
  ghost predicate LeftOver(m: Memory, ls: Lists, x: int, y: int) {
    ListsOk(m, ls, x, y) && IndexOk(m.orders, m.index, ls) && !InLists(ls, x)
  }

  lemma StuckMarket(m0: Memory, ls0: Lists, m1: Memory, ls1: Lists, x: int, nextId: nat,
                    rs: seq<ClientResponse>, us: seq<MarketUpdate>) returns (y: int)
    requires Stuck(m0, ls0, m1, ls1, x) && IndexOk(m0.orders, m0.index, ls0) && !InLists(ls0, x)
    ensures LeftOver(m1, ls1, x, y)
    ensures MarketOf(m1, ls1, nextId, rs, us) == MarketOf(m0, ls0, nextId, rs, us)
  {
    y :| ListsOk(m1, ls1, x, y);
    IndexFrame(m0.orders, m1.orders, m0.index, ls0);
    ValsSame(m0.orders, m1.orders, Flat(ls0.bids));
    ValsSame(m0.orders, m1.orders, Flat(ls0.asks));
  }

  /** The memory after the id table knows x. */
  function Known(m: Memory, x: int): Memory
    requires 0 <= x < |m.orders| && m.orders[x].value.client < |m.index|
    requires m.orders[x].value.oid < |m.index[m.orders[x].value.client]|
  {
    var c, o := m.orders[x].value.client, m.orders[x].value.oid;
    m.(index := m.index[c := m.index[c][o := x]])
  }

  lemma JoinedMarket(m0: Memory, ls0: Lists, m1: Memory, ls1: Lists, side: Side, x: int, nextId: nat,
                     rs: seq<ClientResponse>, us: seq<MarketUpdate>)
    requires Joined(m0, ls0, m1, ls1, side, x) && IndexOk(m0.orders, m0.index, ls0)
    requires m0.orders[x].value.client < |m0.index|
    requires m0.orders[x].value.oid < |m0.index[m0.orders[x].value.client]|
    requires m0.index[m0.orders[x].value.client][m0.orders[x].value.oid] == -1
    ensures |m1.orders| == |m0.orders| && m1.orders[x].value == m0.orders[x].value
    ensures var m2 := Known(m1, x);
            var before := MarketOf(m0, ls0, nextId, rs, us);
            && ListsOk(m2, ls1, -1, -1)
            && IndexOk(m2.orders, m2.index, ls1)
            && Extends(ls0, ls1, side, x)
            && MarketOf(m2, ls1, nextId, rs, us)
               == before.With(side, Insert(side, before.On(side), m0.orders[x].value))
  {
    IndexFrame(m0.orders, m1.orders, m0.index, ls0);
    IndexSet(m1.orders, m1.index, ls0, ls1, x);
    ValsSame(m0.orders, m1.orders, Flat(ls0.On(Opposite(side))));
  }

  /** A slot just taken from the order pool changes nothing that the book shows. */
  lemma OrderTaken(m: Memory, ls: Lists, x: int, node: MEOrder, nextId: nat,
                   rs: seq<ClientResponse>, us: seq<MarketUpdate>)
    requires ListsOk(m, ls, -1, -1) && IndexOk(m.orders, m.index, ls) && 0 <= x < |m.orders| && m.orderFree[x]
    ensures !InLists(ls, x)
    ensures var b := m.(orders := m.orders[x := node], orderFree := m.orderFree[x := false]);
            && ListsOk(b, ls, x, -1)
            && IndexOk(b.orders, b.index, ls)
            && MarketOf(b, ls, nextId, rs, us) == MarketOf(m, ls, nextId, rs, us)
            && (MemPools.Exhausted(b.orderFree)
                <==> |MarketOf(m, ls, nextId, rs, us).bids| + |MarketOf(m, ls, nextId, rs, us).asks| + 1
                     == |b.orderFree|)
  {
    var b := m.(orders := m.orders[x := node], orderFree := m.orderFree[x := false]);
    TakeOrder(m, ls, x, node);
    IndexFrame(m.orders, b.orders, m.index, ls);
    ValsSame(m.orders, b.orders, Flat(ls.bids));
    ValsSame(m.orders, b.orders, Flat(ls.asks));
    OrdersExhausted(b, ls, x);
  }

  /** Which side, level and place an order in use has. */
  lemma WhereIs(m: Memory, ls: Lists, x: int) returns (side: Side, i: nat, j: nat)
    requires ListsOk(m, ls, -1, -1) && InLists(ls, x)
    ensures side != INVALID && 0 <= x < |m.orders| && m.orders[x].value.side == side
    ensures i < |ls.On(side)| && j < |ls.On(side)[i].fifo| && ls.On(side)[i].fifo[j] == x
  {
    side := if x in Flat(ls.bids) then BUY else SELL;
    i, j := Locate(ls.On(side), x);
    OrderSides(m.orders, m.levels, ls, side, x);
  }

  /** An entry of the id table is a resting order with that key. */
  lemma CellShows(m: Memory, ls: Lists, c: ClientId, o: OrderId, nextId: nat,
                  rs: seq<ClientResponse>, us: seq<MarketUpdate>)
    requires ListsOk(m, ls, -1, -1) && IndexOk(m.orders, m.index, ls)
    requires c < |m.index| && o < |m.index[c]| && m.index[c][o] != -1
    ensures InLists(ls, m.index[c][o]) && 0 <= m.index[c][o] < |m.orders|
    ensures m.orders[m.index[c][o]].value.HasKey(c, o)
    ensures !KeyFree(MarketOf(m, ls, nextId, rs, us), c, o)
  {
    assert CellOk(m.orders, m.index, ls, c, o);
    var x := m.index[c][o];
    if x in Flat(ls.bids) {
      var k :| 0 <= k < |Flat(ls.bids)| && Flat(ls.bids)[k] == x;
      assert MarketOf(m, ls, nextId, rs, us).bids[k].HasKey(c, o);
    } else {
      var k :| 0 <= k < |Flat(ls.asks)| && Flat(ls.asks)[k] == x;
      assert MarketOf(m, ls, nextId, rs, us).asks[k].HasKey(c, o);
    }
  }

  /** Without an entry, or out of the table's range, no resting order has the key. */
  lemma CellEmpty(m: Memory, ls: Lists, c: ClientId, o: OrderId, nextId: nat,
                  rs: seq<ClientResponse>, us: seq<MarketUpdate>)
    requires IndexOk(m.orders, m.index, ls)
    requires c >= |m.index| || o >= |m.index[c]| || m.index[c][o] == -1
    ensures KeyFree(MarketOf(m, ls, nextId, rs, us), c, o)
  {
    var market := MarketOf(m, ls, nextId, rs, us);
    NoneWithKey(m, ls, BUY, c, o);
    NoneWithKey(m, ls, SELL, c, o);
    assert market.bids == Vals(m.orders, Flat(ls.On(BUY)));
    assert market.asks == Vals(m.orders, Flat(ls.On(SELL)));
  }

  lemma NoneWithKey(m: Memory, ls: Lists, side: Side, c: ClientId, o: OrderId)
    requires IndexOk(m.orders, m.index, ls) && side != INVALID
    requires c >= |m.index| || o >= |m.index[c]| || m.index[c][o] == -1
    ensures forall k :: 0 <= k < |Flat(ls.On(side))| ==> !Vals(m.orders, Flat(ls.On(side)))[k].HasKey(c, o)
  {
    var f := Flat(ls.On(side));
    forall k | 0 <= k < |f| ensures !Vals(m.orders, f)[k].HasKey(c, o) {
      assert f[k] in f;
      InSide(ls, side, f[k]);
      assert Indexed(m.orders, m.index, f[k]);
    }
  }

  lemma CellOfFreeKey(m: Memory, ls: Lists, c: ClientId, o: OrderId, nextId: nat,
                      rs: seq<ClientResponse>, us: seq<MarketUpdate>)
    requires ListsOk(m, ls, -1, -1) && IndexOk(m.orders, m.index, ls)
    requires c < |m.index| && o < |m.index[c]| && KeyFree(MarketOf(m, ls, nextId, rs, us), c, o)
    ensures m.index[c][o] == -1
  {
    if m.index[c][o] != -1 {
      CellShows(m, ls, c, o, nextId, rs, us);
    }
  }

  lemma CountLevels(m: Memory, ls: Lists, order: int, level: int)
    requires ListsOk(m, ls, order, level)
    ensures LevelCount(Vals(m.orders, Flat(ls.bids))) == |ls.bids|
    ensures LevelCount(Vals(m.orders, Flat(ls.asks))) == |ls.asks|
  {
    LevelsCounted(m.orders, m.levels, BUY, ls.bids);
    LevelsCounted(m.orders, m.levels, SELL, ls.asks);
  }

  /** When storing the rest of an order makes the process exit: the order slot it takes is the
      last free one, or its price has no level yet and the level slot is the last free one. */
  ghost predicate RunsOut(p: Matched, r: Request, orderSlots: nat, levelSlots: nat)
    requires r.New?
  {
    && p.leaves > 0
    && (|| |p.market.bids| + |p.market.asks| + 1 == orderSlots
        || (!HasPrice(p.market.On(r.side), r.price)
            && LevelCount(p.market.bids) + LevelCount(p.market.asks) + 1 == levelSlots))
  }

  /** What the tables need to store the rest of an order: an unused key in range and a price
      whose table index no other resting price has. */
  ghost predicate Storable(p: Matched, r: Request, tableSize: nat, clients: nat, orderIds: nat)
    requires r.New? && tableSize > 0
  {
    p.leaves > 0 ==>
      && KeyFree(p.market, r.client, r.oid)
      && r.client < clients && r.oid < orderIds
      && NoCollision(p.market.bids, r.price, tableSize)
      && NoCollision(p.market.asks, r.price, tableSize)
  }

  /** After matching, no opposite order has the price of what is left. */
  lemma NoOppositePrice(m: Market, r: Request)
    requires Good(m) && r.New? && r.side != INVALID && MatchPhase(m, r).leaves > 0
    ensures !HasPrice(MatchPhase(m, r).market.On(Opposite(r.side)), r.price)
  {
    MatchPhaseGood(m, r);
    var s := MatchPhase(m, r).market.On(Opposite(r.side));
    forall k | 0 <= k < |s| ensures s[k].price != r.price {
      assert if r.side == BUY then r.price < s[k].price else s[k].price < r.price;
    }
  }

  /** A fresh memory stands for the empty market. */
  lemma FreshMemory(m: Memory)
    requires |m.orders| == |m.orderFree| && |m.levels| == |m.levelFree| && |m.table| > 0
    requires forall x :: 0 <= x < |m.orderFree| ==> m.orderFree[x]
    requires forall y :: 0 <= y < |m.levelFree| ==> m.levelFree[y]
    requires forall k :: 0 <= k < |m.table| ==> m.table[k] == -1
    requires forall c, o :: 0 <= c < |m.index| && 0 <= o < |m.index[c]| ==> m.index[c][o] == -1
    requires m.bids == -1 && m.asks == -1
    ensures ListsOk(m, Lists([], []), -1, -1) && IndexOk(m.orders, m.index, Lists([], []))
    ensures MarketOf(m, Lists([], []), 1, [], []) == EMPTY && Good(EMPTY)
  {
    assert Slots([]) == [];
  }

  // ----- the lists determine the rest -----

  lemma SameOrders(a: seq<MEOrder>, b: seq<MEOrder>, f: seq<int>, x: int)
    requires Vals(a, f) == Vals(b, f) && x in f && 0 <= x < |a| && 0 <= x < |b|
    ensures a[x].value == b[x].value
  {
    var k :| 0 <= k < |f| && f[k] == x;
    assert Vals(a, f)[k] == Vals(b, f)[k];
  }

  lemma SameLevelPrice(m: Memory, b: Memory, ls: Lists, side: Side, i: nat)
    requires ListsOk(m, ls, -1, -1) && ListsOk(b, ls, -1, -1) && side != INVALID && i < |ls.On(side)|
    requires Vals(m.orders, Flat(ls.On(side))) == Vals(b.orders, Flat(ls.On(side)))
    ensures var y := ls.On(side)[i].slot;
            0 <= y < |m.levels| && 0 <= y < |b.levels| && m.levels[y].value.price == b.levels[y].value.price
  {
    var x := FirstOf(m, ls, side, i);
    OrderFound(m, ls, -1, -1, side, i, 0);
    OrderFound(b, ls, -1, -1, side, i, 0);
    InFlat(ls.On(side), i, x);
    SameOrders(m.orders, b.orders, Flat(ls.On(side)), x);
  }

  lemma FirstOf(m: Memory, ls: Lists, side: Side, i: nat) returns (x: int)
    requires ListsOk(m, ls, -1, -1) && side != INVALID && i < |ls.On(side)|
    ensures ls.On(side)[i].fifo != [] && x == ls.On(side)[i].fifo[0]
  {
    FirstAndLast(m, ls, -1, side, i);
    x := ls.On(side)[i].fifo[0];
  }

  lemma SamePrices(m: Memory, b: Memory, ls: Lists)
    requires ListsOk(m, ls, -1, -1) && ListsOk(b, ls, -1, -1)
    requires Vals(m.orders, Flat(ls.bids)) == Vals(b.orders, Flat(ls.bids))
    requires Vals(m.orders, Flat(ls.asks)) == Vals(b.orders, Flat(ls.asks))
    ensures forall y :: InLevels(ls, y) ==>
              0 <= y < |m.levels| && 0 <= y < |b.levels| && m.levels[y].value.price == b.levels[y].value.price
  {
    forall y | InLevels(ls, y) ensures 0 <= y < |m.levels| && 0 <= y < |b.levels|
                                       && m.levels[y].value.price == b.levels[y].value.price
    {
      var side := if y in Slots(ls.bids) then BUY else SELL;
      var i :| 0 <= i < |ls.On(side)| && Slots(ls.On(side))[i] == y;
      SameLevelPrice(m, b, ls, side, i);
    }
  }

  lemma TableDetermined(k: seq<MEOrdersAtPrice>, l: seq<MEOrdersAtPrice>, t: seq<int>, u: seq<int>, ls: Lists)
    requires TableOk(k, t, ls) && TableOk(l, u, ls) && |t| == |u|
    requires forall y :: InLevels(ls, y) ==>
               0 <= y < |k| && 0 <= y < |l| && k[y].value.price == l[y].value.price
    ensures t == u
  {
    forall c | 0 <= c < |t| ensures t[c] == u[c] {
      assert EntryOk(k, t, ls, c) && EntryOk(l, u, ls, c);
      if t[c] != -1 { assert Tabled(l, u, t[c]); }
      if u[c] != -1 { assert Tabled(k, t, u[c]); }
    }
  }

  lemma IndexDetermined(a: seq<MEOrder>, b: seq<MEOrder>, t: seq<seq<int>>, u: seq<seq<int>>, ls: Lists)
    requires IndexOk(a, t, ls) && IndexOk(b, u, ls)
    requires |t| == |u| && forall c :: 0 <= c < |t| ==> |t[c]| == |u[c]|
    requires forall x :: InLists(ls, x) ==> 0 <= x < |a| && 0 <= x < |b| && a[x].value == b[x].value
    ensures t == u
  {
    forall c | 0 <= c < |t| ensures t[c] == u[c] {
      forall o | 0 <= o < |t[c]| ensures t[c][o] == u[c][o] {
        assert CellOk(a, t, ls, c, o) && CellOk(b, u, ls, c, o);
        if t[c][o] != -1 { assert Indexed(b, u, t[c][o]); }
        if u[c][o] != -1 { assert Indexed(a, t, u[c][o]); }
      }
    }
  }

  /** Which slots the lists visit and what the orders are determines which pool slots are in use,
      both tables and both heads. */
  lemma ListsDetermine(m: Memory, b: Memory, ls: Lists)
    requires ListsOk(m, ls, -1, -1) && ListsOk(b, ls, -1, -1)
    requires IndexOk(m.orders, m.index, ls) && IndexOk(b.orders, b.index, ls)
    requires |m.orders| == |b.orders| && |m.levels| == |b.levels| && |m.table| == |b.table|
    requires |m.index| == |b.index| && forall c :: 0 <= c < |m.index| ==> |m.index[c]| == |b.index[c]|
    requires Vals(m.orders, Flat(ls.bids)) == Vals(b.orders, Flat(ls.bids))
    requires Vals(m.orders, Flat(ls.asks)) == Vals(b.orders, Flat(ls.asks))
    ensures m.orderFree == b.orderFree && m.levelFree == b.levelFree
    ensures m.table == b.table && m.index == b.index && m.bids == b.bids && m.asks == b.asks
  {
    SamePrices(m, b, ls);
    TableDetermined(m.levels, b.levels, m.table, b.table, ls);
    forall x | InLists(ls, x)
      ensures 0 <= x < |m.orders| && 0 <= x < |b.orders| && m.orders[x].value == b.orders[x].value
    {
      var side := if x in Flat(ls.bids) then BUY else SELL;
      OrderSides(m.orders, m.levels, ls, side, x);
      SameOrders(m.orders, b.orders, Flat(ls.On(side)), x);
    }
    IndexDetermined(m.orders, b.orders, m.index, b.index, ls);
    FlagsDetermined(m, b, ls);
  }

  lemma FlagsDetermined(m: Memory, b: Memory, ls: Lists)
    requires OrdersLive(m.orderFree, ls, -1) && OrdersLive(b.orderFree, ls, -1) && |m.orderFree| == |b.orderFree|
    requires LevelsLive(m.levelFree, ls, -1) && LevelsLive(b.levelFree, ls, -1) && |m.levelFree| == |b.levelFree|
    ensures m.orderFree == b.orderFree && m.levelFree == b.levelFree
  {
  }

  // ----- what the tables say about the market -----

  ghost predicate HasPriceIndex(s: seq<Order>, k: int, n: nat)
    requires n > 0
  {
    exists i :: 0 <= i < |s| && PriceToIndex(s[i].price, n) == k
  }

  lemma TabledSideShows(m: Memory, ls: Lists, side: Side, k: int)
    requires ListsOk(m, ls, -1, -1) && side != INVALID
    requires 0 <= k < |m.table| && m.table[k] in Slots(ls.On(side))
    ensures HasPriceIndex(Vals(m.orders, Flat(ls.On(side))), k, |m.table|)
  {
    var g := ls.On(side);
    OneSideOk(m.orders, m.levels, ls, side);
    InSide(ls, side, m.table[k]);
    assert EntryOk(m.levels, m.table, ls, k);
    var i :| 0 <= i < |g| && Slots(g)[i] == m.table[k];
    LevelFound(m, ls, -1, -1, side, i);
    var p := LevelShows(m.orders, m.levels, side, g, i);
    assert PriceToIndex(Vals(m.orders, Flat(g))[p].price, |m.table|) == k;
  }

  lemma ShownSideIsTabled(m: Memory, ls: Lists, side: Side, p: nat)
    requires ListsOk(m, ls, -1, -1) && side != INVALID && p < |Flat(ls.On(side))|
    ensures var price := Vals(m.orders, Flat(ls.On(side)))[p].price;
            var y := m.table[PriceToIndex(price, |m.table|)];
            && y in Slots(ls.On(side)) && 0 <= y < |m.levels|
            && m.levels[y].value.side == side && m.levels[y].value.price == price
  {
    var g := ls.On(side);
    OneSideOk(m.orders, m.levels, ls, side);
    var i := PriceHasLevel(m.orders, m.levels, side, g, p);
    LevelFound(m, ls, -1, -1, side, i);
    SlotAt(g, i);
    SlotLevel(m.orders, m.levels, side, g, g[i].slot);
  }

  /** The one price table serves both sides soundly: every resting price leads to the level of its
      own side and price, and an index that no resting price has is null. */
  lemma PriceTableSound(m: Memory, ls: Lists, nextId: nat, rs: seq<ClientResponse>, us: seq<MarketUpdate>)
    requires ListsOk(m, ls, -1, -1)
    ensures var market := MarketOf(m, ls, nextId, rs, us);
            var n := |m.table|;
            && (forall side, p :: side != INVALID && 0 <= p < |market.On(side)| ==>
                  var y := m.table[PriceToIndex(market.On(side)[p].price, n)];
                  && 0 <= y < |m.levels| && m.levels[y].value.side == side
                  && m.levels[y].value.price == market.On(side)[p].price)
            && (forall k :: 0 <= k < n ==>
                  (m.table[k] == -1 <==>
                   !HasPriceIndex(market.bids, k, n) && !HasPriceIndex(market.asks, k, n)))
  {
    var market := MarketOf(m, ls, nextId, rs, us);
    var n := |m.table|;
    forall side, p | side != INVALID && 0 <= p < |market.On(side)|
      ensures var y := m.table[PriceToIndex(market.On(side)[p].price, n)];
              && y in Slots(ls.On(side)) && 0 <= y < |m.levels| && m.levels[y].value.side == side
              && m.levels[y].value.price == market.On(side)[p].price
    {
      ShownSideIsTabled(m, ls, side, p);
    }
    forall k | 0 <= k < n
      ensures m.table[k] == -1 <==> !HasPriceIndex(market.bids, k, n) && !HasPriceIndex(market.asks, k, n)
    {
      NullEntry(m, ls, k);
    }
  }

  lemma NullEntry(m: Memory, ls: Lists, k: int)
    requires ListsOk(m, ls, -1, -1) && 0 <= k < |m.table|
    ensures m.table[k] == -1 <==>
            && !HasPriceIndex(Vals(m.orders, Flat(ls.bids)), k, |m.table|)
            && !HasPriceIndex(Vals(m.orders, Flat(ls.asks)), k, |m.table|)
  {
    assert EntryOk(m.levels, m.table, ls, k);
    if m.table[k] in Slots(ls.bids) {
      TabledSideShows(m, ls, BUY, k);
    } else if m.table[k] in Slots(ls.asks) {
      TabledSideShows(m, ls, SELL, k);
    }
    NullMeansNone(m, ls, BUY, k);
    NullMeansNone(m, ls, SELL, k);
  }

  lemma NullMeansNone(m: Memory, ls: Lists, side: Side, k: int)
    requires ListsOk(m, ls, -1, -1) && side != INVALID && 0 <= k < |m.table|
    ensures m.table[k] == -1 ==> !HasPriceIndex(Vals(m.orders, Flat(ls.On(side))), k, |m.table|)
  {
    var f := Flat(ls.On(side));
    if m.table[k] == -1 {
      forall p | 0 <= p < |f| ensures PriceToIndex(Vals(m.orders, f)[p].price, |m.table|) != k {
        ShownSideIsTabled(m, ls, side, p);
      }
    }
  }

  /** The id table answers what a search of the resting orders would: an entry is null, or its key
      out of range, exactly when no resting order has the key; otherwise the entry is that order. */
  lemma IdTableSound(m: Memory, ls: Lists, c: ClientId, o: OrderId, nextId: nat,
                     rs: seq<ClientResponse>, us: seq<MarketUpdate>)
    requires ListsOk(m, ls, -1, -1) && IndexOk(m.orders, m.index, ls)
    ensures KeyFree(MarketOf(m, ls, nextId, rs, us), c, o) <==>
            c >= |m.index| || o >= |m.index[c]| || m.index[c][o] == -1
    ensures !KeyFree(MarketOf(m, ls, nextId, rs, us), c, o) ==>
              && InLists(ls, m.index[c][o]) && 0 <= m.index[c][o] < |m.orders|
              && m.orders[m.index[c][o]].value.HasKey(c, o)
  {
    if c >= |m.index| || o >= |m.index[c]| || m.index[c][o] == -1 {
      CellEmpty(m, ls, c, o, nextId, rs, us);
    } else {
      CellShows(m, ls, c, o, nextId, rs, us);
    }
  }
}
