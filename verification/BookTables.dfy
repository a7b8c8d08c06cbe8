/** The whole representation: pools, rings, heads and index tables, and what each change of the
    book does to their agreement. */
module BookTables {
  import opened ExchangeTypes
  import opened BookSpec
  import opened Sequences
  import opened Rings
  import opened BookMemory

  datatype Memory = Memory(
    orders: seq<MEOrder>,
    orderFree: seq<bool>,
    levels: seq<MEOrdersAtPrice>,
    levelFree: seq<bool>,
    table: seq<int>,
    index: seq<seq<int>>,
    bids: int,
    asks: int)
  {
    function Head(side: Side): int {
      if side == BUY then bids else asks
    }

    function WithHead(side: Side, h: int): Memory {
      if side == BUY then this.(bids := h) else this.(asks := h)
    }
  }

  /** The signed price is converted to unsigned 64 bits before the remainder is taken. */
  function PriceToIndex(price: Price, n: nat): (i: nat)
    requires n > 0
    ensures i < n
  {
    (price % 0x1_0000_0000_0000_0000) % n
  }

  /** With 256 entries the conversion to unsigned does not show. */
  lemma IndexIsRemainder(p: Price)
    ensures PriceToIndex(p, 256) == p % 256
  {
  }

  /** With 256 table entries two prices share an index exactly when they are a multiple of 256
      apart, negative prices included; so prices within one window of 256 never collide. */
  lemma CollideIff(p: Price, q: Price)
    ensures PriceToIndex(p, 256) == PriceToIndex(q, 256) <==> (p - q) % 256 == 0
    ensures -256 < p - q < 256 && PriceToIndex(p, 256) == PriceToIndex(q, 256) ==> p == q
  {
    hide PriceToIndex;
    IndexIsRemainder(p);
    IndexIsRemainder(q);
  }

  ghost predicate InLists(ls: Lists, x: int) {
    x in Flat(ls.bids) || x in Flat(ls.asks)
  }

  ghost predicate InLevels(ls: Lists, y: int) {
    y in Slots(ls.bids) || y in Slots(ls.asks)
  }

  ghost predicate SidesOk(orders: seq<MEOrder>, levels: seq<MEOrdersAtPrice>, ls: Lists) {
    SideOk(orders, levels, BUY, ls.bids) && SideOk(orders, levels, SELL, ls.asks)
  }

  function HeadOf(g: seq<LevelList>): int {
    if g == [] then -1 else g[0].slot
  }

  /** A slot is in use exactly when a ring visits it, or it is the one being moved. */
  ghost predicate OrdersLive(free: seq<bool>, ls: Lists, moving: int) {
    forall x :: 0 <= x < |free| ==> (!free[x] <==> InLists(ls, x) || x == moving)
  }

  ghost predicate LevelsLive(free: seq<bool>, ls: Lists, moving: int) {
    forall y :: 0 <= y < |free| ==> (!free[y] <==> InLevels(ls, y) || y == moving)
  }

  ghost predicate Tabled(levels: seq<MEOrdersAtPrice>, table: seq<int>, y: int) {
    0 <= y < |levels| && |table| > 0 && table[PriceToIndex(levels[y].value.price, |table|)] == y
  }

  ghost predicate EntryOk(levels: seq<MEOrdersAtPrice>, table: seq<int>, ls: Lists, k: int)
    requires 0 <= k < |table|
  {
    table[k] == -1 || (InLevels(ls, table[k]) && Tabled(levels, table, table[k])
                       && k == PriceToIndex(levels[table[k]].value.price, |table|))
  }

  /** The price table leads to every level and nowhere else. */
  ghost predicate TableOk(levels: seq<MEOrdersAtPrice>, table: seq<int>, ls: Lists) {
    && (forall y :: InLevels(ls, y) ==> Tabled(levels, table, y))
    && (forall k :: 0 <= k < |table| ==> EntryOk(levels, table, ls, k))
  }

  ghost predicate Indexed(orders: seq<MEOrder>, index: seq<seq<int>>, x: int) {
    && 0 <= x < |orders|
    && orders[x].value.client < |index|
    && orders[x].value.oid < |index[orders[x].value.client]|
    && index[orders[x].value.client][orders[x].value.oid] == x
  }

  ghost predicate CellOk(orders: seq<MEOrder>, index: seq<seq<int>>, ls: Lists, c: int, o: int)
    requires 0 <= c < |index| && 0 <= o < |index[c]|
  {
    var x := index[c][o];
    x == -1 || (InLists(ls, x) && 0 <= x < |orders| && orders[x].value.HasKey(c, o))
  }

  /** The (client, order id) table leads to every resting order and nowhere else. */
  ghost predicate IndexOk(orders: seq<MEOrder>, index: seq<seq<int>>, ls: Lists) {
    && (forall x :: InLists(ls, x) ==> Indexed(orders, index, x))
    && (forall c, o :: 0 <= c < |index| && 0 <= o < |index[c]| ==> CellOk(orders, index, ls, c, o))
  }

  /** Rings, heads, pools and price table agree; at most one order slot and one level slot are
      in use without being in a ring yet. */
  ghost predicate ListsOk(m: Memory, ls: Lists, order: int, level: int) {
    && |m.orders| == |m.orderFree| && |m.levels| == |m.levelFree| && |m.table| > 0
    && SidesOk(m.orders, m.levels, ls)
    && m.bids == HeadOf(ls.bids) && m.asks == HeadOf(ls.asks)
    && OrdersLive(m.orderFree, ls, order)
    && LevelsLive(m.levelFree, ls, level)
    && TableOk(m.levels, m.table, ls)
  }

  // ----- membership -----

  /** The lists of ls2 are those of ls1 without order x. */
  ghost predicate Minus(ls1: Lists, ls2: Lists, x: int) {
    forall y :: InLists(ls2, y) <==> InLists(ls1, y) && y != x
  }

  ghost predicate Plus(ls1: Lists, ls2: Lists, x: int) {
    forall y :: InLists(ls2, y) <==> InLists(ls1, y) || y == x
  }

  lemma OneSideOk(orders: seq<MEOrder>, levels: seq<MEOrdersAtPrice>, ls: Lists, side: Side)
    requires SidesOk(orders, levels, ls) && side != INVALID
    ensures SideOk(orders, levels, side, ls.On(side))
    ensures SideOk(orders, levels, Opposite(side), ls.On(Opposite(side)))
  {
  }

  lemma BothSidesOk(orders: seq<MEOrder>, levels: seq<MEOrdersAtPrice>, ls: Lists, side: Side, g: seq<LevelList>)
    requires side != INVALID
    requires SideOk(orders, levels, side, g)
    requires SideOk(orders, levels, Opposite(side), ls.On(Opposite(side)))
    ensures SidesOk(orders, levels, ls.With(side, g))
  {
  }

  lemma OrderSides(orders: seq<MEOrder>, levels: seq<MEOrdersAtPrice>, ls: Lists, side: Side, x: int)
    requires SidesOk(orders, levels, ls) && side != INVALID && x in Flat(ls.On(side))
    ensures 0 <= x < |orders| && orders[x].value.side == side && x !in Flat(ls.On(Opposite(side)))
  {
    FlatOrder(orders, levels, side, ls.On(side), x);
    if x in Flat(ls.On(Opposite(side))) {
      FlatOrder(orders, levels, Opposite(side), ls.On(Opposite(side)), x);
    }
  }

  lemma LevelSides(orders: seq<MEOrder>, levels: seq<MEOrdersAtPrice>, ls: Lists, side: Side, y: int)
    requires SidesOk(orders, levels, ls) && side != INVALID && y in Slots(ls.On(side))
    ensures 0 <= y < |levels| && levels[y].value.side == side && y !in Slots(ls.On(Opposite(side)))
  {
    SlotLevel(orders, levels, side, ls.On(side), y);
    if y in Slots(ls.On(Opposite(side))) {
      SlotLevel(orders, levels, Opposite(side), ls.On(Opposite(side)), y);
    }
  }

  lemma InSide(ls: Lists, side: Side, x: int)
    requires side != INVALID
    ensures InLists(ls, x) <==> x in Flat(ls.On(side)) || x in Flat(ls.On(Opposite(side)))
    ensures InLevels(ls, x) <==> x in Slots(ls.On(side)) || x in Slots(ls.On(Opposite(side)))
  {
  }

  lemma {:induction false} NotInFlat(g: seq<LevelList>, x: int)
    requires forall i :: 0 <= i < |g| ==> x !in g[i].fifo
    ensures x !in Flat(g)
  {
    if g != [] {
      NotInFlat(g[1..], x);
    }
  }

  /** An order is in no other level of its side. */
  lemma NotElsewhere(orders: seq<MEOrder>, levels: seq<MEOrdersAtPrice>, side: Side,
                     g: seq<LevelList>, i: nat, x: int)
    requires SideOk(orders, levels, side, g) && i < |g| && x in g[i].fifo
    ensures x !in Flat(g[..i]) && x !in Flat(g[i + 1..])
  {
    forall p | 0 <= p < |g| && p != i ensures x !in g[p].fifo {
      LevelsApart(orders, levels, side, g, i, p, x);
    }
    NotInFlat(g[..i], x);
    NotInFlat(g[i + 1..], x);
  }

  lemma RemovedMembers(fifo: seq<int>, j: nat)
    requires Injective(fifo) && j < |fifo|
    ensures forall y :: y in RemoveAt(fifo, j) <==> y in fifo && y != fifo[j]
  {
    var r := RemoveAt(fifo, j);
    forall y | y in fifo && y != fifo[j] ensures y in r {
      var k :| 0 <= k < |fifo| && fifo[k] == y;
      assert r[if k < j then k else k - 1] == y;
    }
  }

  /** Taking order j out of level i takes exactly that slot out of the flat sequence. */
  lemma FlatMinus(orders: seq<MEOrder>, levels: seq<MEOrdersAtPrice>, side: Side, g: seq<LevelList>, h: seq<LevelList>,
                  i: nat, j: nat)
    requires SideOk(orders, levels, side, g) && i < |g| && j < |g[i].fifo|
    requires Flat(h) == Flat(g[..i]) + RemoveAt(g[i].fifo, j) + Flat(g[i + 1..])
    ensures forall y :: y in Flat(h) <==> y in Flat(g) && y != g[i].fifo[j]
  {
    var x := g[i].fifo[j];
    assert LevelOk(orders, levels, side, g[i]);
    FifoInjective(orders, g[i].fifo, side, levels[g[i].slot].value.price);
    NotElsewhere(orders, levels, side, g, i, x);
    FlatSplit(g, i);
    RemovedMembers(g[i].fifo, j);
  }

  lemma ListsMinus(orders: seq<MEOrder>, levels: seq<MEOrdersAtPrice>, ls: Lists, side: Side, h: seq<LevelList>,
                   i: nat, j: nat)
    requires SidesOk(orders, levels, ls) && side != INVALID
    requires i < |ls.On(side)| && j < |ls.On(side)[i].fifo|
    requires Flat(h) == Flat(ls.On(side)[..i]) + RemoveAt(ls.On(side)[i].fifo, j) + Flat(ls.On(side)[i + 1..])
    ensures Minus(ls, ls.With(side, h), ls.On(side)[i].fifo[j])
  {
    var x := ls.On(side)[i].fifo[j];
    OneSideOk(orders, levels, ls, side);
    FlatMinus(orders, levels, side, ls.On(side), h, i, j);
    InFlat(ls.On(side), i, x);
    OrderSides(orders, levels, ls, side, x);
    forall y ensures InLists(ls.With(side, h), y) <==> InLists(ls, y) && y != x {
      InSide(ls, side, y);
      InSide(ls.With(side, h), side, y);
    }
  }

  // ----- index table -----

  lemma IndexFrame(a: seq<MEOrder>, b: seq<MEOrder>, index: seq<seq<int>>, ls: Lists)
    requires IndexOk(a, index, ls) && |a| == |b|
    requires forall x :: 0 <= x < |a| && InLists(ls, x) ==> a[x].value.(qty := 0) == b[x].value.(qty := 0)
    ensures IndexOk(b, index, ls)
  {
    forall x | InLists(ls, x) ensures Indexed(b, index, x) {
      assert Indexed(a, index, x);
    }
    forall c, o | 0 <= c < |index| && 0 <= o < |index[c]| ensures CellOk(b, index, ls, c, o) {
      assert CellOk(a, index, ls, c, o);
    }
  }

  lemma IndexClear(orders: seq<MEOrder>, index: seq<seq<int>>, ls1: Lists, ls2: Lists, x: int)
    requires IndexOk(orders, index, ls1) && InLists(ls1, x) && Minus(ls1, ls2, x)
    ensures Indexed(orders, index, x)
    ensures var c, o := orders[x].value.client, orders[x].value.oid;
            IndexOk(orders, index[c := index[c][o := -1]], ls2)
  {
    assert Indexed(orders, index, x);
    var c0, o0 := orders[x].value.client, orders[x].value.oid;
    var after := index[c0 := index[c0][o0 := -1]];
    forall y | InLists(ls2, y) ensures Indexed(orders, after, y) {
      assert Indexed(orders, index, y);
    }
    forall c, o | 0 <= c < |after| && 0 <= o < |after[c]| ensures CellOk(orders, after, ls2, c, o) {
      assert CellOk(orders, index, ls1, c, o);
    }
  }

  lemma IndexSet(orders: seq<MEOrder>, index: seq<seq<int>>, ls1: Lists, ls2: Lists, x: int)
    requires IndexOk(orders, index, ls1) && 0 <= x < |orders| && Plus(ls1, ls2, x)
    requires orders[x].value.client < |index| && orders[x].value.oid < |index[orders[x].value.client]|
    requires index[orders[x].value.client][orders[x].value.oid] == -1
    ensures var c, o := orders[x].value.client, orders[x].value.oid;
            IndexOk(orders, index[c := index[c][o := x]], ls2)
  {
    var c0, o0 := orders[x].value.client, orders[x].value.oid;
    var after := index[c0 := index[c0][o0 := x]];
    forall y | InLists(ls2, y) ensures Indexed(orders, after, y) {
      if y != x { assert InLists(ls1, y) && Indexed(orders, index, y); }
    }
    forall c, o | 0 <= c < |after| && 0 <= o < |after[c]| ensures CellOk(orders, after, ls2, c, o) {
      assert CellOk(orders, index, ls1, c, o);
      assert InLists(ls2, x);
    }
  }

  // ----- price table -----

  lemma TableFrame(k: seq<MEOrdersAtPrice>, l: seq<MEOrdersAtPrice>, table: seq<int>, ls1: Lists, ls2: Lists)
    requires TableOk(k, table, ls1) && |k| == |l|
    requires forall y :: InLevels(ls1, y) <==> InLevels(ls2, y)
    requires forall y :: 0 <= y < |k| && InLevels(ls1, y) ==> k[y].value.price == l[y].value.price
    ensures TableOk(l, table, ls2)
  {
    forall y | InLevels(ls2, y) ensures Tabled(l, table, y) {
      assert Tabled(k, table, y);
    }
    forall i | 0 <= i < |table| ensures EntryOk(l, table, ls2, i) {
      assert EntryOk(k, table, ls1, i);
    }
  }

  lemma TableClear(k: seq<MEOrdersAtPrice>, l: seq<MEOrdersAtPrice>, table: seq<int>, ls1: Lists, ls2: Lists, z: int)
    requires TableOk(k, table, ls1) && |k| == |l| && InLevels(ls1, z)
    requires forall y :: InLevels(ls2, y) <==> InLevels(ls1, y) && y != z
    requires forall y :: 0 <= y < |k| ==> k[y].value.price == l[y].value.price
    ensures Tabled(k, table, z)
    ensures TableOk(l, table[PriceToIndex(k[z].value.price, |table|) := -1], ls2)
  {
    assert Tabled(k, table, z);
    var after := table[PriceToIndex(k[z].value.price, |table|) := -1];
    forall y | InLevels(ls2, y) ensures Tabled(l, after, y) {
      assert Tabled(k, table, y);
    }
    forall i | 0 <= i < |after| ensures EntryOk(l, after, ls2, i) {
      assert EntryOk(k, table, ls1, i);
    }
  }

  lemma TableSet(k: seq<MEOrdersAtPrice>, l: seq<MEOrdersAtPrice>, table: seq<int>, ls1: Lists, ls2: Lists, z: int)
    requires TableOk(k, table, ls1) && |k| == |l| && 0 <= z < |k| && |table| > 0
    requires forall y :: InLevels(ls2, y) <==> InLevels(ls1, y) || y == z
    requires forall y :: 0 <= y < |k| ==> k[y].value.price == l[y].value.price
    requires table[PriceToIndex(k[z].value.price, |table|)] == -1
    ensures TableOk(l, table[PriceToIndex(k[z].value.price, |table|) := z], ls2)
  {
    var after := table[PriceToIndex(k[z].value.price, |table|) := z];
    forall y | InLevels(ls2, y) ensures Tabled(l, after, y) {
      if y != z { assert InLevels(ls1, y) && Tabled(k, table, y); }
    }
    forall i | 0 <= i < |after| ensures EntryOk(l, after, ls2, i) {
      assert EntryOk(k, table, ls1, i);
      assert InLevels(ls2, z);
    }
  }

  // ----- the changes of the book -----

  /** Lowering a quantity disturbs no ring. */
  lemma QtyKeepsLists(m: Memory, ls: Lists, order: int, level: int, x: int, qty: Quantity)
    requires ListsOk(m, ls, order, level) && 0 <= x < |m.orders|
    ensures ListsOk(m.(orders := m.orders[x := m.orders[x].(value := m.orders[x].value.(qty := qty))]),
                    ls, order, level)
  {
    var b := m.orders[x := m.orders[x].(value := m.orders[x].value.(qty := qty))];
    SideFrame(m.orders, b, m.levels, m.levels, BUY, ls.bids);
    SideFrame(m.orders, b, m.levels, m.levels, SELL, ls.asks);
  }

  /** The level list i of a side, without its order j. */
  function WithoutOrder(g: seq<LevelList>, i: nat, j: nat): seq<LevelList>
    requires i < |g| && j < |g[i].fifo|
  {
    if |g[i].fifo| == 1 then RemoveAt(g, i)
    else g[i := LevelList(g[i].slot, RemoveAt(g[i].fifo, j))]
  }

  /** big is small with order x in it, on the given side. */
  ghost predicate Extends(small: Lists, big: Lists, side: Side, x: int) {
    exists i: nat, j: nat :: ExtendsAt(small, big, side, x, i, j)
  }

  ghost predicate ExtendsAt(small: Lists, big: Lists, side: Side, x: int, i: nat, j: nat) {
    && i < |big.On(side)| && j < |big.On(side)[i].fifo| && big.On(side)[i].fifo[j] == x
    && small == big.With(side, WithoutOrder(big.On(side), i, j))
  }

  /** An order sits in one place only, so taking it out has one result. */
  lemma OnePlace(orders: seq<MEOrder>, levels: seq<MEOrdersAtPrice>, a: Lists, b: Lists, big: Lists,
                 side: Side, side': Side, x: int)
    requires SidesOk(orders, levels, big) && side != INVALID && side' != INVALID
    requires Extends(a, big, side, x) && Extends(b, big, side', x)
    ensures a == b
  {
    var i: nat, j: nat :| ExtendsAt(a, big, side, x, i, j);
    var p: nat, q: nat :| ExtendsAt(b, big, side', x, p, q);
    InFlat(big.On(side), i, x);
    InFlat(big.On(side'), p, x);
    OrderSides(orders, levels, big, side, x);
    OrderSides(orders, levels, big, side', x);
    OneSideOk(orders, levels, big, side);
    if i != p {
      LevelsApart(orders, levels, side, big.On(side), i, p, x);
    } else {
      var l := big.On(side)[i];
      assert LevelOk(orders, levels, side, l);
      FifoInjective(orders, l.fifo, side, levels[l.slot].value.price);
      SameSlot(l.fifo, j, q);
    }
  }

  lemma AppendExtends(ls: Lists, side: Side, i: nat, x: int)
    requires i < |ls.On(side)| && ls.On(side)[i].fifo != []
    ensures var l := ls.On(side)[i];
            Extends(ls, ls.With(side, ls.On(side)[i := LevelList(l.slot, l.fifo + [x])]), side, x)
  {
    var l := ls.On(side)[i];
    var big := ls.With(side, ls.On(side)[i := LevelList(l.slot, l.fifo + [x])]);
    assert RemoveAt(l.fifo + [x], |l.fifo|) == l.fifo;
    assert WithoutOrder(big.On(side), i, |l.fifo|) == ls.On(side);
    assert ExtendsAt(ls, big, side, x, i, |l.fifo|);
  }

  lemma GrowExtends(ls: Lists, side: Side, k: nat, y: int, x: int)
    requires k <= |ls.On(side)|
    ensures Extends(ls, ls.With(side, Inserted(ls.On(side), k, LevelList(y, [x]))), side, x)
  {
    var big := ls.With(side, Inserted(ls.On(side), k, LevelList(y, [x])));
    assert WithoutOrder(big.On(side), k, 0) == ls.On(side);
    assert ExtendsAt(ls, big, side, x, k, 0);
  }

  lemma FlatWithoutOrder(g: seq<LevelList>, i: nat, j: nat)
    requires i < |g| && j < |g[i].fifo|
    ensures Flat(WithoutOrder(g, i, j)) == Flat(g[..i]) + RemoveAt(g[i].fifo, j) + Flat(g[i + 1..])
  {
    if |g[i].fifo| == 1 {
      FlatRemoved(g, i);
      assert RemoveAt(g[i].fifo, j) == [];
    } else {
      FlatReplaced(g, i, LevelList(g[i].slot, RemoveAt(g[i].fifo, j)));
    }
  }

  /** Levels after the first order of a level may have changed. */
  function Refirst(levels: seq<MEOrdersAtPrice>, y: int, first: int): (l: seq<MEOrdersAtPrice>)
    requires 0 <= y < |levels|
    ensures |l| == |levels|
  {
    levels[y := levels[y].(value := levels[y].value.(first := first))]
  }

  lemma SlotsReplaced(g: seq<LevelList>, i: nat, fifo: seq<int>)
    requires i < |g|
    ensures Slots(g[i := LevelList(g[i].slot, fifo)]) == Slots(g)
  {
  }

  lemma UnlinkSides(m: Memory, ls: Lists, side: Side, i: nat, j: nat)
    requires SidesOk(m.orders, m.levels, ls) && side != INVALID
    requires i < |ls.On(side)| && j < |ls.On(side)[i].fifo| && |ls.On(side)[i].fifo| >= 2
    ensures var l := ls.On(side)[i];
            && 0 <= l.fifo[j] < |m.orders| && 0 <= l.slot < |m.levels|
            && 0 <= m.orders[l.fifo[j]].prev < |m.orders| && 0 <= m.orders[l.fifo[j]].next < |m.orders|
            && OnlyLinks(m.orders, Unlink(m.orders, l.fifo[j]), l.fifo)
            && SidesOk(Unlink(m.orders, l.fifo[j]), Refirst(m.levels, l.slot, RemoveAt(l.fifo, j)[0]),
                       ls.With(side, WithoutOrder(ls.On(side), i, j)))
  {
    var g := ls.On(side);
    var l := g[i];
    OneSideOk(m.orders, m.levels, ls, side);
    assert LevelOk(m.orders, m.levels, side, l);
    FifoRemove(m.orders, l.fifo, side, m.levels[l.slot].value.price, j);
    var b, k := Unlink(m.orders, l.fifo[j]), Refirst(m.levels, l.slot, RemoveAt(l.fifo, j)[0]);
    SideReplace(m.orders, b, m.levels, k, side, g, i, RemoveAt(l.fifo, j), l.fifo);
    FlatSplit(g, i);
    OtherSideKept(m, ls, side, b, k, l.fifo, l.slot, i);
    BothSidesOk(b, k, ls, side, WithoutOrder(g, i, j));
  }

  /** The other side when one level of this side and its orders change. */
  lemma OtherSideKept(m: Memory, ls: Lists, side: Side, b: seq<MEOrder>, k: seq<MEOrdersAtPrice>,
                      touched: seq<int>, slot: int, i: nat)
    requires SidesOk(m.orders, m.levels, ls) && side != INVALID && i < |ls.On(side)| && slot == ls.On(side)[i].slot
    requires OnlyLinks(m.orders, b, touched) && |k| == |m.levels|
    requires forall x :: x in touched ==> x in Flat(ls.On(side)) || !InLists(ls, x)
    requires forall y :: 0 <= y < |k| && y != slot ==> k[y] == m.levels[y]
    ensures SideOk(b, k, Opposite(side), ls.On(Opposite(side)))
  {
    var h := ls.On(Opposite(side));
    OneSideOk(m.orders, m.levels, ls, side);
    forall x | x in Flat(h) && 0 <= x < |b| ensures Alike(m.orders[x], b[x]) {
      OrderSides(m.orders, m.levels, ls, Opposite(side), x);
      InSide(ls, side, x);
      assert x !in touched;
    }
    forall y | y in Slots(h) && 0 <= y < |k| ensures m.levels[y] == k[y] {
      LevelSides(m.orders, m.levels, ls, Opposite(side), y);
      SlotAt(ls.On(side), i);
    }
    SideFrame(m.orders, b, m.levels, k, Opposite(side), h);
  }

  /** Unlinking one of several orders of a level leaves it in use but in no list. */
  lemma UnlinkKeepsLists(m: Memory, ls: Lists, side: Side, i: nat, j: nat)
    requires ListsOk(m, ls, -1, -1) && side != INVALID
    requires i < |ls.On(side)| && j < |ls.On(side)[i].fifo| && |ls.On(side)[i].fifo| >= 2
    ensures var l := ls.On(side)[i];
            var h := ls.With(side, WithoutOrder(ls.On(side), i, j));
            && 0 <= l.fifo[j] < |m.orders| && 0 <= l.slot < |m.levels|
            && 0 <= m.orders[l.fifo[j]].prev < |m.orders| && 0 <= m.orders[l.fifo[j]].next < |m.orders|
            && Minus(ls, h, l.fifo[j])
            && OnlyLinks(m.orders, Unlink(m.orders, l.fifo[j]), l.fifo)
            && ListsOk(m.(orders := Unlink(m.orders, l.fifo[j]),
                          levels := Refirst(m.levels, l.slot, RemoveAt(l.fifo, j)[0])), h, l.fifo[j], -1)
  {
    var l := ls.On(side)[i];
    var h := ls.With(side, WithoutOrder(ls.On(side), i, j));
    UnlinkSides(m, ls, side, i, j);
    FlatWithoutOrder(ls.On(side), i, j);
    ListsMinus(m.orders, m.levels, ls, side, WithoutOrder(ls.On(side), i, j), i, j);
    SlotsReplaced(ls.On(side), i, RemoveAt(l.fifo, j));
    SameLevels(ls, side, WithoutOrder(ls.On(side), i, j));
    InFlat(ls.On(side), i, l.fifo[j]);
    UnlinkTables(m, ls, h, l.fifo[j], Refirst(m.levels, l.slot, RemoveAt(l.fifo, j)[0]));
  }

  lemma SameLevels(ls: Lists, side: Side, g: seq<LevelList>)
    requires side != INVALID && Slots(g) == Slots(ls.On(side))
    ensures forall y :: InLevels(ls, y) <==> InLevels(ls.With(side, g), y)
    ensures HeadOf(g) == HeadOf(ls.On(side))
  {
    if g != [] {
      SlotAt(g, 0);
      SlotAt(ls.On(side), 0);
    } else {
      assert |Slots(g)| == 0;
    }
  }

  lemma UnlinkTables(m: Memory, ls: Lists, h: Lists, x: int, k: seq<MEOrdersAtPrice>)
    requires OrdersLive(m.orderFree, ls, -1) && LevelsLive(m.levelFree, ls, -1) && TableOk(m.levels, m.table, ls)
    requires Minus(ls, h, x) && InLists(ls, x)
    requires forall y :: InLevels(ls, y) <==> InLevels(h, y)
    requires |k| == |m.levels| && forall y :: 0 <= y < |k| ==> m.levels[y].value.price == k[y].value.price
    ensures OrdersLive(m.orderFree, h, x) && LevelsLive(m.levelFree, h, -1) && TableOk(k, m.table, h)
  {
    TableFrame(m.levels, k, m.table, ls, h);
  }

  // ----- dropping a level -----

  /** The level ring without level i. */
  function LevelsAfterDrop(levels: seq<MEOrdersAtPrice>, g: seq<LevelList>, i: nat): (k: seq<MEOrdersAtPrice>)
    requires i < |g| && 0 <= g[i].slot < |levels|
    requires |g| >= 2 ==> 0 <= levels[g[i].slot].prev < |levels| && 0 <= levels[g[i].slot].next < |levels|
    ensures |k| == |levels|
  {
    if |g| == 1 then levels else Unlink(levels, g[i].slot)
  }

  lemma DropSide(orders: seq<MEOrder>, levels: seq<MEOrdersAtPrice>, side: Side, g: seq<LevelList>, i: nat)
    requires SideOk(orders, levels, side, g) && i < |g|
    ensures 0 <= g[i].slot < |levels|
    ensures |g| >= 2 ==> 0 <= levels[g[i].slot].prev < |levels| && 0 <= levels[g[i].slot].next < |levels|
    ensures SideOk(orders, LevelsAfterDrop(levels, g, i), side, RemoveAt(g, i))
    ensures OnlyLinks(levels, LevelsAfterDrop(levels, g, i), Slots(g))
  {
    assert LevelOk(orders, levels, side, g[i]);
    if |g| >= 2 {
      SideDropLevel(orders, levels, side, g, i);
    } else {
      assert RemoveAt(g, i) == [];
      assert Slots([]) == [];
    }
  }

  /** The other side when only links among this side's levels change. */
  lemma OtherLevelsKept(orders: seq<MEOrder>, levels: seq<MEOrdersAtPrice>, k: seq<MEOrdersAtPrice>, ls: Lists,
                        side: Side, touched: seq<int>)
    requires SidesOk(orders, levels, ls) && side != INVALID
    requires OnlyLinks(levels, k, touched)
    requires forall y :: y in touched ==> y in Slots(ls.On(side)) || !InLevels(ls, y)
    ensures SideOk(orders, k, Opposite(side), ls.On(Opposite(side)))
  {
    var h := ls.On(Opposite(side));
    OneSideOk(orders, levels, ls, side);
    forall y | y in Slots(h) && 0 <= y < |k| ensures levels[y] == k[y] {
      LevelSides(orders, levels, ls, Opposite(side), y);
      InSide(ls, side, y);
      assert y !in touched;
    }
    forall x: int | 0 <= x < |orders| ensures Alike(orders[x], orders[x]) {
    }
    SideFrame(orders, orders, levels, k, Opposite(side), h);
  }

  /** What a level's own links say about its place in the ring. */
  lemma LevelNeighbours(orders: seq<MEOrder>, levels: seq<MEOrdersAtPrice>, side: Side, g: seq<LevelList>, i: nat)
    requires SideOk(orders, levels, side, g) && i < |g|
    ensures 0 <= g[i].slot < |levels|
    ensures levels[g[i].slot].next == g[Succ(i, |g|)].slot && levels[g[i].slot].prev == g[Pred(i, |g|)].slot
    ensures levels[g[i].slot].next == g[i].slot <==> |g| == 1
    ensures g[0].slot == g[i].slot <==> i == 0
  {
    SlotsInjective(orders, levels, side, g);
    SlotAt(g, i);
    assert LinkedAt(levels, Slots(g), i);
    SameSlot(Slots(g), 0, i);
    SameSlot(Slots(g), Succ(i, |g|), i);
  }

  lemma LevelsMinus(m: Memory, ls: Lists, side: Side, i: nat)
    requires SidesOk(m.orders, m.levels, ls) && side != INVALID && i < |ls.On(side)|
    ensures forall y :: InLevels(ls.With(side, RemoveAt(ls.On(side), i)), y)
                   <==> InLevels(ls, y) && y != ls.On(side)[i].slot
  {
    var g := ls.On(side);
    OneSideOk(m.orders, m.levels, ls, side);
    SlotsInjective(m.orders, m.levels, side, g);
    SlotsRemoved(g, i);
    SlotAt(g, i);
    RemovedMembers(Slots(g), i);
    LevelSides(m.orders, m.levels, ls, side, g[i].slot);
    forall y ensures InLevels(ls.With(side, RemoveAt(g, i)), y) <==> InLevels(ls, y) && y != g[i].slot {
      InSide(ls, side, y);
      InSide(ls.With(side, RemoveAt(g, i)), side, y);
    }
  }

  /** The memory after level i of a side is unlinked, untabled and freed. */
  function Dropped(m: Memory, ls: Lists, side: Side, i: nat): Memory
    requires i < |ls.On(side)| && |m.table| > 0 && |m.levelFree| == |m.levels|
    requires var g := ls.On(side);
             0 <= g[i].slot < |m.levels|
             && (|g| >= 2 ==> 0 <= m.levels[g[i].slot].prev < |m.levels| && 0 <= m.levels[g[i].slot].next < |m.levels|)
  {
    var g := ls.On(side);
    m.(levels := LevelsAfterDrop(m.levels, g, i),
       levelFree := m.levelFree[g[i].slot := true],
       table := m.table[PriceToIndex(m.levels[g[i].slot].value.price, |m.table|) := -1])
     .WithHead(side, HeadOf(RemoveAt(g, i)))
  }

  lemma DropSides(m: Memory, ls: Lists, side: Side, i: nat)
    requires ListsOk(m, ls, -1, -1) && side != INVALID && i < |ls.On(side)|
    ensures var g := ls.On(side);
            && 0 <= g[i].slot < |m.levels|
            && (|g| >= 2 ==> 0 <= m.levels[g[i].slot].prev < |m.levels| && 0 <= m.levels[g[i].slot].next < |m.levels|)
            && SidesOk(m.orders, Dropped(m, ls, side, i).levels, ls.With(side, RemoveAt(g, i)))
            && OnlyLinks(m.levels, Dropped(m, ls, side, i).levels, Slots(g))
  {
    var g := ls.On(side);
    OneSideOk(m.orders, m.levels, ls, side);
    DropSide(m.orders, m.levels, side, g, i);
    OtherLevelsKept(m.orders, m.levels, LevelsAfterDrop(m.levels, g, i), ls, side, Slots(g));
    BothSidesOk(m.orders, LevelsAfterDrop(m.levels, g, i), ls, side, RemoveAt(g, i));
  }

  /** Dropping a level with a single order leaves that order in use but in no list. */
  lemma DropKeepsLists(m: Memory, ls: Lists, side: Side, i: nat)
    requires ListsOk(m, ls, -1, -1) && side != INVALID
    requires i < |ls.On(side)| && |ls.On(side)[i].fifo| == 1
    ensures var g := ls.On(side);
            && 0 <= g[i].slot < |m.levels|
            && (|g| >= 2 ==> 0 <= m.levels[g[i].slot].prev < |m.levels| && 0 <= m.levels[g[i].slot].next < |m.levels|)
            && Minus(ls, ls.With(side, RemoveAt(g, i)), g[i].fifo[0])
            && ListsOk(Dropped(m, ls, side, i), ls.With(side, RemoveAt(g, i)), g[i].fifo[0], -1)
  {
    var g := ls.On(side);
    var h := ls.With(side, RemoveAt(g, i));
    DropSides(m, ls, side, i);
    FlatWithoutOrder(g, i, 0);
    ListsMinus(m.orders, m.levels, ls, side, RemoveAt(g, i), i, 0);
    InFlat(g, i, g[i].fifo[0]);
    LevelsMinus(m, ls, side, i);
    SlotAt(g, i);
    DropTables(m, ls, h, g[i].fifo[0], g[i].slot, Dropped(m, ls, side, i).levels);
  }

  /** What the code finds when it looks a level up by its price. */
  lemma LevelFound(m: Memory, ls: Lists, order: int, level: int, side: Side, i: nat)
    requires ListsOk(m, ls, order, level) && side != INVALID && i < |ls.On(side)|
    ensures var g := ls.On(side);
            var y := g[i].slot;
            && 0 <= y < |m.levels| && |m.table| > 0 && |m.levels| == |m.levelFree|
            && m.table[PriceToIndex(m.levels[y].value.price, |m.table|)] == y
            && !m.levelFree[y]
            && m.Head(side) == g[0].slot
            && (y == g[0].slot <==> i == 0)
            && m.levels[y].next == g[Succ(i, |g|)].slot && m.levels[y].prev == g[Pred(i, |g|)].slot
            && (m.levels[y].next == y <==> |g| == 1)
            && 0 <= m.levels[y].prev < |m.levels| && 0 <= m.levels[y].next < |m.levels|
  {
    var g := ls.On(side);
    OneSideOk(m.orders, m.levels, ls, side);
    SlotAt(g, i);
    assert InLevels(ls, g[i].slot);
    assert Tabled(m.levels, m.table, g[i].slot);
    LevelNeighbours(m.orders, m.levels, side, g, i);
    LevelNeighbours(m.orders, m.levels, side, g, Succ(i, |g|));
    LevelNeighbours(m.orders, m.levels, side, g, Pred(i, |g|));
  }

  lemma FifoNeighbours(orders: seq<MEOrder>, fifo: seq<int>, side: Side, price: Price, j: nat)
    requires FifoOk(orders, fifo, side, price) && j < |fifo|
    ensures Within(fifo, |orders|)
    ensures orders[fifo[j]].next == fifo[Succ(j, |fifo|)] && orders[fifo[j]].prev == fifo[Pred(j, |fifo|)]
    ensures orders[fifo[j]].prev == fifo[j] <==> |fifo| == 1
    ensures fifo[0] == fifo[j] <==> j == 0
  {
    FifoInjective(orders, fifo, side, price);
    assert LinkedAt(orders, fifo, j);
    SameSlot(fifo, 0, j);
    SameSlot(fifo, Pred(j, |fifo|), j);
  }

  /** The first order of a level, and the last as its predecessor in the ring. */
  lemma FirstAndLast(m: Memory, ls: Lists, order: int, side: Side, i: nat)
    requires ListsOk(m, ls, order, -1) && side != INVALID && i < |ls.On(side)|
    ensures var l := ls.On(side)[i];
            && l.fifo != [] && 0 <= l.slot < |m.levels|
            && m.levels[l.slot].value.first == l.fifo[0] && 0 <= l.fifo[0] < |m.orders|
            && m.orders[l.fifo[0]].prev == l.fifo[|l.fifo| - 1]
            && 0 <= l.fifo[|l.fifo| - 1] < |m.orders|
  {
    var l := ls.On(side)[i];
    OneSideOk(m.orders, m.levels, ls, side);
    assert LevelOk(m.orders, m.levels, side, l);
    FifoNeighbours(m.orders, l.fifo, side, m.levels[l.slot].value.price, 0);
  }

  /** What the code finds at order j of level i. */
  lemma OrderFound(m: Memory, ls: Lists, order: int, level: int, side: Side, i: nat, j: nat)
    requires ListsOk(m, ls, order, level) && side != INVALID
    requires i < |ls.On(side)| && j < |ls.On(side)[i].fifo|
    ensures var l := ls.On(side)[i];
            var x := l.fifo[j];
            && 0 <= l.slot < |m.levels| && 0 <= x < |m.orders| && |m.orders| == |m.orderFree|
            && !m.orderFree[x] && InLists(ls, x)
            && m.orders[x].value.side == side
            && m.orders[x].value.price == m.levels[l.slot].value.price
            && m.orders[x].next == l.fifo[Succ(j, |l.fifo|)]
            && (m.orders[x].prev == x <==> |l.fifo| == 1)
            && 0 <= m.orders[x].prev < |m.orders| && 0 <= m.orders[x].next < |m.orders|
            && m.levels[l.slot].value.first == l.fifo[0]
            && (l.fifo[0] == x <==> j == 0)
  {
    var g := ls.On(side);
    var l := g[i];
    OneSideOk(m.orders, m.levels, ls, side);
    assert LevelOk(m.orders, m.levels, side, l);
    InFlat(g, i, l.fifo[j]);
    InSide(ls, side, l.fifo[j]);
    FifoNeighbours(m.orders, l.fifo, side, m.levels[l.slot].value.price, j);
    assert OrderAt(m.orders, l.fifo[j], side, m.levels[l.slot].value.price);
  }

  lemma DropTables(m: Memory, ls: Lists, h: Lists, x: int, z: int, k: seq<MEOrdersAtPrice>)
    requires |m.levels| == |m.levelFree| == |k| && 0 <= z < |k| && |m.table| > 0
    requires OrdersLive(m.orderFree, ls, -1) && LevelsLive(m.levelFree, ls, -1) && TableOk(m.levels, m.table, ls)
    requires Minus(ls, h, x) && InLists(ls, x) && InLevels(ls, z)
    requires forall y :: InLevels(h, y) <==> InLevels(ls, y) && y != z
    requires forall y :: 0 <= y < |k| ==> m.levels[y].value == k[y].value
    ensures OrdersLive(m.orderFree, h, x) && LevelsLive(m.levelFree[z := true], h, -1)
    ensures TableOk(k, m.table[PriceToIndex(m.levels[z].value.price, |m.table|) := -1], h)
  {
    TableClear(m.levels, k, m.table, ls, h, z);
  }

  // ----- pool slots -----

  /** Links may differ, contents do not. */
  ghost predicate SameValues(a: seq<MEOrder>, b: seq<MEOrder>) {
    |a| == |b| && forall y :: 0 <= y < |a| ==> a[y].value == b[y].value
  }

  /** The memory after a detached order is unindexed and its slot freed. */
  function Retired(m: Memory, x: int): Memory
    requires 0 <= x < |m.orders| == |m.orderFree|
    requires m.orders[x].value.client < |m.index|
    requires m.orders[x].value.oid < |m.index[m.orders[x].value.client]|
  {
    var c, o := m.orders[x].value.client, m.orders[x].value.oid;
    m.(index := m.index[c := m.index[c][o := -1]], orderFree := m.orderFree[x := true])
  }

  lemma RetireOrder(m: Memory, ls1: Lists, ls2: Lists, x: int, before: seq<MEOrder>)
    requires ListsOk(m, ls2, x, -1) && Minus(ls1, ls2, x) && InLists(ls1, x)
    requires IndexOk(before, m.index, ls1) && SameValues(before, m.orders)
    ensures 0 <= x < |m.orders| == |m.orderFree| && !m.orderFree[x]
    ensures m.orders[x].value.client < |m.index|
    ensures m.orders[x].value.oid < |m.index[m.orders[x].value.client]|
    ensures ListsOk(Retired(m, x), ls2, -1, -1)
    ensures IndexOk(m.orders, Retired(m, x).index, ls2)
  {
    IndexFrame(before, m.orders, m.index, ls1);
    IndexClear(m.orders, m.index, ls1, ls2, x);
  }

  lemma TakeOrder(m: Memory, ls: Lists, x: int, node: MEOrder)
    requires ListsOk(m, ls, -1, -1) && 0 <= x < |m.orders| && m.orderFree[x]
    ensures !InLists(ls, x)
    ensures ListsOk(m.(orders := m.orders[x := node], orderFree := m.orderFree[x := false]), ls, x, -1)
  {
    var b := m.orders[x := node];
    assert !InLists(ls, x);
    SideFrame(m.orders, b, m.levels, m.levels, BUY, ls.bids);
    SideFrame(m.orders, b, m.levels, m.levels, SELL, ls.asks);
  }

  /** A node in no list can be rewritten. */
  lemma TouchOrder(m: Memory, ls: Lists, x: int, node: MEOrder)
    requires ListsOk(m, ls, x, -1) && 0 <= x < |m.orders| && !InLists(ls, x)
    ensures ListsOk(m.(orders := m.orders[x := node]), ls, x, -1)
  {
    var b := m.orders[x := node];
    SideFrame(m.orders, b, m.levels, m.levels, BUY, ls.bids);
    SideFrame(m.orders, b, m.levels, m.levels, SELL, ls.asks);
  }

  lemma TakeLevel(m: Memory, ls: Lists, order: int, y: int, node: MEOrdersAtPrice)
    requires ListsOk(m, ls, order, -1) && 0 <= y < |m.levels| && m.levelFree[y]
    ensures !InLevels(ls, y)
    ensures ListsOk(m.(levels := m.levels[y := node], levelFree := m.levelFree[y := false]), ls, order, y)
  {
    var k := m.levels[y := node];
    assert !InLevels(ls, y);
    TableFrame(m.levels, k, m.table, ls, ls);
    SideFrame(m.orders, m.orders, m.levels, k, BUY, ls.bids);
    SideFrame(m.orders, m.orders, m.levels, k, SELL, ls.asks);
  }

  // ----- an order joins a level -----

  lemma FlatPlus(g: seq<LevelList>, i: nat, x: int)
    requires i < |g|
    ensures var h := g[i := LevelList(g[i].slot, g[i].fifo + [x])];
            && Flat(h) == Flat(g[..i]) + (g[i].fifo + [x]) + Flat(g[i + 1..])
            && forall y :: y in Flat(h) <==> y in Flat(g) || y == x
  {
    FlatSplit(g, i);
    FlatReplaced(g, i, LevelList(g[i].slot, g[i].fifo + [x]));
  }

  lemma ListsPlus(ls: Lists, side: Side, h: seq<LevelList>, x: int)
    requires side != INVALID
    requires forall y :: y in Flat(h) <==> y in Flat(ls.On(side)) || y == x
    ensures Plus(ls, ls.With(side, h), x)
  {
    forall y ensures InLists(ls.With(side, h), y) <==> InLists(ls, y) || y == x {
      InSide(ls, side, y);
      InSide(ls.With(side, h), side, y);
    }
  }

  lemma AppendSides(m: Memory, ls: Lists, side: Side, i: nat, x: int)
    requires SidesOk(m.orders, m.levels, ls) && side != INVALID && i < |ls.On(side)| && !InLists(ls, x)
    requires 0 <= ls.On(side)[i].slot < |m.levels|
    requires OrderAt(m.orders, x, side, m.levels[ls.On(side)[i].slot].value.price)
    requires forall j :: 0 <= j < |ls.On(side)[i].fifo| ==> Older(m.orders, ls.On(side)[i].fifo[j], x)
    ensures var l := ls.On(side)[i];
            && l.fifo != [] && Within(l.fifo, |m.orders|)
            && var b := Link(m.orders, l.fifo[|l.fifo| - 1], l.fifo[0], x);
            && OnlyLinks(m.orders, b, l.fifo + [x])
            && SidesOk(b, m.levels, ls.With(side, ls.On(side)[i := LevelList(l.slot, l.fifo + [x])]))
  {
    var g := ls.On(side);
    var l := g[i];
    OneSideOk(m.orders, m.levels, ls, side);
    assert LevelOk(m.orders, m.levels, side, l);
    FifoAppend(m.orders, l.fifo, side, m.levels[l.slot].value.price, x);
    var b := Link(m.orders, l.fifo[|l.fifo| - 1], l.fifo[0], x);
    InSide(ls, side, x);
    SideReplace(m.orders, b, m.levels, m.levels, side, g, i, l.fifo + [x], l.fifo + [x]);
    FlatSplit(g, i);
    OtherSideKept(m, ls, side, b, m.levels, l.fifo + [x], l.slot, i);
    BothSidesOk(b, m.levels, ls, side, g[i := LevelList(l.slot, l.fifo + [x])]);
  }

  /** An order in use but in no list goes to the end of level i. */
  lemma AppendKeepsLists(m: Memory, ls: Lists, side: Side, i: nat, x: int)
    requires ListsOk(m, ls, x, -1) && side != INVALID && i < |ls.On(side)| && !InLists(ls, x)
    requires 0 <= ls.On(side)[i].slot < |m.levels|
    requires OrderAt(m.orders, x, side, m.levels[ls.On(side)[i].slot].value.price)
    requires forall j :: 0 <= j < |ls.On(side)[i].fifo| ==> Older(m.orders, ls.On(side)[i].fifo[j], x)
    ensures var l := ls.On(side)[i];
            && l.fifo != [] && Within(l.fifo, |m.orders|)
            && var b := Link(m.orders, l.fifo[|l.fifo| - 1], l.fifo[0], x);
            var h := ls.With(side, ls.On(side)[i := LevelList(l.slot, l.fifo + [x])]);
            && Plus(ls, h, x)
            && OnlyLinks(m.orders, b, l.fifo + [x])
            && ListsOk(m.(orders := b), h, -1, -1)
  {
    var g := ls.On(side);
    var l := g[i];
    var h := g[i := LevelList(l.slot, l.fifo + [x])];
    AppendSides(m, ls, side, i, x);
    FlatPlus(g, i, x);
    ListsPlus(ls, side, h, x);
    SlotsReplaced(g, i, l.fifo + [x]);
    SameLevels(ls, side, h);
    TableFrame(m.levels, m.levels, m.table, ls, ls.With(side, h));
  }

  // ----- a level joins a side -----

  /** The level ring with level e linked in at position i. */
  function LevelsAfterGrow(levels: seq<MEOrdersAtPrice>, g: seq<LevelList>, i: nat, y: int): (k: seq<MEOrdersAtPrice>)
    requires i <= |g| && 0 <= y < |levels| && Within(Slots(g), |levels|)
    ensures |k| == |levels|
  {
    if g == [] then levels[y := levels[y].(prev := y, next := y)]
    else Link(levels, Slots(g)[Left(i, |g|)], Slots(g)[Right(i, |g|)], y)
  }

  /** Where a new price belongs among the levels of a side. */
  ghost predicate PlaceOf(levels: seq<MEOrdersAtPrice>, side: Side, g: seq<LevelList>, i: nat, e: LevelList) {
    && i <= |g|
    && (forall j :: 0 <= j < i ==> Ahead(levels, side, g[j], e))
    && (forall j :: i <= j < |g| ==> Ahead(levels, side, e, g[j]))
  }

  lemma GrowSide(orders: seq<MEOrder>, levels: seq<MEOrdersAtPrice>, side: Side, g: seq<LevelList>, i: nat,
                 e: LevelList)
    requires SideOk(orders, levels, side, g) && LevelOk(orders, levels, side, e) && PlaceOf(levels, side, g, i, e)
    ensures Within(Slots(g), |levels|)
    ensures var k := LevelsAfterGrow(levels, g, i, e.slot);
            SideOk(orders, k, side, Inserted(g, i, e)) && OnlyLinks(levels, k, Slots(g) + [e.slot])
  {
    if g == [] {
      var k := LevelsAfterGrow(levels, g, i, e.slot);
      LevelValues(orders, levels, k, side, e);
      SideFirstLevel(orders, k, side, e);
      assert Inserted(g, i, e) == [e];
      assert e.slot in Slots(g) + [e.slot];
    } else {
      SideAddLevel(orders, levels, side, g, i, e);
    }
  }

  lemma LevelsPlus(ls: Lists, side: Side, i: nat, e: LevelList)
    requires side != INVALID && i <= |ls.On(side)|
    ensures var h := ls.With(side, Inserted(ls.On(side), i, e));
            forall y :: InLevels(h, y) <==> InLevels(ls, y) || y == e.slot
  {
    var g := ls.On(side);
    var h := ls.With(side, Inserted(g, i, e));
    SlotsInserted(g, i, e);
    assert Slots(g) == Slots(g)[..i] + Slots(g)[i..];
    forall y ensures InLevels(h, y) <==> InLevels(ls, y) || y == e.slot {
      InSide(ls, side, y);
      InSide(h, side, y);
    }
  }

  lemma OrdersPlus(ls: Lists, side: Side, i: nat, y: int, x: int)
    requires side != INVALID && i <= |ls.On(side)|
    ensures Plus(ls, ls.With(side, Inserted(ls.On(side), i, LevelList(y, [x]))), x)
  {
    var g := ls.On(side);
    FlatInserted(g, i, LevelList(y, [x]));
    FlatCut(g, i);
    ListsPlus(ls, side, Inserted(g, i, LevelList(y, [x])), x);
  }

  /** The memory after a level is tabled and linked in. */
  function Grown(m: Memory, ls: Lists, side: Side, i: nat, e: LevelList): Memory
    requires i <= |ls.On(side)| && |m.table| > 0
    requires 0 <= e.slot < |m.levels| && Within(Slots(ls.On(side)), |m.levels|)
  {
    m.(levels := LevelsAfterGrow(m.levels, ls.On(side), i, e.slot),
       table := m.table[PriceToIndex(m.levels[e.slot].value.price, |m.table|) := e.slot])
     .WithHead(side, HeadOf(Inserted(ls.On(side), i, e)))
  }

  lemma GrowSides(m: Memory, ls: Lists, side: Side, i: nat, e: LevelList)
    requires SidesOk(m.orders, m.levels, ls) && side != INVALID && i <= |ls.On(side)| && |m.table| > 0
    requires LevelOk(m.orders, m.levels, side, e) && !InLevels(ls, e.slot)
    requires PlaceOf(m.levels, side, ls.On(side), i, e)
    ensures Within(Slots(ls.On(side)), |m.levels|)
    ensures var k := Grown(m, ls, side, i, e).levels;
            SidesOk(m.orders, k, ls.With(side, Inserted(ls.On(side), i, e)))
            && OnlyLinks(m.levels, k, Slots(ls.On(side)) + [e.slot])
  {
    var g := ls.On(side);
    OneSideOk(m.orders, m.levels, ls, side);
    GrowSide(m.orders, m.levels, side, g, i, e);
    var k := LevelsAfterGrow(m.levels, g, i, e.slot);
    OtherLevelsKept(m.orders, m.levels, k, ls, side, Slots(g) + [e.slot]);
    BothSidesOk(m.orders, k, ls, side, Inserted(g, i, e));
  }

  lemma GrowTables(m: Memory, ls: Lists, h: Lists, x: int, z: int, k: seq<MEOrdersAtPrice>)
    requires |m.levels| == |m.levelFree| == |k| && 0 <= z < |k| && |m.table| > 0
    requires OrdersLive(m.orderFree, ls, x) && LevelsLive(m.levelFree, ls, z) && TableOk(m.levels, m.table, ls)
    requires Plus(ls, h, x)
    requires forall y :: InLevels(h, y) <==> InLevels(ls, y) || y == z
    requires forall y :: 0 <= y < |k| ==> m.levels[y].value == k[y].value
    requires m.table[PriceToIndex(m.levels[z].value.price, |m.table|)] == -1
    ensures OrdersLive(m.orderFree, h, -1) && LevelsLive(m.levelFree, h, -1)
    ensures TableOk(k, m.table[PriceToIndex(m.levels[z].value.price, |m.table|) := z], h)
  {
    TableSet(m.levels, k, m.table, ls, h, z);
  }

  /** A level in use with one order, both in no list yet, is linked in at its place. */
  lemma GrowKeepsLists(m: Memory, ls: Lists, side: Side, i: nat, y: int, x: int)
    requires ListsOk(m, ls, x, y) && side != INVALID && i <= |ls.On(side)|
    requires !InLists(ls, x) && !InLevels(ls, y)
    requires LevelOk(m.orders, m.levels, side, LevelList(y, [x]))
    requires PlaceOf(m.levels, side, ls.On(side), i, LevelList(y, [x]))
    requires m.table[PriceToIndex(m.levels[y].value.price, |m.table|)] == -1
    ensures Within(Slots(ls.On(side)), |m.levels|)
    ensures var e := LevelList(y, [x]);
            var h := ls.With(side, Inserted(ls.On(side), i, e));
            Plus(ls, h, x) && ListsOk(Grown(m, ls, side, i, e), h, -1, -1)
  {
    var e := LevelList(y, [x]);
    var h := ls.With(side, Inserted(ls.On(side), i, e));
    GrowSides(m, ls, side, i, e);
    LevelsPlus(ls, side, i, e);
    OrdersPlus(ls, side, i, y, x);
    GrowTables(m, ls, h, x, y, Grown(m, ls, side, i, e).levels);
  }

  /** The price q of a level is better than p, as the insertion code spells it. */
  predicate WorseThan(side: Side, p: Price, q: Price) {
    (side == BUY && p < q) || (side == SELL && p > q)
  }

  /** Once a level is worse than the price, all that follow are. */
  lemma WorseFromHere(orders: seq<MEOrder>, levels: seq<MEOrdersAtPrice>, side: Side, g: seq<LevelList>, k: nat,
                      price: Price)
    requires Tower(orders, levels, side, g) && k < |g| && 0 <= g[k].slot < |levels|
    requires Better(side, price, levels[g[k].slot].value.price)
    ensures forall j :: k <= j < |g| ==>
              0 <= g[j].slot < |levels| && Better(side, price, levels[g[j].slot].value.price)
  {
    forall j | k <= j < |g|
      ensures 0 <= g[j].slot < |levels| && Better(side, price, levels[g[j].slot].value.price)
    {
      if k < j {
        assert Ahead(levels, side, g[k], g[j]);
      }
    }
  }

  /** The neighbours the insertion code uses are those of the place it found. */
  lemma PlaceNeighbours(orders: seq<MEOrder>, levels: seq<MEOrdersAtPrice>, side: Side, g: seq<LevelList>, k: nat)
    requires SideOk(orders, levels, side, g) && g != [] && k <= |g|
    ensures var n := |g|;
            var p, q := Slots(g)[Left(k, n)], Slots(g)[Right(k, n)];
            && 0 <= p < |levels| && 0 <= q < |levels|
            && q == (if k == n then g[0].slot else g[k].slot)
            && levels[q].prev == p && levels[p].next == q
  {
    var n := |g|;
    var i := Right(k, n);
    SlotAt(g, i);
    SlotAt(g, Left(k, n));
    LevelNeighbours(orders, levels, side, g, i);
    LevelNeighbours(orders, levels, side, g, Left(k, n));
  }

  /** A price that the table does not know is the price of no level. */
  lemma NoLevelAt(m: Memory, ls: Lists, order: int, level: int, side: Side, price: Price)
    requires ListsOk(m, ls, order, level) && side != INVALID
    requires m.table[PriceToIndex(price, |m.table|)] == -1
    ensures forall i :: 0 <= i < |ls.On(side)| ==>
              0 <= ls.On(side)[i].slot < |m.levels| && m.levels[ls.On(side)[i].slot].value.price != price
  {
    forall i | 0 <= i < |ls.On(side)|
      ensures 0 <= ls.On(side)[i].slot < |m.levels| && m.levels[ls.On(side)[i].slot].value.price != price
    {
      LevelFound(m, ls, order, level, side, i);
    }
  }

  lemma HeadFollows(m: Memory, ls: Lists, order: int, level: int, side: Side)
    requires ListsOk(m, ls, order, level) && side != INVALID
    ensures m.Head(side) == HeadOf(ls.On(side))
    ensures SideOk(m.orders, m.levels, side, ls.On(side))
    ensures ls.On(side) != [] ==> 0 <= ls.On(side)[0].slot < |m.levels|
  {
    OneSideOk(m.orders, m.levels, ls, side);
    if ls.On(side) != [] {
      LevelFound(m, ls, order, level, side, 0);
    }
  }
}
