/** The linked representation of the book, as values: nodes in two pools, two rings of price
    levels, one ring of orders per level, and the two index tables. The ghost lists say which
    slots the rings visit; the predicates say when all of it agrees. */
module BookMemory {
  import opened ExchangeTypes
  import opened BookSpec
  import opened Sequences
  import opened Rings

  /** A price level; first is the slot of its oldest order. */
  datatype PriceLevel = PriceLevel(side: Side, price: Price, first: int)

  type MEOrder = Node<Order>
  type MEOrdersAtPrice = Node<PriceLevel>

  /** A level slot with the slots of its orders, oldest first. */
  datatype LevelList = LevelList(slot: int, fifo: seq<int>)

  /** Levels of both sides, best first. */
  datatype Lists = Lists(bids: seq<LevelList>, asks: seq<LevelList>)
  {
    function On(side: Side): seq<LevelList> {
      if side == BUY then bids else asks
    }

    function With(side: Side, g: seq<LevelList>): Lists {
      if side == BUY then this.(bids := g) else this.(asks := g)
    }
  }

  function Slots(g: seq<LevelList>): seq<int> {
    seq(|g|, i requires 0 <= i < |g| => g[i].slot)
  }

  /** All order slots of a side, best price first, oldest first. */
  function Flat(g: seq<LevelList>): seq<int> {
    if g == [] then [] else g[0].fifo + Flat(g[1..])
  }

  // ----- one side -----

  predicate OrderAt(orders: seq<MEOrder>, x: int, side: Side, price: Price) {
    0 <= x < |orders| && orders[x].value.side == side && orders[x].value.price == price
  }

  /** The orders of a level form a ring in the order of their arrival. */
  ghost predicate FifoOk(orders: seq<MEOrder>, fifo: seq<int>, side: Side, price: Price) {
    && fifo != []
    && Ring(orders, fifo)
    && (forall j :: 0 <= j < |fifo| ==> OrderAt(orders, fifo[j], side, price))
    && (forall j, k :: 0 <= j < k < |fifo| ==> Older(orders, fifo[j], fifo[k]))
  }

  ghost predicate Older(orders: seq<MEOrder>, x: int, y: int) {
    0 <= x < |orders| && 0 <= y < |orders| && orders[x].value.moid < orders[y].value.moid
  }

  ghost predicate LevelOk(orders: seq<MEOrder>, levels: seq<MEOrdersAtPrice>, side: Side, l: LevelList) {
    && 0 <= l.slot < |levels|
    && levels[l.slot].value.side == side
    && FifoOk(orders, l.fifo, side, levels[l.slot].value.price)
    && levels[l.slot].value.first == l.fifo[0]
  }

  ghost predicate Ahead(levels: seq<MEOrdersAtPrice>, side: Side, l: LevelList, k: LevelList) {
    && 0 <= l.slot < |levels| && 0 <= k.slot < |levels|
    && Better(side, levels[l.slot].value.price, levels[k.slot].value.price)
  }

  /** Well-formed levels, strictly sorted from best to worst. */
  ghost predicate Tower(orders: seq<MEOrder>, levels: seq<MEOrdersAtPrice>, side: Side, g: seq<LevelList>) {
    && (forall i :: 0 <= i < |g| ==> LevelOk(orders, levels, side, g[i]))
    && (forall i, j :: 0 <= i < j < |g| ==> Ahead(levels, side, g[i], g[j]))
  }

  /** The levels of a side are in order and form a ring. */
  ghost predicate SideOk(orders: seq<MEOrder>, levels: seq<MEOrdersAtPrice>, side: Side, g: seq<LevelList>) {
    Tower(orders, levels, side, g) && Ring(levels, Slots(g))
  }

  lemma FifoInjective(orders: seq<MEOrder>, fifo: seq<int>, side: Side, price: Price)
    requires FifoOk(orders, fifo, side, price)
    ensures Injective(fifo)
  {
    forall i, j | 0 <= i < j < |fifo| ensures fifo[i] != fifo[j] {
      assert Older(orders, fifo[i], fifo[j]);
    }
  }

  lemma SlotsInjective(orders: seq<MEOrder>, levels: seq<MEOrdersAtPrice>, side: Side, g: seq<LevelList>)
    requires SideOk(orders, levels, side, g)
    ensures Injective(Slots(g))
  {
    forall i, j | 0 <= i < j < |g| ensures g[i].slot != g[j].slot {
      assert Ahead(levels, side, g[i], g[j]);
    }
  }

  /** Nodes that a ring of orders cannot tell apart. */
  predicate Alike(a: MEOrder, b: MEOrder) {
    && a.prev == b.prev && a.next == b.next
    && a.value.(qty := 0) == b.value.(qty := 0)
  }

  lemma FifoFrame(a: seq<MEOrder>, b: seq<MEOrder>, fifo: seq<int>, side: Side, price: Price)
    requires FifoOk(a, fifo, side, price) && |a| == |b|
    requires forall j :: 0 <= j < |fifo| ==> Alike(a[fifo[j]], b[fifo[j]])
    ensures FifoOk(b, fifo, side, price)
  {
    RingFrame(a, b, fifo);
    forall j | 0 <= j < |fifo| ensures OrderAt(b, fifo[j], side, price) {
      assert OrderAt(a, fifo[j], side, price) && Alike(a[fifo[j]], b[fifo[j]]);
    }
    forall j, k | 0 <= j < k < |fifo| ensures Older(b, fifo[j], fifo[k]) {
      assert Older(a, fifo[j], fifo[k]) && Alike(a[fifo[j]], b[fifo[j]]) && Alike(a[fifo[k]], b[fifo[k]]);
    }
  }

  lemma FifoValues(a: seq<MEOrder>, b: seq<MEOrder>, fifo: seq<int>, side: Side, price: Price)
    requires |a| == |b| && Ring(b, fifo) && fifo != []
    requires forall j :: 0 <= j < |fifo| ==> OrderAt(a, fifo[j], side, price)
    requires forall j, k :: 0 <= j < k < |fifo| ==> Older(a, fifo[j], fifo[k])
    requires forall y :: 0 <= y < |a| ==> a[y].value == b[y].value
    ensures FifoOk(b, fifo, side, price)
  {
    forall j | 0 <= j < |fifo| ensures OrderAt(b, fifo[j], side, price) {
      assert OrderAt(a, fifo[j], side, price);
    }
    forall j, k | 0 <= j < k < |fifo| ensures Older(b, fifo[j], fifo[k]) {
      assert Older(a, fifo[j], fifo[k]);
    }
  }

  lemma FifoRemove(a: seq<MEOrder>, fifo: seq<int>, side: Side, price: Price, j: nat)
    requires FifoOk(a, fifo, side, price) && j < |fifo| && |fifo| >= 2
    ensures 0 <= a[fifo[j]].prev < |a| && 0 <= a[fifo[j]].next < |a|
    ensures FifoOk(Unlink(a, fifo[j]), RemoveAt(fifo, j), side, price)
    ensures OnlyLinks(a, Unlink(a, fifo[j]), fifo)
  {
    FifoInjective(a, fifo, side, price);
    RingUnlink(a, fifo, j);
    var r := RemoveAt(fifo, j);
    forall i | 0 <= i < |r| ensures OrderAt(a, r[i], side, price) {
      assert r[i] == fifo[Skip(i, j)];
    }
    forall i, k | 0 <= i < k < |r| ensures Older(a, r[i], r[k]) {
      assert r[i] == fifo[Skip(i, j)] && r[k] == fifo[Skip(k, j)];
    }
    FifoValues(a, Unlink(a, fifo[j]), r, side, price);
  }

  lemma FifoAppend(a: seq<MEOrder>, fifo: seq<int>, side: Side, price: Price, x: int)
    requires FifoOk(a, fifo, side, price) && OrderAt(a, x, side, price)
    requires forall j :: 0 <= j < |fifo| ==> Older(a, fifo[j], x)
    ensures FifoOk(Link(a, fifo[|fifo| - 1], fifo[0], x), fifo + [x], side, price)
    ensures OnlyLinks(a, Link(a, fifo[|fifo| - 1], fifo[0], x), fifo + [x])
  {
    FifoInjective(a, fifo, side, price);
    assert x !in fifo by {
      forall j | 0 <= j < |fifo| ensures fifo[j] != x { assert Older(a, fifo[j], x); }
    }
    RingLink(a, fifo, |fifo|, x);
    var r := fifo + [x];
    assert Inserted(fifo, |fifo|, x) == r;
    forall i, k | 0 <= i < k < |r| ensures Older(a, r[i], r[k]) {
      assert r[i] == fifo[i] && (k < |fifo| ==> r[k] == fifo[k]);
    }
    FifoValues(a, Link(a, fifo[|fifo| - 1], fifo[0], x), r, side, price);
  }

  lemma FifoSingle(a: seq<MEOrder>, x: int)
    requires 0 <= x < |a| && a[x].prev == x && a[x].next == x
    ensures FifoOk(a, [x], a[x].value.side, a[x].value.price)
  {
    RingSingle(a, x);
  }

  lemma LevelFrame(a: seq<MEOrder>, b: seq<MEOrder>, k: seq<MEOrdersAtPrice>, l: seq<MEOrdersAtPrice>,
                   side: Side, e: LevelList)
    requires LevelOk(a, k, side, e) && |a| == |b| && |k| == |l|
    requires forall j :: 0 <= j < |e.fifo| ==> Alike(a[e.fifo[j]], b[e.fifo[j]])
    requires k[e.slot].value == l[e.slot].value
    ensures LevelOk(b, l, side, e)
  {
    FifoFrame(a, b, e.fifo, side, k[e.slot].value.price);
  }

  // ----- positions in the flat sequence -----

  lemma {:induction false} FlatSplit(g: seq<LevelList>, i: nat)
    requires i < |g|
    ensures Flat(g) == Flat(g[..i]) + g[i].fifo + Flat(g[i + 1..])
  {
    if i == 0 {
      assert g[..0] == [];
    } else {
      FlatSplit(g[1..], i - 1);
      var a, f, b := Flat(g[1..][..i - 1]), g[i].fifo, Flat(g[i + 1..]);
      assert Flat(g[1..]) == a + f + b by {
        assert g[1..][i..] == g[i + 1..];
      }
      assert Flat(g[..i]) == g[0].fifo + a by {
        assert g[..i][1..] == g[1..][..i - 1];
      }
      assert g[0].fifo + (a + f + b) == (g[0].fifo + a) + f + b;
    }
  }

  lemma {:induction false} FlatConcat(g: seq<LevelList>, h: seq<LevelList>)
    ensures Flat(g + h) == Flat(g) + Flat(h)
  {
    if g == [] {
      assert g + h == h;
    } else {
      assert (g + h)[1..] == g[1..] + h;
      FlatConcat(g[1..], h);
    }
  }

  lemma FlatReplaced(g: seq<LevelList>, i: nat, l: LevelList)
    requires i < |g|
    ensures Flat(g[i := l]) == Flat(g[..i]) + l.fifo + Flat(g[i + 1..])
  {
    var h := g[i := l];
    FlatSplit(h, i);
    assert h[..i] == g[..i] && h[i + 1..] == g[i + 1..];
  }

  lemma FlatRemoved(g: seq<LevelList>, i: nat)
    requires i < |g|
    ensures Flat(RemoveAt(g, i)) == Flat(g[..i]) + Flat(g[i + 1..])
  {
    FlatConcat(g[..i], g[i + 1..]);
  }

  lemma FlatCut(g: seq<LevelList>, i: nat)
    requires i <= |g|
    ensures Flat(g) == Flat(g[..i]) + Flat(g[i..])
  {
    FlatConcat(g[..i], g[i..]);
    assert g == g[..i] + g[i..];
  }

  lemma FlatInserted(g: seq<LevelList>, i: nat, l: LevelList)
    requires i <= |g|
    ensures Flat(Inserted(g, i, l)) == Flat(g[..i]) + l.fifo + Flat(g[i..])
  {
    FlatSplit(Inserted(g, i, l), i);
    var h := Inserted(g, i, l);
    assert h[i] == l;
    assert h[..i] == g[..i];
    assert h[i + 1..] == g[i..];
  }

  /** Where a slot of the flat sequence sits. */
  lemma {:induction false} Locate(g: seq<LevelList>, x: int) returns (i: nat, j: nat)
    requires x in Flat(g)
    ensures i < |g| && j < |g[i].fifo| && g[i].fifo[j] == x
  {
    if x in g[0].fifo {
      i := 0;
      j :| 0 <= j < |g[0].fifo| && g[0].fifo[j] == x;
    } else {
      i, j := Locate(g[1..], x);
      i := i + 1;
    }
  }

  lemma FlatIndex(g: seq<LevelList>, i: nat, j: nat)
    requires i < |g| && j < |g[i].fifo|
    ensures |Flat(g[..i])| + j < |Flat(g)| && Flat(g)[|Flat(g[..i])| + j] == g[i].fifo[j]
  {
    FlatSplit(g, i);
  }

  lemma InFlat(g: seq<LevelList>, i: nat, x: int)
    requires i < |g| && x in g[i].fifo
    ensures x in Flat(g)
  {
    FlatSplit(g, i);
  }

  // ----- a side under changes elsewhere and of one level -----

  lemma SlotAt(g: seq<LevelList>, i: nat)
    requires i < |g|
    ensures Slots(g)[i] == g[i].slot && g[i].slot in Slots(g)
  {
  }

  /** A side only depends on its own nodes. */
  lemma SideFrame(a: seq<MEOrder>, b: seq<MEOrder>, k: seq<MEOrdersAtPrice>, l: seq<MEOrdersAtPrice>,
                  side: Side, g: seq<LevelList>)
    requires SideOk(a, k, side, g) && |a| == |b| && |k| == |l|
    requires forall x :: x in Flat(g) && 0 <= x < |a| ==> Alike(a[x], b[x])
    requires forall y :: y in Slots(g) && 0 <= y < |k| ==> k[y] == l[y]
    ensures SideOk(b, l, side, g)
  {
    forall i | 0 <= i < |g| ensures LevelOk(b, l, side, g[i]) {
      assert LevelOk(a, k, side, g[i]);
      SlotAt(g, i);
      forall j | 0 <= j < |g[i].fifo| ensures Alike(a[g[i].fifo[j]], b[g[i].fifo[j]]) {
        InFlat(g, i, g[i].fifo[j]);
        assert OrderAt(a, g[i].fifo[j], side, k[g[i].slot].value.price);
      }
      LevelFrame(a, b, k, l, side, g[i]);
    }
    LevelsFrame(k, l, side, g);
  }

  lemma LevelsFrame(k: seq<MEOrdersAtPrice>, l: seq<MEOrdersAtPrice>, side: Side, g: seq<LevelList>)
    requires |k| == |l| && Ring(k, Slots(g))
    requires forall i, j :: 0 <= i < j < |g| ==> Ahead(k, side, g[i], g[j])
    requires forall y :: y in Slots(g) && 0 <= y < |k| ==>
                           k[y].value.price == l[y].value.price && k[y].prev == l[y].prev && k[y].next == l[y].next
    ensures Ring(l, Slots(g))
    ensures forall i, j :: 0 <= i < j < |g| ==> Ahead(l, side, g[i], g[j])
  {
    RingFrame(k, l, Slots(g));
    forall i, j | 0 <= i < j < |g| ensures Ahead(l, side, g[i], g[j]) {
      assert Ahead(k, side, g[i], g[j]);
      SlotAt(g, i);
      SlotAt(g, j);
    }
  }

  /** Different levels of a side share no order. */
  lemma LevelsApart(orders: seq<MEOrder>, levels: seq<MEOrdersAtPrice>, side: Side, g: seq<LevelList>,
                    i: nat, j: nat, x: int)
    requires Tower(orders, levels, side, g) && i < |g| && j < |g| && i != j
    requires x in g[i].fifo
    ensures x !in g[j].fifo
  {
    assert LevelOk(orders, levels, side, g[i]) && LevelOk(orders, levels, side, g[j]);
    if i < j { assert Ahead(levels, side, g[i], g[j]); } else { assert Ahead(levels, side, g[j], g[i]); }
    assert OrderAt(orders, x, side, levels[g[i].slot].value.price);
    forall q | 0 <= q < |g[j].fifo| ensures g[j].fifo[q] != x {
      assert OrderAt(orders, g[j].fifo[q], side, levels[g[j].slot].value.price);
    }
  }

  /** Every order of a side carries the side, and its slot is a pool slot. */
  lemma FlatOrder(orders: seq<MEOrder>, levels: seq<MEOrdersAtPrice>, side: Side, g: seq<LevelList>, x: int)
    requires SideOk(orders, levels, side, g) && x in Flat(g)
    ensures 0 <= x < |orders| && orders[x].value.side == side
  {
    var i, j := Locate(g, x);
    assert LevelOk(orders, levels, side, g[i]);
    assert OrderAt(orders, g[i].fifo[j], side, levels[g[i].slot].value.price);
  }

  lemma SlotLevel(orders: seq<MEOrder>, levels: seq<MEOrdersAtPrice>, side: Side, g: seq<LevelList>, y: int)
    requires SideOk(orders, levels, side, g) && y in Slots(g)
    ensures 0 <= y < |levels| && levels[y].value.side == side
  {
    var i :| 0 <= i < |g| && Slots(g)[i] == y;
    assert LevelOk(orders, levels, side, g[i]);
  }

  /** Level i gets a new list of orders; no other level notices. */
  lemma SideReplace(a: seq<MEOrder>, b: seq<MEOrder>, k: seq<MEOrdersAtPrice>, l: seq<MEOrdersAtPrice>,
                    side: Side, g: seq<LevelList>, i: nat, fifo: seq<int>, touched: seq<int>)
    requires SideOk(a, k, side, g) && i < |g| && |a| == |b| && |k| == |l|
    requires OnlyLinks(a, b, touched)
    requires forall x :: x in touched ==> x in g[i].fifo || x !in Flat(g)
    requires forall y :: 0 <= y < |k| ==> l[y] == k[y] || (y == g[i].slot && l[y] == k[y].(value := l[y].value)
                                                            && l[y].value.price == k[y].value.price)
    requires LevelOk(b, l, side, LevelList(g[i].slot, fifo))
    ensures SideOk(b, l, side, g[i := LevelList(g[i].slot, fifo)])
  {
    hide LevelOk, Ring, Injective, Flat, Better;
    var h := g[i := LevelList(g[i].slot, fifo)];
    SlotsInjective(a, k, side, g);
    forall j | 0 <= j < |h| ensures LevelOk(b, l, side, h[j]) {
      if j != i {
        OtherLevelKept(a, b, k, l, side, g, i, j, touched);
      }
    }
    assert Slots(h) == Slots(g);
    LevelsFrame(k, l, side, g);
    forall p, q | 0 <= p < q < |h| ensures Ahead(l, side, h[p], h[q]) {
      assert Ahead(l, side, g[p], g[q]);
    }
  }

  lemma OtherLevelKept(a: seq<MEOrder>, b: seq<MEOrder>, k: seq<MEOrdersAtPrice>, l: seq<MEOrdersAtPrice>,
                       side: Side, g: seq<LevelList>, i: nat, j: nat, touched: seq<int>)
    requires SideOk(a, k, side, g) && i < |g| && j < |g| && j != i && |a| == |b| && |k| == |l|
    requires OnlyLinks(a, b, touched) && Injective(Slots(g))
    requires forall x :: x in touched ==> x in g[i].fifo || x !in Flat(g)
    requires forall y :: 0 <= y < |k| && y != g[i].slot ==> l[y] == k[y]
    ensures LevelOk(b, l, side, g[j])
  {
    assert LevelOk(a, k, side, g[j]);
    assert Slots(g)[i] == g[i].slot && Slots(g)[j] == g[j].slot;
    SameSlot(Slots(g), i, j);
    forall q | 0 <= q < |g[j].fifo| ensures Alike(a[g[j].fifo[q]], b[g[j].fifo[q]]) {
      var x := g[j].fifo[q];
      InFlat(g, j, x);
      LevelsApart(a, k, side, g, j, i, x);
      assert OrderAt(a, x, side, k[g[j].slot].value.price);
    }
    LevelFrame(a, b, k, l, side, g[j]);
  }

  // ----- a level leaves or joins a side -----

  lemma SlotsRemoved(g: seq<LevelList>, i: nat)
    requires i < |g|
    ensures Slots(RemoveAt(g, i)) == RemoveAt(Slots(g), i)
  {
  }

  lemma SlotsInserted(g: seq<LevelList>, i: nat, l: LevelList)
    requires i <= |g|
    ensures Slots(Inserted(g, i, l)) == Inserted(Slots(g), i, l.slot)
  {
  }

  lemma LevelValues(orders: seq<MEOrder>, k: seq<MEOrdersAtPrice>, l: seq<MEOrdersAtPrice>, side: Side, e: LevelList)
    requires LevelOk(orders, k, side, e) && |k| == |l|
    requires k[e.slot].value == l[e.slot].value
    ensures LevelOk(orders, l, side, e)
  {
  }

  lemma SideDropLevel(orders: seq<MEOrder>, k: seq<MEOrdersAtPrice>, side: Side, g: seq<LevelList>, i: nat)
    requires SideOk(orders, k, side, g) && i < |g| && |g| >= 2
    ensures 0 <= k[g[i].slot].prev < |k| && 0 <= k[g[i].slot].next < |k|
    ensures SideOk(orders, Unlink(k, g[i].slot), side, RemoveAt(g, i))
    ensures OnlyLinks(k, Unlink(k, g[i].slot), Slots(g))
  {
    SlotsInjective(orders, k, side, g);
    SlotAt(g, i);
    RingUnlink(k, Slots(g), i);
    SlotsRemoved(g, i);
    var l, r := Unlink(k, g[i].slot), RemoveAt(g, i);
    forall j | 0 <= j < |r| ensures LevelOk(orders, l, side, r[j]) {
      assert r[j] == g[Skip(j, i)];
      assert LevelOk(orders, k, side, g[Skip(j, i)]);
      LevelValues(orders, k, l, side, r[j]);
    }
    forall p, q | 0 <= p < q < |r| ensures Ahead(l, side, r[p], r[q]) {
      assert Ahead(k, side, g[Skip(p, i)], g[Skip(q, i)]);
    }
  }

  lemma SideAddLevel(orders: seq<MEOrder>, k: seq<MEOrdersAtPrice>, side: Side, g: seq<LevelList>, i: nat, e: LevelList)
    requires SideOk(orders, k, side, g) && g != [] && i <= |g|
    requires LevelOk(orders, k, side, e)
    requires forall j :: 0 <= j < i ==> Ahead(k, side, g[j], e)
    requires forall j :: i <= j < |g| ==> Ahead(k, side, e, g[j])
    ensures 0 <= Slots(g)[Left(i, |g|)] < |k| && 0 <= Slots(g)[Right(i, |g|)] < |k|
    ensures var l := Link(k, Slots(g)[Left(i, |g|)], Slots(g)[Right(i, |g|)], e.slot);
            SideOk(orders, l, side, Inserted(g, i, e)) && OnlyLinks(k, l, Slots(g) + [e.slot])
  {
    SlotsInjective(orders, k, side, g);
    assert e.slot !in Slots(g) by {
      forall j | 0 <= j < |g| ensures Slots(g)[j] != e.slot {
        assert j < i ==> Ahead(k, side, g[j], e);
        assert i <= j ==> Ahead(k, side, e, g[j]);
      }
    }
    RingLink(k, Slots(g), i, e.slot);
    SlotsInserted(g, i, e);
    AddedLevels(orders, k, Link(k, Slots(g)[Left(i, |g|)], Slots(g)[Right(i, |g|)], e.slot), side, g, i, e);
  }

  lemma AddedLevels(orders: seq<MEOrder>, k: seq<MEOrdersAtPrice>, l: seq<MEOrdersAtPrice>, side: Side,
                    g: seq<LevelList>, i: nat, e: LevelList)
    requires forall j :: 0 <= j < |g| ==> LevelOk(orders, k, side, g[j])
    requires forall p, q :: 0 <= p < q < |g| ==> Ahead(k, side, g[p], g[q])
    requires i <= |g| && LevelOk(orders, k, side, e)
    requires forall j :: 0 <= j < i ==> Ahead(k, side, g[j], e)
    requires forall j :: i <= j < |g| ==> Ahead(k, side, e, g[j])
    requires |k| == |l| && forall y :: 0 <= y < |k| ==> k[y].value == l[y].value
    requires Ring(l, Slots(Inserted(g, i, e)))
    ensures SideOk(orders, l, side, Inserted(g, i, e))
  {
    var r := Inserted(g, i, e);
    forall j | 0 <= j < |r| ensures LevelOk(orders, l, side, r[j]) {
      assert r[j] == if j < i then g[j] else if j == i then e else g[j - 1];
      assert LevelOk(orders, k, side, r[j]);
      LevelValues(orders, k, l, side, r[j]);
    }
    forall p, q | 0 <= p < q < |r| ensures Ahead(l, side, r[p], r[q]) {
      assert r[p] == if p < i then g[p] else if p == i then e else g[p - 1];
      assert r[q] == if q < i then g[q] else if q == i then e else g[q - 1];
      assert Ahead(k, side, r[p], r[q]);
    }
  }

  lemma SideFirstLevel(orders: seq<MEOrder>, k: seq<MEOrdersAtPrice>, side: Side, e: LevelList)
    requires LevelOk(orders, k, side, e) && k[e.slot].prev == e.slot && k[e.slot].next == e.slot
    ensures SideOk(orders, k, side, [e])
  {
    RingSingle(k, e.slot);
    assert Slots([e]) == [e.slot];
  }
}
