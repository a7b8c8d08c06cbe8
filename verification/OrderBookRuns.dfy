/** Runs of requests on the linked book itself. */
module OrderBookRuns {
  import opened ExchangeTypes
  import opened BookSpec
  import opened BookInvariants
  import opened BookMemory
  import opened BookTables
  import opened BookAbstraction
  import opened OrderBooks
  import opened Capacity
  import opened Replay
  import opened Ledger
  import opened Messages

  ghost function SizesOf(book: MEOrderBook): Sizes {
    Sizes(book.orderPool.isFree.Length, book.levelPool.isFree.Length, book.priceOrdersAtPrice.Length,
          book.cidOidToOrder.Length, book.orderIds)
  }

  method ServeOne(book: MEOrderBook, r: Request) returns (stopped: bool)
    requires book.Valid() && SizesOf(book).tableSize > 0 && Expected(book.State(), r, SizesOf(book))
    modifies book, book.orderPool, book.orderPool.objects, book.orderPool.isFree, book.levelPool,
             book.levelPool.objects, book.levelPool.isFree, book.priceOrdersAtPrice, book.cidOidToOrder
    ensures stopped <==> Stops(old(book.State()), r, SizesOf(book))
    ensures book.State() == if stopped then StoppedBy(old(book.State()), r) else Step(old(book.State()), r)
    ensures if stopped && r.New? then book.Exited() else book.Valid()
  {
    hide ListsOk, IndexOk, Good, Storable, RunsOut, MatchPhase, AddStep, CancelStep, Vals, Flat, Extends;
    match r
    case New(client, oid, ticker, side, price, qty) =>
      stopped := book.Add(client, oid, ticker, side, price, qty);
    case Cancel(client, oid, ticker) =>
      stopped := book.Cancel(client, oid, ticker);
  }

  /** The requests are served in order up to the first one that stops the process, and the book
      stands for the market in which that leaves the flat sequences. */
  method Serve(book: MEOrderBook, rs: seq<Request>) returns (served: nat)
    requires book.Valid() && SizesOf(book).tableSize > 0 && ExpectedRun(book.State(), rs, SizesOf(book))
    modifies book, book.orderPool, book.orderPool.objects, book.orderPool.isFree, book.levelPool,
             book.levelPool.objects, book.levelPool.isFree, book.priceOrdersAtPrice, book.cidOidToOrder
    ensures served <= |rs| && served == Lasts(old(book.State()), rs, SizesOf(book))
    ensures EndsIn(old(book.State()), rs, SizesOf(book), served, book.State())
    ensures if served < |rs| && rs[served].New? then book.Exited() else book.Valid()
    decreases |rs|
  {
    hide ListsOk, IndexOk, Good, RunsOut, MatchPhase, Step, Stops, StoppedBy, EndsIn, Vals, Flat, KeyFree, NoCollision;
    ghost var s0, z := book.State(), SizesOf(book);
    if rs == [] {
      EndsAtOnce(s0, rs, z);
      return 0;
    }
    var stopped := ServeOne(book, rs[0]);
    if stopped {
      EndsAtOnce(s0, rs, z);
      return 0;
    }
    var rest := Serve(book, rs[1..]);
    EndsLater(s0, rs, z, rest, book.State());
    served := rest + 1;
  }

  // ----- what the exchange is for -----

  /** The market data shows the book; the responses report true left quantities, give out the ids
      in order and account for every order, leaves of the order with id taker still being matched;
      trades balance in quantity and money; the streams record the requests served. */
  ghost predicate Truthful(m: Market, qs: seq<Request>, taker: OrderId, leaves: nat) {
    Faithful(m) && Accounted(m, taker, leaves) && AcceptsInOrder(m) && Even(m) && Recorded(m, qs)
  }

  lemma RunTruthful(rs: seq<Request>)
    requires AdmissibleRun(EMPTY, rs)
    ensures Good(Run(EMPTY, rs)) && Truthful(Run(EMPTY, rs), rs, 0, 0)
  {
    hide Good, Faithful, Accounted, AcceptsInOrder, Even, Recorded;
    EmptyRecorded();
    EmptyAccounted();
    StartIsEven();
    RunKeepsGood(EMPTY, rs);
    RunFaithful(EMPTY, rs);
    RunAccounted(EMPTY, rs);
    RunAccepts(EMPTY, rs);
    RunEven(EMPTY, rs);
    StreamsTrue(rs);
  }

  lemma StartIsEven()
    ensures Even(EMPTY)
  {
  }

  /** Matching keeps the market truthful before the rest is stored. */
  lemma MatchTruthful(m: Market, qs: seq<Request>, r: Request)
    requires Good(m) && Truthful(m, qs, 0, 0) && r.New? && r.side != INVALID
    ensures var p := MatchPhase(m, r); Good(p.market) && Truthful(p.market, qs + [r], m.nextId, p.leaves)
  {
    hide Good, Faithful, Accounted, Even, Recorded, MatchLoop, IdsBelow;
    var a, t := Accept(m, r), TakerOf(m, r);
    MatchPhaseGood(m, r);
    AcceptKeepsGood(m, r);
    GoodIdsBelow(m);
    AcceptIdsBelow(m, r);
    MatchPhaseRecorded(m, qs, r);
    AcceptAccounted(m, r);
    MatchAccounted(a, t, r.qty);
    AcceptAccepts(m, r);
    MatchAccepts(a, t, r.qty);
    AcceptEven(m, r);
    MatchEven(a, t, r.qty);
  }

  /** Of a run that ended in the given market: all requests that were answered, and that market is
      truthful about them; an add that stopped the process is accounted for with what it has left. */
  ghost predicate TruthfulEnd(rs: seq<Request>, served: nat, end: Market)
    requires served <= |rs| && AdmissibleRun(EMPTY, rs[..served])
  {
    if served < |rs| && rs[served].New? then
      var last := Run(EMPTY, rs[..served]);
      && rs[served].side != INVALID
      && Truthful(end, rs[..served + 1], last.nextId, MatchPhase(last, rs[served]).leaves)
    else
      Truthful(end, rs[..served], 0, 0)
  }

  /** Wherever a run from the start ends, the market is good and truthful. */
  lemma EndTruthful(rs: seq<Request>, z: Sizes, served: nat, end: Market)
    requires z.tableSize > 0 && EndsIn(EMPTY, rs, z, served, end)
    ensures Good(end) && TruthfulEnd(rs, served, end)
  {
    hide Good, Truthful, MatchPhase;
    RunTruthful(rs[..served]);
    if served < |rs| && rs[served].New? {
      MatchTruthful(Run(EMPTY, rs[..served]), rs[..served], rs[served]);
      assert rs[..served] + [rs[served]] == rs[..served + 1];
    }
  }

  /** The linked book and its streams after serving requests from the start. */
  method ServeFromStart(book: MEOrderBook, rs: seq<Request>) returns (served: nat)
    requires book.Valid() && book.State() == EMPTY && SizesOf(book).tableSize > 0
    requires ExpectedRun(EMPTY, rs, SizesOf(book))
    modifies book, book.orderPool, book.orderPool.objects, book.orderPool.isFree, book.levelPool,
             book.levelPool.objects, book.levelPool.isFree, book.priceOrdersAtPrice, book.cidOidToOrder
    ensures served <= |rs| && served == Lasts(EMPTY, rs, SizesOf(book))
    ensures EndsIn(EMPTY, rs, SizesOf(book), served, book.State())
    ensures Good(book.State()) && TruthfulEnd(rs, served, book.State())
    ensures if served < |rs| && rs[served].New? then book.Exited() else book.Valid()
  {
    hide ListsOk, IndexOk, Good, TruthfulEnd, Vals, Flat, ExpectedRun, Lasts, MatchPhase, Stops, StoppedBy;
    served := Serve(book, rs);
    EndTruthful(rs, SizesOf(book), served, book.State());
  }

  /** A new book serves every request of a run that fits it. */
  method ServeFitting(orderIds: nat, priceLevels: nat, clients: nat, rs: seq<Request>) returns (book: MEOrderBook)
    requires var z := Sizes(orderIds, priceLevels, priceLevels, clients, orderIds);
             && orderIds > 0 && priceLevels > 0 && ExpectedRun(EMPTY, rs, z)
             && Adds(rs) < orderIds && |AddedPrices(rs)| < priceLevels
             && forall i :: 0 <= i < |rs| && rs[i].Cancel? && rs[i].client < clients ==> rs[i].oid < orderIds
    ensures book.Valid() && AdmissibleRun(EMPTY, rs) && book.State() == Run(EMPTY, rs)
    ensures Good(book.State()) && Truthful(book.State(), rs, 0, 0)
  {
    hide ListsOk, IndexOk, Truthful, Vals, Flat, ExpectedRun, Lasts, MatchPhase, Stops, StoppedBy;
    book := new MEOrderBook(orderIds, priceLevels, clients);
    ghost var z := SizesOf(book);
    EmptyFits(rs);
    FittingRunLasts(EMPTY, rs, z);
    var served := ServeFromStart(book, rs);
    assert rs[..served] == rs;
  }

  lemma EmptyFits(rs: seq<Request>)
    ensures Good(EMPTY) && RestingCount(EMPTY) == 0 && AllPrices(EMPTY) + AddedPrices(rs) == AddedPrices(rs)
  {
  }
}
