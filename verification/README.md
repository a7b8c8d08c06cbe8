# Exchange core: order book, queues, slot pools, log format

A Dafny model of the matching core of QuantEngine with proofs about it. `dafny verify dfyconfig.toml`
checks the whole project.

The limit order book is modelled in the form the program gives it: two slot pools, rings of slots for
price levels and for the orders of a level, a price table shared by both sides and a (client, order id)
table, all updated in place by `add`, `cancel` and matching. Every method is proved to do what a step
function does on two flat sequences of resting orders (best price first, oldest first), and what the
program is for is proved about those step functions: over every run of requests the book stays sorted,
uncrossed and consistent, the market data stream replays to the book, every order's quantity is accounted
for by its responses, every message says what its requests and the earlier messages call for, and matching
is a reference matcher that walks the flat sequence. `OrderBookRuns`
carries the run theorems over to the linked book and says in which state it ends when a pool runs out or a
cancel throws; `Capacity` says which runs it serves to their end.

The lock-free queue is modelled twice: as a class, for one thread at a time, and as a machine of two
threads in which every load, store and counter update is a step of its own. The slot allocator and the
logger's format scanner are classes proved against specification functions.

| file | content |
|---|---|
| `Types.dfy` | identifiers, bounded integers, the two message formats |
| `Sequences.dfy` | a sequence without one element or with one more |
| `BookSpec.dfy` | one match call, one add, one cancel and runs of requests, on flat sequences |
| `BookInvariants.dfy` | what holds of every reachable book |
| `PriceTime.dfy` | the reference matcher, the match loop is it, what it achieves |
| `Replay.dfy`, `Ledger.dfy` | market data replay; per-order ledger and trade balance |
| `Messages.dfy` | every field of both streams, stated on requests and streams alone |
| `CancelTheorems.dfy` | cancel as linear search; cancel undoes add |
| `MemPool.dfy` | the slot allocator and its runs |
| `Rings.dfy` | circular doubly linked lists over slots: unlink and link |
| `BookMemory.dfy`, `BookTables.dfy` | the linked representation as values, and how each change keeps it consistent |
| `BookAbstraction.dfy` | the flat sequences behind the linked representation; when the pools run out |
| `OrderBook.dfy` | the order book class |
| `Capacity.dfy` | which runs fit the pools, and where the others end |
| `OrderBookUndo.dfy`, `OrderBookRuns.dfy` | add then cancel, and whole runs of requests, on the class |
| `LFQueue.dfy`, `SpscMachine.dfy` | the queue class; all interleavings of producer, consumer and destructor |
| `SpscShutdown.dfy` | the logger's shutdown ends under every schedule that is fair for long enough |
| `LogFormat.dfy`, `Logger.dfy` | the format language; the logger class |

## What the proofs found

- **Priorities carry no time.** `getNextPriority` (src/me_order_book.cpp:54) hands on the last order's
  priority without adding one, so every resting order has priority 1 in every reachable state
  (`TimePriority`). Time priority lives in the ring order and in the market order ids only.
- **Pools of N serve N - 1.** The allocator exits when the last free slot is taken, not when one more is
  asked for (`TakeIsFatal`). `Add` exits exactly when the rest of an order takes the last order slot, or
  needs a new level and takes the last level slot (`RunsOut` in `Add`): the book holds at most 255 price
  levels, although its table has 256 entries. A run whose orders and prices stay below the slots is served
  to its end (`FittingRunLasts`).
- **A full ring looks empty.** The queue never checks for space. First-in first-out holds over every
  interleaving while fewer elements are outstanding than there are slots, and the bound is exact: the queue
  shows the outstanding elements in every state of a run if and only if the run stays within the bound
  (`BoundIsExact`, `BoundIsExactOverRuns`), and past it the slot about to be filled holds the oldest unread
  element (`PastTheBound`). In a ring of two, the pushes 7 and 8 leave a queue that shows nothing
  (`FullRingLooksEmpty`), and after a third push of 9 the first element used is 9 (`FifoBreaksPastTheBound`).
  For one thread, `PushedAllContents` gives the contents after any number of pushes: whole turns of the
  ring are lost.
- **The unguarded counter can show 2^64 - 1.** Behind the size guard of `flushQueue` the counter is never
  below zero; `MatchingEngine::run` has no guard, and there it is one below zero exactly while the last
  published element has been counted down but not yet counted up (`CounterAccounting`,
  `UnguardedUnderflow`).
- **Two kinds of CANCEL.** The update that takes out a filled order carries the quantity it had before the
  trade and the invalid priority, the one that a client's cancel causes carries zero and the order's
  priority; a subscriber tells them apart by the TRADE in front (`UpdateTrue` in `StreamsTrue`).
- **Tickers follow the request.** Both FILLED of a match carry the incoming order's ticker and a CANCELED
  the cancel request's, whatever the resting order was acknowledged with (`CancelTicker`, with the run
  `CancelNamesAnotherTicker`). If all requests name one ticker, everything sent does (`RunOnly`).
- **Some outputs have no format.** `"%%%"` is a percent sign followed by a placeholder. No format puts a
  placeholder directly in front of another placeholder or of a percent sign, and every other token
  sequence has one (`Expressible`).

## Corrections to the insertion path

The insertion code of src/me_order_book.cpp is unfinished. The model takes its evident intent, which the
reading code (lines 177-185, 198, 207) and note.md:49 show:

- line 34: `add` calls the seven-argument `checkForMatch` (defined at line 193) instead of the one without
  arguments that include/me_order_book.h:39 declares;
- lines 51-53: an absent level gives priority 1;
- lines 76-79, 112, 115-116: BUY levels belong to the bids and SELL levels to the asks;
- lines 88 and 94: the flag is assigned, not declared again;
- lines 114-115: a better ask is a lower one;
- the two index tables start with null entries (include/me_order_book.h:14 and 18).

Matching, removal, cancellation and the messages are as written.

## Modelling choices

- Pointers to orders and levels are slot numbers of their pools, -1 for null. A pool keeps its objects and
  its in-use flags in two arrays. A row of the id table is a value, as a `std::array` inside a
  `std::array` is.
- The two output streams of the book are sequences; `SendClientResponse` and `SendMarketUpdate` append.
  That a queue delivers what is pushed, in order, is the subject of `SpscMachine`.
- `exit` on a full pool is the result `fatal`; the exception of `.at` for an order id beyond the table is
  the result `threw`; the `FATAL` calls of the logger are the results `MissingArgs` and `ExtraArgs`.
- `add` requires a side other than `INVALID`, for which the code has no handling, and what the code relies on
  when something is left to store: the (client, order id) entry is free, both are in range, and no resting
  order has another price with the same table index. `CollideIff` says when two prices share an index.
- `lists`, `g`, `i`, `j`, `k` in the book's methods are ghost: they name the slots the rings visit.
- Parts of one source function are separate methods where the proof needs it: `add` is `Add` and `StoreRest`,
  `addOrder` is `AddOrder`, `PlaceOrder`, `AddNewLevel` and `AppendToLevel`, `addOrderAtPrice` is
  `AddOrderAtPrice`, `LinkLevel` and `FindPlace`, `removeOrder` is `RemoveOrder` and `DetachOrder`,
  `match` is `Match`, `ReduceQuantity`, `ReportTrade` and `DropEmptied`, `cancel` is `Cancel` and `CancelResting`; the
  scan that both `log` overloads contain is `Scan`, and the body of the flush loop is `Stream`.
- `hide` statements keep definitions out of proofs that do not need them.

## Model

| member | source | states |
|---|---|---|
| PriceTime.MatchLoopIsMatchAll | src/me_order_book.cpp:193-265 | the match loop returns the residual, the ordered trades, the messages and the remaining book of the reference matcher on the flat opposite side |
| PriceTime.AddMatchesByPriceAndTime | src/me_order_book.cpp:34-35 | from every reachable book the matching inside an add is the reference matcher: served by price then time, residual in closed form, a buyer at most at its limit and a seller at least, prices never improving; if anything is left, every opposite price left is beyond the limit |
| PriceTime.PriorityRespected | src/me_order_book.cpp:196-224 | makers are a prefix of the book, all but the last fully filled, the rest untouched; one match call per removed order and at most one more |
| PriceTime.Residual | src/me_order_book.cpp:196-215 | what is left is the quantity minus everything acceptable on offer, floored at zero, and the trades account for the difference |
| PriceTime.TradePrices | src/me_order_book.cpp:197-214 | a buyer trades at its limit or below in non-decreasing prices, a seller at its limit or above in non-increasing ones |
| PriceTime.OutOfReach | src/me_order_book.cpp:198-213 | if anything is left, every opposite price left is above a buyer's limit, or below a seller's |
| BookInvariants.MatchKeepsGood | src/me_order_book.cpp:193-216 | matching keeps the book sorted, uncrossed and without empty orders; if anything is left, every opposite price is beyond the limit |
| BookInvariants.InsertOneSide | src/me_order_book.cpp:57-72 | inserting the newest order keeps a side strictly ordered by price and time, ids and keys unique |
| BookInvariants.InsertAddsOne | src/me_order_book.cpp:57-72 | insertion adds exactly the new order |
| BookInvariants.StepKeepsGood | src/me_order_book.cpp:21-157 | every admissible add or cancel keeps the book sorted by price and time, uncrossed, positive, with unique ids and keys |
| BookInvariants.RunKeepsGood | src/me_order_book.cpp:21-157 | so does every run |
| BookInvariants.TimePriority | src/me_order_book.cpp:50-55 | in every reachable state no bid reaches an ask, each side is by price then age, and all priorities are 1 |
| Replay.FillFaithful | src/me_order_book.cpp:245-264 | the updates of one match call do to the replayed book what the call does to the side |
| Replay.StepFaithful | src/me_order_book.cpp:40-47 | an add or cancel keeps the replayed book equal to the resting orders |
| Replay.MarketDataReplay | src/me_order_book.cpp:150-154 | after any run, applying ADD, MODIFY and CANCEL and ignoring TRADE gives exactly the resting orders with side, price, quantity and priority |
| Ledger.FillBalanced | src/me_order_book.cpp:221-244 | one match call keeps every order's accepted minus filled minus canceled quantity equal to what rests of it |
| Ledger.FillLeftsTrue | src/me_order_book.cpp:225-244 | both FILLED responses report the previous left quantity minus the executed one |
| Ledger.StepAccounted | src/me_order_book.cpp:24-33 | an add or cancel keeps the ledger of every order and the truth of every reported left quantity |
| Ledger.OrderLedger | src/me_order_book.cpp:141-149 | after any run, per market order id: accepted equals filled plus canceled plus resting |
| Ledger.ReportedLeftsTrue | src/me_order_book.cpp:225-244 | after any run every FILLED reported the previous left quantity minus the executed one, every CANCELED all that was left |
| Ledger.AcceptedOnce | src/me_order_book.cpp:23-33 | after any run the ACCEPTED responses carry the market order ids 1, 2, 3, ... once each |
| Ledger.TradeBalance | src/me_order_book.cpp:225-248 | after any run buyers' and sellers' executed quantities and the traded quantity of the market data are equal, and so are the sums of price times quantity |
| Messages.AcceptRecorded | src/me_order_book.cpp:23-33 | an acknowledgement repeats client, order id, ticker, side, price and quantity of its request, under the next market order id |
| Messages.FillRecorded | src/me_order_book.cpp:218-264 | a match tells both clients, and the market, of one price, quantity and ticker: the limit the older order was acknowledged at, within the limit of the newest; each FILLED names client, order id and side as acknowledged |
| Messages.CancelRecorded | src/me_order_book.cpp:141-156 | a CANCELED goes to the client and order id of its request and names side and price as acknowledged; its update takes that order out |
| Messages.RejectRecorded | src/me_order_book.cpp:130-139 | a CANCEL_REJECTED goes to the client and order id of its request, of which nothing is open |
| Messages.RestRecorded | src/me_order_book.cpp:36-48 | what rests, and the ADD that shows it, is as acknowledged |
| Messages.StepRecorded | src/me_order_book.cpp:21-157 | every add or cancel keeps the record of requests, responses, updates and resting orders true |
| Messages.StreamsTrue | src/me_order_book.cpp:21-265 | after any run every request has exactly one answer, in order and addressed to it; every FILLED and CANCELED names its order as acknowledged, within its limit; every match is told alike in both streams; every update fits the replayed book; every resting order is as acknowledged |
| Messages.AcksAreNews | src/me_order_book.cpp:23-33 | the order with market order id k is the k-th order added, acknowledged as it was |
| Messages.RunOnly | src/me_order_book.cpp:21-265 | if all requests name one ticker, every message and every resting order does |
| Messages.CancelTicker | src/me_order_book.cpp:141-156 | the ticker of a CANCELED is the acknowledged one if and only if the cancel request names it |
| Messages.CancelNamesAnotherTicker | src/me_order_book.cpp:141-156 | a run in which an order acknowledged for ticker 1 is canceled under ticker 2 |
| CancelTheorems.CancelDecides | src/me_order_book.cpp:122-157 | CANCEL_REJECTED exactly when no resting order has the key, and then nothing else changes; otherwise exactly that order is gone, all others keep their order, and response and update, field by field, report it to the client that asked with its remaining quantity |
| CancelTheorems.AddThenCancel | src/me_order_book.cpp:21-49 | canceling what an add stored gives back the book as matching left it, with the one response and two updates in between |
| CancelTheorems.QuietAddThenCancel | src/me_order_book.cpp:122-157 | an add that trades nothing and its cancel leave both sides as they were |
| MemPools.ScanFinds | include/mem_pool.h:12-23 | the circular scan finds a free slot unless there is none |
| MemPools.TakeIsFatal | include/mem_pool.h:36-45 | taking a slot runs out of space exactly when it was the only free one, and otherwise the cursor is again on a free slot |
| MemPools.PoolRunSafe | include/mem_pool.h:36-54 | over every run the slots in use are those handed out and not returned, and the next slot handed out is none of them |
| MemPools.MemPool.UpdateNextFreeIndex | include/mem_pool.h:12-23 | the cursor is on the first free slot of the circular scan; fatal exactly when every slot is in use |
| MemPools.MemPool.Allocate | include/mem_pool.h:36-45 | the slot handed out was free, only it changes, and fatal exactly when none is left |
| MemPools.MemPool.Deallocate | include/mem_pool.h:47-54 | exactly the given slot becomes free |
| Rings.RingUnlink | src/me_order_book.cpp:163-170 | joining a node's neighbours removes exactly that node from the ring and touches nothing else |
| Rings.RingLink | src/me_order_book.cpp:101-109 | linking a node between two neighbours inserts exactly it at that place |
| BookTables.CollideIff | src/me_order_book.cpp:16 | two prices share a table index exactly when they are a multiple of 256 apart |
| BookTables.UnlinkKeepsLists | src/me_order_book.cpp:163-170 | unlinking an order keeps rings, heads, pools and price table consistent |
| BookTables.DropKeepsLists | src/me_order_book.cpp:176-191 | so does dropping a level with its last order |
| BookTables.AppendKeepsLists | src/me_order_book.cpp:65-69 | so does appending to a level |
| BookTables.GrowKeepsLists | src/me_order_book.cpp:74-120 | so does linking in a new level at its place |
| BookAbstraction.RemovalIsSpec | src/me_order_book.cpp:158-174 | taking an order out of its ring removes from the flat side the order that a linear search for its key finds |
| BookAbstraction.AppendIsInsert | src/me_order_book.cpp:65-69 | appending to the level of its price puts the order where insertion by price and time does |
| BookAbstraction.GrowIsInsert | src/me_order_book.cpp:59-63 | so does a new level at its place |
| BookAbstraction.LevelsExhausted | include/mem_pool.h:36-45 | the level pool is full exactly when its slots are the levels of both sides and the new one |
| BookAbstraction.OrdersExhausted | include/mem_pool.h:36-45 | the order pool is full exactly when its slots are the resting orders and the new one |
| BookAbstraction.PriceFound | src/me_order_book.cpp:18-20 | a table lookup answers non-null exactly when the own side has orders at the price, and then it is their level |
| BookAbstraction.PriceTableSound | src/me_order_book.cpp:18-20 | the one table leads every resting price to the level of its side, and every other index is null |
| BookAbstraction.IdTableSound | src/me_order_book.cpp:123-129 | an id entry is non-null exactly when a resting order has the key, and is that order |
| BookAbstraction.ListsDetermine | include/me_order_book.h:14-19 | the rings and the orders in them determine the slots in use, both tables and both heads |
| OrderBooks.MEOrderBook.constructor | include/me_order_book.h:14-22 | the new book, of new pools and tables with the given capacities, is valid and stands for the empty market |
| OrderBooks.MEOrderBook.RemoveOrdersAtPrice | src/me_order_book.cpp:176-191 | exactly that level leaves its side, the table and the pool |
| OrderBooks.MEOrderBook.RemoveOrder | src/me_order_book.cpp:158-174 | the flat side loses the order with that key and nothing else; all tables, rings and pools agree |
| OrderBooks.MEOrderBook.Match | src/me_order_book.cpp:218-265 | one trade against the first opposite order, on the linked book, with its messages |
| OrderBooks.MEOrderBook.CheckForMatch | src/me_order_book.cpp:193-216 | the loop over linked levels and orders is the match loop on the flat sequences |
| OrderBooks.MEOrderBook.GetNextPriority | src/me_order_book.cpp:50-55 | the priority of the last order at the price, or 1 |
| OrderBooks.MEOrderBook.FindPlace | src/me_order_book.cpp:82-97 | the walk ends at the first worse level or, when there is none, back at the best; it terminates |
| OrderBooks.MEOrderBook.LinkLevel | src/me_order_book.cpp:98-118 | the level is linked in between the better and the worse ones; the head moves exactly when it is the best |
| OrderBooks.MEOrderBook.AddOrderAtPrice | src/me_order_book.cpp:74-120 | the sorted ring of the side has exactly the new level inserted, and the table knows it |
| OrderBooks.MEOrderBook.AddOrder | src/me_order_book.cpp:57-72 | the flat side has the order inserted by price and time; fatal exactly when its price needs a level and the level pool gives its last slot, and then the flat sides are as before |
| OrderBooks.MEOrderBook.Add | src/me_order_book.cpp:21-49 | the whole add: the step on the flat sequences with all messages, every invariant kept, exactly when the process exits, and what that leaves: the market as matching did, rings and tables in agreement but for the slots just taken |
| OrderBooks.MEOrderBook.Cancel | src/me_order_book.cpp:122-157 | the whole cancel: the step on the flat sequences with its messages, every invariant kept, and exactly when it throws |
| OrderBookUndo.AddThenCancelInPlace | src/me_order_book.cpp:21-191 | adding an order that trades nothing and canceling it restores rings, heads, both tables and the in-use flags of both pools; fatal exactly when the add runs out of slots |
| Capacity.LevelsArePrices | include/me_order_book.h:15 | a side has as many levels as its orders have different prices |
| Capacity.FittingRunLasts | include/mem_pool.h:36-45 | if resting orders and adds are fewer than the order slots, resting and added prices fewer than the level slots, and cancels stay in range, every request of a run is served |
| OrderBookRuns.Serve | src/me_order_book.cpp:21-157 | a run of requests on the linked book is served up to exactly the first one that exhausts a pool or throws, and the book stands for the market that leaves on the flat sequences: that of the run, or of the matching inside the stopping add |
| OrderBookRuns.EndTruthful | src/me_order_book.cpp:21-265 | wherever a run from the start ends, the market is good, its updates replay to it, ids are accepted in order, every order and every reported left quantity is accounted for, trades balance in quantity and money, and the streams are a true record of the requests answered |
| OrderBookRuns.ServeFromStart | src/me_order_book.cpp:21-265 | the same of the linked book and its streams after serving a run from the start |
| OrderBookRuns.ServeFitting | src/me_order_book.cpp:2-157 | a new book serves every request of a run that fits it, stands for the run on the flat sequences and is good and truthful |
| LFQueues.PushContents | include/lf_queue.h:19-23 | writing the next slot and advancing the write index appends, while the ring keeps one slot free |
| LFQueues.PopContents | include/lf_queue.h:24-30 | the slot shown is the oldest element and advancing the read index removes exactly it |
| LFQueues.LFQueue.UpdateWriteIndex | include/lf_queue.h:20-23 | the write index moves round the ring by one and the counter goes up by one modulo 2^64 |
| LFQueues.LFQueue.GetNextToRead | include/lf_queue.h:24-26 | null exactly when the indices are equal, otherwise the oldest element |
| LFQueues.LFQueue.UpdataReadIndex | include/lf_queue.h:27-30 | the read index moves round the ring by one and the counter goes down by one modulo 2^64 |
| LFQueues.LFQueue.Push | src/matching_engine.cpp:58-72 | the producer sequence of the exchange appends one element while a slot stays free; into the last free slot it empties the queue for the reader |
| LFQueues.RememberedIs | include/lf_queue.h:19-23 | what a ring of n slots shows of a history of pushes is its last elements, fewer than n, without whole turns |
| LFQueues.PushedAllContents | include/lf_queue.h:19-23 | after any number of pushes from any state the contents are what the ring shows of the old contents and all pushed elements |
| LFQueues.PushedWithRoom | include/lf_queue.h:19-23 | with room for all of them they are appended and the counter is the number of unread elements |
| SpscMachine.StepKeepsInv | include/lf_queue.h:19-31 | each atomic step of either thread or of the destructor keeps the invariant, fewer elements being outstanding than slots |
| SpscMachine.FifoOverAllInterleavings | include/lf_queue.h:19-30 | in every interleaving what was used is a prefix of what was written and the queue holds the rest in order |
| SpscMachine.CounterAccounting | include/lf_queue.h:20-31 | the counter is increments minus decrements modulo 2^64; guarded it never wraps; unguarded it is one below zero exactly in one situation |
| SpscMachine.ShutdownDrains | src/logger.cpp:48-57 | once the destructor has seen a zero counter, everything pushed has been streamed in push order |
| SpscShutdown.ShutdownCompletes | src/logger.cpp:48-57 | once the destructor waits, every schedule with eight consumer moves for each outstanding element and three more, then two of the destructor, five of the consumer and one of the destructor, in between any others, returns with everything streamed in push order |
| SpscMachine.LooksEmpty | include/lf_queue.h:24-26 | equal indices mean nothing outstanding or a whole ring outstanding |
| SpscMachine.BoundIsExact | include/lf_queue.h:19-26 | after any move from within the bound, the queue shows exactly the elements outstanding if and only if the new state is within the bound |
| SpscMachine.BoundIsExactOverRuns | include/lf_queue.h:19-30 | a run stays within the bound if and only if in each of its states the queue shows exactly the elements outstanding |
| SpscMachine.PastTheBound | include/lf_queue.h:19 | with a whole ring outstanding the slot about to be filled holds the oldest unread element, and filling it with another value destroys that |
| SpscMachine.FullRingLooksEmpty | include/lf_queue.h:19-26 | a run within the bound up to its last move after which a ring of two holds 7 and 8 and answers null |
| SpscMachine.FifoBreaksPastTheBound | include/lf_queue.h:19-30 | a run past the bound in which 7, 8 and 9 are written and the first element used is 9 |
| SpscMachine.SlotsApart | include/lf_queue.h:19-30 | within the bound the producer never fills the slot of the element that the consumer is using |
| SpscMachine.UnguardedUnderflow | src/matching_engine.cpp:34-42 | an interleaving of the engine's loop in which the counter is below zero |
| SpscMachine.UninterruptedPush | src/logger.cpp:59-62 | the five steps of a push on their own do what the queue's operations do |
| SpscMachine.UninterruptedUse | src/logger.cpp:6-35 | the four steps that use an element and take it off, on their own, do what the queue's operations do |
| LogFormat.LogCompletes | include/logger.h:67-82 | log completes exactly when placeholders and arguments are equally many, and then pushes the filled format; otherwise it names the surplus |
| LogFormat.LogSpells | include/logger.h:67-82 | whatever the arguments, position by position: a literal is its character, a value is itself, a text is its characters in front of the first NUL, up to the end or the placeholder without an argument, and nothing else is pushed |
| LogFormat.ScalarsInPlace | include/logger.h:67-82 | with as many values as placeholders, element k is the literal k or the value of the placeholder k |
| LogFormat.EscapeRoundTrip | src/logger.cpp:101-113 | any text without NUL, its percent signs doubled, is pushed back as it was |
| LogFormat.ParseUnparses | include/logger.h:69-76 | spelling out what a format was read as gives the format back |
| LogFormat.Expressible | include/logger.h:69-76 | a token sequence has a format exactly when no placeholder is directly followed by a placeholder or a percent sign |
| Loggers.Logger.PushText | src/logger.cpp:66-71 | a text is pushed character by character up to its NUL, into any ring; with room it is appended |
| Loggers.Logger.Scan | include/logger.h:68-80 | literals are pushed, doubled percent signs as one, up to a placeholder or the end; pushed part and rest make up the whole |
| Loggers.Logger.LogTerminal | src/logger.cpp:101-113 | logging without arguments pushes the format into any ring, and a placeholder is fatal; with room it is appended |
| Loggers.Logger.Log | include/logger.h:67-82 | logging pushes every literal and argument in its place, into any ring, and ends as the format language says; with room it is appended |
| Loggers.Logger.Flush | src/logger.cpp:5-36 | one pass of the inner loop, the producer quiet, moves everything pending to the file in order |

## Left out

- OrderBooks.MEOrderBook.Add: does not model the wrap of the 64-bit market order id; it requires that the counter has not reached the invalid id.
- Loggers.Logger.Flush: is one pass of the inner loop with the producer quiet; interleaving, the running flag and the destructor are in `SpscMachine` and `SpscShutdown`.
- What the book does after two resting prices share a table index, or a live (client, order id) is added again: the code has no handling, so both are preconditions.
- Queues that run full under the book: its streams are unbounded sequences.
- `processClientRequest`: its NEW and CANCEL cases are empty, so histories of add and cancel drive the book directly.
- Weak memory ordering: the queue's atomics are sequentially consistent by default and are modelled so; slot contents are written and read in one step, which `SlotsApart` justifies.
- Progress: that the threads are scheduled is the premise of `ShutdownCompletes`, not a result.
- Number formatting of streamed values: a log element is itself.
- Logging calls inside the book and the engine, `toString` helpers, sockets, threads, clocks: no effect on what is modelled.
