# Matching engine model

This project models the single-instrument limit-order matching engine of the
backend (`MatchingEngine`), together with the `Order` and `Trade` records it
works on, and proves what the engine promises about price-time-priority
matching, booking, cancellation and its read-only snapshots.

The engine's state is:

- two price ladders, `bids` (highest price first) and `asks` (lowest price first);
- the order index `orderMap`;
- the trade log `trades`;
- the trade-id counter `tradeIdCounter`.

Each ladder maps a price to a FIFO queue of resting orders.

The project has three layers.

- **Values (`Types`, `Ladder`).**
  - `Order` and `Trade` are datatypes.
    - `Types.Order` models `backend/src/main/java/com/matchingengine/model/Order.java:4-8`. It has the id, the side, the price as a scaled `int` and the remaining `quantity`. The client-supplied `timestamp` is dropped.
    - `Types.Trade` models `backend/src/main/java/com/matchingengine/model/Trade.java:4-9`. It has the trade id, the buy and sell order ids, the price and the quantity. The trade id is the counter value `n`, not the string `"trade_" + n`, and the `timestamp` is dropped.
  - A side is `Buy | Sell`: the engine treats every non-null side string other than `"BUY"` as a sell (null inputs are left out, see below).
  - A ladder is a sequence of `Level(price, queue)`. The levels are kept strictly in ladder order.
  - Queues hold order ids. That an order sits both in a queue and in the index, and is decremented in place, is modelled by keeping its one record in the index, under its id.
  - `Join`, `Remove` and `PopFront` are the map/queue operations the engine performs on a ladder:
    - `Join` is `putIfAbsent` followed by `addLast`;
    - `Remove` is `remove` on a queue, then dropping the level if it is now empty;
    - `PopFront` is `removeFirst` on the best queue, then dropping an empty level.
- **Specification (`OrderBook`, `MatchingProperties`).**
  - `Book` is the whole state as a value and `Consistent` is its invariant:
    - both ladders are strictly sorted and have no empty level;
    - every queued id is indexed, live (its quantity is positive), of that side and at that level's price;
    - every indexed id rests exactly once;
    - the book is not crossed;
    - the log holds trades 1..counter in order.
  - `Fill` (`executeTrade`) and `Step` (one loop iteration) are functions of the state before them, as are `Match` (the matching loop), `AddToBook`, `Submit` (`processOrder`) and `Cancel` (`cancelOrder`).
  - The lemmas state the engine's promises about these functions.
- **The engine (`Engine`).** `MatchingEngine` is a class with the engine's fields.
  - Each Java method is a method that updates those fields in place.
  - The two matching loops are `while` loops. Their invariants place the loop at a point inside the specified run `Match`.
  - Each method is proved to leave exactly the state the specification function gives.

Prices are integers; the engine only compares them and uses them as keys.

## Model

All source paths are under `backend/src/main/java/com/matchingengine/`.

| member | source | states |
|---|---|---|
| Ladder.Position | backend/src/main/java/com/matchingengine/service/MatchingEngine.java:13-14 | the index of a price in a sorted ladder: every level before it comes before the price in ladder order, every level after it comes after it |
| Ladder.IndexOf | backend/src/main/java/com/matchingengine/service/MatchingEngine.java:46 | the first position of an id in a queue, or the queue length when the id is absent |
| Ladder.RemoveFirst | backend/src/main/java/com/matchingengine/service/MatchingEngine.java:46 | unlinking an id that is present removes exactly one occurrence of it, and every other id keeps its place in the queue order (the ids before it keep their positions, the ids after it move up by one); an absent id leaves the queue unchanged |
| Ladder.Join | backend/src/main/java/com/matchingengine/service/MatchingEngine.java:122-123 | `putIfAbsent` then `addLast`: append the id to the queue at the price, inserting a new level in ladder order when there is none (its properties: `JoinOk`, `JoinContents`, `JoinView`, `JoinFront`) |
| Ladder.JoinOk | backend/src/main/java/com/matchingengine/service/MatchingEngine.java:122-123 | appending an order to a price level keeps the ladder strictly sorted with no empty level |
| Ladder.JoinContents | backend/src/main/java/com/matchingengine/service/MatchingEngine.java:122-123 | after the append the ladder's resting ids are the old ones plus exactly the new id, resting at its own price |
| Ladder.JoinView | backend/src/main/java/com/matchingengine/service/MatchingEngine.java:122-123 | seen as a map, the queue at the order's price gains the id at its tail (`addLast`), and every other price keeps its queue |
| Ladder.JoinFront | backend/src/main/java/com/matchingengine/service/MatchingEngine.java:122-123 | after the append the first key is either the new price or the old first key |
| Ladder.PopFront | backend/src/main/java/com/matchingengine/service/MatchingEngine.java:72-76 | `removeFirst` on the best level's queue, then removal of that level if it is now empty (its properties: `PopFrontOk`, `PopFrontContents`) |
| Ladder.PopFrontOk | backend/src/main/java/com/matchingengine/service/MatchingEngine.java:72-76 | removing the head of the best queue, and the level if it empties, keeps the ladder sorted with no empty level, and never improves the best price |
| Ladder.PopFrontContents | backend/src/main/java/com/matchingengine/service/MatchingEngine.java:67-76 | the head of the best queue is the first id in priority order, and removing it leaves exactly the remaining ids in priority order |
| Ladder.Remove | backend/src/main/java/com/matchingengine/service/MatchingEngine.java:44-49 | `remove` of the id from the queue at the price, then removal of the level if it is now empty; a missing level leaves the ladder unchanged (its properties: `RemoveOk`, `RemoveContents`, `RemoveView`, `RemoveFront`) |
| Ladder.RemoveOk | backend/src/main/java/com/matchingengine/service/MatchingEngine.java:44-49 | removing an id from its level, and the level if it empties, keeps the ladder sorted with no empty level |
| Ladder.RemoveContents | backend/src/main/java/com/matchingengine/service/MatchingEngine.java:44-49 | nothing new rests after a removal, and removing a resting id from its level removes exactly one occurrence of it |
| Ladder.RemoveView | backend/src/main/java/com/matchingengine/service/MatchingEngine.java:44-49 | seen as a map, only the queue at the given price changes, and it loses the id with the other orders kept in order |
| Ladder.RemoveFront | backend/src/main/java/com/matchingengine/service/MatchingEngine.java:44-49 | a removal never improves the best price of the ladder |
| OrderBook.Fill | backend/src/main/java/com/matchingengine/service/MatchingEngine.java:110-116 | the fill size is the smaller of the two remaining quantities; both orders lose exactly that much and neither goes negative; one of them reaches zero; the fill is positive when both quantities are; the trade carries the given price and the next counter value |
| OrderBook.Counterparty | backend/src/main/java/com/matchingengine/service/MatchingEngine.java:66-92 | the resting order the loop fills is the head of the best opposite level; it is indexed and live, of the opposite side and at that level's price |
| OrderBook.StepFill | backend/src/main/java/com/matchingengine/service/MatchingEngine.java:65-93 | one iteration's fill: it executes at the resting level's price, not the aggressor's limit; the buy and sell ids go in their proper places; the quantity is positive; the trade id is the counter plus one |
| OrderBook.StepShape | backend/src/main/java/com/matchingengine/service/MatchingEngine.java:63-102 | one iteration lowers the aggressor's quantity and changes no other field of it; it leaves the aggressor's own side untouched; it either shortens the opposite side or finishes the aggressor |
| OrderBook.Consistent | backend/src/main/java/com/matchingengine/service/MatchingEngine.java:13-18 | the invariant the engine keeps between operations: both ladders strictly sorted with no empty level; every queued id indexed, live, of that side and at that level's price; every indexed id resting exactly once; best bid below best ask; the log holding trades 1..counter in order |
| OrderBook.Step | backend/src/main/java/com/matchingengine/service/MatchingEngine.java:63-102 | one iteration of `matchBuyOrder` / `matchSellOrder`: fill against the head of the best opposite level, log the trade, and remove a fully filled resting order from its queue and the index, deleting an emptied level (its properties: `StepFacts`, `StepRecords`, `StepShape`, `StepConsistent`) |
| OrderBook.StepConsistent | backend/src/main/java/com/matchingengine/service/MatchingEngine.java:63-102 | one iteration of either matching loop keeps the whole book invariant |
| OrderBook.FullFillIndex | backend/src/main/java/com/matchingengine/service/MatchingEngine.java:71-77 | after a full fill the resting order leaves the index and the front of its queue, an emptied level is deleted, the aggressor's side is untouched, and the resting multiset loses exactly that id |
| OrderBook.Match | backend/src/main/java/com/matchingengine/service/MatchingEngine.java:60-108 | the matching loop: repeat the step while the opposite side is non-empty, quantity remains and the limit crosses (its properties: the `Match*` lemmas) |
| OrderBook.AddToBook | backend/src/main/java/com/matchingengine/service/MatchingEngine.java:118-125 | `addToBook`: the order joins the tail of the queue at its price, creating the level if absent, and is indexed (its properties: `AddToBookConsistent`, `AddToBookResting`, `SubmitQueues`) |
| OrderBook.Submit | backend/src/main/java/com/matchingengine/service/MatchingEngine.java:20-36 | `processOrder`: match, then book the residual when quantity remains (its properties: the `Submit*` lemmas) |
| OrderBook.AddToBookConsistent | backend/src/main/java/com/matchingengine/service/MatchingEngine.java:118-125 | booking a fresh, live order that can no longer trade keeps the invariant; in particular the book stays uncrossed |
| OrderBook.AddToBookResting | backend/src/main/java/com/matchingengine/service/MatchingEngine.java:118-125 | booking adds exactly the order's id to the resting orders |
| OrderBook.Cancel | backend/src/main/java/com/matchingengine/service/MatchingEngine.java:38-58 | the result is true exactly when the id is indexed; an absent id changes nothing; the id leaves the index; the log is untouched |
| OrderBook.CancelConsistent | backend/src/main/java/com/matchingengine/service/MatchingEngine.java:38-58 | cancelling keeps the book invariant |
| OrderBook.CancelResting | backend/src/main/java/com/matchingengine/service/MatchingEngine.java:43-51 | a cancel touches only the order's own side, and every order left resting is still indexed |
| MatchingProperties.StepFacts | backend/src/main/java/com/matchingengine/service/MatchingEngine.java:60-116 | Everything one fill does: (1) it fills the first resting id in priority order, at its own level's price; (2) that price is one the limit accepts; (3) the quantity is no more than that order holds; (4) it appends one trade to the log with the next counter value; (5) either that order leaves the side, with no other indexed order changing, or it stays and the aggressor is exhausted |
| MatchingProperties.StepRecords | backend/src/main/java/com/matchingengine/service/MatchingEngine.java:71-77 | one fill on the index: a fully filled resting order loses its record and its place at the front of the side; a partly filled one stays where it is with the traded quantity taken off, and the aggressor is then exhausted |
| MatchingProperties.MatchKeeps | backend/src/main/java/com/matchingengine/service/MatchingEngine.java:60-108 | The whole matching loop: (1) it keeps the invariant; (2) it changes the aggressor's quantity only; (3) it does not touch the aggressor's own side; (4) it never indexes a new id; (5) it stops only when nothing more can trade (the opposite side is empty, the quantity is used up, or the limit no longer crosses) |
| MatchingProperties.MatchUnfold | backend/src/main/java/com/matchingengine/service/MatchingEngine.java:63-81 | the defining equation of the matching loop: while the book can fill the order, the loop equals one step followed by the loop on the book the step leaves; the loop proofs unfold `Match` with it |
| MatchingProperties.MatchLog | backend/src/main/java/com/matchingengine/service/MatchingEngine.java:60-108 | the trades returned are exactly the ones appended to the global log, in the same order; the counter advances by one per trade |
| MatchingProperties.MatchQuantity | backend/src/main/java/com/matchingengine/service/MatchingEngine.java:60-116 | conservation: the returned trades' quantities sum to the aggressor's initial quantity minus its remaining quantity, which is never negative; an aggressor with no positive quantity trades nothing and changes nothing |
| MatchingProperties.MatchTrades | backend/src/main/java/com/matchingengine/service/MatchingEngine.java:60-116 | every trade of a run: its id is the next consecutive counter value; its quantity is positive; it names the aggressor on the aggressor's side; its price is one the aggressor's limit accepts (at most the limit for a buy, at least the limit for a sell) |
| MatchingProperties.MatchPriority | backend/src/main/java/com/matchingengine/service/MatchingEngine.java:64-93 | price-time priority: the run's trades take the opposite side's resting orders strictly in priority order (best price first, then oldest first), each at its own level's price, filling each completely except possibly the last |
| MatchingProperties.MatchRemains | backend/src/main/java/com/matchingengine/service/MatchingEngine.java:71-102 | after the run the opposite side is its old resting ids in their original priority order, minus the ones the run filled completely; the last filled order stays at the head exactly when its fill was partial |
| MatchingProperties.MatchRecords | backend/src/main/java/com/matchingengine/service/MatchingEngine.java:67-102 | what the run does to the index: no id is added; every order it did not fill (on either side) keeps its record; every completely filled order is removed; a partly filled last order stays indexed with its old quantity minus its trade's quantity |
| MatchingProperties.MatchSideQuantity | backend/src/main/java/com/matchingengine/service/MatchingEngine.java:110-113 | conservation for the resting side: the opposite side's total remaining quantity falls by exactly the total quantity of the run's trades |
| MatchingProperties.SubmitConsistent | backend/src/main/java/com/matchingengine/service/MatchingEngine.java:20-36 | `processOrder` keeps the invariant; in particular, afterwards best bid < best ask whenever both sides are non-empty |
| MatchingProperties.SubmitLog | backend/src/main/java/com/matchingengine/service/MatchingEngine.java:20-36 | the trades `processOrder` returns are exactly the ones appended to the log, in order |
| MatchingProperties.SubmitTradeIds | backend/src/main/java/com/matchingengine/service/MatchingEngine.java:110-116 | the new trades carry the next counter values in order, and each is greater than every id already in the log, so ids are distinct and strictly increasing across calls |
| MatchingProperties.SubmitBooks | backend/src/main/java/com/matchingengine/service/MatchingEngine.java:20-36 | the order is indexed afterwards exactly when remaining quantity (initial minus traded) is positive, and then with its original fields and that remaining quantity |
| MatchingProperties.SubmitQueues | backend/src/main/java/com/matchingengine/service/MatchingEngine.java:118-125 | on the order's own side, only the queue at its price changes, by the order joining the tail when quantity remains |
| MatchingProperties.CancelEffect | backend/src/main/java/com/matchingengine/service/MatchingEngine.java:41-52 | cancelling a resting order: (1) it removes the order from the queue at its price, keeping the others in order; (2) it changes no other price level and leaves the other side unchanged; (3) it changes no other indexed order; (4) the id no longer rests anywhere |
| MatchingProperties.CancelTwice | backend/src/main/java/com/matchingengine/service/MatchingEngine.java:41-54 | a second cancel of the same id returns false and changes nothing |
| MatchingProperties.BestPrice | backend/src/main/java/com/matchingengine/service/MatchingEngine.java:135-136 | a best price is present exactly when the side is non-empty |
| MatchingProperties.BestPriceIsBest | backend/src/main/java/com/matchingengine/service/MatchingEngine.java:131-141 | the first key is a price of the ladder and comes before every other price: the highest bid, the lowest ask |
| MatchingProperties.BestPricesApart | backend/src/main/java/com/matchingengine/service/MatchingEngine.java:131-141 | between operations the best bid is strictly below the best ask |
| MatchingProperties.BookSide | backend/src/main/java/com/matchingengine/service/MatchingEngine.java:155-169 | one row per level in ladder order, each with the level's price, its summed remaining quantity and its number of orders |
| MatchingProperties.BookSideSums | backend/src/main/java/com/matchingengine/service/MatchingEngine.java:158-165 | the rows' order counts add up to the number of resting ids on the side, and their quantities to the side's total remaining quantity |
| MatchingProperties.SnapshotCounts | backend/src/main/java/com/matchingengine/service/MatchingEngine.java:143-153 | the two sides' rows together count every indexed order exactly once |
| MatchingProperties.BookSideRows | backend/src/main/java/com/matchingengine/service/MatchingEngine.java:155-169 | between operations the row prices are strictly in ladder order, and each level holds at least one order and at least one unit per order |
| MatchingProperties.LevelIndexed | backend/src/main/java/com/matchingengine/service/MatchingEngine.java:161-163 | every order queued at a level of a consistent book is indexed and live, so the stream sum reads its quantity |
| Engine.MatchingEngine.constructor | backend/src/main/java/com/matchingengine/service/MatchingEngine.java:13-18 | the engine starts with empty ladders, index and log and the counter at 0, which satisfies the invariant |
| Engine.MatchingEngine.ProcessOrder | backend/src/main/java/com/matchingengine/service/MatchingEngine.java:20-36 | the new state and the returned trades are `Submit` of the old state, and the invariant is kept; `remaining` is the caller's order as Java leaves it, with the traded quantity taken off |
| Engine.MatchingEngine.CancelOrder | backend/src/main/java/com/matchingengine/service/MatchingEngine.java:38-58 | the new state and the result are `Cancel` of the old state; the invariant is kept |
| Engine.MatchingEngine.MatchBuyOrder | backend/src/main/java/com/matchingengine/service/MatchingEngine.java:60-83 | the loop leaves the state, the aggressor and the returned trades that `Match` gives, and keeps the invariant |
| Engine.MatchingEngine.FillBestAsk | backend/src/main/java/com/matchingengine/service/MatchingEngine.java:64-77 | one turn of the buy loop updates the fields as `Step` specifies |
| Engine.MatchingEngine.MatchSellOrder | backend/src/main/java/com/matchingengine/service/MatchingEngine.java:85-108 | the loop leaves the state, the aggressor and the returned trades that `Match` gives, and keeps the invariant |
| Engine.MatchingEngine.FillBestBid | backend/src/main/java/com/matchingengine/service/MatchingEngine.java:89-102 | one turn of the sell loop updates the fields as `Step` specifies; here the resting bid is the buyer |
| Engine.MatchingEngine.ExecuteTrade | backend/src/main/java/com/matchingengine/service/MatchingEngine.java:110-116 | the counter is pre-incremented once, and the two decremented orders and the trade are `Fill` under the new counter value |
| Engine.MatchingEngine.AddToBook | backend/src/main/java/com/matchingengine/service/MatchingEngine.java:118-125 | the new state is `AddToBook` of the old one |
| Engine.MatchingEngine.GetTrades | backend/src/main/java/com/matchingengine/service/MatchingEngine.java:127-129 | returns the log, whose trades are numbered 1, 2, ... in execution order |
| Engine.MatchingEngine.GetBestPrices | backend/src/main/java/com/matchingengine/service/MatchingEngine.java:131-141 | Returns the first key of each side, or absent for an empty side. Between operations these are the highest bid and the lowest ask, and the bid is below the ask. State is not modified |
| Engine.MatchingEngine.FormatBookSide | backend/src/main/java/com/matchingengine/service/MatchingEngine.java:155-169 | the loop over the levels produces exactly `BookSide` of the chosen ladder, one row per level in ladder order; state is not modified |
| Engine.MatchingEngine.LevelQuantity | backend/src/main/java/com/matchingengine/service/MatchingEngine.java:161-163 | the stream sum of one level is the summed remaining quantity `QueueQuantity` of its queued orders |
| Engine.MatchingEngine.GetOrderBook | backend/src/main/java/com/matchingengine/service/MatchingEngine.java:143-153 | Both sides formatted. Bid prices strictly decrease and ask prices strictly increase. Every row has at least one order and one unit per order. The rows count every indexed order once. State is not modified |
| Engine.BuyTurn | backend/src/main/java/com/matchingengine/service/MatchingEngine.java:66-77 | the field updates of one turn of the buy loop are the specification's step |
| Engine.SellTurn | backend/src/main/java/com/matchingengine/service/MatchingEngine.java:91-102 | the field updates of one turn of the sell loop are the specification's step |
| Engine.LoopAdvance | backend/src/main/java/com/matchingengine/service/MatchingEngine.java:63-106 | one turn of either loop keeps the invariant, moves the loop one trade further along the specified run, and decreases the loop's measure |

## Left out

- Locking and the thread-safe containers (`ReentrantLock`, `ConcurrentHashMap`, `synchronizedList`). Each public method is one atomic step; the unlocked copy in `getTrades` is a concurrency concern only.
- `double` prices: prices are integers (scaled fixed point). The engine only compares them and uses them as map keys.
- Timestamps: an order's client-supplied `timestamp` and the clock read in the `Trade` constructor. They play no role in matching.
- Trade ids as strings: the `"trade_" + n` formatting is left out, and a trade id is the counter value `n` itself.
- Engine.MatchingEngine.ExecuteTrade: the `int` counter is unbounded, so Java's 32-bit wrap-around of `++tradeIdCounter` is not modelled.
- Engine.MatchingEngine.FormatBookSide: order quantities are unbounded integers, so a 32-bit overflow of the per-level stream sum is not modelled.
- Engine.MatchingEngine.ProcessOrder: requires that the order's id is not currently indexed. The Java code does not check this: for a duplicate id, `addToBook` overwrites the index entry and leaves the older order in its ladder. This breaks the one-record-per-resting-order invariant, so the case is excluded rather than modelled.
- Engine.MatchingEngine.ProcessOrder: the aggressor is passed by value. Java decrements the caller's `Order` object in place and then books that same object. The model has the method return the remaining order as a second result, and books that same value.
- Null inputs: `OrderId` and `Side` have no null value, so three Java failure paths are not modelled.
  - A null side makes `processOrder` throw at `equals` before any change.
  - A null id with residual quantity makes `processOrder` throw at the index `put` after the order was already queued, leaving an unindexed order resting.
  - A null id makes `cancelOrder` throw at the index lookup.
- Engine.MatchingEngine.MatchBuyOrder: the part of the loop body after the crossing test is the separate method `FillBestAsk` (and `FillBestBid` for the sell loop). These make the field updates in the order of the inline Java body: the resting record is written back, the trade is appended to the global log, then the queue loses its head, the index loses the id, and the emptied level is dropped. Because a queue lives inside its level in `asks` (`bids`), the head removal and the level removal are two assignments to that one field. Two steps differ, and since each turn is one atomic update no caller can see either: (1) `ExecuteTrade` advances `tradeIdCounter` before the resting record is written back into `orderMap`, where Java lowers that record in place before `++tradeIdCounter`; (2) the loop adds the trade to its local `executedTrades` list after `FillBestAsk` returns, where Java adds it just before the global log.
- Engine.MatchingEngine.FormatBookSide: takes the side rather than the `TreeMap` itself. It reads each order's quantity from the index, which is where the model keeps the one shared record of the order.
- Rows of the book snapshot are `LevelSummary(price, quantity, orders)` values rather than string-keyed maps. Best prices are two `Option`s rather than a map with null values.
- `toString`, getters and setters, default constructors, and the Spring annotation.
- The HTTP controller and the frontend: both lie outside the engine.
