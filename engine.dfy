/**
 * The engine as an object whose fields the operations update in place: the
 * two ladders, the order index, the trade log and the trade-id counter.
 * Each method is proved to leave exactly the state the matching
 * specification of `OrderBook` describes.
 */
module Engine {
  import opened Types
  import opened Ladder
  import opened OrderBook
  import opened MatchingProperties

  class MatchingEngine {
    var bids: seq<Level>
    var asks: seq<Level>
    var orderMap: map<OrderId, Order>
    var trades: seq<Trade>
    var tradeIdCounter: nat

    /** The fields as one value. */
    ghost function State(): Book
      reads this
    {
      Book(bids, asks, orderMap, trades, tradeIdCounter)
    }

    ghost predicate Valid()
      reads this
    {
      Consistent(State())
    }

    constructor ()
      ensures State() == Empty && Valid()
    {
      bids := [];
      asks := [];
      orderMap := map[];
      trades := [];
      tradeIdCounter := 0;
    }

    /**
     * `processOrder`: match against the opposite side, then rest what is
     * left. `remaining` is the caller's order as the matching loop leaves it:
     * the same order with the traded quantity taken off.
     */
    method ProcessOrder(order: Order) returns (tradesExecuted: seq<Trade>, remaining: Order)
      requires Valid() && order.orderId !in orderMap
      modifies this
      ensures Valid()
      ensures (State(), tradesExecuted) == Submit(old(State()), order)
      ensures remaining == Match(old(State()), order).1
      ensures remaining == order.(quantity := order.quantity - TradedQuantity(tradesExecuted))
    {
      if order.side == Buy {
        remaining, tradesExecuted := MatchBuyOrder(order);
      } else {
        remaining, tradesExecuted := MatchSellOrder(order);
      }
      if remaining.quantity > 0 {
        AddToBook(remaining);
      }
      SubmitConsistent(old(State()), order);
      MatchKeeps(old(State()), order);
      MatchQuantity(old(State()), order);
    }

    /** `cancelOrder`: unlink a resting order from its level and from the index. */
    method CancelOrder(orderId: OrderId) returns (found: bool)
      modifies this
      ensures (State(), found) == Cancel(old(State()), orderId)
      ensures old(Valid()) ==> Valid()
    {
      if orderId in orderMap {
        var order := orderMap[orderId];
        if order.side == Buy {
          bids := Remove(Buy, bids, order.price, orderId);
        } else {
          asks := Remove(Sell, asks, order.price, orderId);
        }
        orderMap := orderMap - {orderId};
        found := true;
      } else {
        found := false;
      }
      if old(Valid()) {
        CancelConsistent(old(State()), orderId);
      }
    }

    /** `matchBuyOrder`: fill an incoming buy against the asks, best price first. */
    method MatchBuyOrder(buyOrder: Order) returns (remaining: Order, executedTrades: seq<Trade>)
      requires Valid() && buyOrder.side == Buy
      modifies this
      ensures Valid()
      ensures (State(), remaining, executedTrades) == Match(old(State()), buyOrder)
    {
      ghost var goal := Match(State(), buyOrder);
      remaining := buyOrder;
      executedTrades := [];
      while asks != [] && remaining.quantity > 0
        invariant Valid() && remaining == buyOrder.(quantity := remaining.quantity)
        invariant |executedTrades| <= |goal.2| && goal.2[..|executedTrades|] == executedTrades
        invariant Match(State(), remaining) == (goal.0, goal.1, goal.2[|executedTrades|..])
        decreases |Flatten(asks)|, if remaining.quantity > 0 then remaining.quantity else 0
      {
        var bestAskPrice := asks[0].price;
        if remaining.price >= bestAskPrice {
          ghost var before, incoming, done := State(), remaining, executedTrades;
          var trade;
          remaining, trade := FillBestAsk(remaining);
          executedTrades := executedTrades + [trade];
          LoopAdvance(goal, done, before, incoming, State(), remaining, trade);
        } else {
          break;
        }
      }
      Finish(goal.2, |executedTrades|, executedTrades);
    }

    /**
     * The body of `matchBuyOrder`'s loop once the buy crosses the best ask:
     * fill it against the oldest order there, log the trade, and unlink that
     * order (and its level, if now empty) when it is used up.
     */
    method FillBestAsk(buyOrder: Order) returns (remaining: Order, trade: Trade)
      requires Valid() && CanFill(State(), buyOrder) && buyOrder.side == Buy
      modifies this
      ensures (State(), remaining, trade) == Step(old(State()), buyOrder)
    {
      ghost var before := State();
      BuyHead(before, buyOrder);
      var bestAskPrice := asks[0].price;
      var askQueue := asks[0].queue;
      var sellId := askQueue[0];
      var sellOrder := orderMap[sellId];
      remaining, sellOrder, trade := ExecuteTrade(buyOrder, sellOrder, bestAskPrice);
      orderMap := orderMap[sellId := sellOrder];
      trades := trades + [trade];
      if sellOrder.quantity == 0 {
        askQueue := askQueue[1..];
        asks := [Level(bestAskPrice, askQueue)] + asks[1..];
        orderMap := orderMap - {sellId};
        if askQueue == [] {
          asks := asks[1..];
        }
      }
      BuyTurn(before, buyOrder, remaining, sellOrder, trade, asks, orderMap);
    }

    /** `matchSellOrder`: fill an incoming sell against the bids, best price first. */
    method MatchSellOrder(sellOrder: Order) returns (remaining: Order, executedTrades: seq<Trade>)
      requires Valid() && sellOrder.side == Sell
      modifies this
      ensures Valid()
      ensures (State(), remaining, executedTrades) == Match(old(State()), sellOrder)
    {
      ghost var goal := Match(State(), sellOrder);
      remaining := sellOrder;
      executedTrades := [];
      while bids != [] && remaining.quantity > 0
        invariant Valid() && remaining == sellOrder.(quantity := remaining.quantity)
        invariant |executedTrades| <= |goal.2| && goal.2[..|executedTrades|] == executedTrades
        invariant Match(State(), remaining) == (goal.0, goal.1, goal.2[|executedTrades|..])
        decreases |Flatten(bids)|, if remaining.quantity > 0 then remaining.quantity else 0
      {
        var bestBidPrice := bids[0].price;
        if remaining.price <= bestBidPrice {
          ghost var before, incoming, done := State(), remaining, executedTrades;
          var trade;
          remaining, trade := FillBestBid(remaining);
          executedTrades := executedTrades + [trade];
          LoopAdvance(goal, done, before, incoming, State(), remaining, trade);
        } else {
          break;
        }
      }
      Finish(goal.2, |executedTrades|, executedTrades);
    }

    /**
     * The body of `matchSellOrder`'s loop once the sell crosses the best bid:
     * fill the oldest order there against it (that order is the buyer), log
     * the trade, and unlink the bid (and its level) when it is used up.
     */
    method FillBestBid(sellOrder: Order) returns (remaining: Order, trade: Trade)
      requires Valid() && CanFill(State(), sellOrder) && sellOrder.side == Sell
      modifies this
      ensures (State(), remaining, trade) == Step(old(State()), sellOrder)
    {
      ghost var before := State();
      SellHead(before, sellOrder);
      var bestBidPrice := bids[0].price;
      var bidQueue := bids[0].queue;
      var buyId := bidQueue[0];
      var buyOrder := orderMap[buyId];
      buyOrder, remaining, trade := ExecuteTrade(buyOrder, sellOrder, bestBidPrice);
      orderMap := orderMap[buyId := buyOrder];
      trades := trades + [trade];
      if buyOrder.quantity == 0 {
        bidQueue := bidQueue[1..];
        bids := [Level(bestBidPrice, bidQueue)] + bids[1..];
        orderMap := orderMap - {buyId};
        if bidQueue == [] {
          bids := bids[1..];
        }
      }
      SellTurn(before, sellOrder, buyOrder, remaining, trade, bids, orderMap);
    }

    /**
     * `executeTrade`: fill the smaller remaining quantity of the two orders
     * at `executionPrice` under the next trade id.
     */
    method ExecuteTrade(buyOrder: Order, sellOrder: Order, executionPrice: int)
      returns (buy: Order, sell: Order, trade: Trade)
      modifies this`tradeIdCounter
      ensures tradeIdCounter == old(tradeIdCounter) + 1
      ensures (buy, sell, trade) == Fill(buyOrder, sellOrder, executionPrice, tradeIdCounter)
    {
      var tradeQuantity := if buyOrder.quantity <= sellOrder.quantity then buyOrder.quantity else sellOrder.quantity;
      buy := buyOrder.(quantity := buyOrder.quantity - tradeQuantity);
      sell := sellOrder.(quantity := sellOrder.quantity - tradeQuantity);
      tradeIdCounter := tradeIdCounter + 1;
      trade := Trade(tradeIdCounter, buyOrder.orderId, sellOrder.orderId, executionPrice, tradeQuantity);
    }

    /** `addToBook`: append the order to the queue at its price (creating the level) and index it. */
    method AddToBook(order: Order)
      modifies this
      ensures State() == OrderBook.AddToBook(old(State()), order)
    {
      if order.side == Buy {
        bids := Join(Buy, bids, order.price, order.orderId);
      } else {
        asks := Join(Sell, asks, order.price, order.orderId);
      }
      orderMap := orderMap[order.orderId := order];
    }

    /** `getTrades`: a copy of the log, which lists trades 1, 2, ... in execution order. */
    method GetTrades() returns (log: seq<Trade>)
      ensures log == trades
      ensures Valid() ==> forall i :: 0 <= i < |log| ==> log[i].tradeId == i + 1
    {
      log := trades;
    }

    /**
     * `getBestPrices`: the first key of each side, absent when the side is
     * empty; between operations they are the highest bid and the lowest
     * ask, and the bid is below the ask.
     */
    method GetBestPrices() returns (bestBid: Option<int>, bestAsk: Option<int>)
      ensures bestBid == BestPrice(bids) && bestAsk == BestPrice(asks)
      ensures Valid() && bestBid.Some? ==> forall p :: p in Prices(bids) ==> p <= bestBid.value
      ensures Valid() && bestAsk.Some? ==> forall p :: p in Prices(asks) ==> bestAsk.value <= p
      ensures Valid() && bestBid.Some? && bestAsk.Some? ==> bestBid.value < bestAsk.value
    {
      bestBid := if bids == [] then None else Some(bids[0].price);
      bestAsk := if asks == [] then None else Some(asks[0].price);
      if Valid() {
        BestPriceIsBest(Buy, bids);
        BestPriceIsBest(Sell, asks);
        BestPricesApart(State());
      }
    }

    /**
     * `formatBookSide`: one row per level in ladder order, with the level's
     * summed remaining quantity and its number of orders.
     */
    method FormatBookSide(side: Side) returns (formatted: seq<LevelSummary>)
      requires Valid()
      ensures formatted == BookSide(LadderOf(State(), side), orderMap)
    {
      var bookSide := if side == Buy then bids else asks;
      formatted := [];
      var i := 0;
      while i < |bookSide|
        invariant 0 <= i <= |bookSide| && |formatted| == i
        invariant forall k :: 0 <= k < i ==> formatted[k] == Summary(bookSide[k], orderMap)
      {
        var queue := bookSide[i].queue;
        forall x | x in queue ensures x in orderMap {
          LevelIndexed(State(), side, i, x);
        }
        var quantity := LevelQuantity(queue);
        formatted := formatted + [LevelSummary(bookSide[i].price, quantity, |queue|)];
        i := i + 1;
      }
    }

    /** The stream sum of one level: the remaining quantities of its queued orders. */
    method LevelQuantity(queue: seq<OrderId>) returns (quantity: int)
      requires forall x :: x in queue ==> x in orderMap
      ensures quantity == QueueQuantity(queue, orderMap)
    {
      quantity := 0;
      var j := 0;
      while j < |queue|
        invariant 0 <= j <= |queue|
        invariant quantity == QueueQuantity(queue[..j], orderMap)
      {
        QueueCons(queue[..j], queue[j], orderMap);
        assert queue[..j + 1] == queue[..j] + [queue[j]];
        quantity := quantity + orderMap[queue[j]].quantity;
        j := j + 1;
      }
      assert queue[..j] == queue;
    }

    /**
     * `getOrderBook`: both sides formatted; between operations the rows are
     * in ladder order, each level holds at least one order and one unit per
     * order, and together the rows count every indexed order once.
     */
    method GetOrderBook() returns (bidRows: seq<LevelSummary>, askRows: seq<LevelSummary>)
      requires Valid()
      ensures bidRows == BookSide(bids, orderMap) && askRows == BookSide(asks, orderMap)
      ensures forall i, j :: 0 <= i < j < |bidRows| ==> bidRows[i].price > bidRows[j].price
      ensures forall i, j :: 0 <= i < j < |askRows| ==> askRows[i].price < askRows[j].price
      ensures forall i :: 0 <= i < |bidRows| ==> 1 <= bidRows[i].orders <= bidRows[i].quantity
      ensures forall i :: 0 <= i < |askRows| ==> 1 <= askRows[i].orders <= askRows[i].quantity
      ensures SumOrders(bidRows) + SumOrders(askRows) == |orderMap|
    {
      bidRows := FormatBookSide(Buy);
      askRows := FormatBookSide(Sell);
      BookSideRows(State(), Buy);
      BookSideRows(State(), Sell);
      SnapshotCounts(State());
    }
  }

  /** The best ask has an indexed order at its head. */
  lemma BuyHead(b: Book, buy: Order)
    requires Consistent(b) && CanFill(b, buy) && buy.side == Buy
    ensures b.asks[0].queue != [] && b.asks[0].queue[0] in b.orders
    ensures b.asks[0].queue[0] == Counterparty(b, buy).orderId
  {
    var c := Counterparty(b, buy);
  }

  /** The best bid has an indexed order at its head. */
  lemma SellHead(b: Book, sell: Order)
    requires Consistent(b) && CanFill(b, sell) && sell.side == Sell
    ensures b.bids[0].queue != [] && b.bids[0].queue[0] in b.orders
    ensures b.bids[0].queue[0] == Counterparty(b, sell).orderId
  {
    var c := Counterparty(b, sell);
  }

  /** The mirror of `BuyTurn` for `matchSellOrder`, where the resting bid is the buyer. */
  lemma SellTurn(b: Book, sell: Order, buy': Order, sell': Order, trade: Trade,
                 bids': seq<Level>, orders': map<OrderId, Order>)
    requires Consistent(b) && CanFill(b, sell) && sell.side == Sell
    requires b.bids[0].queue != [] && b.bids[0].queue[0] in b.orders
    requires (buy', sell', trade) == Fill(b.orders[b.bids[0].queue[0]], sell, b.bids[0].price, b.tradeIdCounter + 1)
    requires buy'.quantity == 0 ==>
      && bids' == (if b.bids[0].queue[1..] == [] then b.bids[1..]
                   else [Level(b.bids[0].price, b.bids[0].queue[1..])] + b.bids[1..])
      && orders' == b.orders[b.bids[0].queue[0] := buy'] - {b.bids[0].queue[0]}
    requires buy'.quantity != 0 ==> bids' == b.bids && orders' == b.orders[b.bids[0].queue[0] := buy']
    ensures Step(b, sell) == (Book(bids', b.asks, orders', b.trades + [trade], b.tradeIdCounter + 1), sell', trade)
  {
    assert b.bids[0].queue[0] == Counterparty(b, sell).orderId;
    if buy'.quantity == 0 {
      assert bids' == PopFront(b.bids);
    }
  }

  /**
   * One turn of `matchBuyOrder` as its body updates the fields (fill the
   * head ask; if it is used up, unlink it and drop its level if now empty)
   * is the specification's step.
   */
  lemma BuyTurn(b: Book, buy: Order, buy': Order, sell': Order, trade: Trade,
                asks': seq<Level>, orders': map<OrderId, Order>)
    requires Consistent(b) && CanFill(b, buy) && buy.side == Buy
    requires b.asks[0].queue != [] && b.asks[0].queue[0] in b.orders
    requires (buy', sell', trade) == Fill(buy, b.orders[b.asks[0].queue[0]], b.asks[0].price, b.tradeIdCounter + 1)
    requires sell'.quantity == 0 ==>
      && asks' == (if b.asks[0].queue[1..] == [] then b.asks[1..]
                   else [Level(b.asks[0].price, b.asks[0].queue[1..])] + b.asks[1..])
      && orders' == b.orders[b.asks[0].queue[0] := sell'] - {b.asks[0].queue[0]}
    requires sell'.quantity != 0 ==> asks' == b.asks && orders' == b.orders[b.asks[0].queue[0] := sell']
    ensures Step(b, buy) == (Book(b.bids, asks', orders', b.trades + [trade], b.tradeIdCounter + 1), buy', trade)
  {
    assert b.asks[0].queue[0] == Counterparty(b, buy).orderId;
    if sell'.quantity == 0 {
      assert asks' == PopFront(b.asks);
    }
  }

  /**
   * One turn of either matching loop, whatever side it is on: the step keeps
   * the book consistent, moves the loop's position in the specified run one
   * trade on, and shrinks the opposite ladder or the aggressor's quantity.
   */
  lemma LoopAdvance(goal: (Book, Order, seq<Trade>), done: seq<Trade>, b: Book, inc: Order,
                    n: Book, inc': Order, trade: Trade)
    requires Consistent(b) && CanFill(b, inc)
    requires Step(b, inc) == (n, inc', trade)
    requires |done| <= |goal.2| && goal.2[..|done|] == done
    requires Match(b, inc) == (goal.0, goal.1, goal.2[|done|..])
    ensures Consistent(n) && inc' == inc.(quantity := inc'.quantity)
    ensures |done + [trade]| <= |goal.2| && goal.2[..|done + [trade]|] == done + [trade]
    ensures Match(n, inc') == (goal.0, goal.1, goal.2[|done + [trade]|..])
    ensures var side := Opposite(inc.side);
      || |Flatten(LadderOf(n, side))| < |Flatten(LadderOf(b, side))|
      || (LadderOf(n, side) == LadderOf(b, side) && 0 <= inc'.quantity < inc.quantity)
  {
    MatchUnfold(b, inc);
    StepShape(b, inc);
    TurnAdvances(goal, done, trade, Match(n, inc'));
  }

  /** The loop's bookkeeping after one more trade: `done` grows by it, and the rest is the remaining run. */
  lemma TurnAdvances(goal: (Book, Order, seq<Trade>), done: seq<Trade>, trade: Trade,
                     m: (Book, Order, seq<Trade>))
    requires |done| <= |goal.2| && goal.2[..|done|] == done
    requires (goal.0, goal.1, goal.2[|done|..]) == (m.0, m.1, [trade] + m.2)
    ensures |done + [trade]| <= |goal.2| && goal.2[..|done + [trade]|] == done + [trade]
    ensures m == (goal.0, goal.1, goal.2[|done + [trade]|..])
  {
    var k := |done|;
    assert goal.2[k..] == [trade] + m.2;
    assert |goal.2[k..]| == 1 + |m.2|;
    assert goal.2[k] == goal.2[k..][0];
    assert goal.2[k + 1..] == goal.2[k..][1..];
    assert goal.2[..k + 1] == goal.2[..k] + [goal.2[k]];
  }

  lemma Finish(g: seq<Trade>, k: nat, done: seq<Trade>)
    requires k <= |g| && g[..k] == done && g[k..] == []
    ensures g == done
  {
    assert g == g[..k] + g[k..];
  }

  /** Adding one more queued order to the running sum. */
  lemma QueueCons(q: seq<OrderId>, x: OrderId, orders: map<OrderId, Order>)
    requires x in orders
    ensures QueueQuantity(q + [x], orders) == QueueQuantity(q, orders) + orders[x].quantity
  {
    QueueQuantityAppend(q, [x], orders);
    assert [x][1..] == [];
  }
}
