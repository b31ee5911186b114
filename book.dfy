/**
 * The engine's whole state as a value, its invariant, and the specification
 * of each operation as a function of the state before it: one fill, the
 * matching loop, booking, submission and cancellation.
 */
module OrderBook {
  import opened Types
  import opened Ladder

  /**
   * `bids` and `asks` are the two ladders, `orders` the id index (the only
   * record of each resting order, so queues and index always agree on its
   * quantity), `trades` the trade log, `tradeIdCounter` the last trade id issued.
   */
  datatype Book = Book(bids: seq<Level>, asks: seq<Level>, orders: map<OrderId, Order>,
                       trades: seq<Trade>, tradeIdCounter: nat)

  const Empty := Book([], [], map[], [], 0)

  /** The ladder an order of `side` rests in. */
  function LadderOf(b: Book, side: Side): seq<Level>
  {
    if side == Buy then b.bids else b.asks
  }

  function WithLadder(b: Book, side: Side, l: seq<Level>): (r: Book)
    ensures LadderOf(r, side) == l && LadderOf(r, Opposite(side)) == LadderOf(b, Opposite(side))
    ensures r.orders == b.orders && r.trades == b.trades && r.tradeIdCounter == b.tradeIdCounter
  {
    if side == Buy then b.(bids := l) else b.(asks := l)
  }

  /** Every resting id, bids first. */
  ghost function Resting(b: Book): seq<OrderId>
  {
    Flatten(b.bids) + Flatten(b.asks)
  }

  /** `x` is indexed as a live order of `side` at `price`. */
  predicate RestsAt(orders: map<OrderId, Order>, side: Side, x: OrderId, price: int)
  {
    x in orders && orders[x].orderId == x && orders[x].side == side
    && orders[x].price == price && orders[x].quantity > 0
  }

  /** An aggressor of `side` with limit `limit` may trade at the opposite best price `best`. */
  predicate Crosses(side: Side, limit: int, best: int)
  {
    match side
    case Buy => limit >= best
    case Sell => limit <= best
  }

  /** Best bid strictly below best ask whenever both sides are non-empty. */
  ghost predicate NotCrossed(b: Book)
  {
    b.bids != [] && b.asks != [] ==> b.bids[0].price < b.asks[0].price
  }

  /**
   * The ladder of `side` is sorted with no empty level, and each id resting
   * in it is indexed, live, of that side and at its level's price.
   */
  ghost predicate SideOk(b: Book, side: Side)
  {
    var l := LadderOf(b, side);
    LadderOk(side, l) && forall e :: e in Slots(l) ==> RestsAt(b.orders, side, e.0, e.1)
  }

  ghost predicate Consistent(b: Book)
  {
    && SideOk(b, Buy) && SideOk(b, Sell)
    // each indexed id rests in exactly one queue position, and nothing else rests
    && multiset(Resting(b)) == multiset(b.orders.Keys)
    && NotCrossed(b)
    // the log holds trades 1, 2, ..., tradeIdCounter in order
    && b.tradeIdCounter == |b.trades|
    && (forall i :: 0 <= i < |b.trades| ==> b.trades[i].tradeId == i + 1)
  }

  // ---------------------------------------------------------------------
  // One fill

  /**
   * `executeTrade`: the fill size is the smaller remaining quantity, both
   * sides lose exactly that much, and the trade carries the given price and id.
   */
  function Fill(buy: Order, sell: Order, price: int, tradeId: nat): (r: (Order, Order, Trade))
    ensures r.2.quantity <= buy.quantity && r.2.quantity <= sell.quantity
    ensures r.2.quantity == buy.quantity || r.2.quantity == sell.quantity
    ensures r.0 == buy.(quantity := buy.quantity - r.2.quantity)
    ensures r.1 == sell.(quantity := sell.quantity - r.2.quantity)
    ensures r.0.quantity >= 0 && r.1.quantity >= 0 && (r.0.quantity == 0 || r.1.quantity == 0)
    ensures buy.quantity > 0 && sell.quantity > 0 ==> r.2.quantity > 0
    ensures r.2 == Trade(tradeId, buy.orderId, sell.orderId, price, r.2.quantity)
  {
    var q := if buy.quantity <= sell.quantity then buy.quantity else sell.quantity;
    (buy.(quantity := buy.quantity - q), sell.(quantity := sell.quantity - q),
     Trade(tradeId, buy.orderId, sell.orderId, price, q))
  }

  /** The matching loop's guard: the opposite side is non-empty, quantity remains, and the limit crosses. */
  ghost predicate CanFill(b: Book, inc: Order)
  {
    var opp := LadderOf(b, Opposite(inc.side));
    opp != [] && inc.quantity > 0 && Crosses(inc.side, inc.price, opp[0].price)
  }

  /** The order at the head of the best opposite level. */
  ghost function Counterparty(b: Book, inc: Order): (r: Order)
    requires Consistent(b) && CanFill(b, inc)
    ensures RestsAt(b.orders, Opposite(inc.side), r.orderId, LadderOf(b, Opposite(inc.side))[0].price)
    ensures r.orderId == LadderOf(b, Opposite(inc.side))[0].queue[0]
  {
    var opp := LadderOf(b, Opposite(inc.side));
    var id := opp[0].queue[0];
    assert (id, opp[0].price) in LevelSlots(opp[0]);
    b.orders[id]
  }

  /**
   * The fill of one iteration, aggressor first: `executeTrade` called with
   * the buy and sell order in the right places and the resting level's price.
   */
  ghost function StepFill(b: Book, inc: Order): (r: (Order, Order, Trade))
    requires Consistent(b) && CanFill(b, inc)
    ensures var resting := Counterparty(b, inc);
      && r.0 == inc.(quantity := inc.quantity - r.2.quantity)
      && r.1 == resting.(quantity := resting.quantity - r.2.quantity)
      && 0 < r.2.quantity && r.0.quantity >= 0 && r.1.quantity >= 0
      && (r.0.quantity == 0 || r.1.quantity == 0)
      && r.2.tradeId == b.tradeIdCounter + 1
      && r.2.price == LadderOf(b, Opposite(inc.side))[0].price
      && r.2.buyOrderId == (if inc.side == Buy then inc.orderId else resting.orderId)
      && r.2.sellOrderId == (if inc.side == Buy then resting.orderId else inc.orderId)
  {
    var resting := Counterparty(b, inc);
    var price := LadderOf(b, Opposite(inc.side))[0].price;
    if inc.side == Buy then
      var f := Fill(inc, resting, price, b.tradeIdCounter + 1); (f.0, f.1, f.2)
    else
      var f := Fill(resting, inc, price, b.tradeIdCounter + 1); (f.1, f.0, f.2)
  }

  /**
   * One iteration of `matchBuyOrder` / `matchSellOrder`: fill the aggressor
   * against the head of the best opposite level, log the trade, and drop the
   * resting order (and its level, if now empty) when it is fully filled.
   */
  ghost function Step(b: Book, inc: Order): (r: (Book, Order, Trade))
    requires Consistent(b) && CanFill(b, inc)
  {
    var side := Opposite(inc.side);
    var id := Counterparty(b, inc).orderId;
    var f := StepFill(b, inc);
    var b1 := b.(orders := b.orders[id := f.1], trades := b.trades + [f.2],
                 tradeIdCounter := b.tradeIdCounter + 1);
    if f.1.quantity == 0 then
      (WithLadder(b1, side, PopFront(LadderOf(b, side))).(orders := b1.orders - {id}), f.0, f.2)
    else
      (b1, f.0, f.2)
  }

  /** Facts about one step that the matching loop's definition needs. */
  lemma StepShape(b: Book, inc: Order)
    requires Consistent(b) && CanFill(b, inc)
    ensures var r := Step(b, inc);
      var opp := LadderOf(b, Opposite(inc.side));
      var opp' := LadderOf(r.0, Opposite(inc.side));
      && r.1 == inc.(quantity := r.1.quantity)
      && 0 <= r.1.quantity < inc.quantity
      && LadderOf(r.0, inc.side) == LadderOf(b, inc.side)
      && (|Flatten(opp')| < |Flatten(opp)| || (opp' == opp && r.1.quantity == 0))
  {
    var opp := LadderOf(b, Opposite(inc.side));
    PopFrontContents(opp);
  }

  lemma StepConsistent(b: Book, inc: Order)
    requires Consistent(b) && CanFill(b, inc)
    ensures Consistent(Step(b, inc).0)
  {
    if StepFill(b, inc).1.quantity == 0 {
      FullFillConsistent(b, inc);
    } else {
      PartialFillConsistent(b, inc);
    }
  }

  /** The resting ids of a book after replacing the ladder of `side`. */
  lemma RestingWith(b: Book, side: Side, l: seq<Level>)
    ensures multiset(Resting(WithLadder(b, side, l))) ==
      multiset(Flatten(l)) + multiset(Flatten(LadderOf(b, Opposite(side))))
    ensures multiset(Resting(b)) ==
      multiset(Flatten(LadderOf(b, side))) + multiset(Flatten(LadderOf(b, Opposite(side))))
  {
  }

  lemma PopFrontMultiset(l: seq<Level>)
    requires l != [] && l[0].queue != []
    ensures multiset(Flatten(l)) == multiset(Flatten(PopFront(l))) + multiset{l[0].queue[0]}
  {
    PopFrontCons(l);
  }

  /** After a full fill, the index and the resting multiset both lose exactly the filled id. */
  lemma FullFillIndex(b: Book, inc: Order)
    requires Consistent(b) && CanFill(b, inc) && StepFill(b, inc).1.quantity == 0
    ensures var r := Step(b, inc).0;
      var id := Counterparty(b, inc).orderId;
      && r.orders == b.orders - {id}
      && LadderOf(r, Opposite(inc.side)) == PopFront(LadderOf(b, Opposite(inc.side)))
      && LadderOf(r, inc.side) == LadderOf(b, inc.side)
      && multiset(Resting(b)) == multiset(Resting(r)) + multiset{id}
  {
    var side := Opposite(inc.side);
    var opp := LadderOf(b, side);
    var id := Counterparty(b, inc).orderId;
    var r := Step(b, inc).0;
    var b1 := b.(orders := b.orders[id := StepFill(b, inc).1], trades := b.trades + [StepFill(b, inc).2],
                 tradeIdCounter := b.tradeIdCounter + 1);
    assert r == WithLadder(b1, side, PopFront(opp)).(orders := b1.orders - {id});
    assert multiset(Resting(b)) == multiset(Resting(r)) + multiset{id} by {
      assert Resting(r) == Resting(WithLadder(b1, side, PopFront(opp)));
      RestingWith(b1, side, PopFront(opp));
      assert Resting(b1) == Resting(b);
      assert LadderOf(b1, side) == opp;
      PopFrontMultiset(opp);
    }
  }

  lemma FullFillSides(b: Book, inc: Order)
    requires Consistent(b) && CanFill(b, inc) && StepFill(b, inc).1.quantity == 0
    ensures SideOk(Step(b, inc).0, Buy) && SideOk(Step(b, inc).0, Sell)
  {
    var side := Opposite(inc.side);
    var opp := LadderOf(b, side);
    var id := Counterparty(b, inc).orderId;
    var r := Step(b, inc).0;
    var opp' := PopFront(opp);
    FullFillIndex(b, inc);
    assert id !in multiset(Flatten(opp')) by {
      PopFrontMultiset(opp);
      RestingWith(b, side, opp);
      assert multiset(b.orders.Keys)[id] <= 1;
    }
    assert SideOk(r, side) by {
      PopFrontOk(side, opp);
      PopFrontContents(opp);
      forall e | e in Slots(opp') ensures RestsAt(r.orders, side, e.0, e.1) {
        SlotAtLevel(side, opp', e);
      }
    }
    assert SideOk(r, inc.side);
  }

  lemma KeysRemove(keys: set<OrderId>, id: OrderId)
    requires id in keys
    ensures multiset(keys - {id}) == multiset(keys) - multiset{id}
  {
  }

  lemma FullFillConsistent(b: Book, inc: Order)
    requires Consistent(b) && CanFill(b, inc) && StepFill(b, inc).1.quantity == 0
    ensures Consistent(Step(b, inc).0)
  {
    var side := Opposite(inc.side);
    var opp := LadderOf(b, side);
    var id := Counterparty(b, inc).orderId;
    var r := Step(b, inc).0;
    FullFillIndex(b, inc);
    FullFillSides(b, inc);
    assert NotCrossed(r) by {
      PopFrontOk(side, opp);
    }
    assert multiset(Resting(r)) == multiset(r.orders.Keys) by {
      KeysRemove(b.orders.Keys, id);
      assert r.orders.Keys == b.orders.Keys - {id};
    }
  }

  lemma PartialFillConsistent(b: Book, inc: Order)
    requires Consistent(b) && CanFill(b, inc) && StepFill(b, inc).1.quantity != 0
    ensures Consistent(Step(b, inc).0)
  {
    var side := Opposite(inc.side);
    var id := Counterparty(b, inc).orderId;
    var r := Step(b, inc).0;
    assert r.bids == b.bids && r.asks == b.asks;
    assert r.orders == b.orders[id := StepFill(b, inc).1];
    assert SideOk(r, side);
    assert SideOk(r, inc.side);
  }

  // ---------------------------------------------------------------------
  // The matching loop, booking, submission

  /**
   * The matching loop: repeat the step while it can fill. Returns the book
   * after matching, the aggressor with its remaining quantity, and the trades
   * in execution order.
   */
  ghost function Match(b: Book, inc: Order): (r: (Book, Order, seq<Trade>))
    requires Consistent(b)
    decreases |Flatten(LadderOf(b, Opposite(inc.side)))|, if inc.quantity > 0 then inc.quantity else 0
  {
    if !CanFill(b, inc) then (b, inc, [])
    else
      var s := Step(b, inc);
      StepShape(b, inc);
      StepConsistent(b, inc);
      var m := Match(s.0, s.1);
      (m.0, m.1, [s.2] + m.2)
  }

  /** `addToBook`: the order joins the tail of its price level and is indexed. */
  function AddToBook(b: Book, o: Order): Book
  {
    WithLadder(b, o.side, Join(o.side, LadderOf(b, o.side), o.price, o.orderId))
      .(orders := b.orders[o.orderId := o])
  }

  /** A fresh order that cannot trade may rest: booking it keeps the book consistent. */
  lemma AddToBookConsistent(b: Book, o: Order)
    requires Consistent(b) && o.orderId !in b.orders && o.quantity > 0 && !CanFill(b, o)
    ensures Consistent(AddToBook(b, o))
  {
    var r := AddToBook(b, o);
    var l := LadderOf(b, o.side);
    var l' := Join(o.side, l, o.price, o.orderId);
    AddToBookIndex(b, o);
    AddToBookSides(b, o);
    assert NotCrossed(r) by {
      JoinFront(o.side, l, o.price, o.orderId);
    }
  }

  lemma AddToBookIndex(b: Book, o: Order)
    requires multiset(Resting(b)) == multiset(b.orders.Keys) && o.orderId !in b.orders
    ensures multiset(Resting(AddToBook(b, o))) == multiset(AddToBook(b, o).orders.Keys)
  {
    var r := AddToBook(b, o);
    assert r.orders == b.orders[o.orderId := o];
    assert multiset(r.orders.Keys) == multiset(b.orders.Keys) + multiset{o.orderId} by {
      KeysAdd(b.orders.Keys, o.orderId);
      assert r.orders.Keys == b.orders.Keys + {o.orderId};
    }
    AddToBookResting(b, o);
  }

  lemma KeysAdd(keys: set<OrderId>, id: OrderId)
    requires id !in keys
    ensures multiset(keys + {id}) == multiset(keys) + multiset{id}
  {
  }

  lemma AddToBookResting(b: Book, o: Order)
    ensures multiset(Resting(AddToBook(b, o))) == multiset(Resting(b)) + multiset{o.orderId}
  {
    var l := LadderOf(b, o.side);
    var l' := Join(o.side, l, o.price, o.orderId);
    assert Resting(AddToBook(b, o)) == Resting(WithLadder(b, o.side, l'));
    RestingWith(b, o.side, l');
    RestingWith(b, o.side, l);
    JoinContents(o.side, l, o.price, o.orderId);
  }

  lemma AddToBookSides(b: Book, o: Order)
    requires Consistent(b) && o.orderId !in b.orders && o.quantity > 0
    ensures SideOk(AddToBook(b, o), Buy) && SideOk(AddToBook(b, o), Sell)
  {
    var l := LadderOf(b, o.side);
    var l' := Join(o.side, l, o.price, o.orderId);
    var r := AddToBook(b, o);
    JoinOk(o.side, l, o.price, o.orderId);
    JoinContents(o.side, l, o.price, o.orderId);
    assert SideOk(r, o.side) by {
      forall e | e in Slots(l') ensures RestsAt(r.orders, o.side, e.0, e.1) {
        if e != (o.orderId, o.price) {
          SlotAtLevel(o.side, l, e);
          assert e.0 in multiset(Resting(b));
        }
      }
    }
    assert SideOk(r, Opposite(o.side)) by {
      var other := LadderOf(b, Opposite(o.side));
      forall e | e in Slots(other) ensures RestsAt(r.orders, Opposite(o.side), e.0, e.1) {
        SlotAtLevel(Opposite(o.side), other, e);
        assert e.0 in multiset(Resting(b));
      }
    }
  }

  /** `processOrder`: match, then book the residual quantity if any is left. */
  ghost function Submit(b: Book, o: Order): (r: (Book, seq<Trade>))
    requires Consistent(b) && o.orderId !in b.orders
  {
    var m := Match(b, o);
    (if m.1.quantity > 0 then AddToBook(m.0, m.1) else m.0, m.2)
  }

  // ---------------------------------------------------------------------
  // Cancellation

  /** `cancelOrder`: look the id up; if present unlink it from its level and the index. */
  ghost function Cancel(b: Book, id: OrderId): (r: (Book, bool))
    ensures r.1 <==> id in b.orders
    ensures !r.1 ==> r.0 == b
    ensures r.0.orders == b.orders - {id}
    ensures r.0.trades == b.trades && r.0.tradeIdCounter == b.tradeIdCounter
  {
    if id !in b.orders then
      assert b.orders - {id} == b.orders;
      (b, false)
    else
      var o := b.orders[id];
      (WithLadder(b, o.side, Remove(o.side, LadderOf(b, o.side), o.price, id)).(orders := b.orders - {id}), true)
  }

  lemma CancelIndex(b: Book, id: OrderId)
    requires Consistent(b) && id in b.orders
    ensures var o := b.orders[id];
      (id, o.price) in Slots(LadderOf(b, o.side)) && id !in Flatten(LadderOf(b, Opposite(o.side)))
  {
    var o := b.orders[id];
    assert id in multiset(Resting(b));
    RestingWith(b, o.side, LadderOf(b, o.side));
    var side :| id in Flatten(LadderOf(b, side));
    var p :| (id, p) in Slots(LadderOf(b, side)) by {
      FlattenHasSlot(LadderOf(b, side), id);
    }
    assert RestsAt(b.orders, side, id, p);
    assert id !in multiset(Flatten(LadderOf(b, Opposite(o.side))));
  }

  /** Cancelling keeps the book consistent. */
  lemma CancelConsistent(b: Book, id: OrderId)
    requires Consistent(b)
    ensures Consistent(Cancel(b, id).0)
  {
    if id in b.orders {
      var o := b.orders[id];
      var r := Cancel(b, id).0;
      CancelResting(b, id);
      CancelSides(b, id);
      assert NotCrossed(r) by {
        RemoveFront(o.side, LadderOf(b, o.side), o.price, id);
      }
    }
  }

  lemma CancelResting(b: Book, id: OrderId)
    requires Consistent(b) && id in b.orders
    ensures var o := b.orders[id];
      var r := Cancel(b, id).0;
      && LadderOf(r, o.side) == Remove(o.side, LadderOf(b, o.side), o.price, id)
      && LadderOf(r, Opposite(o.side)) == LadderOf(b, Opposite(o.side))
      && multiset(Resting(r)) == multiset(r.orders.Keys)
  {
    var o := b.orders[id];
    var l := LadderOf(b, o.side);
    var other := LadderOf(b, Opposite(o.side));
    var l' := Remove(o.side, l, o.price, id);
    var r := Cancel(b, id).0;
    assert multiset(Resting(r)) == multiset(Flatten(l')) + multiset(Flatten(other)) by {
      assert Resting(r) == Resting(WithLadder(b, o.side, l'));
      RestingWith(b, o.side, l');
    }
    assert multiset(Flatten(l')) + multiset(Flatten(other)) == multiset(Resting(b)) - multiset{id} by {
      CancelIndex(b, id);
      RemoveContents(o.side, l, o.price, id);
      RestingWith(b, o.side, l);
    }
    assert multiset(r.orders.Keys) == multiset(b.orders.Keys) - multiset{id} by {
      KeysRemove(b.orders.Keys, id);
      assert r.orders.Keys == b.orders.Keys - {id};
    }
  }

  lemma CancelSides(b: Book, id: OrderId)
    requires Consistent(b) && id in b.orders
    ensures SideOk(Cancel(b, id).0, Buy) && SideOk(Cancel(b, id).0, Sell)
  {
    var o := b.orders[id];
    var l := LadderOf(b, o.side);
    var other := LadderOf(b, Opposite(o.side));
    var l' := Remove(o.side, l, o.price, id);
    var r := Cancel(b, id).0;
    CancelResting(b, id);
    assert SideOk(r, o.side) by {
      RemoveOk(o.side, l, o.price, id);
      RemoveContents(o.side, l, o.price, id);
      forall e | e in Slots(l') ensures RestsAt(r.orders, o.side, e.0, e.1) {
        SlotAtLevel(o.side, l', e);
        RestingWith(r, o.side, l');
        assert e.0 in multiset(Resting(r));
      }
    }
    assert SideOk(r, Opposite(o.side)) by {
      CancelIndex(b, id);
      forall e | e in Slots(other) ensures RestsAt(r.orders, Opposite(o.side), e.0, e.1) {
        SlotAtLevel(Opposite(o.side), other, e);
      }
    }
  }

  // ---------------------------------------------------------------------
  // Book snapshot

  /** One row of `formatBookSide`. */
  datatype LevelSummary = LevelSummary(price: int, quantity: int, orders: nat)

  /** The summed remaining quantity of the ids in `q`, as the stream sum reads it. */
  ghost function QueueQuantity(q: seq<OrderId>, orders: map<OrderId, Order>): int
  {
    if q == [] then 0
    else (if q[0] in orders then orders[q[0]].quantity else 0) + QueueQuantity(q[1..], orders)
  }

  ghost function Summary(lv: Level, orders: map<OrderId, Order>): LevelSummary
  {
    LevelSummary(lv.price, QueueQuantity(lv.queue, orders), |lv.queue|)
  }
}
