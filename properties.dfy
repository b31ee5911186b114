/**
 * What the engine promises about matching, booking, cancellation and its
 * snapshots, stated over the specification functions of `OrderBook`.
 */
module MatchingProperties {
  import opened Types
  import opened Ladder
  import opened OrderBook

  /** The resting side's order id in a trade made by an aggressor of `side`. */
  function RestingId(t: Trade, side: Side): OrderId
  {
    if side == Buy then t.sellOrderId else t.buyOrderId
  }

  /** The aggressor's order id in a trade made by an aggressor of `side`. */
  function AggressorId(t: Trade, side: Side): OrderId
  {
    if side == Buy then t.buyOrderId else t.sellOrderId
  }

  // ---------------------------------------------------------------------
  // One step

  /** Everything one fill does, stated against the book before it. */
  lemma StepFacts(b: Book, inc: Order)
    requires Consistent(b) && CanFill(b, inc)
    ensures var s := Step(b, inc);
      var opp := LadderOf(b, Opposite(inc.side));
      var opp' := LadderOf(s.0, Opposite(inc.side));
      var id := Flatten(opp)[0];
      && Flatten(opp) != [] && id in b.orders
      && s.0.trades == b.trades + [s.2]
      && s.0.tradeIdCounter == b.tradeIdCounter + 1
      && s.0.orders.Keys <= b.orders.Keys
      && s.2.tradeId == b.tradeIdCounter + 1
      && RestingId(s.2, inc.side) == id && AggressorId(s.2, inc.side) == inc.orderId
      && s.2.price == b.orders[id].price && Crosses(inc.side, inc.price, s.2.price)
      && 0 < s.2.quantity <= b.orders[id].quantity
      && s.2.quantity == inc.quantity - s.1.quantity
      && ((Flatten(opp') == Flatten(opp)[1..] && s.2.quantity == b.orders[id].quantity
           && (forall x :: x in s.0.orders ==> x in b.orders && s.0.orders[x] == b.orders[x]))
          || (opp' == opp && s.1.quantity == 0))
  {
    var opp := LadderOf(b, Opposite(inc.side));
    PopFrontContents(opp);
    StepShape(b, inc);
  }

  /**
   * What one fill does to the index: a fully filled resting order loses its
   * record, a partly filled one keeps it with the traded quantity taken off.
   */
  lemma StepRecords(b: Book, inc: Order)
    requires Consistent(b) && CanFill(b, inc)
    ensures var s := Step(b, inc);
      var opp := LadderOf(b, Opposite(inc.side));
      Flatten(opp) != [] && Flatten(opp)[0] in b.orders &&
      var id := Flatten(opp)[0];
      var rec := b.orders[id];
      if s.2.quantity == rec.quantity then
        && s.0.orders == b.orders - {id}
        && Flatten(LadderOf(s.0, Opposite(inc.side))) == Flatten(opp)[1..]
      else
        && s.2.quantity < rec.quantity
        && LadderOf(s.0, Opposite(inc.side)) == opp && s.1.quantity == 0
        && s.0.orders == b.orders[id := rec.(quantity := rec.quantity - s.2.quantity)]
  {
    var opp := LadderOf(b, Opposite(inc.side));
    PopFrontContents(opp);
    var c := Counterparty(b, inc);
    var f := StepFill(b, inc);
    if f.1.quantity == 0 {
      assert b.orders[c.orderId := f.1] - {c.orderId} == b.orders - {c.orderId};
    }
  }

  /** After a step, every id resting on the opposite side is indexed. */
  lemma OppositeIndexed(b: Book, side: Side, x: OrderId)
    requires Consistent(b) && x in Flatten(LadderOf(b, side))
    ensures x in b.orders
  {
    RestingWith(b, side, LadderOf(b, side));
    assert x in multiset(Resting(b));
  }

  // ---------------------------------------------------------------------
  // The matching loop

  lemma LogAssoc(a: seq<Trade>, t: Trade, c: seq<Trade>)
    ensures a + ([t] + c) == (a + [t]) + c
  {
  }

  lemma ConsTrade(t: Trade, c: seq<Trade>)
    ensures ([t] + c)[0] == t && ([t] + c)[1..] == c && |[t] + c| == |c| + 1
    ensures forall i :: 0 < i <= |c| ==> ([t] + c)[i] == c[i - 1]
  {
  }

  /**
   * The matching loop keeps the book consistent, changes only the quantity
   * of the aggressor and never its own side, never indexes a new id, and
   * stops only when nothing more can trade.
   */
  lemma {:induction false} MatchKeeps(b: Book, inc: Order)
    requires Consistent(b)
    ensures var m := Match(b, inc);
      && Consistent(m.0)
      && m.1 == inc.(quantity := m.1.quantity)
      && LadderOf(m.0, inc.side) == LadderOf(b, inc.side)
      && m.0.orders.Keys <= b.orders.Keys
      && !CanFill(m.0, m.1)
    decreases |Flatten(LadderOf(b, Opposite(inc.side)))|, if inc.quantity > 0 then inc.quantity else 0
  {
    if CanFill(b, inc) {
      var s := Step(b, inc);
      StepShape(b, inc);
      StepConsistent(b, inc);
      StepFacts(b, inc);
      MatchKeeps(s.0, s.1);
      var m := Match(s.0, s.1);
      assert Match(b, inc) == (m.0, m.1, [s.2] + m.2);
    }
  }

  /** One turn of the matching loop: a step, then the loop on the book it leaves. */
  lemma MatchUnfold(b: Book, inc: Order)
    requires Consistent(b) && CanFill(b, inc)
    ensures Consistent(Step(b, inc).0)
    ensures var s := Step(b, inc);
      var m := Match(s.0, s.1);
      Match(b, inc) == (m.0, m.1, [s.2] + m.2)
  {
    StepConsistent(b, inc);
  }

  /** The trades of one run are exactly what the log gains, one counter value each. */
  lemma {:induction false} MatchLog(b: Book, inc: Order)
    requires Consistent(b)
    ensures var m := Match(b, inc);
      && m.0.trades == b.trades + m.2
      && m.0.tradeIdCounter == b.tradeIdCounter + |m.2|
    decreases |Flatten(LadderOf(b, Opposite(inc.side)))|, if inc.quantity > 0 then inc.quantity else 0
  {
    if CanFill(b, inc) {
      var s := Step(b, inc);
      StepShape(b, inc);
      StepConsistent(b, inc);
      StepFacts(b, inc);
      MatchLog(s.0, s.1);
      var m := Match(s.0, s.1);
      assert Match(b, inc) == (m.0, m.1, [s.2] + m.2);
      LogAssoc(b.trades, s.2, m.2);
    }
  }

  /**
   * Conservation for the aggressor: the run fills exactly the quantity the
   * aggressor lost, which never drives it negative. An aggressor with no
   * positive quantity does not trade at all.
   */
  lemma {:induction false} MatchQuantity(b: Book, inc: Order)
    requires Consistent(b)
    ensures var m := Match(b, inc);
      && m.1.quantity <= inc.quantity
      && (inc.quantity > 0 ==> m.1.quantity >= 0)
      && (inc.quantity <= 0 ==> m.0 == b && m.1 == inc && m.2 == [])
      && TradedQuantity(m.2) == inc.quantity - m.1.quantity
    decreases |Flatten(LadderOf(b, Opposite(inc.side)))|, if inc.quantity > 0 then inc.quantity else 0
  {
    if CanFill(b, inc) {
      var s := Step(b, inc);
      StepShape(b, inc);
      StepConsistent(b, inc);
      StepFacts(b, inc);
      MatchQuantity(s.0, s.1);
      var m := Match(s.0, s.1);
      assert Match(b, inc) == (m.0, m.1, [s.2] + m.2);
      ConsTrade(s.2, m.2);
    }
  }

  /** The trades of one run as `MatchTrades` describes them. */
  ghost predicate TradeRun(ts: seq<Trade>, counter: int, side: Side, id: OrderId, limit: int)
  {
    forall i :: 0 <= i < |ts| ==>
      && ts[i].tradeId == counter + i + 1
      && ts[i].quantity > 0
      && AggressorId(ts[i], side) == id
      && Crosses(side, limit, ts[i].price)
  }

  lemma TradeRunCons(t: Trade, ts: seq<Trade>, counter: int, side: Side, id: OrderId, limit: int)
    requires TradeRun(ts, counter + 1, side, id, limit)
    requires t.tradeId == counter + 1 && t.quantity > 0 && AggressorId(t, side) == id && Crosses(side, limit, t.price)
    ensures TradeRun([t] + ts, counter, side, id, limit)
  {
    var r := [t] + ts;
    forall i | 0 < i < |r|
      ensures r[i].tradeId == counter + i + 1
      ensures r[i].quantity > 0
      ensures AggressorId(r[i], side) == id
      ensures Crosses(side, limit, r[i].price)
    {
      assert r[i] == ts[i - 1];
    }
  }

  /**
   * Every trade of one matching run: consecutive ids after the counter, a
   * positive quantity, the aggressor on its own side, and a price its limit
   * accepts.
   */
  lemma {:induction false} MatchTrades(b: Book, inc: Order)
    requires Consistent(b)
    ensures TradeRun(Match(b, inc).2, b.tradeIdCounter, inc.side, inc.orderId, inc.price)
    decreases |Flatten(LadderOf(b, Opposite(inc.side)))|, if inc.quantity > 0 then inc.quantity else 0
  {
    if CanFill(b, inc) {
      var s := Step(b, inc);
      StepShape(b, inc);
      StepConsistent(b, inc);
      StepFacts(b, inc);
      MatchTrades(s.0, s.1);
      var m := Match(s.0, s.1);
      assert Match(b, inc) == (m.0, m.1, [s.2] + m.2);
      TradeRunCons(s.2, m.2, b.tradeIdCounter, inc.side, inc.orderId, inc.price);
    }
  }

  /** The trades of one run against the resting ids `ids`, as `MatchPriority` describes them. */
  ghost predicate PriorityRun(ts: seq<Trade>, ids: seq<OrderId>, orders: map<OrderId, Order>, side: Side)
  {
    && |ts| <= |ids|
    && forall i :: 0 <= i < |ts| ==>
         && ids[i] in orders
         && RestingId(ts[i], side) == ids[i]
         && ts[i].price == orders[ids[i]].price
         && ts[i].quantity <= orders[ids[i]].quantity
         && (i < |ts| - 1 ==> ts[i].quantity == orders[ids[i]].quantity)
  }

  /** A full fill of the first resting id followed by a run against the rest. */
  lemma PriorityRunCons(t: Trade, ts: seq<Trade>, ids: seq<OrderId>, orders: map<OrderId, Order>,
                        orders': map<OrderId, Order>, side: Side)
    requires ids != [] && ids[0] in orders
    requires PriorityRun(ts, ids[1..], orders', side)
    requires forall x :: x in orders' ==> x in orders && orders'[x] == orders[x]
    requires RestingId(t, side) == ids[0] && t.price == orders[ids[0]].price
    requires t.quantity == orders[ids[0]].quantity
    ensures PriorityRun([t] + ts, ids, orders, side)
  {
    var r := [t] + ts;
    forall i | 0 < i < |r|
      ensures ids[i] in orders
      ensures RestingId(r[i], side) == ids[i]
      ensures r[i].price == orders[ids[i]].price
      ensures r[i].quantity <= orders[ids[i]].quantity
      ensures i < |r| - 1 ==> r[i].quantity == orders[ids[i]].quantity
    {
      assert r[i] == ts[i - 1] && ids[i] == ids[1..][i - 1];
    }
  }

  /**
   * Price-time priority: the trades of one run take the opposite side's
   * resting orders strictly in priority order, each at that order's own
   * (level) price, filling each completely except possibly the last one.
   */
  lemma {:induction false} MatchPriority(b: Book, inc: Order)
    requires Consistent(b)
    ensures PriorityRun(Match(b, inc).2, Flatten(LadderOf(b, Opposite(inc.side))), b.orders, inc.side)
    decreases |Flatten(LadderOf(b, Opposite(inc.side)))|, if inc.quantity > 0 then inc.quantity else 0
  {
    var side := Opposite(inc.side);
    var ids := Flatten(LadderOf(b, side));
    if CanFill(b, inc) {
      var s := Step(b, inc);
      StepShape(b, inc);
      StepConsistent(b, inc);
      StepFacts(b, inc);
      MatchPriority(s.0, s.1);
      var m := Match(s.0, s.1);
      assert Match(b, inc) == (m.0, m.1, [s.2] + m.2);
      if LadderOf(s.0, side) == LadderOf(b, side) && s.1.quantity == 0 {
        // the resting order was only partly filled, so the aggressor is done
        assert m.2 == [] by {
          MatchQuantity(s.0, s.1);
        }
        assert [s.2] + m.2 == [s.2];
      } else {
        PriorityRunCons(s.2, m.2, ids, b.orders, s.0.orders, inc.side);
      }
    }
  }

  /**
   * The last trade of the run `ts` against the resting ids `ids` left its
   * resting order with quantity: a partial fill.
   */
  ghost predicate LastPartial(ts: seq<Trade>, ids: seq<OrderId>, orders: map<OrderId, Order>)
  {
    0 < |ts| <= |ids| && ids[|ts| - 1] in orders && ts[|ts| - 1].quantity < orders[ids[|ts| - 1]].quantity
  }

  /** A full fill of the first resting id does not change whether the run ends with a partial fill. */
  lemma LastPartialCons(t: Trade, ts: seq<Trade>, ids: seq<OrderId>, orders: map<OrderId, Order>,
                        orders': map<OrderId, Order>)
    requires ids != [] && ids[0] in orders && t.quantity == orders[ids[0]].quantity
    requires |ts| <= |ids| - 1 && (ts != [] ==> ids[|ts|] in orders')
    requires forall x :: x in orders' ==> x in orders && orders'[x] == orders[x]
    ensures LastPartial([t] + ts, ids, orders) <==> LastPartial(ts, ids[1..], orders')
  {
    var r := [t] + ts;
    if ts == [] {
      assert r[0] == t;
    } else {
      assert r[|r| - 1] == ts[|ts| - 1];
      assert ids[1..][|ts| - 1] == ids[|ts|];
    }
  }

  /**
   * `rest` is what remains of the resting ids `ids` after the run `ts`: the
   * ids it filled completely are gone, and the last one stays at the head
   * exactly when it was only partly filled.
   */
  ghost predicate RemainsAfter(rest: seq<OrderId>, ids: seq<OrderId>, ts: seq<Trade>, orders: map<OrderId, Order>)
  {
    |ts| <= |ids| && rest == if LastPartial(ts, ids, orders) then ids[|ts| - 1..] else ids[|ts|..]
  }

  lemma RemainsAfterCons(rest: seq<OrderId>, t: Trade, ts: seq<Trade>, ids: seq<OrderId>,
                         orders: map<OrderId, Order>, orders': map<OrderId, Order>)
    requires ids != [] && ids[0] in orders && t.quantity == orders[ids[0]].quantity
    requires |ts| <= |ids| - 1 && (ts != [] ==> ids[|ts|] in orders')
    requires forall x :: x in orders' ==> x in orders && orders'[x] == orders[x]
    requires RemainsAfter(rest, ids[1..], ts, orders')
    ensures RemainsAfter(rest, ids, [t] + ts, orders)
  {
    LastPartialCons(t, ts, ids, orders, orders');
    var r := [t] + ts;
    if LastPartial(ts, ids[1..], orders') {
      assert ids[1..][|ts| - 1..] == ids[|r| - 1..];
    } else {
      assert ids[1..][|ts|..] == ids[|r|..];
    }
  }

  /**
   * What the opposite side keeps: the resting ids after the ones the run
   * filled completely, in their original priority order, with a partly
   * filled last order still at the head.
   */
  lemma {:induction false} MatchRemains(b: Book, inc: Order)
    requires Consistent(b)
    ensures var m := Match(b, inc);
      RemainsAfter(Flatten(LadderOf(m.0, Opposite(inc.side))), Flatten(LadderOf(b, Opposite(inc.side))),
                   m.2, b.orders)
    decreases |Flatten(LadderOf(b, Opposite(inc.side)))|, if inc.quantity > 0 then inc.quantity else 0
  {
    var side := Opposite(inc.side);
    var ids := Flatten(LadderOf(b, side));
    if CanFill(b, inc) {
      var s := Step(b, inc);
      StepShape(b, inc);
      StepConsistent(b, inc);
      StepRecords(b, inc);
      var m := Match(s.0, s.1);
      assert Match(b, inc) == (m.0, m.1, [s.2] + m.2);
      if s.2.quantity == b.orders[ids[0]].quantity {
        MatchRemains(s.0, s.1);
        MatchPriority(s.0, s.1);
        if m.2 != [] {
          assert ids[1..][|m.2| - 1] == ids[|m.2|];
        }
        RemainsAfterCons(Flatten(LadderOf(m.0, side)), s.2, m.2, ids, b.orders, s.0.orders);
      } else {
        assert m == (s.0, s.1, []) by {
          MatchQuantity(s.0, s.1);
        }
        assert [s.2] + m.2 == [s.2];
        assert LastPartial([s.2], ids, b.orders);
        assert ids[0..] == ids;
      }
    }
  }

  /**
   * The index after the run `ts` against the resting ids `ids`: nothing is
   * added, every order the run did not fill keeps its record, the orders it
   * filled completely are gone, and a partly filled last order keeps its
   * record with the traded quantity taken off.
   */
  ghost predicate RecordsAfter(orders': map<OrderId, Order>, orders: map<OrderId, Order>,
                               ids: seq<OrderId>, ts: seq<Trade>)
  {
    && |ts| <= |ids|
    && (forall i :: 0 <= i < |ts| ==> ids[i] in orders)
    && (forall x :: x in orders' ==> x in orders)
    && (forall x :: x in orders && x !in ids[..|ts|] ==> x in orders' && orders'[x] == orders[x])
    && (forall i :: 0 <= i < |ts| ==> (ids[i] in orders' <==> i == |ts| - 1 && LastPartial(ts, ids, orders)))
    && (LastPartial(ts, ids, orders) ==>
          var x := ids[|ts| - 1];
          x in orders' && orders'[x] == orders[x].(quantity := orders[x].quantity - ts[|ts| - 1].quantity))
  }

  /** A full fill of the first resting id, then a run against the rest with that id unindexed. */
  lemma RecordsAfterCons(t: Trade, ts: seq<Trade>, ids: seq<OrderId>, orders: map<OrderId, Order>,
                         orders': map<OrderId, Order>, orders'': map<OrderId, Order>)
    requires ids != [] && ids[0] in orders && t.quantity == orders[ids[0]].quantity
    requires orders' == orders - {ids[0]}
    requires RecordsAfter(orders'', orders', ids[1..], ts)
    ensures RecordsAfter(orders'', orders, ids, [t] + ts)
  {
    var r := [t] + ts;
    var k := |r|;
    if ts != [] {
      assert ids[1..][|ts| - 1] == ids[|ts|];
    }
    LastPartialCons(t, ts, ids, orders, orders');
    assert ids[..k] == [ids[0]] + ids[1..][..|ts|];
    forall i | 0 <= i < k
      ensures ids[i] in orders
      ensures ids[i] in orders'' <==> i == k - 1 && LastPartial(r, ids, orders)
    {
      if i > 0 {
        assert ids[i] == ids[1..][i - 1];
      }
    }
    forall x | x in orders && x !in ids[..k]
      ensures x in orders'' && orders''[x] == orders[x]
    {
      assert x !in ids[1..][..|ts|];
    }
    if LastPartial(r, ids, orders) {
      assert r[k - 1] == ts[|ts| - 1] && ids[k - 1] == ids[1..][|ts| - 1];
    }
  }

  /** A run of one partial fill. */
  lemma RecordsAfterPartial(t: Trade, ids: seq<OrderId>, orders: map<OrderId, Order>, orders': map<OrderId, Order>)
    requires ids != [] && ids[0] in orders && t.quantity < orders[ids[0]].quantity
    requires orders' == orders[ids[0] := orders[ids[0]].(quantity := orders[ids[0]].quantity - t.quantity)]
    ensures RecordsAfter(orders', orders, ids, [t])
  {
    assert ids[..1] == [ids[0]];
    assert LastPartial([t], ids, orders);
  }

  /**
   * What one run does to the index: only the orders it filled change, the
   * completely filled ones leave, and a partly filled last one loses
   * exactly its trade's quantity.
   */
  lemma {:induction false} MatchRecords(b: Book, inc: Order)
    requires Consistent(b)
    ensures var m := Match(b, inc);
      RecordsAfter(m.0.orders, b.orders, Flatten(LadderOf(b, Opposite(inc.side))), m.2)
    decreases |Flatten(LadderOf(b, Opposite(inc.side)))|, if inc.quantity > 0 then inc.quantity else 0
  {
    var side := Opposite(inc.side);
    var ids := Flatten(LadderOf(b, side));
    if CanFill(b, inc) {
      var s := Step(b, inc);
      StepShape(b, inc);
      StepConsistent(b, inc);
      StepRecords(b, inc);
      var m := Match(s.0, s.1);
      assert Match(b, inc) == (m.0, m.1, [s.2] + m.2);
      if s.2.quantity == b.orders[ids[0]].quantity {
        MatchRecords(s.0, s.1);
        RecordsAfterCons(s.2, m.2, ids, b.orders, s.0.orders, m.0.orders);
      } else {
        assert m == (s.0, s.1, []) by {
          MatchQuantity(s.0, s.1);
        }
        assert [s.2] + m.2 == [s.2];
        RecordsAfterPartial(s.2, ids, b.orders, s.0.orders);
      }
    } else {
      assert ids[..0] == [];
    }
  }

  /** The summed quantity of a queue depends only on the records of its ids. */
  lemma {:induction false} QueueQuantitySame(q: seq<OrderId>, o1: map<OrderId, Order>, o2: map<OrderId, Order>)
    requires forall x :: x in q ==> x in o1 && x in o2 && o1[x] == o2[x]
    ensures QueueQuantity(q, o1) == QueueQuantity(q, o2)
  {
    if q != [] {
      assert q[0] in q;
      forall x | x in q[1..] ensures x in q {
        var j :| 0 <= j < |q[1..]| && q[1..][j] == x;
        assert q[j + 1] == x;
      }
      QueueQuantitySame(q[1..], o1, o2);
    }
  }

  /** The first resting id of a side rests nowhere else on that side. */
  lemma HeadUnique(b: Book, side: Side)
    requires Consistent(b) && Flatten(LadderOf(b, side)) != []
    ensures Flatten(LadderOf(b, side))[0] !in Flatten(LadderOf(b, side))[1..]
  {
    var ids := Flatten(LadderOf(b, side));
    var id := ids[0];
    assert ids == [id] + ids[1..];
    assert multiset(ids)[id] == 1 + multiset(ids[1..])[id];
    RestingWith(b, side, LadderOf(b, side));
    assert multiset(b.orders.Keys)[id] <= 1;
    assert multiset(ids)[id] <= multiset(Resting(b))[id];
    assert multiset(ids[1..])[id] == 0;
  }

  /** Every id after the head of a consistent side is indexed. */
  lemma TailIndexed(b: Book, side: Side, x: OrderId)
    requires Consistent(b) && Flatten(LadderOf(b, side)) != [] && x in Flatten(LadderOf(b, side))[1..]
    ensures x in b.orders
  {
    var ids := Flatten(LadderOf(b, side));
    var j :| 0 <= j < |ids[1..]| && ids[1..][j] == x;
    assert ids[j + 1] == x;
    OppositeIndexed(b, side, x);
  }

  /**
   * Conservation for the resting side: the opposite side's total remaining
   * quantity falls by exactly the quantity the run traded.
   */
  lemma {:induction false} MatchSideQuantity(b: Book, inc: Order)
    requires Consistent(b)
    ensures var m := Match(b, inc);
      var side := Opposite(inc.side);
      QueueQuantity(Flatten(LadderOf(m.0, side)), m.0.orders) ==
        QueueQuantity(Flatten(LadderOf(b, side)), b.orders) - TradedQuantity(m.2)
    decreases |Flatten(LadderOf(b, Opposite(inc.side)))|, if inc.quantity > 0 then inc.quantity else 0
  {
    var side := Opposite(inc.side);
    var ids := Flatten(LadderOf(b, side));
    if CanFill(b, inc) {
      var s := Step(b, inc);
      StepShape(b, inc);
      StepConsistent(b, inc);
      StepRecords(b, inc);
      var m := Match(s.0, s.1);
      assert Match(b, inc) == (m.0, m.1, [s.2] + m.2);
      ConsTrade(s.2, m.2);
      if s.2.quantity == b.orders[ids[0]].quantity {
        MatchSideQuantity(s.0, s.1);
        forall x | x in ids[1..] ensures x in b.orders && x in s.0.orders && b.orders[x] == s.0.orders[x] {
          OppositeIndexed(s.0, side, x);
        }
        QueueQuantitySame(ids[1..], b.orders, s.0.orders);
      } else {
        assert m == (s.0, s.1, []) by {
          MatchQuantity(s.0, s.1);
        }
        HeadUnique(b, side);
        forall x | x in ids[1..] ensures x in b.orders && x in s.0.orders && b.orders[x] == s.0.orders[x] {
          TailIndexed(b, side, x);
        }
        QueueQuantitySame(ids[1..], b.orders, s.0.orders);
      }
    }
  }

  // ---------------------------------------------------------------------
  // Submission

  /** `processOrder` keeps the book consistent: in particular it never leaves it crossed. */
  lemma SubmitConsistent(b: Book, o: Order)
    requires Consistent(b) && o.orderId !in b.orders
    ensures Consistent(Submit(b, o).0)
  {
    MatchKeeps(b, o);
    var m := Match(b, o);
    if m.1.quantity > 0 {
      AddToBookConsistent(m.0, m.1);
    }
  }

  /** The returned trades are exactly the ones appended to the log, in order. */
  lemma SubmitLog(b: Book, o: Order)
    requires Consistent(b) && o.orderId !in b.orders
    ensures var r := Submit(b, o);
      && r.0.trades == b.trades + r.1
      && r.0.tradeIdCounter == b.tradeIdCounter + |r.1|
  {
    MatchLog(b, o);
  }

  /**
   * Trade ids: the new trades carry the next counter values in order, every
   * one above every id already in the log.
   */
  lemma SubmitTradeIds(b: Book, o: Order)
    requires Consistent(b) && o.orderId !in b.orders
    ensures var ts := Submit(b, o).1;
      && (forall i :: 0 <= i < |ts| ==> ts[i].tradeId == b.tradeIdCounter + i + 1)
      && (forall i, j :: 0 <= i < |b.trades| && 0 <= j < |ts| ==> b.trades[i].tradeId < ts[j].tradeId)
  {
    MatchTrades(b, o);
    var ts := Submit(b, o).1;
    assert TradeRun(ts, b.tradeIdCounter, o.side, o.orderId, o.price);
  }

  /**
   * Booking: the order is indexed afterwards exactly when quantity remains,
   * and then with its original fields and the remaining quantity.
   */
  lemma SubmitBooks(b: Book, o: Order)
    requires Consistent(b) && o.orderId !in b.orders
    ensures var r := Submit(b, o);
      var rem := o.quantity - TradedQuantity(r.1);
      && (o.orderId in r.0.orders <==> rem > 0)
      && (rem > 0 ==> r.0.orders[o.orderId] == o.(quantity := rem))
  {
    MatchKeeps(b, o);
    MatchQuantity(b, o);
  }

  /**
   * Time priority for the residual: its own side changes only by the order
   * joining the tail of the queue at its price.
   */
  lemma SubmitQueues(b: Book, o: Order, p: int)
    requires Consistent(b) && o.orderId !in b.orders
    ensures var r := Submit(b, o);
      var rem := o.quantity - TradedQuantity(r.1);
      QueueAt(LadderOf(r.0, o.side), p) ==
        QueueAt(LadderOf(b, o.side), p) + (if rem > 0 && p == o.price then [o.orderId] else [])
  {
    MatchKeeps(b, o);
    MatchQuantity(b, o);
    var m := Match(b, o);
    if m.1.quantity > 0 {
      JoinView(o.side, LadderOf(m.0, o.side), o.price, o.orderId, p);
    }
  }

  // ---------------------------------------------------------------------
  // Cancellation

  /**
   * Cancelling a resting order takes it out of the queue at its price,
   * keeping the order of the others, and changes no other level, no other
   * order and the other side not at all.
   */
  lemma CancelEffect(b: Book, id: OrderId)
    requires Consistent(b) && id in b.orders
    ensures var o := b.orders[id];
      var l := LadderOf(b, o.side);
      var r := Cancel(b, id).0;
      && id in QueueAt(l, o.price)
      && QueueAt(LadderOf(r, o.side), o.price) == RemoveFirst(QueueAt(l, o.price), id)
      && (forall p :: p != o.price ==> QueueAt(LadderOf(r, o.side), p) == QueueAt(l, p))
      && LadderOf(r, Opposite(o.side)) == LadderOf(b, Opposite(o.side))
      && (forall x :: x in r.orders ==> x in b.orders && r.orders[x] == b.orders[x])
      && id !in Resting(r)
  {
    var o := b.orders[id];
    var l := LadderOf(b, o.side);
    var r := Cancel(b, id).0;
    CancelIndex(b, id);
    SlotInQueueAt(o.side, l, (id, o.price));
    RemoveView(o.side, l, o.price, id, o.price);
    forall p | p != o.price
      ensures QueueAt(LadderOf(r, o.side), p) == QueueAt(l, p)
    {
      RemoveView(o.side, l, o.price, id, p);
    }
    CancelConsistent(b, id);
    assert id !in multiset(r.orders.Keys);
  }

  /** Cancelling the same id twice: the second call finds nothing and changes nothing. */
  lemma CancelTwice(b: Book, id: OrderId)
    ensures var r := Cancel(b, id).0;
      Cancel(r, id) == (r, false)
  {
  }

  // ---------------------------------------------------------------------
  // Snapshots

  /** `getBestPrices` for one side: the first key, or absent for an empty side. */
  function BestPrice(l: seq<Level>): (r: Option<int>)
    ensures r.Some? <==> l != []
  {
    if l == [] then None else Some(l[0].price)
  }

  /** The first key is the best price on the ladder: the highest bid or the lowest ask. */
  lemma BestPriceIsBest(side: Side, l: seq<Level>)
    requires Sorted(side, l)
    ensures BestPrice(l).Some? ==> BestPrice(l).value in Prices(l)
    ensures BestPrice(l).Some? ==>
      forall p :: p in Prices(l) && p != BestPrice(l).value ==> Before(side, BestPrice(l).value, p)
  {
    if l != [] {
      assert l[0].price in Prices(l);
    }
  }

  /** Between operations the best bid is strictly below the best ask. */
  lemma BestPricesApart(b: Book)
    requires Consistent(b)
    ensures BestPrice(b.bids).Some? && BestPrice(b.asks).Some? ==>
      BestPrice(b.bids).value < BestPrice(b.asks).value
  {
  }

  /** `formatBookSide`: one summary row per level, in ladder order. */
  ghost function BookSide(l: seq<Level>, orders: map<OrderId, Order>): (rows: seq<LevelSummary>)
    ensures |rows| == |l|
    ensures forall i :: 0 <= i < |l| ==> rows[i] == Summary(l[i], orders)
  {
    if l == [] then [] else [Summary(l[0], orders)] + BookSide(l[1..], orders)
  }

  ghost function SumOrders(rows: seq<LevelSummary>): int
  {
    if rows == [] then 0 else rows[0].orders + SumOrders(rows[1..])
  }

  ghost function SumQuantity(rows: seq<LevelSummary>): int
  {
    if rows == [] then 0 else rows[0].quantity + SumQuantity(rows[1..])
  }

  lemma {:induction false} QueueQuantityAppend(a: seq<OrderId>, c: seq<OrderId>, orders: map<OrderId, Order>)
    ensures QueueQuantity(a + c, orders) == QueueQuantity(a, orders) + QueueQuantity(c, orders)
  {
    if a == [] {
      assert a + c == c;
    } else {
      assert (a + c)[1..] == a[1..] + c;
      QueueQuantityAppend(a[1..], c, orders);
    }
  }

  /** A queue of live orders has at least one unit per order. */
  lemma {:induction false} QueueQuantityAtLeast(q: seq<OrderId>, orders: map<OrderId, Order>)
    requires forall x :: x in q ==> x in orders && orders[x].quantity > 0
    ensures QueueQuantity(q, orders) >= |q|
  {
    if q != [] {
      assert q[0] in q;
      QueueQuantityAtLeast(q[1..], orders);
    }
  }

  /** The rows add up to the side: every resting order counted once, every unit once. */
  lemma {:induction false} BookSideSums(l: seq<Level>, orders: map<OrderId, Order>)
    ensures SumOrders(BookSide(l, orders)) == |Flatten(l)|
    ensures SumQuantity(BookSide(l, orders)) == QueueQuantity(Flatten(l), orders)
  {
    if l != [] {
      var rows := BookSide(l, orders);
      assert rows[1..] == BookSide(l[1..], orders);
      BookSideSums(l[1..], orders);
      QueueQuantityAppend(l[0].queue, Flatten(l[1..]), orders);
    }
  }

  /** The two sides of a snapshot count every indexed order exactly once. */
  lemma SnapshotCounts(b: Book)
    requires Consistent(b)
    ensures SumOrders(BookSide(b.bids, b.orders)) + SumOrders(BookSide(b.asks, b.orders)) == |b.orders|
  {
    BookSideSums(b.bids, b.orders);
    BookSideSums(b.asks, b.orders);
    assert |Resting(b)| == |multiset(Resting(b))|;
    assert |b.orders.Keys| == |multiset(b.orders.Keys)|;
  }

  /**
   * The rows of a consistent book: prices strictly in ladder order, and each
   * level with at least one order and at least one unit per order.
   */
  lemma BookSideRows(b: Book, side: Side)
    requires Consistent(b)
    ensures var l := LadderOf(b, side);
      var rows := BookSide(l, b.orders);
      && (forall i, j :: 0 <= i < j < |rows| ==> Before(side, rows[i].price, rows[j].price))
      && (forall i :: 0 <= i < |rows| ==> 1 <= rows[i].orders <= rows[i].quantity)
  {
    var l := LadderOf(b, side);
    forall i | 0 <= i < |l|
      ensures 1 <= |l[i].queue| <= QueueQuantity(l[i].queue, b.orders)
    {
      forall x | x in l[i].queue
        ensures x in b.orders && b.orders[x].quantity > 0
      {
        LevelIndexed(b, side, i, x);
      }
      QueueQuantityAtLeast(l[i].queue, b.orders);
    }
  }

  /** Each id queued at a level of a consistent book is indexed and live. */
  lemma LevelIndexed(b: Book, side: Side, i: int, x: OrderId)
    requires Consistent(b) && 0 <= i < |LadderOf(b, side)| && x in LadderOf(b, side)[i].queue
    ensures x in b.orders && b.orders[x].quantity > 0
  {
    var l := LadderOf(b, side);
    assert (x, l[i].price) in Slots(l) by {
      SplitAround(l, i);
      assert (x, l[i].price) in LevelSlots(l[i]);
    }
  }
}
